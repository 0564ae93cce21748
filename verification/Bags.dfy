/** Sums over sequences, the way every module of this project counts what a table holds. */
module Bags {

  /** Adds up the bags that f assigns to the elements of s. */
  ghost function Sum<A, B>(s: seq<A>, f: A -> multiset<B>): multiset<B>
  {
    if s == [] then multiset{} else Sum(s[..|s| - 1], f) + f(s[|s| - 1])
  }

  /** Replacing one element exchanges its own contribution and nothing else. */
  lemma {:induction false} SumUpdate<A, B>(s: seq<A>, i: nat, x: A, f: A -> multiset<B>)
    requires i < |s|
    ensures Sum(s[i := x], f) + f(s[i]) == Sum(s, f) + f(x)
  {
    var n, t := |s| - 1, s[i := x];
    if i == n {
      assert t[..n] == s[..n];
    } else {
      assert t[..n] == s[..n][i := x];
      SumUpdate(s[..n], i, x, f);
      Swap(Sum(t[..n], f), f(s[n]), f(s[i]));
      Swap(Sum(s[..n], f), f(s[n]), f(x));
    }
  }

  lemma Swap<B>(a: multiset<B>, b: multiset<B>, c: multiset<B>)
    ensures a + b + c == a + c + b
  {
  }

  /** An element is in the sum exactly when some summand holds it. */
  lemma {:induction false} SumHas<A, B>(s: seq<A>, f: A -> multiset<B>, e: B)
    ensures e in Sum(s, f) <==> exists i :: 0 <= i < |s| && e in f(s[i])
  {
    if s != [] {
      var n := |s| - 1;
      SumHas(s[..n], f, e);
      if e in Sum(s, f) && e !in f(s[n]) {
        var i :| 0 <= i < |s[..n]| && e in f(s[..n][i]);
        assert e in f(s[i]);
      }
      forall i | 0 <= i < |s| && e in f(s[i])
        ensures e in Sum(s, f)
      {
        assert i < n ==> s[..n][i] == s[i];
      }
    }
  }

  /** Every summand is contained in the sum. */
  lemma {:induction false} SumBounds<A, B>(s: seq<A>, i: nat, f: A -> multiset<B>)
    requires i < |s|
    ensures f(s[i]) <= Sum(s, f)
  {
    if i < |s| - 1 {
      SumBounds(s[..|s| - 1], i, f);
    }
  }

  /** Elements that f sends to the empty bag do not show up. */
  lemma {:induction false} SumEmpty<A, B>(s: seq<A>, f: A -> multiset<B>)
    requires forall i :: 0 <= i < |s| ==> f(s[i]) == multiset{}
    ensures Sum(s, f) == multiset{}
  {
    if s != [] {
      SumEmpty(s[..|s| - 1], f);
    }
  }

  /** Sums over a concatenation add up. */
  lemma {:induction false} SumAppend<A, B>(s: seq<A>, t: seq<A>, f: A -> multiset<B>)
    ensures Sum(s + t, f) == Sum(s, f) + Sum(t, f)
  {
    if t == [] {
      assert s + t == s;
    } else {
      var n := |t| - 1;
      assert (s + t)[..|s + t| - 1] == s + t[..n];
      SumAppend(s, t[..n], f);
    }
  }

  lemma SumOne<A, B>(x: A, f: A -> multiset<B>)
    ensures Sum([x], f) == f(x)
  {
    assert Sum([x], f) == Sum([x][..0], f) + f(x);
    assert [x][..0] == [];
  }

  /** The sum over two sequences that f cannot tell apart is the same. */
  lemma {:induction false} SumSame<A, B>(s: seq<A>, t: seq<A>, f: A -> multiset<B>)
    requires |s| == |t| && forall i :: 0 <= i < |s| ==> f(s[i]) == f(t[i])
    ensures Sum(s, f) == Sum(t, f)
  {
    if s != [] {
      SumSame(s[..|s| - 1], t[..|t| - 1], f);
    }
  }

  /** The number of elements of s that satisfy p. */
  function Tally<A>(s: seq<A>, p: A -> bool): (n: nat)
    ensures n <= |s|
  {
    if s == [] then 0 else Tally(s[..|s| - 1], p) + if p(s[|s| - 1]) then 1 else 0
  }

  lemma {:induction false} TallyUpdate<A>(s: seq<A>, i: nat, x: A, p: A -> bool)
    requires i < |s|
    ensures Tally(s[i := x], p) == Tally(s, p) + (if p(x) then 1 else 0) - (if p(s[i]) then 1 else 0)
  {
    var n, t := |s| - 1, s[i := x];
    if i == n {
      assert t[..n] == s[..n];
    } else {
      assert t[..n] == s[..n][i := x];
      TallyUpdate(s[..n], i, x, p);
    }
  }

  lemma {:induction false} TallyZero<A>(s: seq<A>, p: A -> bool)
    ensures Tally(s, p) == 0 <==> forall i :: 0 <= i < |s| ==> !p(s[i])
  {
    if s != [] {
      var n := |s| - 1;
      TallyZero(s[..n], p);
      assert forall i :: 0 <= i < n ==> s[..n][i] == s[i];
    }
  }

  lemma {:induction false} TallySame<A>(s: seq<A>, t: seq<A>, p: A -> bool)
    requires |s| == |t| && forall i :: 0 <= i < |s| ==> p(s[i]) == p(t[i])
    ensures Tally(s, p) == Tally(t, p)
  {
    if s != [] {
      TallySame(s[..|s| - 1], t[..|t| - 1], p);
    }
  }

  /** Counting does not depend on the order. */
  lemma {:induction false} TallyOrder<A>(s: seq<A>, t: seq<A>, p: A -> bool)
    requires multiset(s) == multiset(t)
    ensures Tally(s, p) == Tally(t, p)
  {
    if s == [] {
      assert |multiset(t)| == 0;
    } else {
      var n, x := |s| - 1, s[|s| - 1];
      assert s == s[..n] + [x];
      assert x in multiset(t);
      var i :| 0 <= i < |t| && t[i] == x;
      var rest := t[..i] + t[i + 1..];
      assert t == t[..i] + [x] + t[i + 1..];
      assert multiset(s[..n]) == multiset(s) - multiset{x};
      assert multiset(rest) == multiset(t) - multiset{x};
      TallyOrder(s[..n], rest, p);
      TallyAppend(t[..i], t[i + 1..], p);
      TallyAppend(t[..i] + [x], t[i + 1..], p);
      assert (t[..i] + [x])[..i] == t[..i];
    }
  }

  lemma {:induction false} TallyAppend<A>(s: seq<A>, t: seq<A>, p: A -> bool)
    ensures Tally(s + t, p) == Tally(s, p) + Tally(t, p)
  {
    if t == [] {
      assert s + t == s;
    } else {
      assert (s + t)[..|s + t| - 1] == s + t[..|t| - 1];
      TallyAppend(s, t[..|t| - 1], p);
    }
  }

  // Adding and cancelling

  lemma AddNothing<T>(a: multiset<T>, b: multiset<T>)
    ensures a + multiset{} == a && b + multiset{} == b
  {
  }

  lemma Chain<T>(r: multiset<T>, x: multiset<T>, c: multiset<T>, z: multiset<T>, y: multiset<T>, b: multiset<T>)
    requires r + x == c + z && c + y == b + x
    ensures r + y == b + z
  {
    forall e: T
      ensures (r + y)[e] == (b + z)[e]
    {
      assert (r + x)[e] == (c + z)[e] && (c + y)[e] == (b + x)[e];
    }
  }

  lemma Exchange<T>(whole: multiset<T>, part: multiset<T>, whole': multiset<T>, part': multiset<T>,
                    a: multiset<T>, c: multiset<T>, rest: multiset<T>)
    requires whole' + part == whole + part' && part' + a == part + c
    ensures (whole' + rest) + a == (whole + rest) + c
  {
    forall e: T
      ensures ((whole' + rest) + a)[e] == ((whole + rest) + c)[e]
    {
      assert (whole' + part)[e] == (whole + part')[e];
      assert (part' + a)[e] == (part + c)[e];
    }
  }

  lemma Regroup2<T>(a: multiset<T>, b: multiset<T>, c: multiset<T>, d: multiset<T>, e: multiset<T>)
    requires a + b == c + d
    ensures (a + e) + b == (c + e) + d
  {
    Swap(a, e, b);
    Swap(c, e, d);
  }

  lemma Regroup<T>(a: multiset<T>, b: multiset<T>, c: multiset<T>, d: multiset<T>, e: multiset<T>)
    requires b + c == d + e
    ensures (a + b) + c == (a + d) + e
  {
    assert (a + b) + c == a + (b + c);
    assert (a + d) + e == a + (d + e);
  }

  lemma CancelAll<T>(a: multiset<T>, b: multiset<T>, c: multiset<T>)
    requires a + c == b + c
    ensures a == b
  {
    assert a == (a + c) - c && b == (b + c) - c;
  }

  lemma TakeFromBefore<T>(rest: multiset<T>, rest': multiset<T>, out: multiset<T>, p: T)
    requires rest == rest' + multiset{p}
    ensures rest' + (out + multiset{p}) == rest + out
  {
  }

  lemma CancelPart<T>(a: multiset<T>, b: multiset<T>, c: multiset<T>, e: multiset<T>)
    requires a + c == b + (c + e)
    ensures a == b + e
  {
    assert a == (a + c) - c;
    assert b + e == (b + (c + e)) - c;
  }

  lemma Middle<T>(a: multiset<T>, l: multiset<T>, b: multiset<T>)
    ensures a + (l + b) == (a + b) + l
    ensures |a + (l + b)| == |a + b| + |l|
  {
  }

  lemma Balance<T>(x: multiset<T>, a: multiset<T>, y: multiset<T>, b: multiset<T>,
                   f: multiset<T>, g: multiset<T>, k: multiset<T>, m: multiset<T>)
    requires x + a == y + b && y + f == k && b + g == a + f + m
    ensures x + g == k + m
  {
    forall e: T
      ensures (x + g)[e] == (k + m)[e]
    {
      assert (x + a)[e] == (y + b)[e] && (y + f)[e] == k[e] && (b + g)[e] == (a + f + m)[e];
    }
  }

  lemma AddRight<T>(s: multiset<T>, k: multiset<T>, f: multiset<T>, l: multiset<T>)
    requires s == k + f
    ensures s + l == k + (f + l) && s + l == (k + l) + f
  {
  }

  lemma Trade<T>(x: multiset<T>, y: multiset<T>, a: multiset<T>, b: multiset<T>, p: multiset<T>, q: multiset<T>)
    requires x + a == y + b && b + p == a + q
    ensures x + p == y + q
  {
    forall e
      ensures (x + p)[e] == (y + q)[e]
    {
      assert (x + a)[e] == (y + b)[e] && (b + p)[e] == (a + q)[e];
    }
  }
}
