/**
 The overflow marks of Dash: a bucket whose pairs spill into the stash leaves a fingerprint and a
 stash position in one of its own four mark slots, else in one of its right neighbour's, else only
 adds one to an anonymous counter.  This module says what those marks promise and proves that setting
 and unsetting them keeps the promise for every home bucket of the ring at once.
 */
module DashMarks {
  import opened Bags

  const PAIRS: nat := 14
  const MARKS: nat := 4
  const BUCKETS: nat := 64
  const STASHES: nat := 2
  const CHAIN: nat := 3

  type Key = int
  type Value = int
  type Hasher = Key -> nat

  /** A stored value equal to NONE means that nothing is stored. */
  const NONE: Value := 0

  datatype Pair = Pair(key: Key, value: Value)

  /** probe is the member bit: the pair belongs to the bucket on the left. */
  datatype Cell = Free | Held(tag: nat, pair: Pair, probe: bool)

  /** member says that the mark speaks for the bucket on the left. */
  datatype Mark = Blank | On(tag: nat, pos: nat, member: bool)

  datatype Bucket = Bucket(cells: seq<Cell>, marks: seq<Mark>, check: bool, overflow: nat)

  predicate Shaped(b: Bucket) {
    |b.cells| == PAIRS && |b.marks| == MARKS
  }

  predicate Ring(bucket: seq<Bucket>) {
    |bucket| == BUCKETS && forall y :: 0 <= y < BUCKETS ==> Shaped(bucket[y])
  }

  function Next(y: nat): (z: nat)
    requires y < BUCKETS
    ensures z == (y + 1) % BUCKETS && z < BUCKETS && z != y
  {
    if y == BUCKETS - 1 then 0 else y + 1
  }

  /** Marks name a fixed stash bucket by its number and the whole overflow chain by one constant. */
  function Position(s: nat): nat {
    if s < STASHES then s else CHAIN
  }

  // What marks say, and what they should say

  ghost function OwnMark(m: Mark): multiset<(nat, nat)> {
    if m.On? && !m.member then multiset{(m.tag, m.pos)} else multiset{}
  }

  ghost function MemberMark(m: Mark): multiset<(nat, nat)> {
    if m.On? && m.member then multiset{(m.tag, m.pos)} else multiset{}
  }

  ghost function Own(b: Bucket): multiset<(nat, nat)> {
    Sum(b.marks, OwnMark)
  }

  ghost function Lent(n: Bucket): multiset<(nat, nat)> {
    Sum(n.marks, MemberMark)
  }

  /** The marks that speak for home bucket y. */
  ghost function Signals(bucket: seq<Bucket>, y: nat): multiset<(nat, nat)>
    requires Ring(bucket) && y < BUCKETS
  {
    Own(bucket[y]) + Lent(bucket[Next(y)])
  }

  /** The promise for home bucket y, where bag lists its stashed pairs by tag and position. */
  ghost predicate Promise(bucket: seq<Bucket>, y: nat, bag: multiset<(nat, nat)>)
    requires Ring(bucket) && y < BUCKETS
  {
    && Signals(bucket, y) <= bag
    && |Signals(bucket, y)| + bucket[y].overflow == |bag|
    && (bucket[y].check <==> bag != multiset{})
  }

  // Setting and unsetting

  function FirstBlank(marks: seq<Mark>, i: nat := 0): (k: nat)
    requires i <= |marks|
    ensures i <= k <= |marks|
    ensures forall j :: i <= j < k ==> marks[j].On?
    ensures k < |marks| ==> marks[k].Blank?
    decreases |marks| - i
  {
    if i == |marks| || marks[i].Blank? then i else FirstBlank(marks, i + 1)
  }

  /** width is the number of position values that the comparison keeps. */
  predicate Matches(m: Mark, tag: nat, pos: nat, member: bool, width: nat)
    requires width > 0
  {
    m.On? && m.tag == tag && m.member == member && m.pos % width == pos
  }

  function FirstMatch(marks: seq<Mark>, tag: nat, pos: nat, member: bool, width: nat, i: nat := 0): (k: nat)
    requires i <= |marks| && width > 0
    ensures i <= k <= |marks|
    ensures forall j :: i <= j < k ==> !Matches(marks[j], tag, pos, member, width)
    ensures k < |marks| ==> Matches(marks[k], tag, pos, member, width)
    decreases |marks| - i
  {
    if i == |marks| || Matches(marks[i], tag, pos, member, width) then i
    else FirstMatch(marks, tag, pos, member, width, i + 1)
  }

  /** set_indicator on a bucket b whose right neighbour is n; the counter is one byte wide. */
  function SetIn(b: Bucket, n: Bucket, tag: nat, pos: nat): (r: (Bucket, Bucket))
    requires Shaped(b) && Shaped(n)
    ensures Shaped(r.0) && Shaped(r.1)
  {
    var k, l := FirstBlank(b.marks), FirstBlank(n.marks);
    if k < MARKS then
      (b.(marks := b.marks[k := On(tag, pos, false)], check := true), n)
    else if l < MARKS then
      (b.(check := true), n.(marks := n.marks[l := On(tag, pos, true)]))
    else
      (b.(overflow := if b.overflow == 255 then 0 else b.overflow + 1, check := true), n)
  }

  /** set_indicator can record one more: a blank mark in either bucket, or a counter that does not wrap. */
  predicate Markable(b: Bucket, n: Bucket) {
    FirstBlank(b.marks) < |b.marks| || FirstBlank(n.marks) < |n.marks| || b.overflow < 255
  }

  predicate Silent(b: Bucket, n: Bucket) {
    && (forall k :: 0 <= k < |b.marks| && b.marks[k].On? ==> b.marks[k].member)
    && (forall k :: 0 <= k < |n.marks| && n.marks[k].On? ==> !n.marks[k].member)
    && b.overflow == 0
  }

  /** The first half of unset_indicator. */
  function Taken(b: Bucket, n: Bucket, tag: nat, pos: nat, width: nat): (r: (Bucket, Bucket))
    requires Shaped(b) && Shaped(n) && width > 0
    ensures Shaped(r.0) && Shaped(r.1)
  {
    var k, l := FirstMatch(b.marks, tag, pos, false, width), FirstMatch(n.marks, tag, pos, true, width);
    if k < MARKS then (b.(marks := b.marks[k := Blank]), n)
    else if l < MARKS then (b, n.(marks := n.marks[l := Blank]))
    else (b.(overflow := if b.overflow == 0 then 255 else b.overflow - 1), n)
  }

  /** unset_indicator on a bucket b whose right neighbour is n. */
  function UnsetIn(b: Bucket, n: Bucket, tag: nat, pos: nat, width: nat): (r: (Bucket, Bucket))
    requires Shaped(b) && Shaped(n) && width > 0
    ensures Shaped(r.0) && Shaped(r.1)
  {
    var (b', n') := Taken(b, n, tag, pos, width);
    (if Silent(b', n') then b'.(check := false) else b', n')
  }

  function SetMark(bucket: seq<Bucket>, y: nat, tag: nat, pos: nat): (r: seq<Bucket>)
    requires Ring(bucket) && y < BUCKETS
    ensures Ring(r)
  {
    var (b, n) := SetIn(bucket[y], bucket[Next(y)], tag, pos);
    bucket[y := b][Next(y) := n]
  }

  function UnsetMark(bucket: seq<Bucket>, y: nat, tag: nat, pos: nat, width: nat): (r: seq<Bucket>)
    requires Ring(bucket) && y < BUCKETS && width > 0
    ensures Ring(r)
  {
    var (b, n) := UnsetIn(bucket[y], bucket[Next(y)], tag, pos, width);
    bucket[y := b][Next(y) := n]
  }

  // Proofs

  lemma MarksSet(marks: seq<Mark>, k: nat, m: Mark)
    requires k < |marks| && marks[k].Blank? && m.On?
    ensures Sum(marks[k := m], OwnMark) == if m.member then Sum(marks, OwnMark) else Sum(marks, OwnMark) + multiset{(m.tag, m.pos)}
    ensures Sum(marks[k := m], MemberMark) == if m.member then Sum(marks, MemberMark) + multiset{(m.tag, m.pos)} else Sum(marks, MemberMark)
  {
    SumUpdate(marks, k, m, OwnMark);
    SumUpdate(marks, k, m, MemberMark);
    AddNothing(Sum(marks, OwnMark), Sum(marks[k := m], OwnMark));
    AddNothing(Sum(marks, MemberMark), Sum(marks[k := m], MemberMark));
  }

  lemma MarksCleared(marks: seq<Mark>, k: nat)
    requires k < |marks| && marks[k].On?
    ensures var m, r := marks[k], marks[k := Blank];
      && Sum(marks, OwnMark) == (if m.member then Sum(r, OwnMark) else Sum(r, OwnMark) + multiset{(m.tag, m.pos)})
      && Sum(marks, MemberMark) == (if m.member then Sum(r, MemberMark) + multiset{(m.tag, m.pos)} else Sum(r, MemberMark))
  {
    assert marks[k := Blank][k := marks[k]] == marks;
    MarksSet(marks[k := Blank], k, marks[k]);
  }

  lemma BlankIsFound(marks: seq<Mark>)
    ensures FirstBlank(marks) < |marks| <==> Blank in marks
  {
  }

  /** What set_indicator does for its own home: one more mark, or one more count. */
  lemma SetInSignals(b: Bucket, n: Bucket, tag: nat, pos: nat)
    requires Shaped(b) && Shaped(n) && Markable(b, n)
    ensures var (b', n') := SetIn(b, n, tag, pos);
      && Lent(b') == Lent(b) && Own(n') == Own(n)
      && b' == b.(marks := b'.marks, overflow := b'.overflow, check := true) && n' == n.(marks := n'.marks)
      && (if Blank in b.marks || Blank in n.marks then
            Own(b') + Lent(n') == Own(b) + Lent(n) + multiset{(tag, pos)} && b'.overflow == b.overflow
          else
            Own(b') + Lent(n') == Own(b) + Lent(n) && b'.overflow == b.overflow + 1)
      && (Blank in b.marks ==> n' == n) && (Blank !in b.marks ==> b'.marks == b.marks)
  {
    BlankIsFound(b.marks);
    BlankIsFound(n.marks);
    var k, l := FirstBlank(b.marks), FirstBlank(n.marks);
    if k < MARKS {
      OwnSet(b, n, k, tag, pos);
    } else if l < MARKS {
      LentSet(b, n, l, tag, pos);
    }
    hide FirstBlank;
  }

  lemma OwnSet(b: Bucket, n: Bucket, k: nat, tag: nat, pos: nat)
    requires Shaped(b) && k < MARKS && b.marks[k].Blank?
    ensures var b' := b.(marks := b.marks[k := On(tag, pos, false)], check := true);
      Lent(b') == Lent(b) && Own(b') + Lent(n) == Own(b) + Lent(n) + multiset{(tag, pos)}
  {
    MarksSet(b.marks, k, On(tag, pos, false));
    Swap(Own(b), multiset{(tag, pos)}, Lent(n));
  }

  lemma LentSet(b: Bucket, n: Bucket, l: nat, tag: nat, pos: nat)
    requires Shaped(n) && l < MARKS && n.marks[l].Blank?
    ensures var n' := n.(marks := n.marks[l := On(tag, pos, true)]);
      Own(n') == Own(n) && Own(b) + Lent(n') == Own(b) + Lent(n) + multiset{(tag, pos)}
  {
    MarksSet(n.marks, l, On(tag, pos, true));
    assert Own(b) + (Lent(n) + multiset{(tag, pos)}) == Own(b) + Lent(n) + multiset{(tag, pos)};
  }

  /** Homes other than y hear nothing of the change. */
  ghost predicate OnlyHome(bucket: seq<Bucket>, r: seq<Bucket>, y: nat)
    requires Ring(bucket) && Ring(r) && y < BUCKETS
  {
    && (forall z :: 0 <= z < BUCKETS ==> r[z].cells == bucket[z].cells)
    && (forall z :: 0 <= z < BUCKETS && z != y ==>
          Signals(r, z) == Signals(bucket, z) && r[z].overflow == bucket[z].overflow && r[z].check == bucket[z].check)
  }

  lemma PairUpdate(bucket: seq<Bucket>, y: nat, b: Bucket, n: Bucket)
    requires Ring(bucket) && y < BUCKETS && Shaped(b) && Shaped(n)
    requires Lent(b) == Lent(bucket[y]) && Own(n) == Own(bucket[Next(y)])
    requires b.cells == bucket[y].cells && n == bucket[Next(y)].(marks := n.marks)
    ensures OnlyHome(bucket, bucket[y := b][Next(y) := n], y)
    ensures Signals(bucket[y := b][Next(y) := n], y) == Own(b) + Lent(n)
  {
    var r := bucket[y := b][Next(y) := n];
    forall z | 0 <= z < BUCKETS && z != y
      ensures Signals(r, z) == Signals(bucket, z)
    {
      assert Next(z) != Next(y);
      assert Own(r[z]) == Own(bucket[z]) && Lent(r[Next(z)]) == Lent(bucket[Next(z)]);
    }
  }

  /**
   set_indicator: the promise made for the stashed pairs extends to one more of them, as long as the byte that
   counts the unmarked ones does not wrap around.  It leaves a mark in the home as long as one is blank, then in the
   neighbour, and counts only when none of the eight is.
   */
  lemma SetMarkKeepsPromise(bucket: seq<Bucket>, y: nat, tag: nat, pos: nat, bag: multiset<(nat, nat)>)
    requires Ring(bucket) && y < BUCKETS && Promise(bucket, y, bag) && Markable(bucket[y], bucket[Next(y)])
    ensures Promise(SetMark(bucket, y, tag, pos), y, bag + multiset{(tag, pos)})
    ensures OnlyHome(bucket, SetMark(bucket, y, tag, pos), y)
    ensures var b, n, r := bucket[y], bucket[Next(y)], SetMark(bucket, y, tag, pos);
      if Blank in b.marks then
        r[Next(y)] == n && Signals(r, y) == Signals(bucket, y) + multiset{(tag, pos)} && r[y].overflow == b.overflow
      else if Blank in n.marks then
        r[y].marks == b.marks && Signals(r, y) == Signals(bucket, y) + multiset{(tag, pos)} && r[y].overflow == b.overflow
      else
        Signals(r, y) == Signals(bucket, y) && r[y].overflow == b.overflow + 1
  {
    hide SetIn, Markable, Own, Lent, OnlyHome;
    var (b, n) := SetIn(bucket[y], bucket[Next(y)], tag, pos);
    SetInSignals(bucket[y], bucket[Next(y)], tag, pos);
    PairUpdate(bucket, y, b, n);
    assert (tag, pos) in bag + multiset{(tag, pos)};
  }

  lemma NoMarks(marks: seq<Mark>)
    ensures Sum(marks, OwnMark) == multiset{} <==> forall k :: 0 <= k < |marks| && marks[k].On? ==> marks[k].member
    ensures Sum(marks, MemberMark) == multiset{} <==> forall k :: 0 <= k < |marks| && marks[k].On? ==> !marks[k].member
  {
    if k :| 0 <= k < |marks| && marks[k].On? && !marks[k].member {
      SumBounds(marks, k, OwnMark);
      assert (marks[k].tag, marks[k].pos) in Sum(marks, OwnMark);
    } else {
      SumEmpty(marks, OwnMark);
    }
    if k :| 0 <= k < |marks| && marks[k].On? && marks[k].member {
      SumBounds(marks, k, MemberMark);
      assert (marks[k].tag, marks[k].pos) in Sum(marks, MemberMark);
    } else {
      SumEmpty(marks, MemberMark);
    }
  }

  lemma SilentMeansEmpty(b: Bucket, n: Bucket)
    ensures Silent(b, n) <==> Own(b) + Lent(n) == multiset{} && b.overflow == 0
  {
    NoMarks(b.marks);
    NoMarks(n.marks);
    assert Own(b) <= Own(b) + Lent(n) && Lent(n) <= Own(b) + Lent(n);
  }

  /** A mark for (tag, pos) that unset_indicator does not find is not there. */
  lemma NoMatchMeansAbsent(marks: seq<Mark>, tag: nat, pos: nat, width: nat)
    requires pos < width
    ensures FirstMatch(marks, tag, pos, false, width) == |marks| ==> (tag, pos) !in Sum(marks, OwnMark)
    ensures FirstMatch(marks, tag, pos, true, width) == |marks| ==> (tag, pos) !in Sum(marks, MemberMark)
  {
    assert pos % width == pos;
    var e := (tag, pos);
    if e in Sum(marks, OwnMark) {
      SumHas(marks, OwnMark, e);
      var i :| 0 <= i < |marks| && e in OwnMark(marks[i]);
      assert Matches(marks[i], tag, pos, false, width);
    }
    if e in Sum(marks, MemberMark) {
      SumHas(marks, MemberMark, e);
      var i :| 0 <= i < |marks| && e in MemberMark(marks[i]);
      assert Matches(marks[i], tag, pos, true, width);
    }
  }

  /** Positions that the comparison of unset_indicator does not truncate. */
  ghost predicate Narrow(b: Bucket, width: nat) {
    forall m :: m in b.marks && m.On? ==> m.pos < width
  }

  lemma MatchIsTheMark(b: Bucket, tag: nat, pos: nat, member: bool, width: nat)
    requires Shaped(b) && pos < width && Narrow(b, width)
    ensures var k := FirstMatch(b.marks, tag, pos, member, width); k < MARKS ==> b.marks[k] == On(tag, pos, member)
  {
    var k := FirstMatch(b.marks, tag, pos, member, width);
    if k < MARKS {
      assert b.marks[k] in b.marks;
      assert b.marks[k].pos % width == b.marks[k].pos;
    }
  }

  lemma UnsetOwn(b: Bucket, n: Bucket, k: nat)
    requires Shaped(b) && k < MARKS && b.marks[k].On? && !b.marks[k].member
    ensures var b', e := b.(marks := b.marks[k := Blank]), (b.marks[k].tag, b.marks[k].pos);
      Lent(b') == Lent(b) && Own(b) + Lent(n) == Own(b') + Lent(n) + multiset{e} && e in Own(b)
  {
    MarksCleared(b.marks, k);
    Swap(Own(b.(marks := b.marks[k := Blank])), multiset{(b.marks[k].tag, b.marks[k].pos)}, Lent(n));
  }

  lemma UnsetLent(b: Bucket, n: Bucket, l: nat)
    requires Shaped(n) && l < MARKS && n.marks[l].On? && n.marks[l].member
    ensures var n', e := n.(marks := n.marks[l := Blank]), (n.marks[l].tag, n.marks[l].pos);
      Own(n') == Own(n) && Own(b) + Lent(n) == Own(b) + Lent(n') + multiset{e} && e in Lent(n)
  {
    MarksCleared(n.marks, l);
    var n', e := n.(marks := n.marks[l := Blank]), (n.marks[l].tag, n.marks[l].pos);
    assert Own(b) + (Lent(n') + multiset{e}) == Own(b) + Lent(n') + multiset{e};
  }

  /** What unset_indicator does for its own home: one mark less, or one count less. */
  lemma TakenSignals(b: Bucket, n: Bucket, tag: nat, pos: nat, width: nat)
    requires Shaped(b) && Shaped(n) && pos < width && Narrow(b, width) && Narrow(n, width)
    ensures var (b', n') := Taken(b, n, tag, pos, width);
      && Lent(b') == Lent(b) && Own(n') == Own(n)
      && (if (tag, pos) in Own(b) + Lent(n) then
            Own(b) + Lent(n) == Own(b') + Lent(n') + multiset{(tag, pos)} && b'.overflow == b.overflow
          else
            Own(b') + Lent(n') == Own(b) + Lent(n) && b'.overflow == if b.overflow == 0 then 255 else b.overflow - 1)
  {
    var k, l := FirstMatch(b.marks, tag, pos, false, width), FirstMatch(n.marks, tag, pos, true, width);
    MatchIsTheMark(b, tag, pos, false, width);
    MatchIsTheMark(n, tag, pos, true, width);
    if k < MARKS {
      UnsetOwn(b, n, k);
    } else if l < MARKS {
      UnsetLent(b, n, l);
    } else {
      NoMatchMeansAbsent(b.marks, tag, pos, width);
      NoMatchMeansAbsent(n.marks, tag, pos, width);
    }
  }

  lemma TakenFields(b: Bucket, n: Bucket, tag: nat, pos: nat, width: nat)
    requires Shaped(b) && Shaped(n) && width > 0
    ensures var (b', n') := Taken(b, n, tag, pos, width);
      b'.cells == b.cells && b'.check == b.check && n' == n.(marks := n'.marks)
  {
  }

  lemma UnsetInSignals(b: Bucket, n: Bucket, tag: nat, pos: nat, width: nat)
    requires Shaped(b) && Shaped(n) && pos < width && Narrow(b, width) && Narrow(n, width)
    ensures var (b', n') := UnsetIn(b, n, tag, pos, width);
      && b'.cells == b.cells && n' == n.(marks := n'.marks)
      && Lent(b') == Lent(b) && Own(n') == Own(n)
      && b'.check == (b.check && (Own(b') + Lent(n') != multiset{} || b'.overflow != 0))
    ensures var (b', n') := UnsetIn(b, n, tag, pos, width);
      if (tag, pos) in Own(b) + Lent(n) then
        Own(b) + Lent(n) == Own(b') + Lent(n') + multiset{(tag, pos)} && b'.overflow == b.overflow
      else
        Own(b') + Lent(n') == Own(b) + Lent(n) && b'.overflow == if b.overflow == 0 then 255 else b.overflow - 1
  {
    var (t, n') := Taken(b, n, tag, pos, width);
    var b' := UnsetIn(b, n, tag, pos, width).0;
    TakenSignals(b, n, tag, pos, width);
    SilentMeansEmpty(t, n');
    TakenFields(b, n, tag, pos, width);
    hide Silent, Taken, Narrow, FirstMatch;
    assert b'.marks == t.marks && b'.overflow == t.overflow;
    assert Own(b') == Own(t) && Lent(b') == Lent(t);
  }

  /**
   unset_indicator: taking one stashed pair out of the promise keeps it, and the counter, which the code
   decrements without looking, is then at least one.
   */
  lemma UnsetMarkKeepsPromise(bucket: seq<Bucket>, y: nat, tag: nat, pos: nat, width: nat, bag: multiset<(nat, nat)>)
    requires Ring(bucket) && y < BUCKETS && pos < width && Promise(bucket, y, bag) && (tag, pos) in bag
    requires Narrow(bucket[y], width) && Narrow(bucket[Next(y)], width)
    ensures Promise(UnsetMark(bucket, y, tag, pos, width), y, bag - multiset{(tag, pos)})
    ensures OnlyHome(bucket, UnsetMark(bucket, y, tag, pos, width), y)
    ensures (tag, pos) !in Signals(bucket, y) ==> bucket[y].overflow > 0
  {
    var (b, n) := UnsetIn(bucket[y], bucket[Next(y)], tag, pos, width);
    UnsetInSignals(bucket[y], bucket[Next(y)], tag, pos, width);
    PairUpdate(bucket, y, b, n);
    TakeOne(Signals(bucket, y), Own(b) + Lent(n), bag, (tag, pos));
  }

  lemma TakeOne<T>(before: multiset<T>, after: multiset<T>, bag: multiset<T>, e: T)
    requires before <= bag && e in bag
    requires if e in before then before == after + multiset{e} else before == after
    ensures after <= bag - multiset{e} && |bag - multiset{e}| == |bag| - 1
    ensures (bag - multiset{e} == multiset{}) == (|bag| == 1)
    ensures e !in before ==> |before| < |bag|
  {
    var rest := bag - multiset{e};
    assert bag == rest + multiset{e};
    if e !in before {
      assert rest == before + (rest - before);
    }
  }

  /** With the counter at zero every stashed pair has its mark; with the flag down nothing is stashed. */
  lemma PromiseIsComplete(bucket: seq<Bucket>, y: nat, bag: multiset<(nat, nat)>)
    requires Ring(bucket) && y < BUCKETS && Promise(bucket, y, bag)
    ensures bucket[y].overflow == 0 ==> Signals(bucket, y) == bag
    ensures !bucket[y].check ==> bag == multiset{}
  {
    var signals := Signals(bucket, y);
    assert bag == signals + (bag - signals);
    assert bucket[y].overflow == 0 ==> |bag - signals| == 0;
  }
}
