/**
 Dash linear hashing: which table a hash addresses at frontier (N, next), and what one expansion by two
 tables changes.
 */
module LhExpansion {
  import opened Powers
  import opened LhAddressing

  const START: nat := 6
  const STEP: nat := 2

  function Idx(hash: nat, level: nat): nat {
    hash % Pow2(level)
  }

  /** The frontier: N doublings are complete and the first `next` tables are split once more. */
  datatype Frontier = Frontier(n: nat, next: nat) {
    function Tables(): nat {
      Pow2(n) + next
    }

    ghost predicate Valid() {
      n >= START && next % STEP == 0 && next < Pow2(n)
    }

    function Address(hash: nat): nat {
      if Idx(hash, n) < next then Idx(hash, n + 1) else Idx(hash, n)
    }

    function Expanded(): Frontier {
      if next == Pow2(n) - STEP then Frontier(n + 1, 0) else Frontier(n, next + STEP)
    }
  }

  /** get_org_table: the table that x was split from. */
  function Origin(x: nat): nat
    requires x > 0
  {
    x - Pow2(Log2(x))
  }

  lemma EvenPower(n: nat)
    requires n > 0
    ensures Pow2(n) % 2 == 0
  {
  }

  lemma ExpandedValid(f: Frontier)
    requires f.Valid()
    ensures f.Expanded().Valid() && f.Expanded().Tables() == f.Tables() + STEP
  {
    EvenPower(f.n);
  }

  function After(f: Frontier, steps: nat): Frontier {
    if steps == 0 then f else After(f, steps - 1).Expanded()
  }

  /** Every run of expansions keeps the frontier well formed, and the frontier is a function of the table count. */
  lemma {:induction false} RunValid(f: Frontier, steps: nat)
    requires f.Valid()
    ensures After(f, steps).Valid() && After(f, steps).Tables() == f.Tables() + STEP * steps
    ensures After(f, steps).n == Log2(f.Tables() + STEP * steps)
  {
    if steps > 0 {
      RunValid(f, steps - 1);
      ExpandedValid(After(f, steps - 1));
    }
    Log2Unique(After(f, steps).Tables(), After(f, steps).n);
  }

  /** One more bit of the hash leaves the index alone or adds the old table count. */
  lemma NextBit(hash: nat, n: nat)
    ensures var lo, hi := Idx(hash, n), Idx(hash, n + 1);
      hi == (if hi >= Pow2(n) then lo + Pow2(n) else lo) && lo < Pow2(n) && hi < 2 * Pow2(n)
  {
    var p, q := Pow2(n), Pow2(n + 1);
    var hi, k := hash % q, hash / q;
    assert q == 2 * p;
    hide Pow2;
    assert hash == k * q + hi;
    var r := if hi >= p then hi - p else hi;
    assert k * (2 * p) == (2 * k) * p;
    if hi >= p {
      assert (2 * k + 1) * p == (2 * k) * p + p;
      DivMul(2 * k + 1, p, r);
    } else {
      DivMul(2 * k, p, r);
    }
  }

  /** Every hash addresses a table that exists, in a segment array that reaches that far. */
  lemma AddressBounded(f: Frontier, hash: nat)
    requires f.next < Pow2(f.n)
    ensures f.Address(hash) < f.Tables()
  {
    NextBit(hash, f.n);
  }

  /**
   One expansion moves exactly the hashes of the two frontier tables whose next bit is set, by the old table
   count; every other hash keeps its table, and the table split from is recovered from the new address.
   */
  lemma ExpansionMoves(f: Frontier, hash: nat)
    requires f.Valid()
    ensures var from, to := f.Address(hash), f.Expanded().Address(hash);
      && (f.next <= from < f.next + STEP && Idx(hash, f.n + 1) >= Pow2(f.n) ==>
           to == from + Pow2(f.n) && f.Tables() <= to && Origin(to) == from)
      && (!(f.next <= from < f.next + STEP && Idx(hash, f.n + 1) >= Pow2(f.n)) ==> to == from)
  {
    EvenPower(f.n);
    OriginInverts(f.n, Idx(hash, f.n));
    hide Pow2, Idx, Origin;
    NextBit(hash, f.n);
    FrontierMoves(Pow2(f.n), f.next, Idx(hash, f.n), Idx(hash, f.n + 1));
  }

  /** The two ways a step of the frontier treats an index, with p tables at the level and lo and hi the two remainders. */
  lemma FrontierMoves(p: nat, next: nat, lo: nat, hi: nat)
    requires next % 2 == 0 && p % 2 == 0 && next < p && lo < p && hi == if hi >= p then lo + p else lo
    ensures next + 2 <= p
    ensures var from := if lo < next then hi else lo;
      var to := if next == p - 2 || lo < next + 2 then hi else lo;
      && (next <= from < next + 2 && hi >= p ==> from == lo && to == lo + p && p + next <= to)
      && (!(next <= from < next + 2 && hi >= p) ==> to == from)
  {
  }

  lemma OriginInverts(n: nat, b: nat)
    ensures b < Pow2(n) ==> Origin(b + Pow2(n)) == b
  {
    if b < Pow2(n) {
      Log2Unique(b + Pow2(n), n);
    }
  }

  /**
   The split test: among the hashes of table b at level n, those that move to b + 2^n are exactly those whose
   remainder by twice the base is at least the base.
   */
  lemma SplitTest(hash: nat, n: nat, b: nat)
    requires Idx(hash, n) == b
    ensures Idx(hash, n + 1) == (if hash % (2 * Pow2(n)) >= Pow2(n) then b + Pow2(n) else b)
  {
    NextBit(hash, n);
  }

  /** Tables 2m and 2m + 1 live side by side in one segment array. */
  lemma PairShares(b: nat)
    requires b % 2 == 0
    ensures SegIdx(b) >= 0 && SegIdx(b + 1) == SegIdx(b) && SegOffset(b + 1) == SegOffset(b) + 1
  {
    hide SegIdx, SegOffset, SegBase, SegSize, SumBucket, SegSizeById;
    SegmentOf(b);
    BlocksOf64(SegIdx(b));
    TableAt(SegIdx(b), SegOffset(b) + 1);
  }

  lemma BlocksOf64(seg: nat)
    ensures SegBase(seg) % 64 == 0 && SegSizeById(seg) % 64 == 0
  {
    hide Pow2, SegBase;
    SegBaseClosed(seg);
    var p := Pow2(seg / 8);
    DivMul((p - 1) * EXPAND_NUM + p * (seg % 8), 64, 0);
    DivMul(p, 64, 0);
  }

  /** The directory of segment arrays: which entries are allocated, and how many tables each was given. */
  class Linear {
    var frontier: Frontier
    var segments: map<int, nat>

    ghost predicate Valid()
      reads this
    {
      && frontier.Valid()
      && (forall s :: s in segments ==> s >= 0 && segments[s] == SegSizeById(s))
      && forall b: nat :: b < frontier.Tables() ==> SegIdx(b) in segments
    }

    constructor ()
      ensures Valid() && frontier == Frontier(START, 0) && segments == map[0 := SEGMENT_SIZE]
    {
      frontier := Frontier(START, 0);
      segments := map[0 := SEGMENT_SIZE];
      new;
      assert Pow2(6) == 64;
      forall b: nat | b < 64
        ensures SegIdx(b) == 0 && SegOffset(b) == b
      {
        assert SegBase(0) == 0 && Pow2(0) == 1;
        TableAt(0, b);
      }
    }

    /** Looks a hash up: the segment array and offset of its table, both in range. */
    method Target(hash: nat) returns (dirIdx: nat, offset: nat)
      requires Valid()
      ensures dirIdx in segments && offset < segments[dirIdx]
      ensures dirIdx == SegIdx(frontier.Address(hash)) && offset == SegOffset(frontier.Address(hash))
    {
      AddressBounded(frontier, hash);
      var x := Idx(hash, frontier.n);
      if x < frontier.next {
        x := Idx(hash, frontier.n + 1);
      }
      SegmentOf(x);
      dirIdx, offset := SegIdxOffset(x);
    }

    /** Expand(2), one caller at a time. */
    method Expand()
      requires Valid()
      modifies this
      ensures Valid() && frontier == old(frontier).Expanded()
      ensures var last := old(frontier).Tables() + STEP - 1;
        segments == if SegIdx(last) in old(segments) then old(segments)
                    else old(segments)[SegIdx(last) := SegSize(last)]
    {
      hide SegIdx, SegOffset, SegSize, SegBase, SumBucket, SegSizeById;
      ExpandedValid(frontier);
      EvenPower(frontier.n);
      PairShares(frontier.Tables());
      var last := Pow2(frontier.n) + frontier.next + STEP - 1;
      SegmentOf(last);
      var dirIdx, offset := SegIdxOffset(last);
      if dirIdx !in segments {
        segments := segments[dirIdx := SegSize(last)];
      }
      if frontier.next == Pow2(frontier.n) - STEP {
        frontier := Frontier(frontier.n + 1, 0);
      } else {
        frontier := Frontier(frontier.n, frontier.next + STEP);
      }
    }
  }
}
