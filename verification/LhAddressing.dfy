/**
 Dash linear hashing: where table number b lives among segment arrays that double in size every eight,
 which table a hash addresses, and how one expansion moves the frontier.
 */
module LhAddressing {
  import opened Powers

  const SEGMENT_SIZE: nat := 64
  const EXPAND_NUM: nat := 8
  const BASE_SHIFT: nat := 6

  /** 31 - __builtin_clz(n) */
  function Log2(n: nat): (k: nat)
    requires n > 0
    ensures Pow2(k) <= n < 2 * Pow2(k)
  {
    if n < 2 then 0 else Log2(n / 2) + 1
  }

  lemma {:induction false} Log2Unique(n: nat, k: nat)
    requires n > 0 && Pow2(k) <= n < 2 * Pow2(k)
    ensures Log2(n) == k
  {
    var l := Log2(n);
    if l < k {
      Pow2Monotone(l + 1, k);
    } else if k < l {
      Pow2Monotone(k + 1, l);
    }
  }

  /** The doubling level of a table number: which size of segment array holds it. */
  function Level(b: nat): nat {
    Log2(b / 512 + 1)
  }

  /** Which of the level's eight segment arrays. */
  function ShiftOf(b: nat): int {
    (b / 64 - EXPAND_NUM * (Pow2(Level(b)) - 1)) / Pow2(Level(b))
  }

  function SegIdx(b: nat): int {
    EXPAND_NUM * Level(b) + ShiftOf(b)
  }

  function SegOffset(b: nat): int {
    b - SEGMENT_SIZE * ((Pow2(Level(b)) - 1) * EXPAND_NUM + Pow2(Level(b)) * ShiftOf(b))
  }

  function SumBucket(b: nat): int {
    SEGMENT_SIZE * ((Pow2(Level(b)) - 1) * EXPAND_NUM + Pow2(Level(b)) * (ShiftOf(b) + 1))
  }

  function SegSize(b: nat): nat {
    SEGMENT_SIZE * Pow2(Level(b))
  }

  function SegSizeById(seg: nat): nat {
    SEGMENT_SIZE * Pow2(seg / EXPAND_NUM)
  }

  /** SEG_IDX_OFFSET, which returns through its out-parameters. */
  method SegIdxOffset(bucketIdx: nat) returns (segIdx: nat, segOffset: nat)
    ensures segIdx == SegIdx(bucketIdx) && segOffset == SegOffset(bucketIdx)
    ensures bucketIdx == SegBase(segIdx) + segOffset && segOffset < SegSizeById(segIdx)
  {
    SegmentOf(bucketIdx);
    var index := Log2(bucketIdx / 512 + 1);
    var shift := (bucketIdx / 64 - EXPAND_NUM * (Pow2(index) - 1)) / Pow2(index);
    segIdx := EXPAND_NUM * index + shift;
    segOffset := bucketIdx - SEGMENT_SIZE * ((Pow2(index) - 1) * EXPAND_NUM + Pow2(index) * shift);
  }

  // An independent description: segment arrays laid end to end

  /** The number of tables before segment array seg, added up one array at a time. */
  function SegBase(seg: nat): nat {
    if seg == 0 then 0 else SegBase(seg - 1) + SegSizeById(seg - 1)
  }

  /** The first table of segment array 8 * i + s, where p is 2^i. */
  function Corner(p: nat, s: nat): int {
    SEGMENT_SIZE * ((p - 1) * EXPAND_NUM + p * s)
  }

  lemma CornerStep(p: nat, s: nat)
    ensures Corner(p, s + 1) == Corner(p, s) + 64 * p
    ensures Corner(2 * p, 0) == Corner(p, 8)
  {
    assert p * (s + 1) == p * s + p;
  }

  /** The running total in closed form. */
  lemma {:induction false} SegBaseClosed(seg: nat)
    ensures SegBase(seg) == Corner(Pow2(seg / 8), seg % 8)
  {
    if seg > 0 {
      hide Corner;
      SegBaseClosed(seg - 1);
      CornerStep(Pow2((seg - 1) / 8), (seg - 1) % 8);
      if seg % 8 == 0 {
        assert seg / 8 == (seg - 1) / 8 + 1 && (seg - 1) % 8 == 7;
      } else {
        assert seg / 8 == (seg - 1) / 8 && seg % 8 == (seg - 1) % 8 + 1;
      }
    } else {
      assert Pow2(0) == 1;
    }
  }

  /** Level, shift and offset of the table at offset off of segment array 8 * i + s. */
  lemma Locate(i: nat, s: nat, off: nat)
    requires s < 8 && off < 64 * Pow2(i)
    ensures var b := Corner(Pow2(i), s) + off;
      b >= 0 && Level(b) == i && ShiftOf(b) == s && SegOffset(b) == off
  {
    var p := Pow2(i);
    var y := p * s;
    RowBounds(p, s);
    Rows(p, y, off);
    var b := Corner(p, s) + off;
    assert b == 64 * ((p - 1) * 8 + y) + off;
    LocateShift(b, i, p, s, y, off);
  }

  lemma LocateShift(b: nat, i: nat, p: nat, s: nat, y: nat, off: nat)
    requires p == Pow2(i) && y == p * s && off < 64 * p && p <= b / 512 + 1 < 2 * p
    requires b == 64 * ((p - 1) * 8 + y) + off && b / 64 - 8 * (p - 1) == y + off / 64
    ensures Level(b) == i && ShiftOf(b) == s && SegOffset(b) == off
  {
    Log2Unique(b / 512 + 1, i);
    hide Pow2;
    MulSwap(s, p);
    DivMul(s, p, off / 64);
  }

  lemma MulSwap(a: nat, b: nat)
    ensures a * b == b * a
  {
  }

  lemma RowBounds(p: nat, s: nat)
    requires s < 8
    ensures 0 <= p * s <= 7 * p
  {
  }

  /** Where table number b falls when the first 8 * (p - 1) rows of 64 are taken off. */
  lemma Rows(p: nat, y: nat, off: nat)
    requires p > 0 && y + p <= 8 * p && off < 64 * p
    ensures var b := 64 * ((p - 1) * 8 + y) + off;
      && b >= 0 && b / 64 - 8 * (p - 1) == y + off / 64 && 0 <= y + off / 64 < 8 * p
      && p <= b / 512 + 1 < 2 * p
  {
    var b := 64 * ((p - 1) * 8 + y) + off;
    assert b / 64 == (p - 1) * 8 + y + off / 64;
    assert b / 512 == b / 64 / 8;
  }

  /** Every table number is the corner of its segment array plus its offset. */
  lemma Decompose(b: nat) returns (i: nat, s: nat, off: nat)
    ensures s < 8 && off < 64 * Pow2(i) && b == Corner(Pow2(i), s) + off
  {
    i := Level(b);
    var p := Pow2(i);
    hide Pow2;
    var r := b / 64 - 8 * (p - 1);
    RowOf(b, p);
    DivBound(r, p, 8);
    DivSplit(r, p);
    s := r / p;
    off := 64 * (r % p) + b % 64;
  }

  lemma RowOf(b: nat, p: nat)
    requires p > 0 && p <= b / 512 + 1 < 2 * p
    ensures 0 <= b / 64 - 8 * (p - 1) < 8 * p
  {
    assert b / 512 == b / 64 / 8;
  }

  lemma DivSplit(r: nat, p: nat)
    requires p > 0
    ensures r == p * (r / p) + r % p && r % p < p
  {
  }

  /** SEG_IDX_OFFSET finds the segment array and offset that the layout gives each table. */
  lemma SegmentOf(b: nat)
    ensures 0 <= SegIdx(b) && 0 <= SegOffset(b) < SegSizeById(SegIdx(b)) && SegSizeById(SegIdx(b)) == SegSize(b)
    ensures b == SegBase(SegIdx(b)) + SegOffset(b)
    ensures SumBucket(b) == SegBase(SegIdx(b) + 1)
  {
    var i, s, off := Decompose(b);
    Locate(i, s, off);
    assert SegIdx(b) == 8 * i + s && SegIdx(b) / 8 == i && SegIdx(b) % 8 == s;
    SegBaseClosed(SegIdx(b));
    CornerStep(Pow2(i), s);
    hide Pow2, SegBase;
    assert SumBucket(b) == Corner(Pow2(i), s + 1);
    assert SegBase(SegIdx(b) + 1) == SegBase(SegIdx(b)) + SegSizeById(SegIdx(b)) by { NextBase(SegIdx(b)); }
  }

  lemma NextBase(seg: nat)
    ensures SegBase(seg + 1) == SegBase(seg) + SegSizeById(seg)
  {
  }

  /** Conversely every offset of every segment array is hit, by exactly one table: the map is a bijection. */
  lemma TableAt(seg: nat, off: nat)
    requires off < SegSizeById(seg)
    ensures SegIdx(SegBase(seg) + off) == seg && SegOffset(SegBase(seg) + off) == off
  {
    hide Pow2, SegBase, SegOffset, SegIdx;
    TableIn(seg, seg / 8, seg % 8, off);
  }

  lemma TableIn(seg: nat, i: nat, s: nat, off: nat)
    requires seg == 8 * i + s && s < 8 && off < 64 * Pow2(i)
    ensures SegIdx(SegBase(seg) + off) == seg && SegOffset(SegBase(seg) + off) == off
  {
    BaseIn(seg, i, s);
    Locate(i, s, off);
    hide Pow2, SegBase, Corner, Level, ShiftOf, SegOffset, SegIdx;
    IdxFrom(SegBase(seg) + off, i, s);
  }

  lemma BaseIn(seg: nat, i: nat, s: nat)
    requires seg == 8 * i + s && s < 8
    ensures SegBase(seg) == Corner(Pow2(i), s)
  {
    SegBaseClosed(seg);
    hide Pow2, SegBase, Corner;
    assert seg / 8 == i && seg % 8 == s;
  }

  lemma IdxFrom(b: nat, i: nat, s: nat)
    requires Level(b) == i && ShiftOf(b) == s
    ensures SegIdx(b) == 8 * i + s
  {
  }

  /** The map preserves order, first by segment array, then by offset. */
  lemma SegmentsInOrder(b: nat, c: nat)
    requires b < c
    ensures SegIdx(b) < SegIdx(c) || (SegIdx(b) == SegIdx(c) && SegOffset(b) < SegOffset(c))
  {
    SegmentOf(b);
    SegmentOf(c);
    if SegIdx(c) < SegIdx(b) {
      BaseMonotone(SegIdx(c) + 1, SegIdx(b));
    }
  }

  lemma {:induction false} BaseMonotone(s: nat, t: nat)
    requires s <= t
    ensures SegBase(s) <= SegBase(t)
  {
    if s < t {
      BaseMonotone(s, t - 1);
    }
  }
}
