/** Whole sequences of Put, Find and Delete on one TurboHash bucket, against a plain map. */
module TurboRuns {
  import opened TurboCell
  import opened TurboBucket
  import opened TurboProbe
  import opened TurboRehash
  import opened TurboMove

  /** Set is Put. */
  datatype Call = Set(key: Key, value: Value) | Find(key: Key) | Delete(key: Key)

  datatype Answer = Accepted | Found(value: Value) | Absent | Deleted

  /** One call on a map. */
  function OnMap(m: map<Key, Value>, call: Call): (map<Key, Value>, Answer) {
    match call
    case Set(k, v) => (m[k := v], Accepted)
    case Find(k) => (m, if k in m then Found(m[k]) else Absent)
    case Delete(k) => (m - {k}, if k in m then Deleted else Absent)
  }

  function MapAfter(m: map<Key, Value>, calls: seq<Call>): map<Key, Value> {
    if calls == [] then m else OnMap(MapAfter(m, calls[..|calls| - 1]), calls[|calls| - 1]).0
  }

  /** The answers of a map to the calls, in order. */
  function Answers(m: map<Key, Value>, calls: seq<Call>): (r: seq<Answer>)
    ensures |r| == |calls|
  {
    if calls == [] then []
    else
      var front := calls[..|calls| - 1];
      Answers(m, front) + [OnMap(MapAfter(m, front), calls[|calls| - 1]).1]
  }

  /**
   Why a run stops at a call: it is a put that found neither a match nor an empty nor a deleted place among the cells it
   probed, and the doublings this led to exceeded the limit on cells, or found no room for a record, or took a record out
   of the reach of lookups, for which it takes more than fifteen cells.
   */
  ghost predicate Stops(before: seq<Cell>, b: Bucket, status: Status, call: Call)
    reads b, b.cells
  {
    && Inv(before, b.slotCount, b.hasher, MAX_PROBE_LEN) && b.ValidFor(MAX_PROBE_LEN + 1)
    && call.Set? && TargetOk(before, b.hasher, call.key, NoSlot)
    && (status.CellLimit? ==> 2 * b.cells.Length > b.cellCountLimit)
    && (status.ProbeLimit? ==>
         2 * b.cells.Length > MAX_PROBE_LEN + 1 && Rehash(b.cells[..], b.hasher, b.slotCount, 2 * b.cells.Length).GaveUp?)
    && (status.Stored? ==> b.cells.Length > MAX_PROBE_LEN && OutOfReach(b.cells[..], b.hasher))
  }

  /** One call, which the bucket answers as the map does, unless it stops the run. */
  method Step(b: Bucket, call: Call) returns (ok: bool, answer: Answer, status: Status)
    requires b.Valid()
    modifies b, b.cells
    ensures b.cells == old(b.cells) || fresh(b.cells)
    ensures ok ==> b.Valid() && (b.model, answer) == OnMap(old(b.model), call)
    ensures !ok ==> Stops(old(b.cells[..]), b, status, call)
  {
    hide Represents, Contents, TargetOk, Rehash, Missing, Occupancy, OutOfReach, AllReachable, Overreaches;
    WiderReach(b.cells[..], b.slotCount, b.hasher);
    ok, status := true, Stored;
    match call {
      case Set(k, v) =>
        var rehashes;
        status, rehashes := b.InsertSlot(k, v);
        ReachSplits(b.cells[..], b.slotCount, b.hasher);
        ok := status.Stored? && !OutOfReach(b.cells[..], b.hasher);
        answer := Accepted;
      case Find(k) =>
        var found, v := b.FindSlot(k);
        answer := if found then Found(v) else Absent;
      case Delete(k) =>
        var deleted := b.DeleteSlot(k);
        answer := if deleted then Deleted else Absent;
    }
  }

  /** Carries out the calls until one of them stops the run. Up to there the bucket answers as the map does. */
  method Replay(b: Bucket, calls: seq<Call>) returns (answers: seq<Answer>, status: Status, ghost before: seq<Cell>)
    requires b.Valid()
    modifies b, b.cells
    ensures |answers| <= |calls| && answers == Answers(old(b.model), calls[..|answers|])
    ensures |answers| == |calls| ==> b.Valid() && b.model == MapAfter(old(b.model), calls)
    ensures |answers| < |calls| ==>
      && Represents(Contents(before), MapAfter(old(b.model), calls[..|answers|]))
      && Stops(before, b, status, calls[|answers|])
  {
    hide Inv, Represents, Contents, Stops, OnMap;
    ghost var first := b.cells;
    answers, status, before := [], Stored, b.cells[..];
    for i := 0 to |calls|
      invariant |answers| == i && b.Valid() && (b.cells == first || fresh(b.cells))
      invariant answers == Answers(old(b.model), calls[..i]) && b.model == MapAfter(old(b.model), calls[..i])
    {
      assert calls[..i + 1][..i] == calls[..i];
      before := b.cells[..];
      var ok, answer;
      ok, answer, status := Step(b, calls[i]);
      if !ok {
        return;
      }
      answers := answers + [answer];
    }
    assert calls[..|calls|] == calls;
  }
}
