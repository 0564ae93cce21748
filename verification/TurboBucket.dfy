/**
 TurboHash operations on one bucket, one writer at a time: the lookup run alone, insertion with its retry
 after a rehash, deletion, and the rehash itself.
 */
module TurboBucket {
  import opened TurboCell
  import opened TurboProbe
  import opened TurboRehash
  import opened TurboMove

  /** How an insertion or a rehash ends; the last two stop the program. */
  datatype Status = Stored | CellLimit | ProbeLimit

  class Bucket {
    var cells: array<Cell>
    /** Records handed to the epoch for deletion, in order. */
    var retired: seq<(Key, Value)>
    const hasher: Hasher
    const slotCount: nat
    const cellCountLimit: nat
    ghost var model: map<Key, Value>

    /** Every record fewer than limit probe steps from its home, and the bucket holds exactly the map. */
    ghost predicate ValidFor(limit: nat)
      reads this, cells
    {
      Inv(cells[..], slotCount, hasher, limit) && Represents(Contents(cells[..]), model)
    }

    /** Every record within the reach of a lookup. */
    ghost predicate Valid()
      reads this, cells
    {
      ValidFor(MAX_PROBE_LEN)
    }

    constructor (n: nat, s: nat, h: Hasher, limit: nat)
      requires n > 0 && s >= 2
      ensures Valid() && fresh(cells) && model == map[] && retired == []
      ensures cells.Length == n && slotCount == s && hasher == h && cellCountLimit == limit
    {
      hasher, slotCount, cellCountLimit := h, s, limit;
      cells := new Cell[n](_ => EmptyCell(s));
      retired := [];
      model := map[];
      new;
      EmptyFilling(cells[..], seq(n, _ => 0), s, h, MAX_PROBE_LEN);
    }

    /** The first live place of cell c whose tag, hash word and key match, or slotCount. */
    method MatchIn(c: nat, k: Key) returns (i: nat)
      requires c < cells.Length && |cells[c].places| == slotCount
      ensures i <= slotCount && (i < slotCount ==> cells[c].places[i].Matches(hasher, k))
      ensures i == slotCount ==> NoMatch(cells[c], hasher, k)
    {
      i := 0;
      while i < slotCount && !cells[c].places[i].Matches(hasher, k)
        invariant i <= slotCount
        invariant forall j :: 0 <= j < i ==> !cells[c].places[j].Matches(hasher, k)
      {
        i := i + 1;
      }
    }

    /** findSlot: alone, a lookup finds exactly the records fewer than MAX_PROBE_LEN steps from their home. */
    method FindSlot(k: Key) returns (found: bool, v: Value)
      requires ValidFor(MAX_PROBE_LEN + 1)
      ensures found ==> k in model && v == model[k]
      ensures found <==> !Missing(cells[..], hasher, k, MAX_PROBE_LEN)
      ensures Valid() ==> (found <==> k in model)
    {
      hide Represents, Contents, Full, Occupancy, Home;
      var n := cells.Length;
      ghost var all := cells[..];
      var home := Home(hasher, hasher.h1(k), n);
      var c: nat, probed: nat := home, 0;
      found, v := false, 0;
      if Valid() {
        MissingIsUnbound(all, slotCount, hasher, k, MAX_PROBE_LEN, model);
      }
      while probed < n && probed < MAX_PROBE_LEN
        invariant probed <= n && probed <= MAX_PROBE_LEN && c < n && (probed < n ==> Hops(n, home, c) == probed)
        invariant Passed(all, hasher, k, home, probed)
      {
        var i := MatchIn(c, k);
        if i < slotCount {
          found, v := true, cells[c].places[i].value;
          HeldIsBound(all, c, i, model);
          return;
        }
        if !Full(cells[c]) {
          GapEndsSearch(all, slotCount, hasher, k, c, MAX_PROBE_LEN + 1);
          return;
        }
        c, probed := Next(n, c), probed + 1;
      }
      PassedMissing(all, slotCount, hasher, k, probed, MAX_PROBE_LEN + 1);
    }

    /** findSlotForInsert. */
    method FindSlotForInsert(k: Key) returns (t: Target)
      requires ValidFor(MAX_PROBE_LEN + 1)
      ensures TargetOk(cells[..], hasher, k, t)
    {
      hide Represents, Contents, Full, Occupancy, Home, First, LastErased, NothingErased, Probed, Reachable, Seen, Passed;
      var n := cells.Length;
      ghost var all := cells[..];
      var home := Home(hasher, hasher.h1(k), n);
      var c: nat, probed: nat := home, 0;
      var some, cellToInsert: nat, slotToInsert: nat := false, 0, 0;
      ProbeStart(all, hasher, k);
      while probed < n && probed < MAX_PROBE_LEN
        invariant probed <= n && probed <= MAX_PROBE_LEN && c < n && (probed < n ==> Hops(n, home, c) == probed)
        invariant Passed(all, hasher, k, home, probed)
        invariant Seen(all, home, probed, some, cellToInsert, slotToInsert)
      {
        var was := MatchIn(c, k);
        FreePlace(cells[c], slotCount, hasher);
        var backup, erased := First(cells[c].places, Free, 0), First(cells[c].places, Erased, 0);
        if was < slotCount {
          return Equal(c, backup, was);
        }
        SeenStep(all, home, c, some, cellToInsert, slotToInsert);
        if erased < slotCount {
          some, cellToInsert, slotToInsert := true, c, erased;
        }
        if !Full(cells[c]) {
          GapEndsSearch(all, slotCount, hasher, k, c, MAX_PROBE_LEN + 1);
          ProbeStopped(all, hasher, k, c, some, cellToInsert, slotToInsert);
          if !some {
            cellToInsert, slotToInsert := c, backup;
          }
          return Fresh(cellToInsert, slotToInsert);
        }
        PassStep(all, hasher, k, home, c);
        c, probed := Next(n, c), probed + 1;
      }
      PassedMissing(all, slotCount, hasher, k, probed, MAX_PROBE_LEN + 1);
      ProbeExhausted(all, hasher, k, probed, some, cellToInsert, slotToInsert);
      t := if some then Fresh(cellToInsert, slotToInsert) else NoSlot;
    }

    /** insertToSlotAndGC: the record goes to the target, and an old one of the same key is retired. */
    method InsertToSlotAndGC(k: Key, v: Value, t: Target, ghost limit: nat)
      requires limit >= MAX_PROBE_LEN && ValidFor(limit)
      requires InRange(cells[..], t) && TargetOk(cells[..], hasher, k, t)
      requires if k in model then t.Equal? else t.Fresh?
      modifies this`retired, this`model, cells
      ensures ValidFor(limit) && model == old(model)[k := v]
      ensures cells[..] == Put(old(cells[..]), hasher, k, v, t)
      ensures retired == old(retired) + if k in old(model) then [(k, old(model)[k])] else []
    {
      ghost var before := cells[..];
      PutSpec(before, slotCount, hasher, k, v, t, limit, model);
      hide Inv, Contents, TargetOk, Represents;
      var p := Place(true, false, hasher.tag(k), hasher.h1(k), k, v);
      var cell := cells[t.cell];
      if t.Equal? {
        retired := retired + [(k, cell.places[t.was].value)];
        cells[t.cell] := Moved(cell, t.slot, t.was, p);
      } else {
        cells[t.cell] := Filled(cell, t.slot, p);
      }
      model := model[k := v];
      assert cells[..] == Put(before, hasher, k, v, t);
    }

    /** deleteSlot: marks the record and retires it; says whether there was one. */
    method DeleteSlot(k: Key) returns (deleted: bool)
      requires Valid()
      modifies this`retired, this`model, cells
      ensures Valid() && deleted == (k in old(model)) && model == old(model) - {k}
      ensures retired == old(retired) + if deleted then [(k, old(model)[k])] else []
      ensures forall c :: 0 <= c < cells.Length ==> Occupancy(cells[c]) == Occupancy(old(cells[c]))
    {
      hide Represents, Contents, Full, Occupancy, Home, Reachable, Passed;
      var n := cells.Length;
      ghost var all := cells[..];
      var home := Home(hasher, hasher.h1(k), n);
      var c: nat, probed: nat := home, 0;
      deleted := false;
      MissingIsUnbound(all, slotCount, hasher, k, MAX_PROBE_LEN, model);
      ProbeStart(all, hasher, k);
      while probed < n && probed < MAX_PROBE_LEN
        invariant cells[..] == all && model == old(model) && retired == old(retired) && !deleted
        invariant probed <= n && probed <= MAX_PROBE_LEN && c < n && (probed < n ==> Hops(n, home, c) == probed)
        invariant Passed(all, hasher, k, home, probed)
      {
        var i := MatchIn(c, k);
        if i < slotCount {
          MarkSpec(all, slotCount, hasher, c, i, MAX_PROBE_LEN, model);
          MarkOccupancy(cells[c], i);
          retired := retired + [(k, cells[c].places[i].value)];
          cells[c] := Marked(cells[c], i);
          model := model - {k};
          assert cells[..] == all[c := Marked(all[c], i)];
          return true;
        }
        if !Full(cells[c]) {
          GapEndsSearch(all, slotCount, hasher, k, c, MAX_PROBE_LEN);
          return;
        }
        PassStep(all, hasher, k, home, c);
        c, probed := Next(n, c), probed + 1;
      }
      PassedMissing(all, slotCount, hasher, k, probed, MAX_PROBE_LEN);
    }

    /** findNextSlotInRehash: the nearest new cell with room, whose count it raises. */
    method FindNextSlotInRehash(slotVec: array<nat>, h1: nat) returns (l: Landing)
      requires slotVec.Length > 0 && slotCount > 0
      modifies slotVec
      ensures l == Land(old(slotVec[..]), slotCount, Home(hasher, h1, slotVec.Length), 0)
      ensures slotVec[..] == if l.Landed? then old(slotVec[..])[l.cell := old(slotVec[l.cell]) + 1] else old(slotVec[..])
    {
      ghost var vec := slotVec[..];
      var ai: nat, loopCount: nat := Home(hasher, h1, slotVec.Length), 0;
      while slotVec[ai] >= slotCount - 1
        invariant ai < slotVec.Length && loopCount <= MAX_PROBE_LEN && slotVec[..] == vec
        invariant Land(vec, slotCount, ai, loopCount) == Land(vec, slotCount, Home(hasher, h1, slotVec.Length), 0)
        decreases MAX_PROBE_LEN - loopCount
      {
        loopCount := loopCount + 1;
        if loopCount > MAX_PROBE_LEN {
          return NoRoom;
        }
        ai := Next(slotVec.Length, ai);
      }
      l := Landed(ai, loopCount);
      slotVec[ai] := slotVec[ai] + 1;
    }

    /** One turn of the rehash loop: finds the record its new slot and moves it there (moveSlot). */
    method MoveOne(p: Place, des: array<Cell>, slotVec: array<nat>, ghost walked: seq<Place>) returns (ok: bool)
      requires Transferred(walked, des[..], slotVec[..], slotCount, hasher) && NewRecord(p, hasher)
      modifies des, slotVec
      ensures ok ==> Transferred(walked + [p], des[..], slotVec[..], slotCount, hasher)
      ensures !ok ==> GivesUp(walked + [p], des.Length, slotCount, hasher)
    {
      hide Transferred, GivesUp, Land, Home, NewRecord;
      SomeCells(walked, des[..], slotVec[..], slotCount, hasher);
      TransferRange(walked, Home(hasher, p.h1, slotVec.Length), des[..], slotVec[..], slotCount, hasher);
      TransferStep(walked, p, des[..], slotVec[..], slotCount, hasher);
      ghost var vec, was := slotVec[..], des[..];
      var l := FindNextSlotInRehash(slotVec, p.h1);
      if l.NoRoom? {
        return false;
      }
      var cell, slot := des[l.cell], slotVec[l.cell] - 1;
      assert slot == vec[l.cell] && cell == was[l.cell];
      des[l.cell] := Cell(cell.places[slot := p], cell.seqNo);
      assert des[..] == MoveTo(was, vec, l.cell, p);
      ok := true;
    }

    /** Step 2 of MinorRehash: walks this bucket and fills a new one of n cells. */
    method Transfer(n: nat) returns (ok: bool, des: array<Cell>)
      requires ValidFor(MAX_PROBE_LEN + 1) && n > 0
      ensures var r := Rehash(cells[..], hasher, slotCount, n);
        && (ok <==> r.Settled?)
        && (ok ==> fresh(des) && des.Length == n && Transferred(LivePlaces(cells[..]), des[..], r.vec, slotCount, hasher))
    {
      hide Represents, Contents, Transferred, Settle, Land, Dense, Home, Homes, Filling, OutOfReach, Overreaches, LivePlaces;
      hide Inv;
      ghost var all := cells[..];
      PlacesPerCell(all, slotCount, hasher, MAX_PROBE_LEN + 1);
      des := new Cell[n](_ => EmptyCell(slotCount));
      var slotVec := new nat[n](_ => 0);
      TransferStart(all, des[..], slotVec[..], slotCount, hasher);
      var ci := 0;
      while ci < cells.Length
        invariant ci <= cells.Length && fresh(des) && fresh(slotVec) && des.Length == slotVec.Length == n
        invariant Transferred(Walked(all, ci, 0), des[..], slotVec[..], slotCount, hasher)
      {
        var si := 0;
        while si < slotCount
          invariant si <= slotCount
          invariant Transferred(Walked(all, ci, si), des[..], slotVec[..], slotCount, hasher)
        {
          var p := cells[ci].places[si];
          WalkedStep(all, ci, si);
          if p.Live() {
            var moved := MoveOne(p, des, slotVec, Walked(all, ci, si));
            if !moved {
              TransferFails(all, ci, si + 1, n, slotCount, hasher);
              return false, des;
            }
          }
          si := si + 1;
        }
        WalkedCell(all, ci);
        ci := ci + 1;
      }
      assert Walked(all, |all|, 0) == LivePlaces(all);
      TransferVec(all, des[..], slotVec[..], slotCount, hasher);
      ok := true;
    }

    /**
     MinorRehash, doubling or collecting garbage: the new bucket holds exactly the live records, in the lowest
     places of each cell, one place spare and nothing deleted. It succeeds with up to sixteen new cells whenever
     the limit admits them; beyond, it may give up. All of them are within the reach of lookups
     exactly when the walk over the old bucket settles none fifteen steps from its home.
     */
    method MinorRehash(isGc: bool) returns (status: Status)
      requires ValidFor(MAX_PROBE_LEN + 1)
      modifies this`cells
      ensures var n := if isGc then old(cells.Length) else 2 * old(cells.Length);
        var settling := Rehash(old(cells[..]), hasher, slotCount, n);
        && (status.CellLimit? <==> n > cellCountLimit)
        && (!status.CellLimit? ==> (status.ProbeLimit? <==> settling.GaveUp?))
        && (status.Stored? ==>
             && fresh(cells) && cells.Length == n && ValidFor(MAX_PROBE_LEN + 1)
             && Contents(cells[..]) == Contents(old(cells[..]))
             && (forall c :: 0 <= c < n ==> Dense(cells[c], settling.vec[c]))
             && (Valid() <==> !Overreaches(settling)))
        && (!status.Stored? ==> cells == old(cells) && cells[..] == old(cells[..]))
        && (n <= MAX_PROBE_LEN + 1 && n <= cellCountLimit ==> status.Stored?)
        && (n <= MAX_PROBE_LEN && status.Stored? ==> Valid())
    {
      assert slotCount >= 2 && cells.Length > 0;
      hide Represents, Contents, Inv, Transferred, Rehash, Dense, Overreaches, LivePlaces;
      var n := if isGc then cells.Length else 2 * cells.Length;
      if n > cellCountLimit {
        return CellLimit;
      }
      if n <= MAX_PROBE_LEN + 1 {
        SmallRehash(cells[..], hasher, slotCount, n, MAX_PROBE_LEN + 1);
      }
      var ok, des := Transfer(n);
      if !ok {
        return ProbeLimit;
      }
      TransferDone(cells[..], des[..], slotCount, hasher);
      cells := des;
      status := Stored;
    }

    /**
     insertSlot: stores the binding, after as many doublings as it takes. The retry loop ends because the
     number of cells is bounded. Before the first doubling all probed cells are Full with nothing deleted;
     records stay within reach unless a doubling past fifteen cells settled one too far.
     */
    method InsertSlot(k: Key, v: Value) returns (status: Status, rehashes: nat)
      requires Valid()
      modifies this, cells
      ensures ValidFor(MAX_PROBE_LEN + 1) && (cells == old(cells) || fresh(cells))
      ensures model == if status.Stored? then old(model)[k := v] else old(model)
      ensures retired == old(retired) + if k in old(model) then [(k, old(model)[k])] else []
      ensures rehashes == 0 || cells.Length <= MAX_PROBE_LEN ==> Valid()
      ensures rehashes == 1 && status.Stored? ==>
        (Valid() <==> !Overreaches(Rehash(old(cells[..]), hasher, slotCount, 2 * old(cells.Length))))
      ensures rehashes > 0 || !status.Stored? ==> TargetOk(old(cells[..]), hasher, k, NoSlot)
      ensures status.CellLimit? ==> 2 * cells.Length > cellCountLimit
      ensures status.ProbeLimit? ==>
        2 * cells.Length > MAX_PROBE_LEN + 1 && Rehash(cells[..], hasher, slotCount, 2 * cells.Length).GaveUp?
      ensures !status.Stored? && rehashes == 0 ==> cells[..] == old(cells[..])
    {
      hide Represents, Contents, Inv, Missing, TargetOk, Rehash, Dense, Overreaches, InRange;
      ghost var before, first := cells[..], cells;
      rehashes := 0;
      WiderReach(before, slotCount, hasher);
      while true
        invariant ValidFor(MAX_PROBE_LEN + 1) && model == old(model) && retired == old(retired)
        invariant cells == first || fresh(cells)
        invariant rehashes == 0 ==> cells == first && cells[..] == before
        invariant rehashes == 0 || cells.Length <= MAX_PROBE_LEN ==> Valid()
        invariant rehashes > 0 ==> k !in model && TargetOk(before, hasher, k, NoSlot)
        invariant rehashes == 1 ==> (Valid() <==> !Overreaches(Rehash(before, hasher, slotCount, 2 * |before|)))
        decreases cellCountLimit - cells.Length
      {
        var t := FindSlotForInsert(k);
        TargetBinds(cells[..], slotCount, hasher, k, t, model);
        if !t.NoSlot? {
          ghost var all, reach := cells[..], if Valid() then MAX_PROBE_LEN else MAX_PROBE_LEN + 1;
          InsertToSlotAndGC(k, v, t, reach);
          if reach == MAX_PROBE_LEN {
            WiderReach(cells[..], slotCount, hasher);
          } else {
            PutReach(all, slotCount, hasher, k, v, t);
          }
          return Stored, rehashes;
        }
        if 2 * cells.Length <= MAX_PROBE_LEN + 1 {
          SmallRehash(cells[..], hasher, slotCount, 2 * cells.Length, MAX_PROBE_LEN + 1);
        }
        status := MinorRehash(false);
        if !status.Stored? {
          return;
        }
        rehashes := rehashes + 1;
      }
    }
  }
}
