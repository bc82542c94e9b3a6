/** The emulated zoned device as an object: zone descriptors mapped from the backing file and updated
    in place, 32-bit counters of open zones, and the commands that work on them. */
module Zbc {
  import opened Common
  import opened Zones
  import opened ZoneCommands
  import opened ZoneData
  import opened ZoneFormat
  import opened ZoneRead
  import opened ZoneReport
  import opened ZoneRuns

  class ZbcDev {
    const model: Model
    const capacity: nat
    const zoneSize: nat
    const limit: nat
    const zones: array<Zone>
    var nrImp: nat
    var nrExp: nat
    var store: seq<Block>

    ghost function Abs(): Dev
      reads this, zones
    {
      Dev(model, capacity, zoneSize, limit, zones[..], store)
    }

    /** The counters are the numbers of zones in the two open conditions. */
    ghost predicate Counted()
      reads this, zones
    {
      nrImp == Count(zones[..], ImpOpen) && nrExp == Count(zones[..], ExpOpen)
    }

    ghost predicate Valid()
      reads this, zones
    {
      DevOK(Abs()) && Counted()
    }

    /** zbc_format_meta, on a backing file with the given data area; requires that the configured
        conventional zones leave a sequential one, which the caller's error path has checked. */
    constructor Format(c: Config, data: seq<Block>)
      requires ConfigOK(c) && |data| == c.devSize / c.lbaSize && ZoneFormat.Format(c, data).Formatted?
      ensures Valid() && fresh(zones) && Abs() == ZoneFormat.Format(c, data).dev
    {
      hide Tiling, AllOK, PowerOfTwo, Count, ZoneCount, FormatZones, StartAt;
      ZoneSizePower(c);
      var cap, size := c.devSize / c.lbaSize, c.zoneBytes / c.lbaSize;
      CountOfZones(cap, size);
      var n := ZoneCount(cap, size);
      var conv := ConvCount(c.conv, n);
      model, capacity, zoneSize, limit := c.model, cap, size, OpenLimit(c.open, n - conv);
      zones := new Zone[n](_ => NewZone(c.model, 0, 0, true));
      nrImp, nrExp, store := 0, 0, data;
      new;
      FormatOK(c, data);
      NextStart(c.model, cap, size, conv, 0);
      ghost var want := FormatZones(c.model, cap, size, conv);
      var lba, i := 0, 0;
      while i < n
        invariant i <= n && lba == StartAt(cap, size, i)
        invariant zones.Length == n == |want|
        invariant forall k :: 0 <= k < i ==> zones[k] == want[k]
        invariant nrImp == 0 && nrExp == 0 && store == data
      {
        NextStart(c.model, cap, size, conv, i);
        var len := if lba + size > capacity then capacity - lba else size;
        zones[i] := NewZone(c.model, lba, len, i < conv);
        lba, i := lba + len, i + 1;
      }
      assert zones[..] == want;
    }

    /** zbc_init_meta on a backing file whose metadata is kept: counters start at zero, whatever was
        open is closed, and the counters are set to zero again. */
    constructor Reopen(d: Dev)
      requires DevOK(d)
      ensures Valid() && fresh(zones) && Abs() == Step(d, Op.Reopen).dev && nrImp == 0 && nrExp == 0
    {
      hide Tiling, AllOK, Count, CloseZ;
      model, capacity, zoneSize, limit, store := d.model, d.capacity, d.zoneSize, d.limit, d.store;
      zones := new Zone[|d.zones|](i requires 0 <= i < |d.zones| => d.zones[i]);
      nrImp, nrExp := 0, 0;
      new;
      Sizes(d);
      SweepKept(d, CloseAction);
      var i := 0;
      while i < zones.Length
        invariant i <= zones.Length == |d.zones| && store == d.store
        invariant forall k :: 0 <= k < zones.Length ==>
          zones[k] == if k < i then Sweep(CloseAction, d.zones[k]) else d.zones[k]
      {
        CloseZone(i);
        i := i + 1;
      }
      nrImp, nrExp := 0, 0;
      assert zones[..] == SweepAll(CloseAction, d.zones);
    }

    /** __zbc_close_zone */
    method CloseZone(i: nat)
      requires i < zones.Length < TWO_32
      modifies this`nrImp, this`nrExp, zones
      ensures zones[..] == old(zones[..])[i := CloseZ(old(zones[i]))]
      ensures old(Counted()) ==> Counted()
    {
      ghost var zs := zones[..];
      var z := zones[i];
      CountUpdate(zs, i, CloseZ(z), ImpOpen);
      CountUpdate(zs, i, CloseZ(z), ExpOpen);
      CountBothBounded(zs, ImpOpen, ExpOpen);
      if IsConv(z) || !IsOpen(z) {
        assert zs[i := z] == zs;
        return;
      }
      if z.cond == ImpOpen {
        nrImp := (nrImp + TWO_32 - 1) % TWO_32;
      } else {
        nrExp := (nrExp + TWO_32 - 1) % TWO_32;
      }
      zones[i] := z.(cond := if z.wp == z.start then Empty else Closed);
      assert zones[..] == zs[i := CloseZ(z)];
    }

    /** __zbc_close_imp_open_zone */
    method CloseImpOpenZone()
      requires zones.Length < TWO_32
      modifies this`nrImp, this`nrExp, zones
      ensures zones[..] == Evict(old(zones[..]))
      ensures old(Counted()) ==> Counted()
    {
      hide CloseZ, Count;
      var i := 0;
      while i < zones.Length
        invariant i <= zones.Length
        invariant zones[..] == old(zones[..]) && nrImp == old(nrImp) && nrExp == old(nrExp)
        invariant forall k :: 0 <= k < i ==> old(zones[..])[k].cond != ImpOpen
      {
        if zones[i].cond == ImpOpen {
          assert FirstImp(old(zones[..])) == i;
          CloseZone(i);
          return;
        }
        i := i + 1;
      }
    }

    /** __zbc_open_zone */
    method OpenZone(i: nat, explicit: bool)
      requires i < zones.Length < TWO_32 && Counted()
      requires zones[i].cond == Opened(explicit) || !IsOpen(zones[i])
      modifies this`nrImp, this`nrExp, zones
      ensures zones[..] == OpenZ(old(zones[..]), limit, i, explicit) && Counted()
    {
      hide Evict, Count, CloseZ;
      ghost var zs := zones[..];
      if zones[i].cond == Opened(explicit) { return; }
      CountBothBounded(zs, ImpOpen, ExpOpen);
      if (nrImp + nrExp) % TWO_32 >= limit {
        EvictOther(zs, i);
        CloseImpOpenZone();
      }
      ghost var zs1 := zones[..];
      assert zs1 == if OpenCount(zs) >= limit then Evict(zs) else zs;
      MarkOpen(i, explicit);
    }

    /** The zone's new condition, and the counter of it. */
    method MarkOpen(i: nat, explicit: bool)
      requires i < zones.Length < TWO_32 && Counted() && !IsOpen(zones[i])
      modifies this`nrImp, this`nrExp, zones
      ensures zones[..] == old(zones[..])[i := old(zones[i]).(cond := Opened(explicit))] && Counted()
    {
      hide Count;
      ghost var zs := zones[..];
      CountUpdate(zs, i, zs[i].(cond := Opened(explicit)), ImpOpen);
      CountUpdate(zs, i, zs[i].(cond := Opened(explicit)), ExpOpen);
      zones[i] := zones[i].(cond := Opened(explicit));
      assert zones[..] == zs[i := zs[i].(cond := Opened(explicit))];
      CountBothBounded(zones[..], ImpOpen, ExpOpen);
      if explicit {
        nrExp := (nrExp + 1) % TWO_32;
        return;
      }
      nrImp := (nrImp + 1) % TWO_32;
    }

    /** __zbc_finish_zone */
    method FinishZone(i: nat, empty: bool)
      requires i < zones.Length < TWO_32
      modifies this`nrImp, this`nrExp, zones
      ensures zones[..] == old(zones[..])[i := FinishZ(old(zones[i]), empty)]
      ensures old(Counted()) ==> Counted()
    {
      ghost var zs := zones[..];
      var z := zones[i];
      if IsConv(z) {
        assert zs[i := z] == zs;
        return;
      }
      if z.cond == Closed || IsOpen(z) || (empty && z.cond == Empty) {
        if IsOpen(z) { CloseZone(i); }
        Overwrite(i, zones[i].(wp := End(z), cond := Full, nonSeq := false, reset := false));
      }
      assert zones[..] == zs[i := FinishZ(z, empty)];
    }

    /** __zbc_reset_wp */
    method ResetZone(i: nat)
      requires i < zones.Length < TWO_32
      modifies this`nrImp, this`nrExp, zones
      ensures zones[..] == old(zones[..])[i := ResetZ(old(zones[i]))]
      ensures old(Counted()) ==> Counted()
    {
      ghost var zs := zones[..];
      var z := zones[i];
      if IsConv(z) {
        assert zs[i := z] == zs;
        return;
      }
      if IsOpen(z) { CloseZone(i); }
      Overwrite(i, zones[i].(wp := z.start, cond := Empty, nonSeq := false, reset := false));
      assert zones[..] == zs[i := ResetZ(z)];
    }

    /** Changes the fields of a zone that neither is nor becomes open. */
    method Overwrite(i: nat, w: Zone)
      requires i < zones.Length && ((!IsOpen(w) && !IsOpen(zones[i])) || w.cond == zones[i].cond)
      modifies zones
      ensures zones[..] == old(zones[..])[i := w]
      ensures old(Counted()) ==> Counted()
    {
      CountUpdate(zones[..], i, w, ImpOpen);
      CountUpdate(zones[..], i, w, ExpOpen);
      ghost var zs := zones[..];
      zones[i] := w;
      assert zones[..] == zs[i := w];
    }

    /** zbc_get_zone */
    method FindZone(lba: nat, lowest: bool) returns (i: nat)
      requires Valid()
      ensures i == GetZone(Abs(), lba, lowest) <= zones.Length
      ensures lba < capacity && !lowest ==> i < zones.Length && InZone(zones[i], lba)
    {
      ghost var d := Abs();
      Sizes(d);
      var zno := lba / zoneSize % TWO_32;
      i := if zno >= zones.Length || (lowest && lba != zones[zno].start) then zones.Length else zno;
      assert zno == Where(d, lba) % TWO_32;
      if lba < capacity { Located(d, lba); }
    }

    /** zbc_close_zone, zbc_finish_zone and zbc_reset_wp with the ALL bit */
    method SweepZones(a: Action)
      requires Valid() && !a.OpenAction?
      modifies this`nrImp, this`nrExp, zones
      ensures Valid() && zones[..] == SweepAll(a, old(zones[..]))
    {
      hide CloseZ, FinishZ, ResetZ, Count, Tiling, AllOK;
      SweepKept(Abs(), a);
      Sizes(Abs());
      var i := 0;
      while i < zones.Length
        invariant i <= zones.Length && Counted()
        invariant forall k :: 0 <= k < zones.Length ==>
          zones[k] == if k < i then Sweep(a, old(zones[..])[k]) else old(zones[..])[k]
      {
        if a.FinishAction? {
          FinishZone(i, false);
        } else if a.ResetAction? {
          ResetZone(i);
        } else {
          CloseZone(i);
        }
        i := i + 1;
      }
      assert zones[..] == SweepAll(a, old(zones[..]));
    }

    /** The loop of zbc_open_zone with the ALL bit that opens the closed zones. */
    method OpenClosedZones()
      requires Valid()
      modifies this`nrImp, this`nrExp, zones
      ensures Valid() && zones[..] == OpenAllFrom(old(zones[..]), limit, 0)
    {
      hide OpenZ, Count, Tiling, AllOK;
      Sizes(Abs());
      OpenAllKeeps(model, zones[..], limit, 0);
      TilingKept(Abs(), OpenAllFrom(zones[..], limit, 0));
      var i := 0;
      while i < zones.Length
        invariant i <= zones.Length && Counted()
        invariant OpenAllFrom(zones[..], limit, i) == OpenAllFrom(old(zones[..]), limit, 0)
      {
        if zones[i].cond == Closed { OpenZone(i, true); }
        i := i + 1;
      }
    }

    /** The loop of zbc_open_zone with the ALL bit that counts the closed zones. */
    method CountClosed() returns (n: nat)
      ensures n == Count(zones[..], Closed)
    {
      n := 0;
      var i := 0;
      while i < zones.Length
        invariant i <= zones.Length && n == Count(zones[..i], Closed)
      {
        assert zones[..i + 1][..i] == zones[..i];
        if zones[i].cond == Closed { n := n + 1; }
        i := i + 1;
      }
      assert zones[..i] == zones[..];
    }

    /** OPEN, CLOSE, FINISH ZONE and RESET WP */
    method ZoneCommand(a: Action, all: bool, lba: nat) returns (st: Status)
      requires Valid()
      modifies this`nrImp, this`nrExp, zones
      ensures Valid()
      ensures Outcome(Abs(), st) == old(if all then AllCommand(Abs(), a) else LbaCommand(Abs(), a, lba))
    {
      hide OpenAllFrom, SweepAll, OneCommand, GetZone, Count, Tiling, AllOK;
      Sizes(Abs());
      if all {
        if a.OpenAction? {
          var closed := CountClosed();
          CountBothBounded(zones[..], ExpOpen, Closed);
          if (nrExp + closed) % TWO_32 > limit { return InsufficientResources; }
          OpenClosedZones();
        } else {
          SweepZones(a);
        }
        return Ok;
      }
      if lba > capacity { return LbaOutOfRange; }
      var i := FindZone(lba, true);
      if i == zones.Length || IsConv(zones[i]) { return InvalidField; }
      st := OneZone(a, i);
    }

    /** The command on sequential zone i. */
    method OneZone(a: Action, i: nat) returns (st: Status)
      requires Valid() && i < zones.Length && !IsConv(zones[i])
      modifies this`nrImp, this`nrExp, zones
      ensures Valid()
      ensures Outcome(Abs(), st) == old(OneCommand(Abs(), a, i))
    {
      hide OpenZ, FinishZ, ResetZ, Count, Tiling, AllOK;
      Sizes(Abs());
      OneCommandKeeps(Abs(), a, i);
      ghost var zs := zones[..];
      match a {
        case CloseAction => CloseZone(i);
        case FinishAction => FinishZone(i, true);
        case ResetAction => ResetZone(i);
        case OpenAction =>
          if zones[i].cond == ExpOpen || zones[i].cond == Full { return Ok; }
          CountBothBounded(zs, ExpOpen, zones[i].cond);
          CountIsPositive(zs, zones[i].cond);
          if (nrExp + 1) % TWO_32 > limit { return InsufficientResources; }
          if zones[i].cond == ImpOpen { CloseZone(i); }
          assert zones[..] == zs[i := CloseZ(zs[i])];
          OpenZone(i, true);
      }
      return Ok;
    }

    // ---- WRITE ----

    /** zbc_write_check_zones: within one zone the write must start where Aligned says. A transfer
        that leaves its zone passes exactly outside sequential write required zones and over zones of
        one type; otherwise it is a boundary violation. */
    method CheckZones(lba: nat, n: nat) returns (st: Status)
      requires Valid() && lba + n <= capacity
      ensures n == 0 ==> st == Ok
      ensures n > 0 ==>
                && Where(Abs(), lba) < zones.Length
                && var z := zones[Where(Abs(), lba)];
                st == if lba + n <= End(z) then Aligned(z, lba)
                      else if z.ztype != SeqWriteReq && OneType(Abs(), z.ztype, lba, lba + n) then Ok
                      else BoundaryViolation
    {
      hide Tiling, AllOK, Count, ZoneOK, Where, TypeAt, DevOK, OneType;
      ghost var d := Abs();
      var at, left := lba, n;
      var ztype: Option<ZoneType> := None;
      ghost var first := zones.Length;
      Sizes(d);
      if n > 0 { first := FirstZone(d, lba); }
      NoTypes(d, lba);
      while left > 0
        invariant lba <= at && left >= 0 && at + left == lba + n
        invariant n > 0 ==> first < zones.Length && first == Where(d, lba) && InZone(zones[first], lba)
        invariant ztype == if at > lba then Some(zones[first].ztype) else None
        invariant n > 0 ==> OneType(d, zones[first].ztype, lba, at)
        invariant at > lba && lba + n <= End(zones[first]) ==> left == 0 && Aligned(zones[first], lba) == Ok
        invariant at > lba && lba + n > End(zones[first]) ==> zones[first].ztype != SeqWriteReq
        decreases left
      {
        var i := FindZone(at, false);
        var z := zones[i];
        if at == lba { SameZoneAs(d, lba, i, first); }
        if ztype.None? { ztype := Some(z.ztype); }
        OtherType(d, zones[first].ztype, lba, i, at, lba + n);
        if Some(z.ztype) != ztype || (z.ztype == SeqWriteReq && at + left > End(z)) { return BoundaryViolation; }
        if z.ztype == SeqWriteReq && at != z.wp {
          return if z.cond == Full then InvalidField else UnalignedWrite;
        }
        var count := if at + left > End(z) then End(z) - at else left;
        MoreType(d, z.ztype, lba, i, at, at + count);
        at, left := at + count, left - count;
      }
      return Ok;
    }

    /** The part of the write loop that opens the zone. */
    method MakeReady(i: nat) returns (st: Status)
      requires Valid() && i < zones.Length
      modifies this`nrImp, this`nrExp, zones
      ensures Valid() && Outcome(Abs(), st) == old(Ready(Abs(), i))
    {
      hide Tiling, AllOK, Count, ZoneOK, OpenZ;
      Sizes(Abs());
      ReadyKeeps(Abs(), i);
      if !IsConv(zones[i]) && !IsOpen(zones[i]) {
        if nrExp >= limit { return InsufficientResources; }
        OpenZone(i, false);
      }
      return Ok;
    }

    /** The part of the write loop that puts one segment on the medium and moves the write pointer. */
    method PutBlocks(i: nat, lba: nat, data: seq<Block>)
      requires Valid() && i < zones.Length && InZone(zones[i], lba) && lba + |data| <= End(zones[i])
      requires IsConv(zones[i]) || IsOpen(zones[i])
      requires Aligned(zones[i], lba) == Ok
      modifies this, zones
      ensures End(old(zones[i])) <= |old(store)|
      ensures Valid() && Abs() == old(Put(Abs(), i, lba, data))
    {
      hide Tiling, AllOK, Count, CloseZ;
      ghost var zs := zones[..];
      Sizes(Abs());
      TilingFacts(Abs(), i);
      PutKeeps(Abs(), i, lba, data);
      store := store[..lba] + data + store[lba + |data|..];
      var z := zones[i];
      if !IsConv(z) {
        var wp := if z.ztype == SeqWriteReq then z.wp + |data| else if lba + |data| >= z.wp then lba + |data| else z.wp;
        Overwrite(i, z.(wp := wp));
        if wp >= End(z) {
          if IsOpen(zones[i]) { CloseZone(i); }
          CloseStays(z.(wp := wp));
          Overwrite(i, zones[i].(wp := End(z), cond := Full));
        }
      }
      assert zones[..] == zs[i := Advance(z, lba, |data|)];
    }

    /** One round of the write loop: open the zone, write what the first segment holds, move the write
        pointer. */
    method WriteOnce(i: nat, at: nat, left: nat, cur: seq<Block>) returns (st: Status, count: nat)
      requires Valid() && i < zones.Length && InZone(zones[i], at) && at + left <= End(zones[i]) && |cur| <= left
      requires cur != [] ==> Aligned(zones[i], at) == Ok
      modifies this, zones
      ensures Valid() && at + |cur| <= |old(store)| && i < |old(Ready(Abs(), i)).dev.zones|
      ensures Outcome(Abs(), st) ==
              old(if Ready(Abs(), i).status != Ok then Ready(Abs(), i)
                  else if cur == [] then Outcome(Ready(Abs(), i).dev, WriteError)
                  else Outcome(Put(Ready(Abs(), i).dev, i, at, cur), Ok))
      ensures st == Ok ==> count == |cur|
    {
      hide Tiling, AllOK, Count, Ready, Advance, Splice, Aligned, OpenCount;
      ghost var d := Abs();
      Sizes(d);
      TilingFacts(d, i);
      ReadyKeeps(d, i);
      count := 0;
      st := MakeReady(i);
      if st != Ok { return; }
      count := if |cur| < left then |cur| else left;
      if count == 0 { st := WriteError; return; }
      assert cur[..count] == cur;
      AlignedKept(d.zones[i], zones[i], at);
      PutBlocks(i, at, cur[..count]);
    }

    /** The write loop of zbc_write. */
    method WriteLoop(i0: nat, lba: nat, n: nat, segs: seq<seq<Block>>) returns (st: Status)
      requires Valid() && 0 < n && i0 < zones.Length && InZone(zones[i0], lba) && lba + n <= capacity
      requires segs != [] && |segs[0]| <= n && (lba + n <= End(zones[i0]) ==> Aligned(zones[i0], lba) == Ok)
      modifies this, zones
      ensures |old(store)| == capacity
      ensures Valid()
      ensures Outcome(Abs(), st) ==
              old(if lba + n > End(zones[i0]) then Outcome(Abs(), BoundaryViolation)
                  else WriteIn(Abs(), i0, lba, n, segs))
    {
      hide Tiling, AllOK, Count, Ready, Advance, Splice, Aligned, OpenCount, Put, WithinLimit, SameZones;
      ghost var d := Abs();
      Sizes(d);
      EffectReady(d, i0);
      TilingFacts(d, i0);
      ghost var e := Ready(d, i0).dev;
      assert |e.zones| == |d.zones| && e.store == d.store;
      var at, left, cur := lba, n, segs[0];
      while left > 0
        invariant Valid() && at + left == lba + n && lba <= at
        invariant at == lba ==> Abs() == d && cur == segs[0]
        invariant SameZone(d.zones[i0], zones[i0])
        invariant at > lba ==>
          && Ready(d, i0).status == Ok && at == lba + |segs[0]| && cur == [] && lba + n <= End(d.zones[i0])
          && Abs() == Put(e, i0, lba, segs[0])
        decreases left
      {
        OnlyZone(Abs(), at, i0);
        var i := FindZone(at, false);
        OnlyZone(Abs(), at, i);
        if at + left > End(zones[i]) { return BoundaryViolation; }
        var count;
        if at == lba && cur != [] && Ready(d, i0).status == Ok { PutSame(d, i0, lba, cur); }
        st, count := WriteOnce(i, at, left, cur);
        if st != Ok { return; }
        cur := cur[count..];
        at, left := at + count, left - count;
      }
      return Ok;
    }

    /** zbc_write */
    method WriteBlocks(lba: nat, n: nat, segs: seq<seq<Block>>) returns (st: Status)
      requires Valid() && lba < TWO_64 && n < TWO_32
      modifies this, zones
      ensures Valid() && Outcome(Abs(), st) == old(WriteCommand(Abs(), lba, n, segs))
    {
      hide Tiling, AllOK, Count, Ready, Advance, Splice, Aligned;
      ghost var d := Abs();
      Sizes(d);
      CheckRdwrExact(d, lba, n, Total(segs));
      FirstSegment(segs);
      if Total(segs) != n { return TargetFailure; }
      if (lba + n) % TWO_64 > capacity || (lba + n) % TWO_64 < lba { return LbaOutOfRange; }
      st := CheckZones(lba, n);
      if n == 0 { return; }
      Located(d, lba);
      if st != Ok { return; }
      st := WriteLoop(lba / zoneSize, lba, n, segs);
    }

    // ---- READ ----

    /** __zbc_read: reads n blocks from lba on into one segment. The count of a round is cut at the end of
        the zone's data by comparing with the whole segment, so beyond the first zone it can exceed
        what is left: then the source writes past the segment, and the model stops. */
    method ReadPiece(lba: nat, n: nat, ztype0: Option<ZoneType>)
      returns (res: Piece, out: seq<Block>, ztype: Option<ZoneType>)
      requires Valid() && lba + n <= capacity
      ensures n == 0 ==> res == Whole && out == [] && ztype == ztype0
      ensures n > 0 ==>
                var t := if ztype0.Some? then ztype0.value else TypeAt(Abs(), lba);
                && res == PieceEnd(Abs(), t, lba, n)
                && (res == Whole ==> out == Got(Abs(), lba, n))
                && (res == Whole ==> ztype == if model == HostManaged then Some(t) else ztype0)
                && (res == Mixed ==> ztype == None)
    {
      hide Tiling, AllOK, Count, ZoneOK, Where, DevOK, ReadTo, PieceEnd, Got, TypeAt, AtEdge;
      ghost var d := Abs();
      Sizes(d);
      ghost var t := if ztype0.Some? then ztype0.value else if n > 0 then TypeAt(d, lba) else Conventional;
      ReadNothing(d, t, lba);
      var at, left := lba, n;
      ztype, out := ztype0, [];
      while left > 0
        invariant lba <= at && left >= 0 && at + left == lba + n
        invariant ReadTo(d, t, lba, at, out) && (at == lba ==> out == [])
        invariant ztype == if at > lba && model == HostManaged then Some(t) else ztype0
        invariant left > 0 && at > lba ==> AtEdge(d, at)
        invariant left == 0 && n > 0 ==> PieceEnd(d, t, lba, n) == Whole && out == Got(d, lba, n)
        decreases left
      {
        var i := FindZone(at, false);
        var z := zones[i];
        Edge(d, i, at);
        if model == HostManaged {
          if ztype.None? {
            ztype := Some(z.ztype);
          } else if ztype != Some(z.ztype) {
            MixedHere(d, t, i, lba, at, n, out);
            return Mixed, out, None;
          }
        }
        DataInside(d, i);
        if !IsConv(z) && at >= z.wp {
          HoleHere(d, t, i, lba, at, n, out);
          out := out + seq(left, _ => 0);
          return Whole, out, ztype;
        }
        var boundary := if IsConv(z) then End(z) else z.wp;
        var count := if at + n > boundary then boundary - at else left;
        if count > left {
          OverHere(d, t, i, lba, at, n, out);
          return Overrun, out, ztype;
        }
        ReadOn(d, t, i, lba, at, at + count, out);
        out := out + store[at..at + count];
        if count == left { WholeHere(d, t, i, lba, at, n, out); } else { RoundEnds(d, i, at + count); }
        at, left := at + count, left - count;
      }
      res := Whole;
    }

    /** zbc_read into segments of the given lengths in blocks */
    method ReadBlocks(lba: nat, n: nat, lens: seq<nat>) returns (st: Status, over: bool, out: seq<Block>)
      requires Valid() && lba < TWO_64 && n < TWO_32
      ensures (st, over, out) == ReadCommand(Abs(), lba, n, lens)
    {
      hide Tiling, AllOK, Count, ZoneOK, Where, DevOK, PieceEnd, Got, TypeAt;
      ghost var d := Abs();
      Sizes(d);
      CheckRdwrExact(d, lba, n, Sum(lens));
      over, out := false, [];
      if Sum(lens) != n { return TargetFailure, false, []; }
      if (lba + n) % TWO_64 > capacity || (lba + n) % TWO_64 < lba { return LbaOutOfRange, false, []; }
      var at, k, ztype: Option<ZoneType> := lba, 0, None;
      assert lens[0..] == lens;
      while k < |lens|
        invariant k <= |lens| && lba <= at && at + Sum(lens[k..]) == lba + n
        invariant Reading(d, ztype, at, lens[k..], out) == Reading(d, None, lba, lens, [])
      {
        SumStep(lens, k);
        assert lens[k..][0] == lens[k] && lens[k..][1..] == lens[k + 1..];
        var res, part;
        res, part, ztype := ReadPiece(at, lens[k], ztype);
        if res == Overrun { return Ok, true, out; }
        if res == Mixed || lens[k] == 0 {
          return if ztype.Some? then ReadError else InvalidData, false, out;
        }
        out := out + part;
        at, k := at + lens[k], k + 1;
      }
      st := Ok;
    }

    // ---- REPORT ZONES ----

    /** The first pass of zbc_report_zones: the value of the list length field. */
    method CountZones(first: nat, ro: nat, partial: bool, alloc: nat) returns (header: nat)
      requires Valid() && first < zones.Length && alloc < TWO_32
      ensures header == Header(|Matches(zones[..], first, ro)|, partial, alloc)
    {
      hide Tiling, AllOK, Count, ShouldReport;
      ghost var m := |Matches(zones[..], first, ro)|;
      var len := if alloc > 64 then alloc - 64 else 0;
      var nr := 0;
      var i, lba := first, zones[first].start;
      while lba < capacity
        invariant first <= i <= zones.Length && lba == (if i < zones.Length then zones[i].start else capacity)
        invariant m == nr + |Matches(zones[..], i, ro)|
        invariant partial ==> nr <= Slots(alloc) && len == (if alloc > 64 then alloc - 64 else 0) - 64 * nr
        decreases zones.Length - i
      {
        if i < zones.Length { TilingFacts(Abs(), i); Adjacent(Abs(), i); }
        if ShouldReport(zones[i], ro) {
          if partial && len < 64 { break; }
          len := if len > 64 then len - 64 else 0;
          nr := nr + 1;
        }
        lba := zones[i].start + zones[i].len;
        i := i + 1;
      }
      if i < zones.Length { TilingFacts(Abs(), i); }
      header := 64 * nr % TWO_32;
    }

    /** The second pass: the descriptors that fit the room bytes left after the header. */
    method EmitZones(first: nat, ro: nat, room: nat) returns (descs: seq<Zone>)
      requires Valid() && first < zones.Length
      ensures var m := Matches(zones[..], first, ro);
              descs == m[..if room / 64 < |m| then room / 64 else |m|]
    {
      hide Tiling, AllOK, Count, ShouldReport;
      ghost var m := Matches(zones[..], first, ro);
      var len := room;
      descs := [];
      var i, lba := first, zones[first].start;
      while lba < capacity && len >= 64
        invariant first <= i <= zones.Length && lba == (if i < zones.Length then zones[i].start else capacity)
        invariant m == descs + Matches(zones[..], i, ro)
        invariant len == room - 64 * |descs| >= 0
        decreases zones.Length - i
      {
        if i < zones.Length { TilingFacts(Abs(), i); Adjacent(Abs(), i); }
        if ShouldReport(zones[i], ro) {
          descs := descs + [zones[i]];
          len := len - 64;
        }
        lba := zones[i].start + zones[i].len;
        i := i + 1;
      }
      if i < zones.Length { TilingFacts(Abs(), i); }
    }

    /** zbc_report_zones into a data-in buffer of room bytes; a header that does not fit is cut and ends
        the report. */
    method ReportZones(lba: nat, ro: nat, partial: bool, alloc: nat, room: nat)
      returns (st: Status, header: nat, descs: seq<Zone>)
      requires Valid() && alloc < TWO_32
      ensures !ValidOption(ro) ==> st == InvalidField
      ensures ValidOption(ro) && lba >= capacity ==> st == LbaOutOfRange
      ensures ValidOption(ro) && lba < capacity ==>
                && st == Ok && Where(Abs(), lba) < zones.Length
                && var m := Matches(zones[..], Where(Abs(), lba), ro);
                header == Header(|m|, partial, alloc) && descs == m[..Emitted(|m|, room)]
    {
      hide Tiling, AllOK, Count, Matches;
      Sizes(Abs());
      header, descs := 0, [];
      if !ValidOption(ro) { return InvalidField, 0, []; }
      if lba >= capacity { return LbaOutOfRange, 0, []; }
      Located(Abs(), lba);
      var i := FindZone(lba, false);
      header := CountZones(i, ro, partial, alloc);
      if room >= 64 { descs := EmitZones(i, ro, room - 64); }
      st := Ok;
    }
  }

  lemma EffectReady(d: Dev, i: nat)
    requires DevOK(d) && i < |d.zones|
    ensures |Ready(d, i).dev.zones| == |d.zones| && Ready(d, i).dev.store == d.store
    ensures SameZone(d.zones[i], Ready(d, i).dev.zones[i])
  {
    hide Tiling, AllOK, Ready, OpenCount;
    ReadyKeeps(d, i);
  }

  lemma PutSame(d: Dev, i: nat, lba: nat, data: seq<Block>)
    requires DevOK(d) && i < |d.zones| && InZone(d.zones[i], lba) && lba + |data| <= End(d.zones[i]) <= |d.store|
    requires Aligned(d.zones[i], lba) == Ok && Ready(d, i).status == Ok && data != []
    ensures SameZone(d.zones[i], Put(Ready(d, i).dev, i, lba, data).zones[i])
  {
    hide Tiling, AllOK, Ready, Aligned, Put, Written, OpenCount;
    ReadyPut(d, i, lba, data);
  }

  lemma CloseStays(z: Zone)
    ensures CloseZ(z) == z.(cond := CloseZ(z).cond) && !(IsOpen(CloseZ(z)) && !IsConv(z))
  {
  }

  lemma FirstZone(d: Dev, lba: nat) returns (i: nat)
    requires DevOK(d) && lba < d.capacity && d.zoneSize > 0
    ensures i < |d.zones| && i == Where(d, lba) && InZone(d.zones[i], lba)
  {
    hide AllOK;
    Located(d, lba);
    i := Where(d, lba);
  }

  lemma SameZoneAs(d: Dev, b: nat, i: nat, j: nat)
    requires DevOK(d) && i < |d.zones| && j < |d.zones| && InZone(d.zones[i], b) && InZone(d.zones[j], b)
    ensures i == j
  {
    hide AllOK, Tiling;
    OnlyZone(d, b, i);
    OnlyZone(d, b, j);
  }

  lemma NoTypes(d: Dev, lba: nat)
    requires DevOK(d) && lba <= d.capacity
    ensures forall t :: OneType(d, t, lba, lba)
  {
  }

  lemma OtherType(d: Dev, t: ZoneType, lba: nat, i: nat, at: nat, to: nat)
    requires DevOK(d) && i < |d.zones| && InZone(d.zones[i], at) && lba <= at < to <= d.capacity
    ensures d.zones[i].ztype != t ==> !OneType(d, t, lba, to)
  {
    hide AllOK, Tiling, TypeAt;
    InOneZone(d, i, at);
  }

  /** Blocks of zone i continue a run of one type. */
  lemma MoreType(d: Dev, t: ZoneType, lba: nat, i: nat, at: nat, to: nat)
    requires DevOK(d) && i < |d.zones| && d.zones[i].start <= at <= to <= End(d.zones[i]) && d.zones[i].ztype == t
    requires at <= d.capacity && OneType(d, t, lba, at)
    ensures to <= d.capacity && OneType(d, t, lba, to)
  {
    hide AllOK, Tiling, TypeAt;
    DataInside(d, i);
    forall b | at <= b < to ensures TypeAt(d, b) == t { InOneZone(d, i, b); }
  }

  lemma Edge(d: Dev, i: nat, at: nat)
    requires DevOK(d) && i < |d.zones| && InZone(d.zones[i], at)
    ensures at < d.capacity && TypeAt(d, at) == d.zones[i].ztype
    ensures AtEdge(d, at) <==> at == d.zones[i].start || !Shows(d.zones[i], at)
  {
    hide Tiling, AllOK;
    OnlyZone(d, at, i);
  }

  lemma SumStep(lens: seq<nat>, k: nat)
    requires k < |lens|
    ensures Sum(lens[k..]) == lens[k] + Sum(lens[k + 1..])
  {
    assert lens[k..][1..] == lens[k + 1..];
  }
}
