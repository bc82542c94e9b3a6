/** Zoned block devices as values: zone descriptors, counting them by condition, opening with
    eviction, and what each command does to the device. */
module Zones {
  import opened Common

  datatype Model = HostAware | HostManaged
  datatype ZoneType = Conventional | SeqWriteReq | SeqWritePref
  datatype Cond = NotWp | Empty | ImpOpen | ExpOpen | Closed | ReadOnly | Full | Offline

  datatype Zone = Zone(start: nat, len: nat, wp: nat, ztype: ZoneType, cond: Cond, nonSeq: bool, reset: bool)

  /** Contents of one logical block; 0 is the block of zeros. */
  type Block = nat

  datatype Status =
    Ok | LbaOutOfRange | InvalidField | InsufficientResources | BoundaryViolation | UnalignedWrite | WriteError |
    ReadError | InvalidData | TargetFailure

  datatype Dev = Dev(
    model: Model,
    capacity: nat,      // in logical blocks
    zoneSize: nat,      // in logical blocks
    limit: nat,         // nr_open_zones
    zones: seq<Zone>,
    store: seq<Block>)  // data area of the backing file

  datatype Outcome = Outcome(dev: Dev, status: Status)

  // ---- zones ----

  predicate IsConv(z: Zone) { z.ztype == Conventional }

  predicate IsOpen(z: Zone) { z.cond == ImpOpen || z.cond == ExpOpen }

  function End(z: Zone): nat { z.start + z.len }

  predicate ZoneOK(m: Model, z: Zone) {
    && z.len > 0
    && (IsConv(z) ==> z.cond == NotWp)
    && (!IsConv(z) ==>
          && z.ztype == (if m == HostAware then SeqWritePref else SeqWriteReq)
          && z.start <= z.wp <= End(z)
          && (z.cond == Empty || IsOpen(z) || z.cond == Closed || z.cond == Full)
          && (z.cond == Empty ==> z.wp == z.start)
          && (z.cond == Closed ==> z.wp > z.start)
          && (z.cond == Full ==> z.wp == End(z)))
  }

  ghost predicate AllOK(m: Model, zs: seq<Zone>) {
    forall i :: 0 <= i < |zs| ==> ZoneOK(m, zs[i])
  }

  /** The zones tile the capacity: all of zone_size, but for a shorter last one. */
  ghost predicate Tiling(zs: seq<Zone>, zoneSize: nat, capacity: nat) {
    && 0 < zoneSize
    && 0 < |zs| < TWO_32
    && capacity < TWO_64
    && (|zs| - 1) * zoneSize < capacity <= |zs| * zoneSize
    && forall i :: 0 <= i < |zs| ==> zs[i].start == i * zoneSize && zs[i].len == Min(zoneSize, capacity - i * zoneSize)
  }

  ghost predicate DevOK(d: Dev) {
    && Tiling(d.zones, d.zoneSize, d.capacity)
    && AllOK(d.model, d.zones)
    && |d.store| == d.capacity
  }

  // ---- counting zones by condition ----

  function Count(zs: seq<Zone>, c: Cond): nat {
    if zs == [] then 0 else Count(zs[..|zs| - 1], c) + Has(zs[|zs| - 1], c)
  }

  function Has(z: Zone, c: Cond): nat {
    if z.cond == c then 1 else 0
  }

  lemma {:induction false} CountUpdate(zs: seq<Zone>, i: nat, z: Zone, c: Cond)
    requires i < |zs|
    ensures Count(zs[i := z], c) == Count(zs, c) - Has(zs[i], c) + Has(z, c)
  {
    var n := |zs| - 1;
    if i == n {
      assert zs[i := z][..n] == zs[..n];
    } else {
      assert zs[i := z][..n] == zs[..n][i := z];
      CountUpdate(zs[..n], i, z, c);
    }
  }

  lemma {:induction false} CountIsPositive(zs: seq<Zone>, c: Cond)
    ensures Count(zs, c) > 0 <==> exists i :: 0 <= i < |zs| && zs[i].cond == c
  {
    if zs != [] {
      var n := |zs| - 1;
      CountIsPositive(zs[..n], c);
      assert forall i :: 0 <= i < n ==> zs[..n][i] == zs[i];
    }
  }

  /** No zone is counted under two conditions. */
  lemma {:induction false} CountBothBounded(zs: seq<Zone>, c: Cond, e: Cond)
    requires c != e
    ensures Count(zs, c) + Count(zs, e) <= |zs|
  {
    if zs != [] { CountBothBounded(zs[..|zs| - 1], c, e); }
  }

  /** Zones open in either way. */
  function OpenCount(zs: seq<Zone>): nat {
    Count(zs, ImpOpen) + Count(zs, ExpOpen)
  }

  /** Implicitly open zones with data, the ones eviction turns CLOSED and not EMPTY. */
  function DataCount(zs: seq<Zone>): nat {
    if zs == [] then 0 else DataCount(zs[..|zs| - 1]) + HasData(zs[|zs| - 1])
  }

  function HasData(z: Zone): nat {
    if z.cond == ImpOpen && z.wp != z.start then 1 else 0
  }

  lemma {:induction false} DataUpdate(zs: seq<Zone>, i: nat, z: Zone)
    requires i < |zs|
    ensures DataCount(zs[i := z]) == DataCount(zs) - HasData(zs[i]) + HasData(z)
  {
    var n := |zs| - 1;
    if i == n {
      assert zs[i := z][..n] == zs[..n];
    } else {
      assert zs[i := z][..n] == zs[..n][i := z];
      DataUpdate(zs[..n], i, z);
    }
  }

  // ---- single zone transitions ----

  /** __zbc_close_zone */
  function CloseZ(z: Zone): Zone {
    if IsConv(z) || !IsOpen(z) then z
    else z.(cond := if z.wp == z.start then Empty else Closed)
  }

  /** __zbc_finish_zone */
  function FinishZ(z: Zone, empty: bool): Zone {
    if IsConv(z) then z
    else if z.cond == Closed || IsOpen(z) || (empty && z.cond == Empty) then
      z.(wp := End(z), cond := Full, nonSeq := false, reset := false)
    else z
  }

  /** __zbc_reset_wp */
  function ResetZ(z: Zone): Zone {
    if IsConv(z) then z else z.(wp := z.start, cond := Empty, nonSeq := false, reset := false)
  }

  lemma TransitionsOK(m: Model, z: Zone, empty: bool)
    requires ZoneOK(m, z)
    ensures ZoneOK(m, CloseZ(z)) && ZoneOK(m, FinishZ(z, empty)) && ZoneOK(m, ResetZ(z))
  {
  }

  // ---- opening, with eviction of an implicitly open zone ----

  /** The first implicitly open zone, or |zs|. */
  function FirstImp(zs: seq<Zone>): (i: nat)
    ensures i <= |zs|
    ensures i < |zs| ==> zs[i].cond == ImpOpen
    ensures forall k :: 0 <= k < i ==> zs[k].cond != ImpOpen
  {
    if zs == [] then 0 else if zs[0].cond == ImpOpen then 0 else FirstImp(zs[1..]) + 1
  }

  /** __zbc_close_imp_open_zone */
  function Evict(zs: seq<Zone>): (r: seq<Zone>)
    ensures |r| == |zs|
  {
    var v := FirstImp(zs);
    if v < |zs| then zs[v := CloseZ(zs[v])] else zs
  }

  function Opened(explicit: bool): Cond { if explicit then ExpOpen else ImpOpen }

  /** __zbc_open_zone on zone i */
  function OpenZ(zs: seq<Zone>, limit: nat, i: nat, explicit: bool): (r: seq<Zone>)
    requires i < |zs|
    ensures |r| == |zs|
  {
    if zs[i].cond == Opened(explicit) then zs
    else
      var zs1 := if OpenCount(zs) >= limit then Evict(zs) else zs;
      zs1[i := zs1[i].(cond := Opened(explicit))]
  }

  /** Opening all closed zones from index i on, in order. */
  function OpenAllFrom(zs: seq<Zone>, limit: nat, i: nat): (r: seq<Zone>)
    requires i <= |zs|
    ensures |r| == |zs|
    decreases |zs| - i
  {
    if i == |zs| then zs
    else OpenAllFrom(if zs[i].cond == Closed then OpenZ(zs, limit, i, true) else zs, limit, i + 1)
  }

  lemma UpdateOK(m: Model, zs: seq<Zone>, i: nat, z: Zone)
    requires AllOK(m, zs) && i < |zs| && ZoneOK(m, z)
    ensures AllOK(m, zs[i := z])
  {
  }

  /** Evicting finds a victim whenever a zone is implicitly open, and closes exactly that one. */
  lemma EvictCounts(m: Model, zs: seq<Zone>)
    requires AllOK(m, zs)
    ensures AllOK(m, Evict(zs))
    ensures Count(Evict(zs), ExpOpen) == Count(zs, ExpOpen)
    ensures Count(Evict(zs), ImpOpen) == if Count(zs, ImpOpen) > 0 then Count(zs, ImpOpen) - 1 else 0
    ensures Count(Evict(zs), Closed) + DataCount(Evict(zs)) == Count(zs, Closed) + DataCount(zs)
  {
    hide OpenZ, OpenAllFrom, FinishZ, ResetZ;
    var v := FirstImp(zs);
    CountIsPositive(zs, ImpOpen);
    if v < |zs| {
      CountUpdate(zs, v, CloseZ(zs[v]), ImpOpen);
      CountUpdate(zs, v, CloseZ(zs[v]), ExpOpen);
      CountUpdate(zs, v, CloseZ(zs[v]), Closed);
      DataUpdate(zs, v, CloseZ(zs[v]));
      TransitionsOK(m, zs[v], false);
      UpdateOK(m, zs, v, CloseZ(zs[v]));
    }
  }

  /** The victim is never the zone being opened. */
  lemma EvictOther(zs: seq<Zone>, i: nat)
    requires i < |zs| && zs[i].cond != ImpOpen
    ensures Evict(zs)[i] == zs[i]
  {
  }

  function AfterEvict(zs: seq<Zone>, limit: nat): nat {
    if OpenCount(zs) >= limit && Count(zs, ImpOpen) > 0 then Count(zs, ImpOpen) - 1 else Count(zs, ImpOpen)
  }

  /** Opening a sequential zone that is not open: every zone stays well formed and one more is open
      in the way asked for, one fewer implicitly when the limit was reached. */
  lemma OpenCounts(m: Model, zs: seq<Zone>, limit: nat, i: nat, explicit: bool)
    requires AllOK(m, zs) && i < |zs| && !IsConv(zs[i]) && !IsOpen(zs[i])
    ensures AllOK(m, OpenZ(zs, limit, i, explicit))
    ensures Count(OpenZ(zs, limit, i, explicit), ImpOpen) == AfterEvict(zs, limit) + (if explicit then 0 else 1)
    ensures Count(OpenZ(zs, limit, i, explicit), ExpOpen) == Count(zs, ExpOpen) + (if explicit then 1 else 0)
  {
    hide Evict, Count, AllOK;
    var zs1 := if OpenCount(zs) >= limit then Evict(zs) else zs;
    EvictCounts(m, zs);
    EvictOther(zs, i);
    CountUpdate(zs1, i, zs1[i].(cond := Opened(explicit)), ImpOpen);
    CountUpdate(zs1, i, zs1[i].(cond := Opened(explicit)), ExpOpen);
    OneOK(m, zs, i);
    UpdateOK(m, zs1, i, zs1[i].(cond := Opened(explicit)));
  }

  lemma OneOK(m: Model, zs: seq<Zone>, i: nat)
    requires AllOK(m, zs) && i < |zs|
    ensures ZoneOK(m, zs[i])
  {
  }

  /** With a slot for one more explicitly open zone the limit is kept. */
  lemma OpenWithinLimit(m: Model, zs: seq<Zone>, limit: nat, i: nat, explicit: bool)
    requires AllOK(m, zs) && i < |zs| && !IsConv(zs[i]) && !IsOpen(zs[i])
    requires OpenCount(zs) <= limit && Count(zs, ExpOpen) < limit
    ensures OpenCount(OpenZ(zs, limit, i, explicit)) <= limit
  {
    hide Evict, OpenZ, Count, AllOK;
    OpenCounts(m, zs, limit, i, explicit);
  }
}
