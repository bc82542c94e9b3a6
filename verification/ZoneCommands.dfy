/** What the zone management and write commands do to a zoned device, as functions on values, and
    the properties every one of them keeps. */
module ZoneCommands {
  import opened Common
  import opened Zones

  // ---- finding a zone ----

  function Where(d: Dev, lba: nat): nat
    requires d.zoneSize > 0
  {
    lba / d.zoneSize
  }

  /** zbc_get_zone: the index of the zone, or |zones| for no zone. The zone number is 32 bits wide. */
  function GetZone(d: Dev, lba: nat, lowest: bool): nat
    requires d.zoneSize > 0
  {
    var zno := Where(d, lba) % TWO_32;
    if zno >= |d.zones| || (lowest && lba != d.zones[zno].start) then |d.zones| else zno
  }

  predicate InZone(z: Zone, lba: nat) { z.start <= lba < End(z) }

  /** A block below the capacity lies in the zone its division names. */
  lemma Located(d: Dev, lba: nat)
    requires Tiling(d.zones, d.zoneSize, d.capacity) && lba < d.capacity
    ensures Where(d, lba) < |d.zones| && InZone(d.zones[Where(d, lba)], lba)
  {
    WhereBounds(lba, d.zoneSize);
    var q := Where(d, lba);
    hide Where;
    if q >= |d.zones| { MulLe(|d.zones|, q, d.zoneSize); }
    assert d.zones[q].start == q * d.zoneSize;
  }

  lemma WhereBounds(lba: nat, size: nat)
    requires size > 0
    ensures lba / size * size <= lba < lba / size * size + size
  {
  }

  /** No other zone holds the block. */
  lemma OnlyZone(d: Dev, lba: nat, j: nat)
    requires Tiling(d.zones, d.zoneSize, d.capacity)
    requires j < |d.zones| && InZone(d.zones[j], lba)
    ensures Where(d, lba) == j && lba < d.capacity
  {
    Adjacent(d, j);
    Quotient(lba, j, lba - j * d.zoneSize, d.zoneSize);
  }

  /** Zones follow one another without gap and end at the capacity. */
  lemma Adjacent(d: Dev, i: nat)
    requires Tiling(d.zones, d.zoneSize, d.capacity) && i < |d.zones|
    ensures End(d.zones[i]) == if i + 1 < |d.zones| then d.zones[i + 1].start else d.capacity
    ensures d.zones[i].start < End(d.zones[i]) <= d.capacity
  {
    var n := |d.zones|;
    if i + 1 < n {
      MulLe(i + 1, n - 1, d.zoneSize);
      assert d.zones[i + 1].start == i * d.zoneSize + d.zoneSize;
    } else {
      assert n * d.zoneSize == i * d.zoneSize + d.zoneSize;
    }
  }

  /** zbc_get_zone finds the one zone that holds a block; asked for a zone start it finds that zone
      for its first block only; the capacity itself starts no zone. */
  lemma GetZoneFinds(d: Dev, lba: nat, lowest: bool, i: nat)
    requires Tiling(d.zones, d.zoneSize, d.capacity) && lba <= d.capacity && i < |d.zones|
    requires lowest || lba < d.capacity
    ensures GetZone(d, lba, lowest) == i <==> InZone(d.zones[i], lba) && (lowest ==> lba == d.zones[i].start)
  {
    hide Tiling;
    TilingFacts(d, i);
    if InZone(d.zones[i], lba) {
      OnlyZone(d, lba, i);
    } else if lba < d.capacity {
      Located(d, lba);
    }
  }

  lemma TilingFacts(d: Dev, i: nat)
    requires Tiling(d.zones, d.zoneSize, d.capacity) && i < |d.zones|
    ensures 0 < d.zoneSize && 0 < |d.zones| < TWO_32 && d.capacity < TWO_64
    ensures d.zones[i].start < End(d.zones[i]) <= d.capacity
  {
    Adjacent(d, i);
  }

  // ---- OPEN, CLOSE, FINISH ZONE and RESET WP ----

  datatype Action = OpenAction | CloseAction | FinishAction | ResetAction

  /** What CLOSE, FINISH and RESET WP with the ALL bit do to one zone. */
  function Sweep(a: Action, z: Zone): Zone {
    match a
    case FinishAction => FinishZ(z, false)
    case ResetAction => ResetZ(z)
    case _ => CloseZ(z)
  }

  function SweepAll(a: Action, zs: seq<Zone>): seq<Zone> {
    seq(|zs|, i requires 0 <= i < |zs| => Sweep(a, zs[i]))
  }

  predicate FitsLimit(d: Dev) { Count(d.zones, ExpOpen) + Count(d.zones, Closed) <= d.limit }

  /** The command with the ALL bit. OPEN compares explicitly open and closed zones with the limit. */
  function AllCommand(d: Dev, a: Action): Outcome {
    if !a.OpenAction? then Outcome(d.(zones := SweepAll(a, d.zones)), Ok)
    else if !FitsLimit(d) then Outcome(d, InsufficientResources)
    else Outcome(d.(zones := OpenAllFrom(d.zones, d.limit, 0)), Ok)
  }

  /** The command on sequential zone i. */
  function OneCommand(d: Dev, a: Action, i: nat): Outcome
    requires i < |d.zones|
  {
    var z := d.zones[i];
    match a
    case CloseAction => Outcome(d.(zones := d.zones[i := CloseZ(z)]), Ok)
    case FinishAction => Outcome(d.(zones := d.zones[i := FinishZ(z, true)]), Ok)
    case ResetAction => Outcome(d.(zones := d.zones[i := ResetZ(z)]), Ok)
    case OpenAction =>
      if z.cond == ExpOpen || z.cond == Full then Outcome(d, Ok)
      else if Count(d.zones, ExpOpen) + 1 > d.limit then Outcome(d, InsufficientResources)
      else Outcome(d.(zones := OpenZ(d.zones[i := CloseZ(z)], d.limit, i, true)), Ok)
  }

  /** The command on the zone that starts at lba. */
  function LbaCommand(d: Dev, a: Action, lba: nat): Outcome
    requires d.zoneSize > 0
  {
    if lba > d.capacity then Outcome(d, LbaOutOfRange)
    else
      var i := GetZone(d, lba, true);
      if i == |d.zones| || IsConv(d.zones[i]) then Outcome(d, InvalidField)
      else OneCommand(d, a, i)
  }

  predicate WithinLimit(d: Dev) { OpenCount(d.zones) <= d.limit }

  /** A zone keeps its extent and type. */
  predicate SameZone(z: Zone, w: Zone) { w.start == z.start && w.len == z.len && w.ztype == z.ztype }

  ghost predicate SameZones(zs: seq<Zone>, ws: seq<Zone>) {
    |ws| == |zs| && forall i :: 0 <= i < |zs| ==> SameZone(zs[i], ws[i])
  }

  lemma TilingKept(d: Dev, ws: seq<Zone>)
    requires DevOK(d) && SameZones(d.zones, ws) && AllOK(d.model, ws)
    ensures DevOK(d.(zones := ws))
  {
    hide AllOK;
  }

  lemma OneKept(d: Dev, i: nat, z: Zone)
    requires DevOK(d) && i < |d.zones| && SameZone(d.zones[i], z) && ZoneOK(d.model, z)
    ensures DevOK(d.(zones := d.zones[i := z]))
  {
    hide Tiling, ZoneOK;
    UpdateOK(d.model, d.zones, i, z);
    TilingKept(d, d.zones[i := z]);
  }

  lemma EvictSame(zs: seq<Zone>)
    ensures SameZones(zs, Evict(zs))
  {
  }

  lemma OpenSame(zs: seq<Zone>, limit: nat, i: nat, explicit: bool)
    requires i < |zs|
    ensures SameZones(zs, OpenZ(zs, limit, i, explicit))
  {
    hide Evict, OpenCount;
    EvictSame(zs);
  }

  /** Opening one zone of a device keeps it well formed. */
  lemma OpenKept(d: Dev, i: nat, explicit: bool)
    requires DevOK(d) && i < |d.zones| && !IsConv(d.zones[i]) && !IsOpen(d.zones[i])
    ensures DevOK(d.(zones := OpenZ(d.zones, d.limit, i, explicit)))
  {
    hide Tiling, ZoneOK, OpenZ, AllOK, Count;
    OpenCounts(d.model, d.zones, d.limit, i, explicit);
    OpenSame(d.zones, d.limit, i, explicit);
    TilingKept(d, OpenZ(d.zones, d.limit, i, explicit));
  }

  /** What a change of zone i to a condition that is not open does to the count of open zones. */
  lemma NotMoreOpen(zs: seq<Zone>, i: nat, z: Zone)
    requires i < |zs| && (!IsOpen(z) || z.cond == zs[i].cond)
    ensures OpenCount(zs[i := z]) <= OpenCount(zs)
    ensures Count(zs[i := z], ExpOpen) <= Count(zs, ExpOpen)
    ensures zs[i].cond != ExpOpen && z.cond != ExpOpen ==> Count(zs[i := z], ExpOpen) == Count(zs, ExpOpen)
  {
    CountUpdate(zs, i, z, ImpOpen);
    CountUpdate(zs, i, z, ExpOpen);
  }

  lemma SweptOK(m: Model, a: Action, z: Zone)
    requires ZoneOK(m, z)
    ensures ZoneOK(m, Sweep(a, z)) && SameZone(z, Sweep(a, z)) && (!IsOpen(Sweep(a, z)) || Sweep(a, z) == z)
    ensures !IsOpen(Sweep(a, z))
  {
  }

  lemma {:induction false} NoneOpen(zs: seq<Zone>)
    requires forall i :: 0 <= i < |zs| ==> !IsOpen(zs[i])
    ensures OpenCount(zs) == 0
  {
    CountIsPositive(zs, ImpOpen);
    CountIsPositive(zs, ExpOpen);
  }

  /** Close, finish and reset of all zones: no zone is left open. */
  lemma SweepKept(d: Dev, a: Action)
    requires DevOK(d)
    ensures DevOK(d.(zones := SweepAll(a, d.zones))) && OpenCount(SweepAll(a, d.zones)) == 0
  {
    hide Tiling, ZoneOK, Sweep, OpenCount, SameZone, IsOpen;
    forall i | 0 <= i < |d.zones|
      ensures ZoneOK(d.model, Sweep(a, d.zones[i])) && SameZone(d.zones[i], Sweep(a, d.zones[i]))
      ensures !IsOpen(Sweep(a, d.zones[i]))
    {
      SweptOK(d.model, a, d.zones[i]);
    }
    NoneOpen(SweepAll(a, d.zones));
    TilingKept(d, SweepAll(a, d.zones));
  }

  /** A command on one zone keeps the device well formed and the open limit. */
  lemma OneCommandKeeps(d: Dev, a: Action, i: nat)
    requires DevOK(d) && i < |d.zones| && !IsConv(d.zones[i])
    ensures DevOK(OneCommand(d, a, i).dev)
    ensures WithinLimit(d) ==> WithinLimit(OneCommand(d, a, i).dev)
  {
    hide Tiling, AllOK, OpenZ, Count;
    var z := d.zones[i];
    OneOK(d.model, d.zones, i);
    TransitionsOK(d.model, z, true);
    match a
    case CloseAction => OneKept(d, i, CloseZ(z)); NotMoreOpen(d.zones, i, CloseZ(z));
    case FinishAction => OneKept(d, i, FinishZ(z, true)); NotMoreOpen(d.zones, i, FinishZ(z, true));
    case ResetAction => OneKept(d, i, ResetZ(z)); NotMoreOpen(d.zones, i, ResetZ(z));
    case OpenAction =>
      OneKept(d, i, CloseZ(z));
      NotMoreOpen(d.zones, i, CloseZ(z));
      if z.cond != ExpOpen && z.cond != Full && Count(d.zones, ExpOpen) + 1 <= d.limit {
        OpenKept(d.(zones := d.zones[i := CloseZ(z)]), i, true);
        if WithinLimit(d) { OpenWithinLimit(d.model, d.zones[i := CloseZ(z)], d.limit, i, true); }
      }
  }

  // ---- OPEN ZONE with the ALL bit ----

  /** Zones that are explicitly open, closed, or would become closed if they were evicted. */
  function Claims(zs: seq<Zone>): nat { Count(zs, ExpOpen) + Count(zs, Closed) + DataCount(zs) }

  /** Opening a closed zone, eviction included, moves zones between these three kinds. */
  lemma OpenConserves(m: Model, zs: seq<Zone>, limit: nat, i: nat)
    requires AllOK(m, zs) && i < |zs| && zs[i].cond == Closed
    ensures AllOK(m, OpenZ(zs, limit, i, true)) && Claims(OpenZ(zs, limit, i, true)) == Claims(zs)
  {
    hide Evict, Count, DataCount, AllOK;
    var zs1 := if OpenCount(zs) >= limit then Evict(zs) else zs;
    OneOK(m, zs, i);
    EvictCounts(m, zs);
    EvictOther(zs, i);
    OpenCounts(m, zs, limit, i, true);
    CountUpdate(zs1, i, zs1[i].(cond := ExpOpen), ExpOpen);
    CountUpdate(zs1, i, zs1[i].(cond := ExpOpen), Closed);
    DataUpdate(zs1, i, zs1[i].(cond := ExpOpen));
  }

  lemma ClosedClaims(m: Model, zs: seq<Zone>, i: nat)
    requires AllOK(m, zs) && i < |zs| && zs[i].cond == Closed
    ensures Count(zs, ExpOpen) < Claims(zs) && !IsConv(zs[i])
  {
    CountIsPositive(zs, Closed);
    OneOK(m, zs, i);
  }

  lemma SameTrans(a: seq<Zone>, b: seq<Zone>, c: seq<Zone>)
    requires SameZones(a, b) && SameZones(b, c)
    ensures SameZones(a, c)
  {
  }

  /** OPEN ALL conserves the claims; it keeps the open limit when they fit in it. */
  lemma {:induction false} OpenAllKeeps(m: Model, zs: seq<Zone>, limit: nat, i: nat)
    requires AllOK(m, zs) && i <= |zs|
    ensures AllOK(m, OpenAllFrom(zs, limit, i)) && SameZones(zs, OpenAllFrom(zs, limit, i))
    ensures Claims(OpenAllFrom(zs, limit, i)) == Claims(zs)
    ensures OpenCount(zs) <= limit && Claims(zs) <= limit ==> OpenCount(OpenAllFrom(zs, limit, i)) <= limit
    decreases |zs| - i
  {
    hide AllOK, OpenZ, Claims, OpenCount;
    if i < |zs| {
      if zs[i].cond == Closed {
        var ws := OpenZ(zs, limit, i, true);
        OpenConserves(m, zs, limit, i);
        OpenSame(zs, limit, i, true);
        ClosedClaims(m, zs, i);
        if OpenCount(zs) <= limit && Claims(zs) <= limit { OpenWithinLimit(m, zs, limit, i, true); }
        OpenAllKeeps(m, ws, limit, i + 1);
        SameTrans(zs, ws, OpenAllFrom(ws, limit, i + 1));
      } else {
        OpenAllKeeps(m, zs, limit, i + 1);
      }
    }
  }

  /** Every implicitly open zone holds data and lies above every closed zone. */
  ghost predicate Lined(zs: seq<Zone>) {
    && (forall k :: 0 <= k < |zs| && zs[k].cond == ImpOpen ==> zs[k].wp != zs[k].start)
    && (forall j, k :: 0 <= j < |zs| && 0 <= k < |zs| && zs[j].cond == Closed && zs[k].cond == ImpOpen ==> j < k)
  }

  ghost predicate NoneClosedBelow(zs: seq<Zone>, i: nat) {
    forall k :: 0 <= k < |zs| && k < i ==> zs[k].cond != Closed
  }

  lemma OpenLined(zs: seq<Zone>, limit: nat, i: nat)
    requires Lined(zs) && i < |zs| && zs[i].cond == Closed && NoneClosedBelow(zs, i)
    ensures Lined(OpenZ(zs, limit, i, true)) && NoneClosedBelow(OpenZ(zs, limit, i, true), i + 1)
  {
    hide OpenCount, Count;
  }

  lemma {:induction false} LinedCounts(zs: seq<Zone>)
    requires forall k :: 0 <= k < |zs| && zs[k].cond == ImpOpen ==> zs[k].wp != zs[k].start
    ensures DataCount(zs) == Count(zs, ImpOpen)
  {
    if zs != [] {
      assert forall k :: 0 <= k < |zs| - 1 ==> zs[..|zs| - 1][k] == zs[k];
      LinedCounts(zs[..|zs| - 1]);
    }
  }

  /** Then OPEN ALL ends with as many open zones as were open or closed before: every zone that
      eviction closes is reopened, explicitly. */
  lemma {:induction false} OpenAllReopens(m: Model, zs: seq<Zone>, limit: nat, i: nat)
    requires AllOK(m, zs) && i <= |zs| && Lined(zs) && NoneClosedBelow(zs, i)
    ensures OpenCount(OpenAllFrom(zs, limit, i)) == OpenCount(zs) + Count(zs, Closed)
    decreases |zs| - i
  {
    hide AllOK, Lined, NoneClosedBelow, OpenZ, Count;
    LinedClaims(zs);
    if i == |zs| {
      NoneClosed(zs);
    } else if zs[i].cond == Closed {
      var ws := OpenZ(zs, limit, i, true);
      OpenConserves(m, zs, limit, i);
      OpenLined(zs, limit, i);
      LinedClaims(ws);
      OpenAllReopens(m, ws, limit, i + 1);
    } else {
      StillNone(zs, i);
      OpenAllReopens(m, zs, limit, i + 1);
    }
  }

  lemma StillNone(zs: seq<Zone>, i: nat)
    requires i < |zs| && zs[i].cond != Closed && NoneClosedBelow(zs, i)
    ensures NoneClosedBelow(zs, i + 1)
  {
  }

  lemma NoneClosed(zs: seq<Zone>)
    requires NoneClosedBelow(zs, |zs|)
    ensures Count(zs, Closed) == 0
  {
    CountIsPositive(zs, Closed);
  }

  lemma LinedClaims(zs: seq<Zone>)
    requires Lined(zs)
    ensures Claims(zs) == OpenCount(zs) + Count(zs, Closed)
  {
    LinedCounts(zs);
  }

  lemma NoneBelowZero(zs: seq<Zone>)
    ensures NoneClosedBelow(zs, 0)
  {
  }
}
