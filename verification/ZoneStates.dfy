/** The condition in which each command leaves each zone, with the status it returns, and under which
    reporting option the zone is then listed. */
module ZoneStates {
  import opened Common
  import opened Zones
  import opened ZoneCommands
  import opened ZoneData
  import opened ZoneFormat
  import opened ZoneReport
  import opened ZoneRuns

  /** The command on the zone with index i. */
  function On(d: Dev, a: Action, i: nat): Op
    requires i < |d.zones|
  {
    Manage(a, false, d.zones[i].start)
  }

  lemma OnZone(d: Dev, a: Action, i: nat)
    requires DevOK(d) && i < |d.zones|
    ensures Step(d, On(d, a, i)) == if IsConv(d.zones[i]) then Outcome(d, InvalidField) else OneCommand(d, a, i)
  {
    hide AllOK, Tiling, OneCommand, GetZone;
    TilingHolds(d);
    TilingFacts(d, i);
    GetZoneFinds(d, d.zones[i].start, true, i);
  }

  lemma TilingHolds(d: Dev)
    requires DevOK(d)
    ensures Tiling(d.zones, d.zoneSize, d.capacity)
  {
  }

  // ---- commands on one zone ----

  /** Closed by the command, or by an eviction. */
  function Shut(z: Zone): Zone { z.(cond := if z.wp == z.start then Empty else Closed) }

  /** Open zones other than zone i. */
  function OthersOpen(d: Dev, i: nat): int
    requires i < |d.zones|
  {
    OpenCount(d.zones) - if IsOpen(d.zones[i]) then 1 else 0
  }

  /** Zone k is the first implicitly open one, zone i aside. */
  ghost predicate FirstOther(zs: seq<Zone>, i: nat, k: nat) {
    k < |zs| && k != i && zs[k].cond == ImpOpen && forall m :: 0 <= m < k && m != i ==> zs[m].cond != ImpOpen
  }

  /** OPEN ZONE of a sequential zone succeeds exactly when it is full, is explicitly open, or a slot is left,
      and changes nothing otherwise. A full zone stays full, any other is then explicitly open. No other zone
      changes but one: when all slots are taken and the zone was to be opened, the first implicitly open
      zone is closed. */
  lemma OpenLeaves(d: Dev, i: nat)
    requires DevOK(d) && i < |d.zones| && !IsConv(d.zones[i])
    ensures var z, o := d.zones[i], Step(d, On(d, OpenAction, i));
            && (o.status == Ok <==> z.cond == Full || z.cond == ExpOpen || Count(d.zones, ExpOpen) < d.limit)
            && (o.status != Ok ==> o == Outcome(d, InsufficientResources))
            && |o.dev.zones| == |d.zones| && o.dev == d.(zones := o.dev.zones)
            && (o.status == Ok ==> o.dev.zones[i] == if z.cond == Full then z else z.(cond := ExpOpen))
            && forall k :: 0 <= k < |d.zones| && k != i ==>
                 o.dev.zones[k] ==
                 if o.status == Ok && z.cond != Full && z.cond != ExpOpen && OthersOpen(d, i) >= d.limit
                    && FirstOther(d.zones, i, k)
                 then Shut(d.zones[k]) else d.zones[k]
  {
    hide AllOK, Tiling, Count;
    OnZone(d, OpenAction, i);
    OneOK(d.model, d.zones, i);
    var z, ws := d.zones[i], d.zones[i := CloseZ(d.zones[i])];
    if z.cond != Full && z.cond != ExpOpen && Count(d.zones, ExpOpen) < d.limit {
      CountUpdate(d.zones, i, CloseZ(z), ImpOpen);
      CountUpdate(d.zones, i, CloseZ(z), ExpOpen);
      Evicted(d, ws, i);
    }
  }

  lemma Evicted(d: Dev, ws: seq<Zone>, i: nat)
    requires DevOK(d) && i < |d.zones| && ws == d.zones[i := CloseZ(d.zones[i])]
    requires !IsConv(d.zones[i]) && d.zones[i].cond != Full
    ensures |Evict(ws)| == |d.zones| && Evict(ws)[i] == CloseZ(d.zones[i])
    ensures forall k :: 0 <= k < |d.zones| && k != i ==>
              Evict(ws)[k] == if FirstOther(d.zones, i, k) then Shut(d.zones[k]) else d.zones[k]
  {
    hide Tiling;
    var v := FirstImp(ws);
    if v < |ws| { OneOK(d.model, d.zones, v); }
  }

  /** CLOSE ZONE: an open zone is closed, or empty if nothing was written; others stay as they are. */
  lemma CloseLeaves(d: Dev, i: nat)
    requires DevOK(d) && i < |d.zones| && !IsConv(d.zones[i])
    ensures var z := d.zones[i];
            Step(d, On(d, CloseAction, i)) ==
            Outcome(d.(zones := d.zones[i := if IsOpen(z) then Shut(z) else z]), Ok)
  {
    hide AllOK, Tiling;
    OnZone(d, CloseAction, i);
  }

  /** FINISH ZONE: the zone is full, whatever it was. */
  lemma FinishLeaves(d: Dev, i: nat)
    requires DevOK(d) && i < |d.zones| && !IsConv(d.zones[i])
    ensures var o := Step(d, On(d, FinishAction, i));
            && o.status == Ok && |o.dev.zones| == |d.zones|
            && o.dev.zones[i] == d.zones[i].(cond := Full, wp := End(d.zones[i]), nonSeq := o.dev.zones[i].nonSeq,
                                             reset := o.dev.zones[i].reset)
            && (d.zones[i].cond != Full ==> !o.dev.zones[i].nonSeq && !o.dev.zones[i].reset)
            && (d.zones[i].cond == Full ==> o.dev.zones[i] == d.zones[i])
            && o.dev == d.(zones := d.zones[i := o.dev.zones[i]])
  {
    hide AllOK, Tiling;
    OnZone(d, FinishAction, i);
    OneOK(d.model, d.zones, i);
  }

  /** RESET WP: the zone is empty, its pointer at its start and its flags clear. */
  lemma ResetLeaves(d: Dev, i: nat)
    requires DevOK(d) && i < |d.zones| && !IsConv(d.zones[i])
    ensures Step(d, On(d, ResetAction, i)) ==
            Outcome(d.(zones := d.zones[i := d.zones[i].(cond := Empty, wp := d.zones[i].start,
                                                         nonSeq := false, reset := false)]), Ok)
  {
    hide AllOK, Tiling;
    OnZone(d, ResetAction, i);
  }

  /** A command on any address but the start of a sequential zone changes nothing; behind the capacity the
      address is out of range, anywhere else the field is invalid. */
  lemma NoZone(d: Dev, a: Action, lba: nat)
    requires DevOK(d) && forall i :: 0 <= i < |d.zones| && d.zones[i].start == lba ==> IsConv(d.zones[i])
    ensures Step(d, Manage(a, false, lba)) == Outcome(d, if lba > d.capacity then LbaOutOfRange else InvalidField)
  {
    hide AllOK, Tiling, OneCommand, GetZone;
    TilingHolds(d);
    Sizes(d);
    if lba <= d.capacity {
      var i := GetZone(d, lba, true);
      GetZoneRange(d, lba);
      if i < |d.zones| { GetZoneFinds(d, lba, true, i); }
    }
  }

  lemma GetZoneRange(d: Dev, lba: nat)
    requires d.zoneSize > 0
    ensures GetZone(d, lba, true) <= |d.zones|
  {
  }

  // ---- commands on all zones ----

  /** With the ALL bit: CLOSE closes every open zone, FINISH fills every open or closed one but no empty one,
      RESET empties every sequential one; OPEN that fits the limit opens every closed one. */
  lemma AllLeaves(d: Dev, a: Action, k: nat)
    requires DevOK(d) && k < |d.zones| && !a.OpenAction?
    ensures var o, z := Step(d, Manage(a, true, 0)), d.zones[k];
            && o.status == Ok && |o.dev.zones| == |d.zones| && o.dev == d.(zones := o.dev.zones)
            && var w := o.dev.zones[k];
               match a
               case CloseAction => w == if IsOpen(z) then Shut(z) else z
               case FinishAction =>
                 w == if IsOpen(z) || z.cond == Closed then
                        z.(cond := Full, wp := End(z), nonSeq := false, reset := false) else z
               case _ =>
                 w == if IsConv(z) then z
                      else z.(cond := Empty, wp := z.start, nonSeq := false, reset := false)
  {
    hide Tiling;
    OneOK(d.model, d.zones, k);
  }

  lemma OpenAllLeaves(d: Dev, k: nat)
    requires DevOK(d) && k < |d.zones| && Count(d.zones, ExpOpen) + Count(d.zones, Closed) <= d.limit
    ensures var o, z := Step(d, Manage(OpenAction, true, 0)), d.zones[k];
            && o.status == Ok && |o.dev.zones| == |d.zones| && o.dev == d.(zones := o.dev.zones)
            && match z.cond
               case Closed => o.dev.zones[k] == z.(cond := ExpOpen)
               case ImpOpen => o.dev.zones[k] in [z, Shut(z), z.(cond := ExpOpen)]
               case _ => o.dev.zones[k] == z
  {
    hide Tiling, OpenAllFrom, Count;
    OpenAllAt(d.model, d.zones, d.limit, 0, k);
  }

  lemma {:induction false} OpenAllAt(m: Model, zs: seq<Zone>, limit: nat, i: nat, k: nat)
    requires AllOK(m, zs) && i <= |zs| && k < |zs|
    ensures var z, w := zs[k], OpenAllFrom(zs, limit, i)[k];
            match z.cond
            case Closed => w == if k < i then z else z.(cond := ExpOpen)
            case ImpOpen => w in [z, Shut(z), z.(cond := ExpOpen)]
            case _ => w == z
    decreases |zs| - i
  {
    hide AllOK, Count, Evict;
    if i < |zs| {
      if zs[i].cond == Closed {
        OneOK(m, zs, i);
        OneOK(m, zs, k);
        OpenCounts(m, zs, limit, i, true);
        EvictAt(m, zs, k);
        EvictOther(zs, i);
        OpenAllAt(m, OpenZ(zs, limit, i, true), limit, i + 1, k);
      } else {
        OpenAllAt(m, zs, limit, i + 1, k);
      }
    }
  }

  lemma EvictAt(m: Model, zs: seq<Zone>, k: nat)
    requires AllOK(m, zs) && k < |zs|
    ensures Evict(zs)[k] == zs[k] || (zs[k].cond == ImpOpen && Evict(zs)[k] == Shut(zs[k]))
  {
    OneOK(m, zs, k);
  }

  // ---- WRITE ----

  /** WRITE returns, for a transfer of at least one block: out of range by 64-bit arithmetic or not, in one zone or
      not, at the write pointer where the zone requires it, with a slot for opening the zone, and in one
      segment. */
  lemma WriteStatus(d: Dev, lba: nat, n: nat, segs: seq<seq<Block>>, i: nat)
    requires DevOK(d) && lba < TWO_64 && 0 < n < TWO_32 && i < |d.zones|
    requires lba < d.capacity ==> InZone(d.zones[i], lba)
    ensures var z, o := d.zones[i], Step(d, Op.Write(lba, n, segs));
            && (Total(segs) != n ==> o == Outcome(d, TargetFailure))
            && (Total(segs) == n && lba + n > d.capacity ==> o == Outcome(d, LbaOutOfRange))
            && (Total(segs) == n && lba + n <= d.capacity ==>
                  && segs != []
                  && if lba + n > End(z) then o == Outcome(d, BoundaryViolation)
                     else if z.ztype == SeqWriteReq && lba != z.wp then
                       o == Outcome(d, if z.cond == Full then InvalidField else UnalignedWrite)
                     else if z.ztype != Conventional && !IsOpen(z) && Count(d.zones, ExpOpen) >= d.limit then
                       o == Outcome(d, InsufficientResources)
                     else if |segs[0]| == n then o.status == Ok
                     else o.status == WriteError || (o.status == InsufficientResources && segs[0] != []))
  {
    hide AllOK, Tiling, Count, OpenZ, Advance, Splice;
    Sizes(d);
    CheckRdwrExact(d, lba, n, Total(segs));
    FirstSegment(segs);
    TilingHolds(d);
    if lba < d.capacity { OnlyZone(d, lba, i); }
    TilingFacts(d, i);
  }

  /** A write that succeeds leaves its zone full if the pointer has come to the end, and otherwise open in the
      way it was, implicitly if it was not. When it had to be opened and all slots were taken, the first
      implicitly open zone is closed; no other zone changes. */
  lemma WriteLeaves(d: Dev, lba: nat, n: nat, segs: seq<seq<Block>>, i: nat)
    requires DevOK(d) && lba < TWO_64 && 0 < n < TWO_32 && i < |d.zones| && InZone(d.zones[i], lba)
    requires Step(d, Op.Write(lba, n, segs)).status == Ok
    ensures var z, e := d.zones[i], Step(d, Op.Write(lba, n, segs)).dev;
            && |e.zones| == |d.zones|
            && if z.ztype == Conventional then e.zones[i] == z
               else
                 var wp := Max(z.wp, lba + n);
                 var cond := if wp == End(z) then Full else if z.cond == ExpOpen then ExpOpen else ImpOpen;
                 e.zones[i] == z.(wp := wp, cond := cond)
    ensures var z, e := d.zones[i], Step(d, Op.Write(lba, n, segs)).dev;
            forall k :: 0 <= k < |d.zones| && k != i ==>
              e.zones[k] ==
              if z.ztype != Conventional && !IsOpen(z) && OpenCount(d.zones) >= d.limit && FirstOther(d.zones, i, k)
              then Shut(d.zones[k]) else d.zones[k]
  {
    hide AllOK, Tiling, Count, Splice, Ready, FirstOther, Shut;
    Sizes(d);
    CheckRdwrExact(d, lba, n, Total(segs));
    FirstSegment(segs);
    TilingHolds(d);
    TilingFacts(d, i);
    OnlyZone(d, lba, i);
    OneOK(d.model, d.zones, i);
    ReadyAt(d, i);
  }

  lemma ReadyAt(d: Dev, i: nat)
    requires DevOK(d) && i < |d.zones|
    ensures |Ready(d, i).dev.zones| == |d.zones| && Ready(d, i).dev.store == d.store
    ensures var z := d.zones[i];
            Ready(d, i).status == Ok ==>
              && Ready(d, i).dev.zones[i] == (if IsConv(z) || IsOpen(z) then z else z.(cond := ImpOpen))
              && forall k :: 0 <= k < |d.zones| && k != i ==>
                   Ready(d, i).dev.zones[k] ==
                   if !IsConv(z) && !IsOpen(z) && OpenCount(d.zones) >= d.limit && FirstOther(d.zones, i, k)
                   then Shut(d.zones[k]) else d.zones[k]
  {
    hide AllOK, Tiling, Count;
    var z := d.zones[i];
    if !IsConv(z) && !IsOpen(z) {
      var v := FirstImp(d.zones);
      if v < |d.zones| { OneOK(d.model, d.zones, v); }
    }
  }

  /** Closing the device and opening its file again closes every open zone and changes nothing else. */
  lemma ReopenLeaves(d: Dev, k: nat)
    requires DevOK(d) && k < |d.zones|
    ensures var o, z := Step(d, Reopen), d.zones[k];
            && o.status == Ok && |o.dev.zones| == |d.zones| && o.dev == d.(zones := o.dev.zones)
            && o.dev.zones[k] == if IsOpen(z) then Shut(z) else z
  {
    hide Tiling;
    OneOK(d.model, d.zones, k);
  }

  // ---- FORMAT ----

  /** Zones of the configured size from block 0 on, the last one as long as is left. The configured number of
      them, or by default one in a hundred and at least one, are conventional, the others empty. The
      limit is the configured one, but at most half of the sequential zones, and at least one. */
  lemma FormatLeaves(c: Config, data: seq<Block>, i: nat)
    requires ConfigOK(c) && Format(c, data).Formatted?
    ensures var d, conv := Format(c, data).dev, Format(c, data).conv;
            && d.zoneSize == c.zoneBytes / c.lbaSize && d.capacity == c.devSize / c.lbaSize && d.store == data
            && d.model == c.model && 0 < |d.zones|
            && (|d.zones| - 1) * d.zoneSize < d.capacity <= |d.zones| * d.zoneSize
            && conv == (if c.conv.ConvNum? then c.conv.num else Max(1, |d.zones| / 100))
            && d.limit == (if |d.zones| - conv < 2 then 1 else Min(c.open, (|d.zones| - conv) / 2))
            && (i < |d.zones| ==>
                  var z := d.zones[i];
                  && z.start == i * d.zoneSize && z.len == Min(d.zoneSize, d.capacity - i * d.zoneSize)
                  && !z.nonSeq && !z.reset
                  && if i < conv then z.ztype == Conventional && z.cond == NotWp
                     else z.ztype == (if c.model == HostAware then SeqWritePref else SeqWriteReq) && z.cond == Empty
                          && z.wp == z.start)
  {
    hide FormatZones, ZoneCount, PowerOfTwo;
    ZoneSizePower(c);
    var d, conv := Format(c, data).dev, Format(c, data).conv;
    CountOfZones(d.capacity, d.zoneSize);
    FormatCount(d.model, d.capacity, d.zoneSize, conv);
    if i < |d.zones| {
      NextStart(d.model, d.capacity, d.zoneSize, conv, i);
    }
  }

  // ---- REPORT ZONES ----

  /** The list holds zones of condition c only, and as many as there are. */
  ghost predicate ListsAll(zs: seq<Zone>, ro: nat, c: Cond) {
    var ms := Matches(zs, 0, ro);
    (forall k :: 0 <= k < |ms| ==> ms[k].cond == c) && |ms| == Count(zs, c)
  }

  lemma {:induction false} CondListed(zs: seq<Zone>, i: nat, ro: nat, c: Cond)
    requires i <= |zs| && forall k :: 0 <= k < |zs| ==> (ShouldReport(zs[k], ro) <==> zs[k].cond == c)
    ensures var ms := Matches(zs, i, ro);
            (forall k :: 0 <= k < |ms| ==> ms[k].cond == c) && Count(zs[..i], c) + |ms| == Count(zs, c)
    decreases |zs| - i
  {
    hide ShouldReport;
    if i < |zs| {
      CondListed(zs, i + 1, ro, c);
      assert zs[..i + 1][..i] == zs[..i];
    } else {
      assert zs[..i] == zs;
    }
  }

  /** Under each option for a condition exactly the zones of that condition are listed. */
  lemma ConditionsListed(zs: seq<Zone>)
    ensures ListsAll(zs, 0x01, Empty) && ListsAll(zs, 0x02, ImpOpen) && ListsAll(zs, 0x03, ExpOpen)
    ensures ListsAll(zs, 0x04, Closed) && ListsAll(zs, 0x05, Full) && ListsAll(zs, 0x06, ReadOnly)
    ensures ListsAll(zs, 0x07, Offline) && ListsAll(zs, 0x3f, NotWp)
  {
    hide ListsAll;
    OneListed(zs, 0x01, Empty);
    OneListed(zs, 0x02, ImpOpen);
    OneListed(zs, 0x03, ExpOpen);
    OneListed(zs, 0x04, Closed);
    OneListed(zs, 0x05, Full);
    OneListed(zs, 0x06, ReadOnly);
    OneListed(zs, 0x07, Offline);
    OneListed(zs, 0x3f, NotWp);
  }

  lemma OneListed(zs: seq<Zone>, ro: nat, c: Cond)
    requires forall k :: 0 <= k < |zs| ==> (ShouldReport(zs[k], ro) <==> zs[k].cond == c)
    ensures ListsAll(zs, ro, c)
  {
    CondListed(zs, 0, ro, c);
    assert zs[..0] == [];
  }

  lemma {:induction false} CondsCover(zs: seq<Zone>)
    ensures |zs| == Count(zs, Empty) + Count(zs, ImpOpen) + Count(zs, ExpOpen) + Count(zs, Closed) + Count(zs, Full)
                    + Count(zs, ReadOnly) + Count(zs, Offline) + Count(zs, NotWp)
  {
    if zs != [] { CondsCover(zs[..|zs| - 1]); }
  }

  /** So every zone is listed under exactly one of those options; under option 0 all zones are, and under the
      two flag options those with the flag. */
  lemma ListedOnce(zs: seq<Zone>)
    ensures |zs| == |Matches(zs, 0, 0x01)| + |Matches(zs, 0, 0x02)| + |Matches(zs, 0, 0x03)| + |Matches(zs, 0, 0x04)|
                    + |Matches(zs, 0, 0x05)| + |Matches(zs, 0, 0x06)| + |Matches(zs, 0, 0x07)| + |Matches(zs, 0, 0x3f)|
    ensures Matches(zs, 0, 0x00) == zs
    ensures forall z :: z in Matches(zs, 0, 0x10) <==> z in zs && z.reset
    ensures forall z :: z in Matches(zs, 0, 0x11) <==> z in zs && z.nonSeq
  {
    hide Matches, Count, ShouldReport;
    ConditionsListed(zs);
    CondsCover(zs);
    AllListed(zs, 0);
    forall z ensures z in Matches(zs, 0, 0x10) <==> z in zs && z.reset { FlagListed(zs, 0, 0x10, z); }
    forall z ensures z in Matches(zs, 0, 0x11) <==> z in zs && z.nonSeq { FlagListed(zs, 0, 0x11, z); }
  }

  /** The options that are refused are those under which no zone could ever be listed. */
  lemma OptionsExact(ro: nat)
    ensures !ValidOption(ro) <==> forall z: Zone :: !ShouldReport(z, ro)
  {
    var z := Zone(0, 0, 0, Conventional, NotWp, true, true);
    assert ShouldReport(z, ro) || !ShouldReport(z, ro);
    assert ro == 0x01 ==> ShouldReport(z.(cond := Empty), ro);
    assert ro == 0x02 ==> ShouldReport(z.(cond := ImpOpen), ro);
    assert ro == 0x03 ==> ShouldReport(z.(cond := ExpOpen), ro);
    assert ro == 0x04 ==> ShouldReport(z.(cond := Closed), ro);
    assert ro == 0x05 ==> ShouldReport(z.(cond := Full), ro);
    assert ro == 0x06 ==> ShouldReport(z.(cond := ReadOnly), ro);
    assert ro == 0x07 ==> ShouldReport(z.(cond := Offline), ro);
  }

  lemma {:induction false} AllListed(zs: seq<Zone>, i: nat)
    requires i <= |zs|
    ensures Matches(zs, i, 0x00) == zs[i..]
    decreases |zs| - i
  {
    if i < |zs| {
      AllListed(zs, i + 1);
      assert zs[i..] == [zs[i]] + zs[i + 1..];
    }
  }

  lemma {:induction false} FlagListed(zs: seq<Zone>, i: nat, ro: nat, z: Zone)
    requires i <= |zs| && (ro == 0x10 || ro == 0x11)
    ensures z in Matches(zs, i, ro) <==> z in zs[i..] && if ro == 0x10 then z.reset else z.nonSeq
    decreases |zs| - i
  {
    if i < |zs| {
      FlagListed(zs, i + 1, ro, z);
      assert zs[i..] == [zs[i]] + zs[i + 1..];
    }
  }

  lemma {:induction false} Member(zs: seq<Zone>, i: nat, k: nat, ro: nat)
    requires i <= k < |zs| && ShouldReport(zs[k], ro)
    ensures zs[k] in Matches(zs, i, ro)
    decreases k - i
  {
    if i < k { Member(zs, i + 1, k, ro); }
  }

  /** After a command on sequential zone i it is listed under FULL for FINISH, under EMPTY for RESET, and under
      EXPLICITLY OPEN for an OPEN that succeeds on a zone that was not full. */
  lemma ThenListed(d: Dev, i: nat)
    requires DevOK(d) && i < |d.zones| && !IsConv(d.zones[i])
    ensures var e := Step(d, On(d, FinishAction, i)).dev; i < |e.zones| && e.zones[i] in Matches(e.zones, 0, 0x05)
    ensures var e := Step(d, On(d, ResetAction, i)).dev; i < |e.zones| && e.zones[i] in Matches(e.zones, 0, 0x01)
    ensures var o := Step(d, On(d, OpenAction, i));
            o.status == Ok && d.zones[i].cond != Full ==>
              i < |o.dev.zones| && o.dev.zones[i] in Matches(o.dev.zones, 0, 0x03)
  {
    hide DevOK, Step, Matches, Count;
    FinishLeaves(d, i);
    ResetLeaves(d, i);
    OpenLeaves(d, i);
    Member(Step(d, On(d, FinishAction, i)).dev.zones, 0, i, 0x05);
    Member(Step(d, On(d, ResetAction, i)).dev.zones, 0, i, 0x01);
    var o := Step(d, On(d, OpenAction, i));
    if o.status == Ok && d.zones[i].cond != Full { Member(o.dev.zones, 0, i, 0x03); }
  }

  /** After FORMAT every sequential zone is listed under EMPTY and every conventional one under NOT WP. */
  lemma FormatListed(c: Config, data: seq<Block>)
    requires ConfigOK(c) && Format(c, data).Formatted? && Format(c, data).conv <= |Format(c, data).dev.zones|
    ensures var zs, conv := Format(c, data).dev.zones, Format(c, data).conv;
            Matches(zs, 0, 0x01) == zs[conv..] && Matches(zs, 0, 0x3f) == zs[..conv]
  {
    hide Format, Matches;
    var zs, conv := Format(c, data).dev.zones, Format(c, data).conv;
    forall i | 0 <= i < |zs| ensures zs[i].cond == if i < conv then NotWp else Empty { FormatLeaves(c, data, i); }
    ConvFirst(zs, 0, conv);
    assert zs[0..conv] == zs[..conv];
  }

  lemma {:induction false} ConvFirst(zs: seq<Zone>, i: nat, conv: nat)
    requires i <= |zs| && conv <= |zs|
    requires forall k :: 0 <= k < |zs| ==> zs[k].cond == if k < conv then NotWp else Empty
    ensures Matches(zs, i, 0x01) == (if i < conv then zs[conv..] else zs[i..])
    ensures Matches(zs, i, 0x3f) == (if i < conv then zs[i..conv] else [])
    decreases |zs| - i
  {
    if i < |zs| {
      ConvFirst(zs, i + 1, conv);
      assert i < conv ==> zs[i..conv] == [zs[i]] + zs[i + 1..conv];
      assert zs[i..] == [zs[i]] + zs[i + 1..];
    }
  }
}
