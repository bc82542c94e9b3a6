/** Whole runs of a zoned device: the zone invariant, the open limit, and the flat array of blocks
    that a host-managed device shows. */
module ZoneRuns {
  import opened Common
  import opened Zones
  import opened ZoneCommands
  import opened ZoneData
  import opened ZoneLimit

  datatype Op =
    | Manage(action: Action, all: bool, lba: nat)
    | Write(at: nat, n: nat, segs: seq<seq<Block>>)
    | Reopen

  predicate Fits(op: Op) { op.Write? ==> op.at < TWO_64 && op.n < TWO_32 }

  /** One command, or closing the device and opening its backing file again. */
  function Step(d: Dev, op: Op): Outcome
    requires DevOK(d) && Fits(op)
  {
    match op
    case Manage(a, all, lba) => if all then AllCommand(d, a) else LbaCommand(d, a, lba)
    case Write(at, n, segs) => WriteCommand(d, at, n, segs)
    case Reopen => Outcome(d.(zones := SweepAll(CloseAction, d.zones)), Ok)
  }

  // ---- management commands and the view ----

  /** Sequential zone j is named by the command. */
  predicate Hit(z: Zone, status: Status, all: bool, lba: nat) {
    status == Ok && !IsConv(z) && (all || lba == z.start)
  }

  /** The write pointer of a zone after a management command. */
  function PointerAfter(a: Action, z: Zone, status: Status, all: bool, lba: nat): nat {
    if !Hit(z, status, all, lba) then z.wp
    else
      match a
      case ResetAction => z.start
      case FinishAction => if all && z.cond == Empty then z.wp else End(z)
      case _ => z.wp
  }

  lemma {:induction false} OpenAllPointers(zs: seq<Zone>, limit: nat, i: nat)
    requires i <= |zs|
    ensures forall k :: 0 <= k < |zs| ==> OpenAllFrom(zs, limit, i)[k].wp == zs[k].wp
    decreases |zs| - i
  {
    hide OpenZ;
    if i < |zs| {
      OpenPointers(zs, limit, i, true);
      OpenAllPointers(if zs[i].cond == Closed then OpenZ(zs, limit, i, true) else zs, limit, i + 1);
    }
  }

  /** One zone under the two forms of a command. */
  lemma SweepPointer(m: Model, a: Action, z: Zone)
    requires ZoneOK(m, z)
    ensures !a.OpenAction? ==> Sweep(a, z).wp == PointerAfter(a, z, Ok, true, 0)
  {
  }

  lemma AllKeeps(d: Dev, a: Action)
    requires DevOK(d)
    ensures DevOK(AllCommand(d, a).dev) && SameZones(d.zones, AllCommand(d, a).dev.zones)
  {
    hide AllOK, Tiling, SweepAll, OpenAllFrom, Count;
    if a.OpenAction? {
      OpenAllKeeps(d.model, d.zones, d.limit, 0);
      TilingKept(d, OpenAllFrom(d.zones, d.limit, 0));
    } else {
      SweepKept(d, a);
      SweepSame(d.zones, a);
    }
  }

  lemma SweepSame(zs: seq<Zone>, a: Action)
    ensures SameZones(zs, SweepAll(a, zs))
  {
  }

  lemma AllPointers(d: Dev, a: Action, j: nat)
    requires DevOK(d) && j < |d.zones|
    ensures j < |AllCommand(d, a).dev.zones|
    ensures IsConv(d.zones[j]) ||
            AllCommand(d, a).dev.zones[j].wp == PointerAfter(a, d.zones[j], AllCommand(d, a).status, true, 0)
  {
    hide Tiling, Sweep, OpenAllFrom, Count, AllOK;
    OneOK(d.model, d.zones, j);
    if a.OpenAction? {
      OpenAllPointers(d.zones, d.limit, 0);
    } else {
      SweepPointer(d.model, a, d.zones[j]);
    }
  }

  lemma LbaKeeps(d: Dev, a: Action, lba: nat)
    requires DevOK(d)
    ensures DevOK(LbaCommand(d, a, lba).dev) && SameZones(d.zones, LbaCommand(d, a, lba).dev.zones)
    ensures WithinLimit(d) ==> WithinLimit(LbaCommand(d, a, lba).dev)
  {
    hide AllOK, Tiling, OneCommand, OpenCount;
    Sizes(d);
    var i := GetZone(d, lba, true);
    if lba <= d.capacity && i < |d.zones| && !IsConv(d.zones[i]) {
      OneCommandKeeps(d, a, i);
      OneSame(d, a, i);
    }
  }

  lemma OneSame(d: Dev, a: Action, i: nat)
    requires i < |d.zones|
    ensures SameZones(d.zones, OneCommand(d, a, i).dev.zones)
  {
    hide OpenZ, Count;
    if a.OpenAction? { OpenSame(d.zones[i := CloseZ(d.zones[i])], d.limit, i, true); }
  }

  lemma OnePointers(d: Dev, a: Action, i: nat, j: nat)
    requires AllOK(d.model, d.zones) && i < |d.zones| && j < |d.zones| && !IsConv(d.zones[i])
    ensures |OneCommand(d, a, i).dev.zones| == |d.zones|
    ensures var r := OneCommand(d, a, i);
            r.dev.zones[j].wp ==
            if i == j then PointerAfter(a, d.zones[j], r.status, false, d.zones[j].start) else d.zones[j].wp
  {
    hide OpenZ, Count, AllOK;
    OneOK(d.model, d.zones, i);
    if a.OpenAction? { OpenPointers(d.zones[i := CloseZ(d.zones[i])], d.limit, i, true); }
  }

  lemma LbaPointers(d: Dev, a: Action, lba: nat, j: nat)
    requires DevOK(d) && j < |d.zones|
    ensures j < |LbaCommand(d, a, lba).dev.zones|
    ensures LbaCommand(d, a, lba).dev.zones[j].wp ==
            PointerAfter(a, d.zones[j], LbaCommand(d, a, lba).status, false, lba)
  {
    hide AllOK, Tiling, OneCommand, OpenCount;
    Sizes(d);
    var i := GetZone(d, lba, true);
    TilingFacts(d, j);
    if lba <= d.capacity {
      GetZoneFinds(d, lba, true, j);
      if i < |d.zones| && !IsConv(d.zones[i]) {
        GetZoneFinds(d, lba, true, i);
        OnePointers(d, a, i, j);
      }
    }
  }

  /** A management command changes what block x shows in two ways only: reset turns a named
      sequential zone to zeros, and finish shows what is stored there, written since the last reset
      or not. */
  lemma ManageView(d: Dev, a: Action, all: bool, lba: nat, x: nat)
    requires DevOK(d) && x < d.capacity
    ensures var r := Step(d, Manage(a, all, lba));
            && DevOK(r.dev) && r.dev.capacity == d.capacity && r.dev.store == d.store
            && Where(d, x) < |d.zones|
            && var z := d.zones[Where(d, x)];
            ViewAt(r.dev, x) ==
            if Hit(z, r.status, all, lba) && a.ResetAction? then 0
            else if Hit(z, r.status, all, lba) && a.FinishAction? && !(all && z.cond == Empty) then d.store[x]
            else ViewAt(d, x)
  {
    hide AllOK, Tiling, AllCommand, LbaCommand, ViewAt;
    Sizes(d);
    Located(d, x);
    var j := Where(d, x);
    var r := Step(d, Manage(a, all, lba));
    if all {
      AllKeeps(d, a);
      AllPointers(d, a, j);
      AllStore(d, a);
    } else {
      LbaKeeps(d, a, lba);
      LbaPointers(d, a, lba, j);
      LbaStore(d, a, lba);
    }
    ViewIn(d, j, x);
    ViewIn(r.dev, j, x);
  }

  lemma AllStore(d: Dev, a: Action)
    ensures AllCommand(d, a).dev == d.(zones := AllCommand(d, a).dev.zones)
  {
    hide OpenAllFrom, SweepAll, Count;
  }

  lemma LbaStore(d: Dev, a: Action, lba: nat)
    requires d.zoneSize > 0
    ensures LbaCommand(d, a, lba).dev == d.(zones := LbaCommand(d, a, lba).dev.zones)
  {
    hide OpenZ, Count, GetZone;
  }

  // ---- the zone invariant and the open limit over runs ----

  /** The device after the first commands of a run. */
  function Run(d: Dev, ops: seq<Op>): (e: Dev)
    requires DevOK(d) && forall k :: 0 <= k < |ops| ==> Fits(ops[k])
    ensures DevOK(e) && e.capacity == d.capacity && e.limit == d.limit && e.model == d.model && e.zoneSize == d.zoneSize
    ensures SameZones(d.zones, e.zones)
    decreases |ops|
  {
    if ops == [] then SameRefl(d.zones); d
    else
      StepKeeps(d, ops[0]);
      var e := Run(Step(d, ops[0]).dev, ops[1..]);
      SameTrans(d.zones, Step(d, ops[0]).dev.zones, e.zones);
      e
  }

  lemma SameRefl(zs: seq<Zone>)
    ensures SameZones(zs, zs)
  {
  }

  /** OPEN with the ALL bit over explicitly open and closed zones that fit the limit, and of positive
      balance. */
  predicate Overcommits(d: Dev, op: Op) {
    op.Manage? && op.all && op.action.OpenAction? && FitsLimit(d) && Balance(d) > 0
  }

  /** Every command keeps the zone invariant; exactly an overcommitting OPEN ALL breaks the open limit. */
  lemma StepKeeps(d: Dev, op: Op)
    requires DevOK(d) && Fits(op)
    ensures var e := Step(d, op).dev;
            && DevOK(e) && e.capacity == d.capacity && e.limit == d.limit && e.model == d.model
            && e.zoneSize == d.zoneSize
            && SameZones(d.zones, e.zones)
            && (WithinLimit(d) ==> (WithinLimit(e) <==> !Overcommits(d, op)))
  {
    hide AllOK, Tiling, AllCommand, LbaCommand, WriteCommand, Landed, SweepAll, SameZones, Balance, OpenCount;
    match op
    case Manage(a, all, lba) =>
      Sizes(d);
      if all { AllKeeps(d, a); AllStore(d, a); AllLimit(d, a); } else { LbaKeeps(d, a, lba); LbaStore(d, a, lba); }
    case Write(at, n, segs) =>
      SameRefl(d.zones);
      WriteEffect(d, at, n, segs);
      WriteSame(d, at, n, segs);
    case Reopen =>
      SweepKept(d, CloseAction);
      SweepSame(d.zones, CloseAction);
  }

  lemma AllLimit(d: Dev, a: Action)
    requires DevOK(d)
    ensures WithinLimit(d) ==>
              (WithinLimit(AllCommand(d, a).dev) <==>
               !(a.OpenAction? && FitsLimit(d) && Balance(d) > 0))
  {
    hide AllOK, Tiling, SweepAll, OpenCount, Balance;
    if a.OpenAction? {
      if WithinLimit(d) { OpenAllLimit(d); }
    } else {
      SweepKept(d, a);
    }
  }

  lemma WriteSame(d: Dev, at: nat, n: nat, segs: seq<seq<Block>>)
    requires DevOK(d) && at < TWO_64 && n < TWO_32
    ensures var e := WriteCommand(d, at, n, segs).dev;
            e.capacity == d.capacity && e.limit == d.limit && e.model == d.model && e.zoneSize == d.zoneSize
            && SameZones(d.zones, e.zones) && (WithinLimit(d) ==> WithinLimit(e)) && DevOK(e)
  {
    hide AllOK, Tiling, WriteCommand, Landed, SameZones, Written, OpenCount;
    SameRefl(d.zones);
    WriteEffect(d, at, n, segs);
  }

  /** No command of the run is an overcommitting OPEN ALL at the time it comes. */
  predicate Gentle(d: Dev, ops: seq<Op>)
    requires DevOK(d) && forall k :: 0 <= k < |ops| ==> Fits(ops[k])
    decreases |ops|
  {
    ops == [] || (!Overcommits(d, ops[0]) && (StepKeeps(d, ops[0]); Gentle(Step(d, ops[0]).dev, ops[1..])))
  }

  /** Every device of the run is within the limit. */
  predicate StaysWithin(d: Dev, ops: seq<Op>)
    requires DevOK(d) && forall k :: 0 <= k < |ops| ==> Fits(ops[k])
    decreases |ops|
  {
    WithinLimit(d) && (ops == [] || (StepKeeps(d, ops[0]); StaysWithin(Step(d, ops[0]).dev, ops[1..])))
  }

  /** From a device within it, the open limit holds throughout a run exactly when no command of the run is
      an overcommitting OPEN ALL. */
  lemma {:induction false} RunWithinLimit(d: Dev, ops: seq<Op>)
    requires DevOK(d) && WithinLimit(d) && forall k :: 0 <= k < |ops| ==> Fits(ops[k])
    ensures StaysWithin(d, ops) <==> Gentle(d, ops)
    ensures StaysWithin(d, ops) ==> WithinLimit(Run(d, ops))
    decreases |ops|
  {
    hide AllOK, Tiling, Step, OpenCount, Overcommits, SameZones;
    if ops != [] {
      StepKeeps(d, ops[0]);
      if WithinLimit(Step(d, ops[0]).dev) { RunWithinLimit(Step(d, ops[0]).dev, ops[1..]); }
    }
  }

  // ---- the flat array a host-managed device shows ----

  /** A disk without write pointers: what each block shows, and what was last written to it. */
  datatype Disk = Disk(shown: seq<Block>, last: seq<Block>)

  /** The blocks a write reports to have reached the medium: its first segment on success and on a
      write error, none on any other status. */
  function Reported(status: Status, segs: seq<seq<Block>>): seq<Block> {
    if segs != [] && (status == Ok || status == WriteError) then segs[0] else []
  }

  /** What one block of the flat disk shows after a management command. */
  function Managed(a: Action, z: Zone, status: Status, all: bool, lba: nat, shown: Block, last: Block): Block {
    if Hit(z, status, all, lba) && a.ResetAction? then 0
    else if Hit(z, status, all, lba) && a.FinishAction? && !(all && z.cond == Empty) then last
    else shown
  }

  /** The flat disk after a command: writes replace their blocks, reset clears a zone, finish brings
      back what was last written, and everything else leaves the disk alone. */
  function Mirror(d: Dev, k: Disk, op: Op): Disk
    requires DevOK(d) && Fits(op) && |k.shown| == d.capacity && |k.last| == d.capacity
  {
    match op
    case Write(at, n, segs) =>
      var data := Reported(Step(d, op).status, segs);
      if at + |data| > d.capacity then k else Disk(Splice(k.shown, at, data), Splice(k.last, at, data))
    case Manage(a, all, lba) =>
      Disk(seq(d.capacity, x requires 0 <= x < d.capacity =>
                 (Located(d, x);
                  Managed(a, d.zones[Where(d, x)], Step(d, op).status, all, lba, k.shown[x], k.last[x]))),
           k.last)
    case Reopen => k
  }

  /** In a sequential write required zone the status tells what landed. */
  lemma LandedIsReported(d: Dev, at: nat, n: nat, segs: seq<seq<Block>>)
    requires DevOK(d) && d.model == HostManaged && at < TWO_64 && n < TWO_32
    ensures Landed(d, at, n, segs) == Reported(WriteCommand(d, at, n, segs).status, segs)
  {
    hide AllOK, Tiling, OpenZ, Count;
    Sizes(d);
    CheckRdwrExact(d, at, n, Total(segs));
    FirstSegment(segs);
    if CheckRdwr(d, at, n, Total(segs)) == Ok && n > 0 {
      Located(d, at);
      var i := Where(d, at);
      TilingFacts(d, i);
      OneOK(d.model, d.zones, i);
      ReadyKeeps(d, i);
    }
  }

  lemma SpliceNothing(s: seq<Block>, at: nat)
    requires at <= |s|
    ensures Splice(s, at, []) == s
  {
  }

  /** No gap opens below a write in a sequential write required zone. */
  lemma WrittenSplices(d: Dev, e: Dev, i: nat, at: nat, data: seq<Block>)
    requires DevOK(d) && DevOK(e) && d.capacity == e.capacity && Written(d, e, i, at, data)
    requires at + |data| <= d.capacity
    requires i < |d.zones| && data != [] ==> IsConv(d.zones[i]) || d.zones[i].wp >= at
    ensures View(e) == Splice(View(d), at, data)
  {
    hide AllOK, Tiling, ViewAt;
  }

  lemma MirrorWrite(d: Dev, k: Disk, at: nat, n: nat, segs: seq<seq<Block>>)
    requires DevOK(d) && d.model == HostManaged && Fits(Write(at, n, segs)) && k == Disk(View(d), d.store)
    ensures DevOK(Step(d, Write(at, n, segs)).dev)
    ensures Mirror(d, k, Write(at, n, segs)) ==
            Disk(View(Step(d, Write(at, n, segs)).dev), Step(d, Write(at, n, segs)).dev.store)
  {
    hide AllOK, Tiling, ViewAt, View, Written, WriteCommand, Landed, Splice, SameZones, OpenCount;
    var e := WriteCommand(d, at, n, segs).dev;
    LandedIsReported(d, at, n, segs);
    WriteEffect(d, at, n, segs);
    Sizes(d);
    var data := Landed(d, at, n, segs);
    if data == [] {
      if at <= d.capacity { SpliceNothing(View(d), at); SpliceNothing(d.store, at); }
      if e != d {
        var i :| Effect(d, e, i, at, []);
        EffectSplices(d, e, i, at, []);
      }
    } else {
      LandedAligned(d, at, n, segs);
      EffectSplices(d, e, Where(d, at), at, data);
    }
  }

  lemma LandedAligned(d: Dev, at: nat, n: nat, segs: seq<seq<Block>>)
    requires DevOK(d) && d.model == HostManaged && at < TWO_64 && n < TWO_32 && Landed(d, at, n, segs) != []
    ensures at < d.capacity && Where(d, at) < |d.zones|
    ensures IsConv(d.zones[Where(d, at)]) || d.zones[Where(d, at)].wp >= at
  {
    hide AllOK, Tiling, Ready;
    Sizes(d);
    CheckRdwrExact(d, at, n, Total(segs));
    Located(d, at);
    OneOK(d.model, d.zones, Where(d, at));
  }

  lemma EffectSplices(d: Dev, e: Dev, i: nat, at: nat, data: seq<Block>)
    requires Effect(d, e, i, at, data)
    requires data != [] ==> IsConv(d.zones[i]) || d.zones[i].wp >= at
    ensures at + |data| <= d.capacity && |View(d)| == |d.store| == d.capacity
    ensures View(e) == Splice(View(d), at, data) && e.store == Splice(d.store, at, data)
  {
    hide AllOK, Tiling, ViewAt, Written;
    WrittenSplices(d, e, i, at, data);
  }

  lemma MirrorManage(d: Dev, k: Disk, a: Action, all: bool, lba: nat)
    requires DevOK(d) && k == Disk(View(d), d.store)
    ensures DevOK(Step(d, Manage(a, all, lba)).dev)
    ensures Mirror(d, k, Manage(a, all, lba)) ==
            Disk(View(Step(d, Manage(a, all, lba)).dev), Step(d, Manage(a, all, lba)).dev.store)
  {
    hide AllOK, Tiling, ViewAt, Step, OpenCount, SameZones;
    var op := Manage(a, all, lba);
    var e := Step(d, op).dev;
    StepKeeps(d, op);
    MirrorSizes(d, k, op);
    forall x | 0 <= x < d.capacity ensures Mirror(d, k, op).shown[x] == View(e)[x] {
      ManageView(d, a, all, lba, x);
    }
    ManageStore(d, a, all, lba);
  }

  lemma ManageStore(d: Dev, a: Action, all: bool, lba: nat)
    requires DevOK(d)
    ensures Step(d, Manage(a, all, lba)).dev.store == d.store
  {
    hide AllOK, Tiling, AllCommand, LbaCommand;
    Sizes(d);
    if all { AllStore(d, a); } else { LbaStore(d, a, lba); }
  }

  lemma MirrorSizes(d: Dev, k: Disk, op: Op)
    requires DevOK(d) && Fits(op) && |k.shown| == d.capacity && |k.last| == d.capacity
    ensures |Mirror(d, k, op).shown| == |Mirror(d, k, op).last| == d.capacity
  {
    hide AllOK, Tiling, Step;
  }

  lemma MirrorReopen(d: Dev)
    requires DevOK(d)
    ensures DevOK(Step(d, Reopen).dev) && Step(d, Reopen).dev.store == d.store
    ensures View(Step(d, Reopen).dev) == View(d)
  {
    hide AllOK, Tiling, ViewAt, Sweep, OpenCount, SameZones;
    var e := Step(d, Reopen).dev;
    SweepKept(d, CloseAction);
    SweepSame(d.zones, CloseAction);
    Sizes(d);
    forall x | 0 <= x < d.capacity ensures ViewAt(e, x) == ViewAt(d, x) {
      Located(d, x);
      var j := Where(d, x);
      OneOK(d.model, d.zones, j);
      SweepPointer(d.model, CloseAction, d.zones[j]);
      SameView(d, e.zones, j, x);
    }
  }

  /** The flat disk through a run. */
  function MirrorRun(d: Dev, k: Disk, ops: seq<Op>): Disk
    requires DevOK(d) && forall i :: 0 <= i < |ops| ==> Fits(ops[i])
    requires |k.shown| == d.capacity && |k.last| == d.capacity
    decreases |ops|
  {
    if ops == [] then k
    else
      StepKeeps(d, ops[0]);
      MirrorSizes(d, k, ops[0]);
      MirrorRun(Step(d, ops[0]).dev, Mirror(d, k, ops[0]), ops[1..])
  }

  /** Over any run of a host-managed device, the blocks it shows are those of a flat disk without
      write pointers. */
  lemma {:induction false} ShowsFlatDisk(d: Dev, ops: seq<Op>)
    requires DevOK(d) && d.model == HostManaged && forall i :: 0 <= i < |ops| ==> Fits(ops[i])
    ensures MirrorRun(d, Disk(View(d), d.store), ops) == Disk(View(Run(d, ops)), Run(d, ops).store)
    decreases |ops|
  {
    hide AllOK, Tiling, View, Step, Mirror, OpenCount, SameZones;
    if ops != [] {
      StepKeeps(d, ops[0]);
      match ops[0] {
        case Manage(a, all, lba) => MirrorManage(d, Disk(View(d), d.store), a, all, lba);
        case Write(at, n, segs) => MirrorWrite(d, Disk(View(d), d.store), at, n, segs);
        case Reopen => MirrorReopen(d); MirrorOfReopen(d);
      }
      ShowsFlatDisk(Step(d, ops[0]).dev, ops[1..]);
    }
  }

  lemma MirrorOfReopen(d: Dev)
    requires DevOK(d)
    ensures Mirror(d, Disk(View(d), d.store), Reopen) == Disk(View(d), d.store)
  {
    hide AllOK, Tiling, View;
  }

  /** A host-aware device takes writes beyond the write pointer. Such a write acts on the view as on a
      flat disk exactly when only zeros were stored in the gap it leaves. */
  lemma GapShows(d: Dev, at: nat, n: nat, segs: seq<seq<Block>>)
    requires DevOK(d) && at < TWO_64 && 0 < n < TWO_32 && WriteCommand(d, at, n, segs).status == Ok
    ensures at + n <= d.capacity && segs != [] && |segs[0]| == n && Where(d, at) < |d.zones|
    ensures DevOK(WriteCommand(d, at, n, segs).dev)
    ensures var z := d.zones[Where(d, at)];
            View(WriteCommand(d, at, n, segs).dev) == Splice(View(d), at, segs[0]) <==>
            (IsConv(z) || forall x :: z.wp <= x < at ==> d.store[x] == 0)
  {
    hide AllOK, Tiling, ViewAt, Effect, OpenCount, SameZones, Ready, Aligned, CheckRdwr;
    Sizes(d);
    WriteEffect(d, at, n, segs);
    LandedWhole(d, at, n, segs);
    Located(d, at);
    EffectFacts(d, WriteCommand(d, at, n, segs).dev, Where(d, at), at, segs[0]);
    GapExact(d, WriteCommand(d, at, n, segs).dev, Where(d, at), at, segs[0]);
  }

  lemma LandedWhole(d: Dev, at: nat, n: nat, segs: seq<seq<Block>>)
    requires DevOK(d) && at < TWO_64 && 0 < n < TWO_32 && WriteCommand(d, at, n, segs).status == Ok
    ensures segs != [] && Landed(d, at, n, segs) == segs[0] && |segs[0]| == n
  {
    hide AllOK, Tiling, Ready, Aligned, CheckRdwr, Effect;
    WriteEffect(d, at, n, segs);
  }

  lemma GapExact(d: Dev, e: Dev, i: nat, at: nat, data: seq<Block>)
    requires Effect(d, e, i, at, data) && data != [] && InZone(d.zones[i], at) && at + |data| <= d.capacity
    ensures View(e) == Splice(View(d), at, data) <==>
            (IsConv(d.zones[i]) || forall x :: d.zones[i].wp <= x < at ==> d.store[x] == 0)
  {
    hide AllOK, Tiling, SameZones, OpenCount, Splice;
    var z := d.zones[i];
    TilingFacts(d, i);
    if !IsConv(z) {
      OneOK(d.model, d.zones, i);
      forall x | z.wp <= x < at ensures x < d.capacity && ViewAt(d, x) == 0 && ViewAt(e, x) == d.store[x] {
        ViewIn(d, i, x);
      }
      if View(e) == Splice(View(d), at, data) {
        forall x | z.wp <= x < at ensures d.store[x] == 0 { assert View(e)[x] == View(d)[x]; }
      }
    }
    if IsConv(z) || forall x :: z.wp <= x < at ==> d.store[x] == 0 {
      assert View(e) == Splice(View(d), at, data);
    }
  }
}
