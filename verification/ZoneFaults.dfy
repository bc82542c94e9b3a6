/** Runs of formatted devices, of any zone size, in which the open limit is exceeded, a read returns
    zeros for written blocks, and a read comes to write past its segment. */
module ZoneFaults {
  import opened Common
  import opened Zones
  import opened ZoneCommands
  import opened ZoneData
  import opened ZoneFormat
  import opened ZoneLimit
  import opened ZoneRead
  import opened ZoneRuns

  ghost predicate AllFit(ops: seq<Op>) { forall k :: 0 <= k < |ops| ==> Fits(ops[k]) }

  lemma {:induction false} RunOn(d: Dev, ops: seq<Op>, op: Op)
    requires DevOK(d) && AllFit(ops) && Fits(op)
    ensures AllFit(ops + [op]) && DevOK(Run(d, ops)) && Run(d, ops + [op]) == Step(Run(d, ops), op).dev
    decreases |ops|
  {
    hide DevOK, Step, SameZones;
    if ops == [] {
      assert ops + [op] == [op];
      assert [op][1..] == [];
    } else {
      StepKeeps(d, ops[0]);
      RunOn(Step(d, ops[0]).dev, ops[1..], op);
      assert (ops + [op])[1..] == ops[1..] + [op];
    }
  }

  // ---- the first write into a zone ----

  /** An empty sequential zone, on a device that may open one more. */
  ghost predicate Blank(d: Dev, i: nat) {
    DevOK(d) && i < |d.zones| && !IsConv(d.zones[i]) && d.zones[i].cond == Empty && OpenCount(d.zones) < d.limit
  }

  function AfterFirst(z: Zone, n: nat): Zone {
    if n < z.len then z.(cond := ImpOpen, wp := z.start + n) else z.(cond := Full, wp := End(z))
  }

  /** n blocks of x from the start of zone i */
  function FirstWrite(z: Zone, n: nat, x: Block): Op { Op.Write(z.start, n, [seq(n, _ => x)]) }

  lemma WriteFirst(d: Dev, i: nat, n: nat, x: Block)
    requires Blank(d, i) && 0 < n <= d.zones[i].len && n < TWO_32
    ensures Fits(FirstWrite(d.zones[i], n, x)) && End(d.zones[i]) <= |d.store|
    ensures Step(d, FirstWrite(d.zones[i], n, x)) ==
            Outcome(d.(zones := d.zones[i := AfterFirst(d.zones[i], n)],
                       store := Splice(d.store, d.zones[i].start, seq(n, _ => x))), Ok)
  {
    hide Tiling, AllOK, Count, CheckRdwr, Splice;
    var z, segs := d.zones[i], [seq(n, _ => x)];
    Sizes(d);
    DataInside(d, i);
    OneOK(d.model, d.zones, i);
    assert Total(segs) == n by { assert segs[1..] == []; }
    CheckRdwrExact(d, z.start, n, n);
    TilingOnly(d);
    OnlyZone(d, z.start, i);
    assert d.zones[i := z.(cond := ImpOpen)][i := AfterFirst(z, n)] == d.zones[i := AfterFirst(z, n)];
  }

  // ---- exceeding the limit ----

  /** Zones from base on, k of them, closed with one block written. */
  function ClosedFrom(zs: seq<Zone>, base: nat, k: nat): (r: seq<Zone>)
    requires base + k <= |zs|
    ensures |r| == |zs|
  {
    if k == 0 then zs
    else
      var i := base + k - 1;
      ClosedFrom(zs, base, k - 1)[i := zs[i].(cond := Closed, wp := zs[i].start + 1)]
  }

  lemma {:induction false} ClosedAt(zs: seq<Zone>, base: nat, k: nat, i: nat)
    requires base + k <= |zs| && i < |zs|
    ensures ClosedFrom(zs, base, k)[i] ==
            if base <= i < base + k then zs[i].(cond := Closed, wp := zs[i].start + 1) else zs[i]
  {
    if k > 0 { ClosedAt(zs, base, k - 1, i); }
  }

  /** Zones that can be used for it: empty, sequential, of two blocks or more. */
  predicate Usable(zs: seq<Zone>, base: nat, k: nat)
    requires base + k <= |zs|
  {
    forall i :: base <= i < base + k ==> !IsConv(zs[i]) && zs[i].cond == Empty && zs[i].len >= 2
  }

  predicate NoneInUse(zs: seq<Zone>) {
    Count(zs, ImpOpen) == 0 && Count(zs, ExpOpen) == 0 && Count(zs, Closed) == 0
  }

  lemma {:induction false} ClosedCounts(zs: seq<Zone>, base: nat, k: nat)
    requires base + k <= |zs| && Usable(zs, base, k) && NoneInUse(zs)
    ensures var ws := ClosedFrom(zs, base, k);
            Count(ws, ImpOpen) == 0 && Count(ws, ExpOpen) == 0 && Count(ws, Closed) == k
  {
    hide Count;
    if k > 0 {
      var i := base + k - 1;
      ClosedCounts(zs, base, k - 1);
      ClosedAt(zs, base, k - 1, i);
      var ws, z := ClosedFrom(zs, base, k - 1), zs[i].(cond := Closed, wp := zs[i].start + 1);
      CountUpdate(ws, i, z, ImpOpen);
      CountUpdate(ws, i, z, ExpOpen);
      CountUpdate(ws, i, z, Closed);
    }
  }

  lemma CloseStep(d: Dev, i: nat)
    requires DevOK(d) && i < |d.zones| && !IsConv(d.zones[i]) && d.zones[i].cond == ImpOpen
    requires d.zones[i].wp > d.zones[i].start
    ensures Step(d, Manage(CloseAction, false, d.zones[i].start)).dev ==
            d.(zones := d.zones[i := d.zones[i].(cond := Closed)])
  {
    hide Tiling, AllOK, GetZone;
    TilingOnly(d);
    DataInside(d, i);
    OneOK(d.model, d.zones, i);
    GetZoneFinds(d, d.zones[i].start, true, i);
  }

  /** Write one block into each of k zones and close it. */
  lemma {:induction false} CloseMany(d: Dev, base: nat, k: nat) returns (ops: seq<Op>)
    requires DevOK(d) && base + k <= |d.zones| && Usable(d.zones, base, k) && NoneInUse(d.zones) && d.limit > 0
    ensures AllFit(ops) && Run(d, ops).zones == ClosedFrom(d.zones, base, k)
  {
    hide DevOK, Count, Step, SameZones, Run;
    RunNone(d);
    ops := [];
    if k > 0 {
      var i := base + k - 1;
      ops := CloseMany(d, base, k - 1);
      ClosedCounts(d.zones, base, k - 1);
      ClosedAt(d.zones, base, k - 1, i);
      ops := CloseNext(d, ops, i);
    }
  }

  lemma RunNone(d: Dev)
    requires DevOK(d)
    ensures Run(d, []) == d
  {
  }

  lemma CloseNext(d: Dev, ops: seq<Op>, i: nat) returns (more: seq<Op>)
    requires DevOK(d) && AllFit(ops) && i < |Run(d, ops).zones|
    requires var e := Run(d, ops);
             !IsConv(e.zones[i]) && e.zones[i].cond == Empty && e.zones[i].len >= 2 && OpenCount(e.zones) < e.limit
    ensures AllFit(more)
    ensures var zs := Run(d, ops).zones;
            Run(d, more).zones == zs[i := zs[i].(cond := Closed, wp := zs[i].start + 1)]
  {
    hide DevOK, Count, Step, Splice, SameZones;
    var e := Run(d, ops);
    var z := e.zones[i];
    var op, close := FirstWrite(z, 1, 7), Manage(CloseAction, false, z.start);
    WriteFirst(e, i, 1, 7);
    RunOn(d, ops, op);
    StepKeeps(e, op);
    CloseStep(Step(e, op).dev, i);
    RunOn(d, ops + [op], close);
    more := ops + [op] + [close];
    var w := AfterFirst(z, 1);
    assert e.zones[i := w][i := w.(cond := Closed)] == e.zones[i := w.(cond := Closed)];
  }

  lemma {:induction false} ScanIdle(zs: seq<Zone>, i: nat, j: nat, b: int)
    requires i <= j <= |zs| && forall k :: i <= k < j ==> zs[k].cond != Closed && zs[k].cond != ImpOpen
    ensures Scan(zs, i, b) == Scan(zs, j, b)
    decreases j - i
  {
    if i < j { ScanIdle(zs, i + 1, j, b); }
  }

  lemma {:induction false} ScanClosed(zs: seq<Zone>, i: nat, j: nat, b: int)
    requires i <= j <= |zs| && forall k :: i <= k < j ==> zs[k].cond == Closed
    ensures Scan(zs, i, b) == Scan(zs, j, b + (j - i))
    decreases j - i
  {
    if i < j { ScanClosed(zs, i + 1, j, b + 1); }
  }

  // ---- formatted devices ----

  ghost predicate AsFormatted(d: Dev, conv: nat) {
    && DevOK(d) && NoneInUse(d.zones) && 2 <= d.zoneSize < TWO_32
    && (forall i :: 0 <= i < |d.zones| ==> d.zones[i].cond == if i < conv then NotWp else Empty)
    && (forall i :: 0 <= i < |d.zones| ==> (IsConv(d.zones[i]) <==> i < conv))
    && (forall i :: 0 <= i < |d.zones| - 1 ==> d.zones[i].len == d.zoneSize)
    && d.limit > 0 && (conv + 2 == |d.zones| ==> d.limit == 1)
    && (conv + 2 < |d.zones| ==> conv + d.limit + 1 < |d.zones|)
  }

  lemma FormatFacts(c: Config, data: seq<Block>)
    requires ConfigOK(c) && |data| == c.devSize / c.lbaSize && Format(c, data).Formatted?
    ensures AsFormatted(Format(c, data).dev, Format(c, data).conv)
  {
    hide DevOK, Count, FormatZones, ZoneCount, PowerOfTwo, WithinLimit;
    FormatOK(c, data);
    var d, conv := Format(c, data).dev, Format(c, data).conv;
    LargeZones(c);
    ZoneSizePower(c);
    CountOfZones(d.capacity, d.zoneSize);
    FormatCount(d.model, d.capacity, d.zoneSize, conv);
    forall i | 0 <= i < |d.zones|
      ensures d.zones[i].cond == (if i < conv then NotWp else Empty) && (IsConv(d.zones[i]) <==> i < conv)
      ensures i < |d.zones| - 1 ==> d.zones[i].len == d.zoneSize
    {
      FormatZone(d.model, d.capacity, d.zoneSize, conv, i);
    }
    NoneWith(d.zones, ImpOpen);
    NoneWith(d.zones, ExpOpen);
    NoneWith(d.zones, Closed);
  }

  lemma LargeZones(c: Config)
    requires ConfigOK(c)
    ensures c.zoneBytes / c.lbaSize >= 2
  {
    assert c.zoneBytes > 0 by { ZoneSizePower(c); }
  }

  lemma FormatZone(m: Model, capacity: nat, zoneSize: nat, conv: nat, i: nat)
    requires 0 < zoneSize && 0 < capacity && i < ZoneCount(capacity, zoneSize)
    ensures var zs := FormatZones(m, capacity, zoneSize, conv);
            && i < |zs| == ZoneCount(capacity, zoneSize)
            && zs[i].cond == (if i < conv then NotWp else Empty) && (IsConv(zs[i]) <==> i < conv)
            && (i + 1 < |zs| ==> zs[i].len == zoneSize)
  {
    NextStart(m, capacity, zoneSize, conv, i);
    CountOfZones(capacity, zoneSize);
    var n := ZoneCount(capacity, zoneSize);
    hide ZoneCount;
    if i + 1 < n { MulLe(i + 1, n - 1, zoneSize); assert (i + 1) * zoneSize == i * zoneSize + zoneSize; }
  }

  lemma {:induction false} NoneWith(zs: seq<Zone>, c: Cond)
    requires forall i :: 0 <= i < |zs| ==> zs[i].cond != c
    ensures Count(zs, c) == 0
  {
    CountIsPositive(zs, c);
  }

  /** OPEN ALL exceeds the open limit, reporting success, on every formatted device of three sequential zones
      or more, or of two unless the last is a single block: close as many zones as the limit with one
      block written in each, and leave one open behind them. */
  lemma OpenAllExceeds(c: Config, data: seq<Block>) returns (ops: seq<Op>)
    requires ConfigOK(c) && |data| == c.devSize / c.lbaSize && Format(c, data).Formatted?
    requires var d, conv := Format(c, data).dev, Format(c, data).conv;
             conv + 2 < |d.zones| || (conv + 2 == |d.zones| && d.zones[conv + 1].len >= 2)
    ensures DevOK(Format(c, data).dev) && AllFit(ops)
    ensures var e := Run(Format(c, data).dev, ops);
            && WithinLimit(e) && AllCommand(e, OpenAction).status == Ok
            && !WithinLimit(AllCommand(e, OpenAction).dev)
  {
    hide Format, Run, Step, DevOK, Count, ClosedFrom, SameZones, AllCommand, Scan;
    FormatFacts(c, data);
    var d, base := Format(c, data).dev, Format(c, data).conv;
    var k := d.limit;
    ops := CloseMany(d, base, k);
    var e := Run(d, ops);
    ClosedCounts(d.zones, base, k);
    ClosedAt(d.zones, base, k, base + k);
    var op := FirstWrite(e.zones[base + k], 1, 7);
    WriteFirst(e, base + k, 1, 7);
    RunOn(d, ops, op);
    StepKeeps(e, op);
    ops := ops + [op];
    forall i | 0 <= i < |e.zones| ensures e.zones[i].cond == Closed <==> base <= i < base + k {
      ClosedAt(d.zones, base, k, i);
    }
    OneBehind(e, Run(d, ops), base, base + k);
  }

  /** With a closed zone for every slot of the limit, and a written open zone behind them all. */
  lemma OneBehind(e: Dev, f: Dev, base: nat, top: nat)
    requires DevOK(f) && base <= top < |e.zones| && f.limit == top - base
    requires Count(e.zones, ImpOpen) == 0 && Count(e.zones, ExpOpen) == 0 && Count(e.zones, Closed) == f.limit > 0
    requires forall i :: 0 <= i < |e.zones| ==> (e.zones[i].cond == Closed <==> base <= i < top)
    requires e.zones[top].cond == Empty && e.zones[top].len >= 2
    requires f.zones == e.zones[top := AfterFirst(e.zones[top], 1)]
    ensures WithinLimit(f) && AllCommand(f, OpenAction).status == Ok && !WithinLimit(AllCommand(f, OpenAction).dev)
  {
    hide DevOK, Count, Scan;
    var z := AfterFirst(e.zones[top], 1);
    CountUpdate(e.zones, top, z, ImpOpen);
    CountUpdate(e.zones, top, z, ExpOpen);
    CountUpdate(e.zones, top, z, Closed);
    CountIsPositive(e.zones, ImpOpen);
    ScanIdle(f.zones, 0, base, 1 - f.limit);
    ScanClosed(f.zones, base, top, 1 - f.limit);
    ScanStep(f.zones, top, 1);
    ScanIdle(f.zones, top + 1, |f.zones|, 1);
    ScanNone(f.zones, 1);
    OpenAllLimit(f);
  }

  lemma ScanNone(zs: seq<Zone>, b: int)
    ensures Scan(zs, |zs|, b) == b
  {
  }

  // ---- reading over two zones ----

  /** The first segment of a read that is filled. */
  lemma ReadSegment(d: Dev, z: Option<ZoneType>, at: nat, n: nat, rest: seq<nat>, out: seq<Block>)
    requires DevOK(d) && n > 0 && at + n + Sum(rest) <= d.capacity
    requires PieceEnd(d, if z.Some? then z.value else TypeAt(d, at), at, n) == Whole
    ensures Sum([n] + rest) == n + Sum(rest)
    ensures var t := if z.Some? then z.value else TypeAt(d, at);
            Reading(d, z, at, [n] + rest, out) ==
            Reading(d, if d.model == HostManaged then Some(t) else z, at + n, rest, out + Got(d, at, n))
  {
    hide DevOK, PieceEnd, Got;
    assert ([n] + rest)[1..] == rest;
  }

  /** A written block behind an empty zone: read over both zones into one segment it is zero, into two
      segments it is not. */
  lemma HoleBetween(d: Dev, i: nat, x: Block)
    requires DevOK(d) && i + 1 < |d.zones| && !IsConv(d.zones[i]) && d.zones[i + 1].ztype == d.zones[i].ztype
    requires d.zones[i].wp < End(d.zones[i]) == d.zones[i + 1].start < d.zones[i + 1].wp
    requires |d.store| == d.capacity > d.zones[i + 1].start && d.store[d.zones[i + 1].start] == x
    ensures var at := d.zones[i + 1].start - 1;
            && at + 2 <= d.capacity < TWO_64 && View(d)[at..at + 2] == [0, x]
            && ReadCommand(d, at, 2, [2]) == (Ok, false, [0, 0]) && ReadCommand(d, at, 2, [1, 1]) == (Ok, false, [0, x])
  {
    hide DevOK, PieceEnd, Got, CheckRdwr, ViewAt, TypeAt;
    var t, a := d.zones[i].ztype, d.zones[i + 1].start;
    Sizes(d);
    DataInside(d, i);
    DataInside(d, i + 1);
    CheckRdwrExact(d, a - 1, 2, 2);
    InOneZone(d, i, a - 1);
    InOneZone(d, i + 1, a);
    ViewIn(d, i, a - 1);
    ViewIn(d, i + 1, a);
    ReadNothing(d, t, a - 1);
    ReadNothing(d, t, a);
    HoleHere(d, t, i, a - 1, a - 1, 2, []);
    HoleHere(d, t, i, a - 1, a - 1, 1, []);
    ReadOn(d, t, i + 1, a, a, a + 1, []);
    WholeHere(d, t, i + 1, a, a, 1, [x]);
    ReadSegment(d, None, a - 1, 2, [], []);
    ReadSegment(d, None, a - 1, 1, [1], []);
    ReadSegment(d, if d.model == HostManaged then Some(t) else None, a, 1, [], [0]);
    assert [2] + [] == [2] && [1] + [1] == [1, 1] && [1] + [] == [1];
    assert Got(d, a - 1, 2) == [0, 0] && [] + [0, 0] == [0, 0];
    assert Got(d, a - 1, 1) == [0] && [] + [0] == [0] && Got(d, a, 1) == [x] && [0] + [x] == [0, x];
  }

  /** A full zone before one of two written blocks: read from the last two blocks of the first to the first
      of the second, into one segment. */
  lemma FullBefore(d: Dev, i: nat)
    requires DevOK(d) && i + 1 < |d.zones| && !IsConv(d.zones[i]) && !IsConv(d.zones[i + 1])
    requires d.zones[i].wp == End(d.zones[i]) == d.zones[i + 1].start && d.zones[i].len >= 2
    requires d.zones[i + 1].ztype == d.zones[i].ztype && d.zones[i + 1].wp == d.zones[i + 1].start + 2
    ensures var at := d.zones[i + 1].start - 2;
            at + 3 <= d.capacity && ReadCommand(d, at, 3, [3]) == (Ok, true, [])
  {
    hide DevOK, PieceEnd, Got, CheckRdwr, TypeAt;
    var t, a := d.zones[i].ztype, d.zones[i + 1].start;
    Sizes(d);
    DataInside(d, i);
    DataInside(d, i + 1);
    CheckRdwrExact(d, a - 2, 3, 3);
    assert Sum([3]) == 3 by { assert [3][1..] == []; }
    InOneZone(d, i, a - 2);
    ReadNothing(d, t, a - 2);
    ReadOn(d, t, i, a - 2, a - 2, a, []);
    OverHere(d, t, i + 1, a - 2, a, 3, [] + d.store[a - 2..a]);
  }

  /** Zones i and i + 1 of a formatted device, both sequential. */
  lemma Neighbours(d: Dev, conv: nat, i: nat)
    requires AsFormatted(d, conv) && conv <= i && i + 1 < |d.zones|
    ensures Blank(d, i) && Blank(d, i + 1) && OpenCount(d.zones) == 0
    ensures d.zones[i].wp == d.zones[i].start < End(d.zones[i]) == d.zones[i + 1].start
    ensures d.zones[i + 1].wp == d.zones[i + 1].start < End(d.zones[i + 1]) <= d.capacity < TWO_64
    ensures d.zones[i + 1].ztype == d.zones[i].ztype && d.zones[i].len == d.zoneSize
  {
    hide Tiling, AllOK, Count;
    Sizes(d);
    OneOK(d.model, d.zones, i);
    OneOK(d.model, d.zones, i + 1);
    TilingOnly(d);
    Adjacent(d, i);
    TilingFacts(d, i + 1);
  }

  lemma RunOne(d: Dev, op: Op)
    requires DevOK(d) && Fits(op)
    ensures Run(d, [op]) == Step(d, op).dev
  {
    hide Run, Step, DevOK, SameZones;
    RunNone(d);
    RunOn(d, [], op);
    assert [] + [op] == [op];
  }

  /** On every formatted device, for every two sequential zones that follow one another: with one block written
      into the second, a read over both into one segment returns zeros. */
  lemma HoleHides(c: Config, data: seq<Block>, i: nat, x: Block) returns (op: Op)
    requires ConfigOK(c) && |data| == c.devSize / c.lbaSize && Format(c, data).Formatted?
    requires Format(c, data).conv <= i && i + 1 < |Format(c, data).dev.zones|
    ensures DevOK(Format(c, data).dev) && Fits(op)
    ensures var e, at := Run(Format(c, data).dev, [op]), Format(c, data).dev.zones[i + 1].start - 1;
            && 0 <= at && at + 2 <= e.capacity < TWO_64 && View(e)[at..at + 2] == [0, x]
            && ReadCommand(e, at, 2, [2]) == (Ok, false, [0, 0]) && ReadCommand(e, at, 2, [1, 1]) == (Ok, false, [0, x])
  {
    hide Format, Run, Step, DevOK, SameZones, ReadCommand, View, Blank;
    FormatFacts(c, data);
    var d := Format(c, data).dev;
    Neighbours(d, Format(c, data).conv, i);
    op := FirstWrite(d.zones[i + 1], 1, x);
    WriteFirst(d, i + 1, 1, x);
    RunOne(d, op);
    var e := Run(d, [op]);
    Sizes(e);
    HoleBetween(e, i, x);
  }

  /** And where the second zone has two blocks or more: with the first zone written full and two blocks into
      the second, a read of three blocks into one segment comes to write past it. */
  lemma SegmentOverrun(c: Config, data: seq<Block>, i: nat) returns (ops: seq<Op>)
    requires ConfigOK(c) && |data| == c.devSize / c.lbaSize && Format(c, data).Formatted?
    requires Format(c, data).conv <= i && i + 1 < |Format(c, data).dev.zones|
    requires Format(c, data).dev.zones[i + 1].len >= 2
    ensures DevOK(Format(c, data).dev) && AllFit(ops)
    ensures var e, at := Run(Format(c, data).dev, ops), Format(c, data).dev.zones[i + 1].start - 2;
            0 <= at && at + 3 <= e.capacity < TWO_64 && ReadCommand(e, at, 3, [3]) == (Ok, true, [])
  {
    hide Format, Run, Step, DevOK, SameZones, ReadCommand, Blank, Count;
    FormatFacts(c, data);
    var d := Format(c, data).dev;
    Neighbours(d, Format(c, data).conv, i);
    var op, op' := FirstWrite(d.zones[i], d.zoneSize, 7), FirstWrite(d.zones[i + 1], 2, 7);
    WriteFirst(d, i, d.zoneSize, 7);
    RunOne(d, op);
    var e := Run(d, [op]);
    CountUpdate(d.zones, i, e.zones[i], ImpOpen);
    CountUpdate(d.zones, i, e.zones[i], ExpOpen);
    BlankStill(d, e, i, i + 1);
    WriteFirst(e, i + 1, 2, 7);
    RunOn(d, [op], op');
    ops := [op] + [op'];
    Sizes(Run(d, ops));
    FullBefore(Run(d, ops), i);
  }

  lemma BlankStill(d: Dev, e: Dev, i: nat, j: nat)
    requires Blank(d, j) && DevOK(e) && i < |d.zones| && i != j && |e.zones| == |d.zones| && e.zones[j] == d.zones[j]
    requires OpenCount(e.zones) <= OpenCount(d.zones) && e.limit == d.limit
    ensures Blank(e, j)
  {
    hide DevOK, Count;
  }
}
