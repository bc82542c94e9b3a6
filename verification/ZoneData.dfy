/** What a zoned device shows to a reader, and how writing and zone management change it. */
module ZoneData {
  import opened Common
  import opened Zones
  import opened ZoneCommands

  // ---- what a read shows ----

  predicate Shows(z: Zone, lba: nat) { IsConv(z) || lba < z.wp }

  /** A block of a conventional zone, or below the write pointer of a sequential one, is the stored
      block; from the write pointer on there are zeros. */
  function ViewAt(d: Dev, lba: nat): Block
    requires DevOK(d) && lba < d.capacity
  {
    Located(d, lba);
    if Shows(d.zones[Where(d, lba)], lba) then d.store[lba] else 0
  }

  function View(d: Dev): (v: seq<Block>)
    requires DevOK(d)
    ensures |v| == d.capacity && forall x :: 0 <= x < d.capacity ==> v[x] == ViewAt(d, x)
  {
    seq(d.capacity, x requires 0 <= x < d.capacity => ViewAt(d, x))
  }

  /** The view in terms of a zone that holds the block. */
  lemma ViewIn(d: Dev, i: nat, lba: nat)
    requires DevOK(d) && i < |d.zones| && InZone(d.zones[i], lba)
    ensures lba < d.capacity
    ensures ViewAt(d, lba) == if Shows(d.zones[i], lba) then d.store[lba] else 0
  {
    hide AllOK, Tiling;
    OnlyZone(d, lba, i);
  }

  /** A zone that keeps its extent, type and write pointer shows the same blocks. */
  lemma SameView(d: Dev, ws: seq<Zone>, i: nat, lba: nat)
    requires DevOK(d) && DevOK(d.(zones := ws)) && SameZones(d.zones, ws)
    requires i < |d.zones| && InZone(d.zones[i], lba) && (ws[i].wp == d.zones[i].wp || IsConv(ws[i]))
    ensures lba < d.capacity && ViewAt(d.(zones := ws), lba) == ViewAt(d, lba)
  {
    hide AllOK, Tiling;
    ViewIn(d, i, lba);
    ViewIn(d.(zones := ws), i, lba);
  }

  lemma Sizes(d: Dev)
    requires DevOK(d)
    ensures 0 < d.zoneSize && 0 < |d.zones| < TWO_32 && |d.store| == d.capacity < TWO_64
  {
  }

  // ---- WRITE ----

  function Total(segs: seq<seq<Block>>): nat {
    if segs == [] then 0 else |segs[0]| + Total(segs[1..])
  }

  /** zbc_check_rdwr: the segments hold the transfer, and it ends within the capacity in 64-bit
      arithmetic. */
  function CheckRdwr(d: Dev, lba: nat, n: nat, total: nat): Status {
    if total != n then TargetFailure
    else if (lba + n) % TWO_64 > d.capacity || (lba + n) % TWO_64 < lba then LbaOutOfRange
    else Ok
  }

  lemma CheckRdwrExact(d: Dev, lba: nat, n: nat, total: nat)
    requires lba < TWO_64 && n < TWO_32 && d.capacity < TWO_64
    ensures CheckRdwr(d, lba, n, total) == Ok <==> total == n && lba + n <= d.capacity
  {
  }

  /** Zone i made ready for writing: implicitly opened if it is a sequential zone that is not open. */
  function Ready(d: Dev, i: nat): Outcome
    requires i < |d.zones|
  {
    if IsConv(d.zones[i]) || IsOpen(d.zones[i]) then Outcome(d, Ok)
    else if Count(d.zones, ExpOpen) >= d.limit then Outcome(d, InsufficientResources)
    else Outcome(d.(zones := OpenZ(d.zones, d.limit, i, false)), Ok)
  }

  function Splice(s: seq<Block>, at: nat, data: seq<Block>): (r: seq<Block>)
    requires at + |data| <= |s|
    ensures |r| == |s|
    ensures forall k :: 0 <= k < |s| ==> r[k] == if at <= k < at + |data| then data[k - at] else s[k]
  {
    s[..at] + data + s[at + |data|..]
  }

  /** The write pointer moves by the blocks written in a sequential write required zone, and up to
      their end in a sequential write preferred one; a zone written to its end becomes full. */
  function Advance(z: Zone, lba: nat, n: nat): Zone {
    if IsConv(z) then z
    else
      var wp := if z.ztype == SeqWriteReq then z.wp + n else if lba + n >= z.wp then lba + n else z.wp;
      if wp >= End(z) then z.(wp := End(z), cond := Full) else z.(wp := wp)
  }

  function Put(d: Dev, i: nat, lba: nat, data: seq<Block>): Dev
    requires i < |d.zones| && lba + |data| <= |d.store|
  {
    d.(zones := d.zones[i := Advance(d.zones[i], lba, |data|)], store := Splice(d.store, lba, data))
  }

  /** Why a transfer that lies in zone z may not start at lba. */
  function Aligned(z: Zone, lba: nat): Status {
    if z.ztype != SeqWriteReq || lba == z.wp then Ok else if z.cond == Full then InvalidField else UnalignedWrite
  }

  /** The write loop on zone i. Only the first segment is ever taken: the vector is consumed but not
      stepped, so a transfer that needs a second one fails after the first is on the medium. */
  function WriteIn(d: Dev, i: nat, lba: nat, n: nat, segs: seq<seq<Block>>): Outcome
    requires i < |d.zones| && segs != [] && lba + |segs[0]| <= |d.store|
  {
    var o := Ready(d, i);
    if o.status != Ok then o
    else if segs[0] == [] then Outcome(o.dev, WriteError)
    else
      var d1 := Put(o.dev, i, lba, segs[0]);
      if |segs[0]| >= n then Outcome(d1, Ok)
      else if Ready(d1, i).status != Ok then Ready(d1, i)
      else Outcome(Ready(d1, i).dev, WriteError)
  }

  lemma FirstSegment(segs: seq<seq<Block>>)
    ensures segs != [] ==> |segs[0]| <= Total(segs)
  {
  }

  /** zbc_write */
  function WriteCommand(d: Dev, lba: nat, n: nat, segs: seq<seq<Block>>): Outcome
    requires DevOK(d) && lba < TWO_64 && n < TWO_32
  {
    CheckRdwrExact(d, lba, n, Total(segs));
    FirstSegment(segs);
    if CheckRdwr(d, lba, n, Total(segs)) != Ok then Outcome(d, CheckRdwr(d, lba, n, Total(segs)))
    else if n == 0 then Outcome(d, Ok)
    else
      Located(d, lba);
      var i := Where(d, lba);
      if lba + n > End(d.zones[i]) then Outcome(d, BoundaryViolation)
      else if Aligned(d.zones[i], lba) != Ok then Outcome(d, Aligned(d.zones[i], lba))
      else WriteIn(d, i, lba, n, segs)
  }

  // ---- writing keeps the device well formed and the open limit ----

  lemma ReadyKeeps(d: Dev, i: nat)
    requires DevOK(d) && i < |d.zones|
    ensures DevOK(Ready(d, i).dev) && (WithinLimit(d) ==> WithinLimit(Ready(d, i).dev))
    ensures SameZones(d.zones, Ready(d, i).dev.zones) && Ready(d, i).dev.store == d.store
    ensures Ready(d, i).dev == d.(zones := Ready(d, i).dev.zones)
    ensures Ready(d, i).status == Ok ==> IsConv(d.zones[i]) || IsOpen(Ready(d, i).dev.zones[i])
    ensures Ready(d, i).dev.zones[i].wp == d.zones[i].wp
    ensures forall k :: 0 <= k < |d.zones| ==> Ready(d, i).dev.zones[k].wp == d.zones[k].wp
  {
    hide AllOK, Tiling, OpenZ, Count;
    OpenSame(d.zones, d.limit, i, false);
    OpenPointers(d.zones, d.limit, i, false);
    if !IsConv(d.zones[i]) && !IsOpen(d.zones[i]) && Count(d.zones, ExpOpen) < d.limit {
      OpenKept(d, i, false);
      if WithinLimit(d) { OpenWithinLimit(d.model, d.zones, d.limit, i, false); }
    }
  }

  /** Opening moves no write pointer, and opens. */
  lemma OpenPointers(zs: seq<Zone>, limit: nat, i: nat, explicit: bool)
    requires i < |zs|
    ensures forall k :: 0 <= k < |zs| ==> OpenZ(zs, limit, i, explicit)[k].wp == zs[k].wp
    ensures OpenZ(zs, limit, i, explicit)[i].cond == Opened(explicit)
  {
    hide OpenCount, Count;
  }

  lemma PutKeeps(d: Dev, i: nat, lba: nat, data: seq<Block>)
    requires DevOK(d) && i < |d.zones| && InZone(d.zones[i], lba) && lba + |data| <= End(d.zones[i]) <= |d.store|
    requires IsConv(d.zones[i]) || IsOpen(d.zones[i])
    requires Aligned(d.zones[i], lba) == Ok
    ensures DevOK(Put(d, i, lba, data)) && (WithinLimit(d) ==> WithinLimit(Put(d, i, lba, data)))
    ensures SameZones(d.zones, Put(d, i, lba, data).zones)
  {
    hide AllOK, Tiling, OpenCount, Count;
    OneOK(d.model, d.zones, i);
    var z := Advance(d.zones[i], lba, |data|);
    OneKept(d, i, z);
    NotMoreOpen(d.zones, i, z);
  }

  // ---- what writing changes in the view ----

  /** After a write into zone i the written blocks are the data. Of the others only those between the
      old write pointer and the start of a write beyond it change: what was stored there shows. */
  lemma PutView(d: Dev, i: nat, lba: nat, data: seq<Block>, x: nat)
    requires DevOK(d) && i < |d.zones| && InZone(d.zones[i], lba) && lba + |data| <= End(d.zones[i]) <= |d.store|
    requires Aligned(d.zones[i], lba) == Ok && data != []
    requires DevOK(Put(d, i, lba, data)) && x < d.capacity
    ensures ViewAt(Put(d, i, lba, data), x) ==
            if lba <= x < lba + |data| then data[x - lba]
            else if !IsConv(d.zones[i]) && d.zones[i].wp <= x < lba then d.store[x]
            else ViewAt(d, x)
  {
    hide AllOK, Tiling;
    var e := Put(d, i, lba, data);
    TilingFacts(d, i);
    Located(d, x);
    var j := Where(d, x);
    ViewIn(d, j, x);
    ViewIn(e, j, x);
    OneOK(d.model, d.zones, i);
    if lba <= x < lba + |data| { OnlyZone(d, x, i); }
    if !IsConv(d.zones[i]) && d.zones[i].wp <= x < lba { OnlyZone(d, x, i); }
  }

  /** Opening shows the same blocks. */
  lemma ReadyView(d: Dev, i: nat, x: nat)
    requires DevOK(d) && i < |d.zones| && x < d.capacity
    requires DevOK(Ready(d, i).dev)
    ensures ViewAt(Ready(d, i).dev, x) == ViewAt(d, x)
  {
    hide AllOK, Tiling, Ready, ViewAt;
    TilingFacts(d, i);
    Located(d, x);
    ReadyKeeps(d, i);
    SameView(d, Ready(d, i).dev.zones, Where(d, x), x);
  }

  /** The blocks that reach the medium: none, or the first segment. */
  function Landed(d: Dev, lba: nat, n: nat, segs: seq<seq<Block>>): seq<Block>
    requires DevOK(d) && lba < TWO_64 && n < TWO_32
  {
    CheckRdwrExact(d, lba, n, Total(segs));
    if CheckRdwr(d, lba, n, Total(segs)) != Ok || n == 0 then []
    else
      Located(d, lba);
      var z := d.zones[Where(d, lba)];
      if lba + n > End(z) || Aligned(z, lba) != Ok || Ready(d, Where(d, lba)).status != Ok then [] else segs[0]
  }

  /** The view after one write of the given blocks in zone i. */
  ghost predicate Written(d: Dev, e: Dev, i: nat, lba: nat, data: seq<Block>)
    requires DevOK(d) && DevOK(e) && d.capacity == e.capacity
  {
    forall x :: 0 <= x < d.capacity ==>
      ViewAt(e, x) ==
      if lba <= x < lba + |data| then data[x - lba]
      else if i < |d.zones| && !IsConv(d.zones[i]) && d.zones[i].wp <= x < lba && data != [] then d.store[x]
      else ViewAt(d, x)
  }

  /** One opening, one write. */
  lemma ReadyPut(d: Dev, i: nat, lba: nat, data: seq<Block>)
    requires DevOK(d) && i < |d.zones| && InZone(d.zones[i], lba) && lba + |data| <= End(d.zones[i]) <= |d.store|
    requires Aligned(d.zones[i], lba) == Ok && Ready(d, i).status == Ok && data != []
    ensures var e := Put(Ready(d, i).dev, i, lba, data);
            && DevOK(e) && (WithinLimit(d) ==> WithinLimit(e)) && SameZones(d.zones, e.zones)
            && e.capacity == d.capacity && e.limit == d.limit && Written(d, e, i, lba, data)
            && e.store == Splice(d.store, lba, data)
            && e.zones[i].wp == Advance(d.zones[i], lba, |data|).wp
            && (forall k :: 0 <= k < |d.zones| && k != i ==> e.zones[k].wp == d.zones[k].wp)
  {
    hide AllOK, Tiling, Ready, ViewAt, OpenCount, Splice;
    var d1 := Ready(d, i).dev;
    ReadyKeeps(d, i);
    AlignedKept(d.zones[i], d1.zones[i], lba);
    PutKeeps(d1, i, lba, data);
    SameTrans(d.zones, d1.zones, Put(d1, i, lba, data).zones);
    forall x | 0 <= x < d.capacity
      ensures ViewAt(Put(d1, i, lba, data), x) ==
              if lba <= x < lba + |data| then data[x - lba]
              else if !IsConv(d.zones[i]) && d.zones[i].wp <= x < lba then d.store[x]
              else ViewAt(d, x)
    {
      PutView(d1, i, lba, data, x);
      ReadyView(d, i, x);
    }
  }

  lemma AlignedKept(z: Zone, w: Zone, lba: nat)
    requires SameZone(z, w) && w.wp == z.wp && Aligned(z, lba) == Ok
    ensures Aligned(w, lba) == Ok
  {
  }

  /** What a command that writes `data` at lba in zone i leaves. */
  ghost predicate Effect(d: Dev, e: Dev, i: nat, lba: nat, data: seq<Block>) {
    && DevOK(d) && DevOK(e) && (WithinLimit(d) ==> WithinLimit(e))
    && e.capacity == d.capacity && e.limit == d.limit && e.model == d.model && e.zoneSize == d.zoneSize
    && SameZones(d.zones, e.zones) && Written(d, e, i, lba, data)
    && lba + |data| <= |d.store| && e.store == Splice(d.store, lba, data)
    && i < |d.zones| && |e.zones| == |d.zones|
    && e.zones[i].wp == (if data == [] then d.zones[i].wp else Advance(d.zones[i], lba, |data|).wp)
    && (forall k :: 0 <= k < |d.zones| && k != i ==> e.zones[k].wp == d.zones[k].wp)
  }

  lemma ReadyEffect(d: Dev, i: nat, lba: nat)
    requires DevOK(d) && i < |d.zones| && lba <= |d.store|
    ensures Effect(d, Ready(d, i).dev, i, lba, [])
  {
    hide AllOK, Tiling, Ready, ViewAt, OpenCount;
    ReadyKeeps(d, i);
    forall x | 0 <= x < d.capacity ensures ViewAt(Ready(d, i).dev, x) == ViewAt(d, x) { ReadyView(d, i, x); }
  }

  lemma ReadyPutEffect(d: Dev, i: nat, lba: nat, data: seq<Block>)
    requires DevOK(d) && i < |d.zones| && InZone(d.zones[i], lba) && lba + |data| <= End(d.zones[i]) <= |d.store|
    requires Aligned(d.zones[i], lba) == Ok && Ready(d, i).status == Ok && data != []
    ensures Effect(d, Put(Ready(d, i).dev, i, lba, data), i, lba, data)
  {
    hide AllOK, Tiling, Ready, ViewAt, OpenCount, Splice, Written, WithinLimit;
    ReadyKeeps(d, i);
    ReadyPut(d, i, lba, data);
  }

  lemma EffectThenNone(d: Dev, e: Dev, f: Dev, i: nat, lba: nat, data: seq<Block>)
    requires Effect(d, e, i, lba, data) && Effect(e, f, i, lba, [])
    ensures Effect(d, f, i, lba, data)
  {
    hide AllOK, Tiling, ViewAt, OpenCount, SameZones;
    SameTrans(d.zones, e.zones, f.zones);
    assert f.store == e.store;
  }

  lemma WriteInEffect(d: Dev, i: nat, lba: nat, n: nat, segs: seq<seq<Block>>)
    requires DevOK(d) && i < |d.zones| && InZone(d.zones[i], lba) && lba + n <= End(d.zones[i]) <= |d.store|
    requires n > 0 && segs != [] && |segs[0]| <= n && Aligned(d.zones[i], lba) == Ok
    ensures Effect(d, WriteIn(d, i, lba, n, segs).dev, i, lba, if Ready(d, i).status == Ok then segs[0] else [])
    ensures WriteIn(d, i, lba, n, segs).status == Ok <==> Ready(d, i).status == Ok && |segs[0]| == n
  {
    hide AllOK, Tiling, Ready, ViewAt, OpenCount, Effect, Aligned;
    ReadyEffect(d, i, lba);
    ReadyKeeps(d, i);
    if Ready(d, i).status == Ok && segs[0] != [] {
      var e := Put(Ready(d, i).dev, i, lba, segs[0]);
      ReadyPutEffect(d, i, lba, segs[0]);
      EffectFacts(d, e, i, lba, segs[0]);
      if |segs[0]| < n {
        ReadyEffect(e, i, lba);
        EffectThenNone(d, e, Ready(e, i).dev, i, lba, segs[0]);
      }
    }
  }

  lemma EffectFacts(d: Dev, e: Dev, i: nat, lba: nat, data: seq<Block>)
    requires Effect(d, e, i, lba, data)
    ensures DevOK(e) && i < |e.zones| && |e.store| == |d.store| && lba <= |e.store|
  {
    hide AllOK, Tiling, Written;
  }

  /** The transfer lies in one zone, starts at the write pointer where that is required, finds an open
      slot, and comes in one segment. */
  predicate OneWrite(d: Dev, lba: nat, n: nat, segs: seq<seq<Block>>)
    requires DevOK(d) && lba < d.capacity
  {
    Located(d, lba);
    var i := Where(d, lba);
    && lba + n <= End(d.zones[i]) && Aligned(d.zones[i], lba) == Ok && Ready(d, i).status == Ok
    && segs != [] && |segs[0]| == n
  }

  /** WRITE keeps the device well formed and the open limit, and succeeds exactly for one write in one
      zone. Whatever it reports, the view is the old one with the landed blocks written. */
  lemma WriteEffect(d: Dev, lba: nat, n: nat, segs: seq<seq<Block>>)
    requires DevOK(d) && lba < TWO_64 && n < TWO_32
    ensures var r, data := WriteCommand(d, lba, n, segs), Landed(d, lba, n, segs);
            && (data == [] ==> r.dev == d || exists i :: Effect(d, r.dev, i, lba, []))
            && (data != [] ==> lba < d.capacity && Effect(d, r.dev, Where(d, lba), lba, data))
            && (r.status == Ok <==> Total(segs) == n && lba + n <= d.capacity && (n > 0 ==> OneWrite(d, lba, n, segs)))
            && (r.status == Ok ==> |data| == n)
  {
    hide AllOK, Tiling, Ready, ViewAt, OpenCount, Effect, Aligned, CheckRdwr;
    Sizes(d);
    CheckRdwrExact(d, lba, n, Total(segs));
    FirstSegment(segs);
    if CheckRdwr(d, lba, n, Total(segs)) == Ok && n > 0 {
      Located(d, lba);
      var i := Where(d, lba);
      TilingFacts(d, i);
      if lba + n <= End(d.zones[i]) && Aligned(d.zones[i], lba) == Ok {
        WriteInEffect(d, i, lba, n, segs);
      }
    }
  }
}
