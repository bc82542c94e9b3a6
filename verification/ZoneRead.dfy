/** Reading a zoned device: what a transfer into a list of segments returns, across zone boundaries
    too, and when that is what the device shows. */
module ZoneRead {
  import opened Common
  import opened Zones
  import opened ZoneCommands
  import opened ZoneData

  /** How reading into one segment ends: with the whole segment, at a zone of another type, or past the
      segment's end. */
  datatype Piece = Whole | Mixed | Overrun

  /** Where the stored blocks of a zone end that it shows. */
  function DataEnd(z: Zone): nat { if IsConv(z) then End(z) else z.wp }

  function TypeAt(d: Dev, b: nat): ZoneType
    requires DevOK(d) && b < d.capacity
  {
    Located(d, b);
    d.zones[Where(d, b)].ztype
  }

  predicate Stored(d: Dev, b: nat)
    requires DevOK(d) && b < d.capacity
  {
    Located(d, b);
    Shows(d.zones[Where(d, b)], b)
  }

  ghost predicate AllStored(d: Dev, from: nat, to: nat)
    requires DevOK(d) && to <= d.capacity
  {
    forall b :: from <= b < to ==> Stored(d, b)
  }

  ghost predicate OneType(d: Dev, ztype: ZoneType, from: nat, to: nat)
    requires DevOK(d) && to <= d.capacity
  {
    forall b :: from <= b < to ==> TypeAt(d, b) == ztype
  }

  /** A zone of another type comes before any hole, that is, any block at or above its write pointer. */
  ghost predicate Mixes(d: Dev, ztype: ZoneType, lba: nat, n: nat)
    requires DevOK(d) && lba + n <= d.capacity
  {
    d.model == HostManaged && exists b :: lba <= b < lba + n && TypeAt(d, b) != ztype && AllStored(d, lba, b)
  }

  /** There is no hole before the zone the segment ends in, which is not its first; and the segment
      leaves data of that zone unread, though less than all read before. */
  ghost predicate Overruns(d: Dev, lba: nat, n: nat)
    requires DevOK(d) && lba + n <= d.capacity
  {
    && n > 0
    && (Located(d, lba + n - 1); true)
    && var z := d.zones[Where(d, lba + n - 1)];
    lba < z.start <= d.capacity && AllStored(d, lba, z.start) && lba + n < DataEnd(z) < z.start + n
  }

  ghost function PieceEnd(d: Dev, ztype: ZoneType, lba: nat, n: nat): Piece
    requires DevOK(d) && lba + n <= d.capacity
  {
    if Mixes(d, ztype, lba, n) then Mixed else if Overruns(d, lba, n) then Overrun else Whole
  }

  /** The stored blocks up to the first hole, and zeros from there on. */
  ghost function Got(d: Dev, lba: nat, n: nat): (r: seq<Block>)
    requires DevOK(d) && lba + n <= d.capacity
    ensures |r| == n
  {
    seq(n, k requires 0 <= k < n => if AllStored(d, lba, lba + k + 1) then d.store[lba + k] else 0)
  }

  // ---- the rounds of reading into one segment ----

  /** Read so far are stored blocks, in zones of one type if the device is host managed. */
  ghost predicate ReadTo(d: Dev, ztype: ZoneType, lba: nat, at: nat, out: seq<Block>) {
    && DevOK(d) && lba <= at <= d.capacity && AllStored(d, lba, at)
    && (d.model == HostManaged ==> OneType(d, ztype, lba, at))
    && out == d.store[lba..at]
  }

  lemma ReadNothing(d: Dev, ztype: ZoneType, lba: nat)
    requires DevOK(d) && lba <= d.capacity
    ensures ReadTo(d, ztype, lba, lba, [])
  {
  }

  lemma InOneZone(d: Dev, i: nat, b: nat)
    requires DevOK(d) && i < |d.zones| && InZone(d.zones[i], b)
    ensures b < d.capacity && (Stored(d, b) <==> b < DataEnd(d.zones[i])) && TypeAt(d, b) == d.zones[i].ztype
  {
    hide AllOK, Tiling;
    OnlyZone(d, b, i);
  }

  lemma DataInside(d: Dev, i: nat)
    requires DevOK(d) && i < |d.zones|
    ensures d.zones[i].start <= DataEnd(d.zones[i]) <= End(d.zones[i]) <= d.capacity == |d.store|
  {
    hide Tiling, AllOK;
    OneOK(d.model, d.zones, i);
    TilingFacts(d, i);
  }

  /** A round that takes blocks below the data end of zone i. */
  lemma ReadOn(d: Dev, ztype: ZoneType, i: nat, lba: nat, at: nat, to: nat, out: seq<Block>)
    requires ReadTo(d, ztype, lba, at, out) && i < |d.zones|
    requires d.zones[i].start <= at <= to <= DataEnd(d.zones[i])
    requires d.model == HostManaged ==> d.zones[i].ztype == ztype
    ensures to <= d.capacity == |d.store| && ReadTo(d, ztype, lba, to, out + d.store[at..to])
  {
    hide AllOK, Tiling, Stored, TypeAt;
    DataInside(d, i);
    forall b | at <= b < to ensures Stored(d, b) && TypeAt(d, b) == d.zones[i].ztype { InOneZone(d, i, b); }
  }

  /** At the start of a zone, or in a hole. */
  ghost predicate AtEdge(d: Dev, at: nat)
    requires DevOK(d) && at < d.capacity
  {
    Located(d, at);
    var z := d.zones[Where(d, at)];
    at == z.start || !Shows(z, at)
  }

  /** A round that leaves more to read ends there. */
  lemma RoundEnds(d: Dev, i: nat, at: nat)
    requires DevOK(d) && i < |d.zones| && at == DataEnd(d.zones[i]) < d.capacity
    ensures AtEdge(d, at)
  {
    hide AllOK, Tiling;
    DataInside(d, i);
    TilingOnly(d);
    Adjacent(d, i);
    if at < End(d.zones[i]) {
      OnlyZone(d, at, i);
    } else {
      Adjacent(d, i + 1);
      OnlyZone(d, at, i + 1);
    }
  }

  lemma TilingOnly(d: Dev)
    requires DevOK(d)
    ensures Tiling(d.zones, d.zoneSize, d.capacity)
  {
  }

  lemma MixedHere(d: Dev, ztype: ZoneType, i: nat, lba: nat, at: nat, n: nat, out: seq<Block>)
    requires ReadTo(d, ztype, lba, at, out) && i < |d.zones| && InZone(d.zones[i], at)
    requires at < lba + n <= d.capacity && d.model == HostManaged && d.zones[i].ztype != ztype
    ensures PieceEnd(d, ztype, lba, n) == Mixed
  {
    hide AllOK, Tiling, Stored, TypeAt, AllStored, OneType, Overruns;
    InOneZone(d, i, at);
    assert TypeAt(d, at) != ztype && AllStored(d, lba, at);
  }

  /** No type is mixed up to a place where reading has come and may go on. */
  lemma NotMixed(d: Dev, ztype: ZoneType, i: nat, lba: nat, at: nat, n: nat, out: seq<Block>)
    requires ReadTo(d, ztype, lba, at, out) && i < |d.zones| && InZone(d.zones[i], at) && lba + n <= d.capacity
    requires d.model == HostManaged ==> d.zones[i].ztype == ztype
    requires !Shows(d.zones[i], at) || lba + n <= End(d.zones[i])
    ensures !Mixes(d, ztype, lba, n)
  {
    hide AllOK, Tiling, Stored, TypeAt;
    if Mixes(d, ztype, lba, n) {
      var b :| lba <= b < lba + n && TypeAt(d, b) != ztype && AllStored(d, lba, b);
      InOneZone(d, i, at);
      if b > at && Shows(d.zones[i], at) { InOneZone(d, i, b); }
      assert false;
    }
  }

  lemma HoleHere(d: Dev, ztype: ZoneType, i: nat, lba: nat, at: nat, n: nat, out: seq<Block>)
    requires ReadTo(d, ztype, lba, at, out) && i < |d.zones| && InZone(d.zones[i], at)
    requires at < lba + n <= d.capacity && !Shows(d.zones[i], at)
    requires d.model == HostManaged ==> d.zones[i].ztype == ztype
    ensures PieceEnd(d, ztype, lba, n) == Whole && Got(d, lba, n) == out + seq(lba + n - at, _ => 0)
  {
    hide AllOK, Tiling, Stored, TypeAt, OneType, Mixes;
    NotMixed(d, ztype, i, lba, at, n, out);
    InOneZone(d, i, at);
    NotOverrun(d, i, lba, at, n);
    hide Overruns, DevOK;
    var got := out + seq(lba + n - at, _ => 0);
    forall k | 0 <= k < n ensures Got(d, lba, n)[k] == got[k] {
      if lba + k < at {
        assert AllStored(d, lba, lba + k + 1);
      } else {
        assert !Stored(d, at) && !AllStored(d, lba, lba + k + 1);
      }
    }
  }

  lemma NotOverrun(d: Dev, i: nat, lba: nat, at: nat, n: nat)
    requires DevOK(d) && i < |d.zones| && InZone(d.zones[i], at) && lba <= at < lba + n <= d.capacity
    requires !Stored(d, at)
    ensures !Overruns(d, lba, n)
  {
    hide AllOK, Tiling, Stored;
    InOneZone(d, i, at);
    TilingOnly(d);
    Located(d, lba + n - 1);
    var j := Where(d, lba + n - 1);
    if d.zones[j].start <= at {
      InOneZone(d, j, at);
    }
  }

  lemma OverHere(d: Dev, ztype: ZoneType, i: nat, lba: nat, at: nat, n: nat, out: seq<Block>)
    requires ReadTo(d, ztype, lba, at, out) && i < |d.zones| && lba < at == d.zones[i].start
    requires at < lba + n <= d.capacity && lba + n < DataEnd(d.zones[i]) < at + n
    requires d.model == HostManaged ==> d.zones[i].ztype == ztype
    ensures PieceEnd(d, ztype, lba, n) == Overrun
  {
    hide AllOK, Tiling, Stored, TypeAt, OneType, Mixes, AllStored;
    DataInside(d, i);
    NotMixed(d, ztype, i, lba, at, n, out);
    TilingOnly(d);
    OnlyZone(d, lba + n - 1, i);
  }

  /** The last round takes blocks of zone i from its start, or from the start of the segment. */
  lemma WholeHere(d: Dev, ztype: ZoneType, i: nat, lba: nat, at: nat, n: nat, out: seq<Block>)
    requires ReadTo(d, ztype, lba, lba + n, out) && i < |d.zones| && InZone(d.zones[i], at)
    requires lba <= at < lba + n <= End(d.zones[i]) && (at == lba || at == d.zones[i].start)
    requires at + n <= DataEnd(d.zones[i]) || DataEnd(d.zones[i]) <= lba + n
    ensures PieceEnd(d, ztype, lba, n) == Whole && out == Got(d, lba, n)
  {
    hide AllOK, Tiling, Stored, TypeAt;
    TilingOnly(d);
    OnlyZone(d, lba + n - 1, i);
    forall k | 0 <= k < n ensures Got(d, lba, n)[k] == out[k] { assert AllStored(d, lba, lba + k + 1); }
  }

  // ---- the command ----

  function Sum(lens: seq<nat>): nat { if lens == [] then 0 else lens[0] + Sum(lens[1..]) }

  /** zbc_read from block `at` on into the rest of the segments, with the zone type kept between segments
      and the blocks read so far. An empty segment is taken for a failed read. The second part of the
      result says that the source would write past a segment, where the model stops. */
  ghost function Reading(d: Dev, ztype: Option<ZoneType>, at: nat, lens: seq<nat>, out: seq<Block>)
    : (Status, bool, seq<Block>)
    requires DevOK(d) && at + Sum(lens) <= d.capacity
    decreases |lens|
  {
    if lens == [] then (Ok, false, out)
    else if lens[0] == 0 then (if ztype.Some? then ReadError else InvalidData, false, out)
    else
      var t := if ztype.Some? then ztype.value else TypeAt(d, at);
      match PieceEnd(d, t, at, lens[0])
      case Overrun => (Ok, true, out)
      case Mixed => (InvalidData, false, out)
      case Whole =>
        var next := if d.model == HostManaged then Some(t) else ztype;
        Reading(d, next, at + lens[0], lens[1..], out + Got(d, at, lens[0]))
  }

  ghost function ReadCommand(d: Dev, lba: nat, n: nat, lens: seq<nat>): (Status, bool, seq<Block>)
    requires DevOK(d) && lba < TWO_64 && n < TWO_32
  {
    CheckRdwrExact(d, lba, n, Sum(lens));
    var st := CheckRdwr(d, lba, n, Sum(lens));
    if st != Ok then (st, false, []) else Reading(d, None, lba, lens, [])
  }

  // ---- what a read returns ----

  /** Nothing that the segment's zones show lies behind a hole in the segment. */
  ghost predicate NothingBehind(d: Dev, lba: nat, n: nat)
    requires DevOK(d) && lba + n <= d.capacity
  {
    forall b :: lba <= b < lba + n && ViewAt(d, b) != 0 ==> AllStored(d, lba, b + 1)
  }

  ghost predicate NothingHidden(d: Dev, at: nat, lens: seq<nat>)
    requires DevOK(d) && at + Sum(lens) <= d.capacity
    decreases |lens|
  {
    lens == [] || (NothingBehind(d, at, lens[0]) && NothingHidden(d, at + lens[0], lens[1..]))
  }

  lemma GotIsView(d: Dev, lba: nat, n: nat)
    requires DevOK(d) && lba + n <= d.capacity
    ensures |View(d)| == d.capacity && (Got(d, lba, n) == View(d)[lba..lba + n] <==> NothingBehind(d, lba, n))
  {
    hide DevOK, Stored;
    var v := View(d);
    forall b | lba <= b < lba + n
      ensures Got(d, lba, n)[b - lba] == v[lba..lba + n][b - lba] <==> (ViewAt(d, b) != 0 ==> AllStored(d, lba, b + 1))
    {
      if AllStored(d, lba, b + 1) { StoredShows(d, b); }
    }
    if Got(d, lba, n) == v[lba..lba + n] {
      forall b | lba <= b < lba + n && ViewAt(d, b) != 0 ensures AllStored(d, lba, b + 1) {
        assert Got(d, lba, n)[b - lba] == v[lba..lba + n][b - lba];
      }
    }
    if NothingBehind(d, lba, n) {
      forall k | 0 <= k < n ensures Got(d, lba, n)[k] == v[lba..lba + n][k] { assert k == (lba + k) - lba; }
    }
  }

  lemma StoredShows(d: Dev, b: nat)
    requires DevOK(d) && b < d.capacity && Stored(d, b)
    ensures ViewAt(d, b) == d.store[b]
  {
  }

  /** A read that succeeds returns exactly what the device shows if and only if, segment by segment, no shown
      block lies behind a hole: from the first hole to the end of its segment zeros are returned. */
  lemma ReadExact(d: Dev, lba: nat, n: nat, lens: seq<nat>)
    requires DevOK(d) && lba < TWO_64 && n < TWO_32
    ensures var (st, over, out) := ReadCommand(d, lba, n, lens);
            st == Ok && !over ==>
              && Sum(lens) == n && lba + n <= d.capacity == |View(d)| && 0 !in lens && |out| == n
              && (out == View(d)[lba..lba + n] <==> NothingHidden(d, lba, lens))
  {
    hide DevOK, CheckRdwr;
    Sizes(d);
    CheckRdwrExact(d, lba, n, Sum(lens));
    if Sum(lens) == n && lba + n <= d.capacity {
      ReadingExact(d, None, lba, lens, []);
    }
  }

  lemma {:induction false} ReadingExact(d: Dev, ztype: Option<ZoneType>, at: nat, lens: seq<nat>, out: seq<Block>)
    requires DevOK(d) && at + Sum(lens) <= d.capacity
    ensures var (st, over, got) := Reading(d, ztype, at, lens, out);
            st == Ok && !over ==>
              && 0 !in lens && |got| == |out| + Sum(lens) && got[..|out|] == out && |View(d)| == d.capacity
              && (got[|out|..] == View(d)[at..at + Sum(lens)] <==> NothingHidden(d, at, lens))
    decreases |lens|
  {
    hide DevOK, PieceEnd, Got, TypeAt, NothingBehind, View;
    var r := Reading(d, ztype, at, lens, out);
    if r.0 == Ok && !r.1 && lens != [] {
      var t := if ztype.Some? then ztype.value else TypeAt(d, at);
      var n, part := lens[0], Got(d, at, lens[0]);
      GotIsView(d, at, n);
      ReadingExact(d, if d.model == HostManaged then Some(t) else ztype, at + n, lens[1..], out + part);
      assert lens == [n] + lens[1..];
      hide Reading, NothingHidden;
      JoinEqual(r.2, out, part, View(d), at, at + n, at + Sum(lens));
    }
  }

  lemma JoinEqual(got: seq<Block>, out: seq<Block>, part: seq<Block>, v: seq<Block>, a: nat, b: nat, c: nat)
    requires a <= b <= c <= |v| && |part| == b - a && |got| == |out| + (c - a)
    requires got[..|out + part|] == out + part
    ensures got[..|out|] == out
    ensures got[|out|..] == v[a..c] <==> part == v[a..b] && got[|out + part|..] == v[b..c]
  {
    assert got[..|out|] == got[..|out + part|][..|out|];
    assert got[|out|..][..|part|] == got[..|out + part|][|out|..] == part;
    assert got[|out|..][|part|..] == got[|out + part|..];
    assert got[|out|..] == part + got[|out + part|..];
    assert v[a..c] == v[a..b] + v[b..c];
    if got[|out|..] == v[a..c] {
      assert part == v[a..c][..|part|] == v[a..b];
      assert got[|out + part|..] == v[a..c][|part|..] == v[b..c];
    }
  }

  /** A transfer within one zone returns what the zone shows; it fails only for an empty segment. */
  lemma ReadOneZone(d: Dev, i: nat, lba: nat, n: nat, lens: seq<nat>)
    requires DevOK(d) && lba < TWO_64 && n < TWO_32 && i < |d.zones| && InZone(d.zones[i], lba)
    requires Sum(lens) == n && lba + n <= End(d.zones[i])
    ensures var (st, over, out) := ReadCommand(d, lba, n, lens);
            && !over && (st == Ok <==> 0 !in lens) && lba + n <= d.capacity == |View(d)|
            && (st == Ok ==> out == View(d)[lba..lba + n])
  {
    hide DevOK, CheckRdwr;
    Sizes(d);
    DataInside(d, i);
    CheckRdwrExact(d, lba, n, Sum(lens));
    ReadingOneZone(d, i, None, lba, lens, []);
    ReadExact(d, lba, n, lens);
  }

  lemma {:induction false} ReadingOneZone(d: Dev, i: nat, ztype: Option<ZoneType>, at: nat, lens: seq<nat>,
                                          out: seq<Block>)
    requires DevOK(d) && i < |d.zones| && d.zones[i].start <= at && at + Sum(lens) <= End(d.zones[i]) <= d.capacity
    requires ztype.Some? ==> ztype.value == d.zones[i].ztype
    ensures var r := Reading(d, ztype, at, lens, out);
            !r.1 && (r.0 == Ok <==> 0 !in lens) && NothingHidden(d, at, lens)
    decreases |lens|
  {
    hide DevOK, PieceEnd, Got, TypeAt, NothingBehind;
    if lens != [] {
      NothingBehindIn(d, i, at, lens[0]);
      if lens[0] > 0 {
        InOneZone(d, i, at);
        WholeIn(d, i, at, lens[0]);
        var next := if d.model == HostManaged then Some(d.zones[i].ztype) else ztype;
        ReadingOneZone(d, i, next, at + lens[0], lens[1..], out + Got(d, at, lens[0]));
      } else {
        ReadingOneZone(d, i, ztype, at, lens[1..], out);
      }
      assert lens == [lens[0]] + lens[1..];
    }
  }

  lemma NothingBehindIn(d: Dev, i: nat, lba: nat, n: nat)
    requires DevOK(d) && i < |d.zones| && d.zones[i].start <= lba && lba + n <= End(d.zones[i]) <= d.capacity
    ensures NothingBehind(d, lba, n)
  {
    hide AllOK, Tiling, Stored;
    forall b | lba <= b < lba + n && ViewAt(d, b) != 0 ensures AllStored(d, lba, b + 1) {
      ViewIn(d, i, b);
      forall c | lba <= c < b + 1 ensures Stored(d, c) { InOneZone(d, i, c); }
    }
  }

  lemma WholeIn(d: Dev, i: nat, lba: nat, n: nat)
    requires DevOK(d) && i < |d.zones| && d.zones[i].start <= lba && lba + n <= End(d.zones[i]) <= d.capacity && n > 0
    ensures PieceEnd(d, d.zones[i].ztype, lba, n) == Whole
  {
    hide AllOK, Tiling, Stored, TypeAt, AllStored;
    TilingOnly(d);
    OnlyZone(d, lba + n - 1, i);
    forall b | lba <= b < lba + n ensures TypeAt(d, b) == d.zones[i].ztype { InOneZone(d, i, b); }
  }

  // ---- when a segment is overrun ----

  /** Some segment is, and none up to it is empty or meets another zone type. */
  ghost predicate OverrunIn(d: Dev, ztype: ZoneType, at: nat, lens: seq<nat>)
    requires DevOK(d) && at + Sum(lens) <= d.capacity
    decreases |lens|
  {
    && lens != [] && lens[0] > 0 && !Mixes(d, ztype, at, lens[0])
    && (Overruns(d, at, lens[0]) || OverrunIn(d, ztype, at + lens[0], lens[1..]))
  }

  /** A read in range comes to write past a segment exactly when one of them leaves its first zone, meets no
      hole before the zone it ends in, and leaves data of that zone unread, but less than it has read
      before. */
  lemma ReadOverruns(d: Dev, lba: nat, n: nat, lens: seq<nat>)
    requires DevOK(d) && lba < TWO_64 && n < TWO_32
    ensures ReadCommand(d, lba, n, lens).1 <==>
            Sum(lens) == n && lba + n <= d.capacity && n > 0 && OverrunIn(d, TypeAt(d, lba), lba, lens)
  {
    hide DevOK, CheckRdwr;
    Sizes(d);
    CheckRdwrExact(d, lba, n, Sum(lens));
    if Sum(lens) == n && lba + n <= d.capacity {
      if n > 0 { ReadingOverruns(d, None, TypeAt(d, lba), lba, lens, []); } else { NothingRead(d, lba, lens); }
    }
  }

  lemma NothingRead(d: Dev, lba: nat, lens: seq<nat>)
    requires DevOK(d) && lba + Sum(lens) <= d.capacity && Sum(lens) == 0
    ensures !Reading(d, None, lba, lens, []).1
  {
  }

  lemma {:induction false} ReadingOverruns(d: Dev, ztype: Option<ZoneType>, t: ZoneType, at: nat, lens: seq<nat>,
                                           out: seq<Block>)
    requires DevOK(d) && at + Sum(lens) <= d.capacity
    requires if ztype.Some? then t == ztype.value
             else d.model == HostManaged && lens != [] && lens[0] > 0 ==> t == TypeAt(d, at)
    ensures Reading(d, ztype, at, lens, out).1 <==> OverrunIn(d, t, at, lens)
    decreases |lens|
  {
    hide DevOK, Got, TypeAt, Overruns;
    if lens != [] && lens[0] > 0 {
      var u := if ztype.Some? then ztype.value else TypeAt(d, at);
      assert Mixes(d, u, at, lens[0]) == Mixes(d, t, at, lens[0]);
      if PieceEnd(d, u, at, lens[0]) == Whole {
        var next := if d.model == HostManaged then Some(u) else ztype;
        ReadingOverruns(d, next, t, at + lens[0], lens[1..], out + Got(d, at, lens[0]));
      }
    }
  }
}
