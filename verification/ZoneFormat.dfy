/** Formatting the metadata of a zoned device, and the check that decides on opening a backing file
    whether its metadata is kept. */
module ZoneFormat {
  import opened Common
  import opened Zones
  import opened ZoneCommands
  import opened ZoneData
  import opened ZoneRuns

  /** Configuration, with sizes in bytes; no number of conventional zones stands for the default. */
  datatype Config = Config(model: Model, lbaSize: nat, devSize: nat, zoneBytes: nat, conv: Conv, open: nat)
  datatype Conv = DefaultConv | ConvNum(num: nat)

  predicate PowerOfTwo(n: nat) { n == 1 || (n > 0 && n % 2 == 0 && PowerOfTwo(n / 2)) }

  /** What the configuration parser lets through, for a device of at least one block, fewer than 2^32
      zones, and zones of fewer than 2^32 blocks. */
  predicate ConfigOK(c: Config) {
    && (c.lbaSize == 512 || c.lbaSize == 4096)
    && c.zoneBytes % 0x10_0000 == 0 && PowerOfTwo(c.zoneBytes) && c.zoneBytes / c.lbaSize < TWO_32
    && c.open > 0
    && c.lbaSize <= c.devSize < TWO_64
    && ZoneCount(c.devSize / c.lbaSize, c.zoneBytes / c.lbaSize) < TWO_32
  }

  function ZoneCount(capacity: nat, zoneSize: nat): nat {
    if zoneSize == 0 then 0 else (capacity + zoneSize - 1) / zoneSize
  }

  function ConvCount(c: Conv, zones: nat): nat {
    match c
    case DefaultConv => if zones / 100 == 0 then 1 else zones / 100
    case ConvNum(n) => n
  }

  /** The limit of open zones: at most half of the sequential zones, at least one. */
  function OpenLimit(open: nat, seqZones: nat): nat {
    if open >= seqZones / 2 then (if seqZones / 2 == 0 then 1 else seqZones / 2) else open
  }

  function NewZone(m: Model, start: nat, len: nat, conv: bool): Zone {
    if conv then Zone(start, len, TWO_64 - 1, Conventional, NotWp, false, false)
    else Zone(start, len, start, if m == HostAware then SeqWritePref else SeqWriteReq, Empty, false, false)
  }

  lemma {:induction false} Shrink(q: nat, c: nat)
    requires PowerOfTwo(c) && PowerOfTwo(q * c)
    ensures PowerOfTwo(q)
    decreases c
  {
    if c == 1 {
      assert q * c == q;
    } else {
      var h := c / 2;
      assert q * c == 2 * (q * h) by { Twice(q, h); }
      Shrink(q, h);
    }
  }

  lemma Twice(q: nat, h: nat)
    ensures q * (2 * h) == 2 * (q * h)
  {
  }

  lemma Powers()
    ensures PowerOfTwo(512) && PowerOfTwo(4096)
  {
    assert PowerOfTwo(4) && PowerOfTwo(16);
    assert PowerOfTwo(64);
    assert PowerOfTwo(256);
    assert PowerOfTwo(1024);
  }

  lemma DivPower(n: nat, c: nat)
    requires c == 512 || c == 4096
    requires n > 0 && n % 0x10_0000 == 0 && PowerOfTwo(n)
    ensures n / c > 0 && PowerOfTwo(n / c)
  {
    hide PowerOfTwo;
    Powers();
    assert n == n / c * c;
    Shrink(n / c, c);
  }

  /** The zone size in blocks is a power of two too. */
  lemma ZoneSizePower(c: Config)
    requires ConfigOK(c)
    ensures c.zoneBytes / c.lbaSize > 0 && PowerOfTwo(c.zoneBytes / c.lbaSize)
  {
    DivPower(c.zoneBytes, c.lbaSize);
  }

  /** zbc_format_meta: the zones of a device, the first ones conventional. */
  function FormatZones(m: Model, capacity: nat, zoneSize: nat, conv: nat): seq<Zone>
    requires 0 < zoneSize && 0 < capacity
  {
    CountOfZones(capacity, zoneSize);
    seq(ZoneCount(capacity, zoneSize), i requires 0 <= i < ZoneCount(capacity, zoneSize) =>
      (MulLe(i, ZoneCount(capacity, zoneSize) - 1, zoneSize);
       NewZone(m, i * zoneSize, Min(zoneSize, capacity - i * zoneSize), i < conv)))
  }

  lemma CountOfZones(capacity: nat, zoneSize: nat)
    requires 0 < zoneSize && 0 < capacity
    ensures var n := ZoneCount(capacity, zoneSize); 0 < n && (n - 1) * zoneSize < capacity <= n * zoneSize
  {
    var n := ZoneCount(capacity, zoneSize);
    assert n * zoneSize <= capacity + zoneSize - 1 < n * zoneSize + zoneSize;
    assert (n - 1) * zoneSize == n * zoneSize - zoneSize;
  }

  /** Where zone i starts; the capacity for the end of the last one. */
  function StartAt(capacity: nat, zoneSize: nat, i: nat): nat {
    if i < ZoneCount(capacity, zoneSize) then i * zoneSize else capacity
  }

  lemma NextStart(m: Model, capacity: nat, zoneSize: nat, conv: nat, i: nat)
    requires 0 < zoneSize && 0 < capacity && i < ZoneCount(capacity, zoneSize)
    ensures StartAt(capacity, zoneSize, 0) == 0
    ensures |FormatZones(m, capacity, zoneSize, conv)| == ZoneCount(capacity, zoneSize)
    ensures var start := StartAt(capacity, zoneSize, i);
            var len := if start + zoneSize > capacity then capacity - start else zoneSize;
            && start <= capacity && start + len == StartAt(capacity, zoneSize, i + 1)
            && FormatZones(m, capacity, zoneSize, conv)[i] == NewZone(m, start, len, i < conv)
  {
    hide ZoneCount;
    CountOfZones(capacity, zoneSize);
    var n := ZoneCount(capacity, zoneSize);
    MulLe(i, n - 1, zoneSize);
    assert (i + 1) * zoneSize == i * zoneSize + zoneSize;
    if i + 1 < n { MulLe(i + 1, n - 1, zoneSize); }
  }

  /** The formatted device, or an error when the configured conventional zones fill it. */
  datatype Formatted = Formatted(dev: Dev, conv: nat) | TooManyConv

  function Format(c: Config, store: seq<Block>): Formatted
    requires ConfigOK(c)
  {
    ZoneSizePower(c);
    var capacity := c.devSize / c.lbaSize;
    var zoneSize := c.zoneBytes / c.lbaSize;
    var n := ZoneCount(capacity, zoneSize);
    var conv := ConvCount(c.conv, n);
    if c.conv.ConvNum? && conv >= n then TooManyConv
    else
      var zs := FormatZones(c.model, capacity, zoneSize, conv);
      Formatted(Dev(c.model, capacity, zoneSize, OpenLimit(c.open, n - conv), zs, store), conv)
  }

  lemma NewZonesOK(m: Model, capacity: nat, zoneSize: nat, conv: nat)
    requires 0 < zoneSize && 0 < capacity < TWO_64 && ZoneCount(capacity, zoneSize) < TWO_32
    ensures var zs := FormatZones(m, capacity, zoneSize, conv);
            Tiling(zs, zoneSize, capacity) && AllOK(m, zs) && forall i :: 0 <= i < |zs| ==> !IsOpen(zs[i])
  {
    hide ZoneOK, IsOpen;
    CountOfZones(capacity, zoneSize);
    var zs := FormatZones(m, capacity, zoneSize, conv);
    forall i | 0 <= i < |zs|
      ensures zs[i].start == i * zoneSize && zs[i].len == Min(zoneSize, capacity - i * zoneSize)
      ensures ZoneOK(m, zs[i]) && !IsOpen(zs[i])
    {
      MulLe(i, |zs| - 1, zoneSize);
      NewZoneOK(m, zs[i].start, zs[i].len, i < conv);
    }
  }

  lemma NewZoneOK(m: Model, start: nat, len: nat, conv: bool)
    requires 0 < len
    ensures ZoneOK(m, NewZone(m, start, len, conv)) && !IsOpen(NewZone(m, start, len, conv))
  {
  }

  /** Formatting gives a well-formed device with no open zone, which may open at least one zone and
      at most as many as there are. */
  lemma FormatOK(c: Config, store: seq<Block>)
    requires ConfigOK(c) && |store| == c.devSize / c.lbaSize && Format(c, store).Formatted?
    ensures var d := Format(c, store).dev;
            DevOK(d) && OpenCount(d.zones) == 0 && WithinLimit(d) && 1 <= d.limit <= |d.zones|
  {
    hide Tiling, AllOK, FormatZones, ZoneCount, PowerOfTwo, Count;
    ZoneSizePower(c);
    var d := Format(c, store).dev;
    var conv := Format(c, store).conv;
    NewZonesOK(d.model, d.capacity, d.zoneSize, conv);
    CountOfZones(d.capacity, d.zoneSize);
    NoneOpen(d.zones);
    FormatCount(d.model, d.capacity, d.zoneSize, conv);
  }

  lemma FormatCount(m: Model, capacity: nat, zoneSize: nat, conv: nat)
    requires 0 < zoneSize && 0 < capacity
    ensures |FormatZones(m, capacity, zoneSize, conv)| == ZoneCount(capacity, zoneSize)
  {
  }

  // ---- opening an existing backing file ----

  /** zbc_check_zone */
  predicate CheckZone(m: Model, zoneSize: nat, z: Zone)
    requires zoneSize > 0
  {
    && (z.ztype == SeqWritePref ==> m == HostAware)
    && (z.ztype == SeqWriteReq ==> m == HostManaged)
    && (z.ztype == Conventional ==> z.cond == NotWp)
    && z.start % zoneSize == 0 && z.len <= zoneSize
  }

  /** zbc_check_meta on the metadata of device d, stored with its number of conventional zones. When it
      fails the file is formatted again. */
  predicate CheckMeta(c: Config, d: Dev, conv: nat) {
    && d.capacity * c.lbaSize == c.devSize
    && d.zoneSize != 0 && PowerOfTwo(d.zoneSize)
    && |d.zones| == ZoneCount(d.capacity, d.zoneSize)
    && conv < |d.zones|
    && d.limit <= |d.zones|
    && forall i :: 0 <= i < |d.zones| ==> CheckZone(d.model, d.zoneSize, d.zones[i])
  }

  lemma ZonesPass(d: Dev, i: nat)
    requires DevOK(d) && i < |d.zones|
    ensures d.zoneSize > 0 && CheckZone(d.model, d.zoneSize, d.zones[i])
  {
    OneOK(d.model, d.zones, i);
    assert d.zones[i].start == i * d.zoneSize;
    MulMod(i, d.zoneSize);
  }

  lemma MulMod(i: nat, c: nat)
    requires c > 0
    ensures i * c % c == 0
  {
    Quotient(i * c, i, 0, c);
    assert i * c == i * c / c * c + i * c % c;
  }

  lemma CountMatches(d: Dev)
    requires DevOK(d)
    ensures |d.zones| == ZoneCount(d.capacity, d.zoneSize)
  {
    var n := |d.zones|;
    assert n * d.zoneSize == (n - 1) * d.zoneSize + d.zoneSize;
    Quotient(d.capacity + d.zoneSize - 1, n, d.capacity + d.zoneSize - 1 - n * d.zoneSize, d.zoneSize);
  }

  /** After any run from format the metadata passes the check on reopening exactly when blocks divide
      the device size and the device is not a single zone made conventional by default. Otherwise each
      reopening formats it anew. */
  lemma ReopenKeepsMeta(c: Config, store: seq<Block>, ops: seq<Op>)
    requires ConfigOK(c) && |store| == c.devSize / c.lbaSize && Format(c, store).Formatted?
    requires forall k :: 0 <= k < |ops| ==> Fits(ops[k])
    ensures DevOK(Format(c, store).dev)
    ensures CheckMeta(c, Run(Format(c, store).dev, ops), Format(c, store).conv) <==>
            c.devSize % c.lbaSize == 0 &&
            !(c.conv.DefaultConv? && ZoneCount(c.devSize / c.lbaSize, c.zoneBytes / c.lbaSize) == 1)
  {
    hide Tiling, AllOK, FormatZones, ZoneCount, PowerOfTwo, Count, Run, CheckZone, SameZones, WithinLimit;
    FormatOK(c, store);
    ZoneSizePower(c);
    var f := Format(c, store);
    var d := Run(f.dev, ops);
    Sizes(d);
    CountMatches(d);
    CountMatches(f.dev);
    forall i | 0 <= i < |d.zones| ensures CheckZone(d.model, d.zoneSize, d.zones[i]) { ZonesPass(d, i); }
    assert c.devSize == c.devSize / c.lbaSize * c.lbaSize + c.devSize % c.lbaSize;
  }
}
