/** The two ways in which a write is not a plain array store, each with a well-formed image for which
    it happens. */
module QcowFaults {
  import opened Bytes
  import opened Common
  import opened Iovec
  import opened QcowDisk
  import opened QcowImage
  import opened QcowLayout
  import opened QcowRuns
  import opened QcowState
  import opened QcowSteps
  import RefcountBlock

  // ---- over a backing image ----

  /** A version 1 disk of one 1024-byte cluster with its L1 table at 1024. */
  function OldGeo(): Geo { Geo(false, 1024, 128, 1024, 1, 1024, 1032, 0, 4, 512) }

  function OldRoles(): seq<Role> {
    seq(3072, k requires 0 <= k => if 1024 <= k < 1032 then L1Tab else Pinned)
  }

  /** An image over a backing image of ones, nothing mapped: writing the first sector of its
      cluster turns the rest of that cluster into zeros. */
  lemma BackingBytesLost(data: seq<byte>)
    requires |data| == 512
    ensures var g, f, bk := OldGeo(), Zeros(3072), Raw(seq(1024, _ => 1));
      && ImageOK(g, f, OldRoles()) && DiskOK(g) && BackingOK(g, bk)
      && Written(g, bk, f, 0, data, 512) == 0
      && Overlay(Flat(g, bk, f), 0, data)[512] == 1
  {
    var g, f, bk := OldGeo(), Zeros(3072), Raw(seq(1024, _ => 1));
    NothingMapped(g, f);
    hide Entry, L2Off, TabOK;
    assert L1Index(g, 512) == 0 && L2Index(g, 512) == 0;
    assert FlatByte(g, bk, f, 512) == 1;
  }

  lemma NothingMapped(g: Geo, f: seq<byte>)
    requires g == OldGeo() && f == Zeros(3072)
    ensures TabOK(g, f, OldRoles()) && L2Off(g, f, 0) == 0 && forall j: nat :: Entry(g, f, 0, j) == 0
  {
    U64OfZeros(f, 1024);
    assert forall i :: 0 <= i < 1 ==> L2Off(g, f, i) == 0;
    assert forall j: nat :: Entry(g, f, 0, j) == 0;
    hide Entry, L2Off, RefBlkOff;
  }

  // ---- over a zero-flag cluster ----

  /** A version 2 disk of one 1024-byte cluster. Host clusters 0 to 4 hold the header, the L1 table, the
      refcount table, its one block of 16-bit counts, and the L2 table. */
  function NewGeo(): Geo { Geo(true, 1024, 128, 1024, 1, 1024, 2048, 1, 4, 512) }

  function NewRole(k: nat): Role {
    if k < 1024 then Pinned
    else if k < 1032 then L1Tab
    else if 2048 <= k < 2056 then RefTab
    else if 3072 <= k < 4096 then RefBlk(0)
    else if 4096 <= k then L2Tab(0)
    else Free
  }

  function NewRoles(): seq<Role> { seq(5120, k requires 0 <= k => NewRole(k)) }

  /** Its tables, nothing counted yet. The header starts with 'Q', and the only L2 entry in use is the
      bare zero flag. */
  function TablesOnly(): seq<byte> {
    PutWord(PutWord(PutWord(Header(), 1024, 4096 + TWO_63), 2048, 3072), 4096, 1)
  }

  function Header(): (f: seq<byte>)
    ensures |f| == 5120 && f[0] == 0x51 && forall k :: 0 < k < 5120 ==> f[k] == 0
  {
    Zeros(5120)[0 := 0x51]
  }

  /** File f with host clusters 0 to n - 1 counted once. */
  function Tallied(g: Geo, f: seq<byte>, n: nat): seq<byte>
    requires GeoOK(g) && n <= g.per && 1 < RefcountBlock.Limit(g.order)
  {
    if n == 0 then f else PutCount(g, Tallied(g, f, n - 1), 0, n - 1, 1)
  }

  function ZeroFlagFile(): seq<byte> {
    NewGeoOK();
    Tallied(NewGeo(), TablesOnly(), 5)
  }

  lemma NewGeoOK()
    ensures var g := NewGeo(); GeoOK(g) && Fits(g) && DiskOK(g) && Cover(g) == 512 && 1 < RefcountBlock.Limit(g.order)
  {
  }

  lemma WordsOf(p: nat)
    requires p + 8 <= 5120 && p % 8 == 0
    ensures |TablesOnly()| == 5120 && TablesOnly()[0] == 0x51
    ensures p > 0 ==> U64(TablesOnly(), p) ==
                      if p == 1024 then 4096 + TWO_63 else if p == 2048 then 3072 else if p == 4096 then 1 else 0
  {
    hide U64, PutWord, Zeros;
    var f0 := Header();
    var f1 := PutWord(f0, 1024, 4096 + TWO_63);
    var f2 := PutWord(f1, 2048, 3072);
    PutSize(f0, 1024, 4096 + TWO_63);
    PutSize(f1, 2048, 3072);
    PutSize(f2, 4096, 1);
    if p > 0 {
      HeaderEmpty(p);
      PutWordReads(f0, 1024, 4096 + TWO_63, p);
      PutWordReads(f1, 2048, 3072, p);
      PutWordReads(f2, 4096, 1, p);
    }
  }

  lemma HeaderEmpty(p: nat)
    requires 0 < p && p + 8 <= 5120
    ensures U64(Header(), p) == 0
  {
    hide U64;
    U64OfZeros(Header(), p);
  }

  lemma PutSize(f: seq<byte>, at: nat, v: nat)
    requires at + 8 <= |f|
    ensures |PutWord(f, at, v)| == |f| && forall k :: 0 <= k < at ==> PutWord(f, at, v)[k] == f[k]
  {
  }

  lemma TablesOK()
    ensures var g, f := NewGeo(), TablesOnly();
            && GeoOK(g) && TabOK(g, f, NewRoles()) && RefBlkOff(g, f, 0) == 3072 && L2Off(g, f, 0) == 4096
            && Entry(g, f, 0, 0) == 1 && |f| == 5120 && f[0] == 0x51
  {
    var g, f := NewGeo(), TablesOnly();
    hide U64, TablesOnly;
    WordsOf(1024);
    WordsOf(2048);
    forall j | 0 <= j < 128 ensures Entry(g, f, 0, j) == if j == 0 then 1 else 0 { WordsOf(4096 + 8 * j); }
    hide L1Entry, Entry, RefBlkOff;
  }

  /** Counting clusters leaves tables and disk alone. */
  lemma {:induction false} TalliedOK(n: nat)
    requires n <= 512
    ensures var g, f := NewGeo(), TablesOnly();
            && GeoOK(g) && n <= g.per && 1 < RefcountBlock.Limit(g.order)
            && var t := Tallied(g, f, n);
            && TabOK(g, t, NewRoles()) && RefBlkOff(g, t, 0) == 3072 && L2Off(g, t, 0) == 4096
            && Entry(g, t, 0, 0) == 1 && |t| == 5120 && t[0] == 0x51
            && forall x: nat :: RefCount(g, t, 0, x) == if x < n then 1 else RefCount(g, f, 0, x)
  {
    hide TabOK, L1Entry, RefBlkOff, RefCount, PutCount, TablesOnly, RefcountBlock.Limit;
    var g := NewGeo();
    NewGeoOK();
    TablesOK();
    if n > 0 {
      TalliedOK(n - 1);
      var f := Tallied(g, TablesOnly(), n - 1);
      BlkStep(g, f, NewRoles(), PutCount(g, f, 0, n - 1, 1), 0, n - 1, 1);
    }
  }

  lemma BlockEmpty(x: nat)
    ensures var g, f := NewGeo(), TablesOnly(); GeoOK(g) && RefCount(g, f, 0, x) == 0
  {
    hide RefBlkOff, TablesOnly, RefcountBlock.Get, TabOK;
    var g, f := NewGeo(), TablesOnly();
    TablesOK();
    BlockZero();
    if x < g.per { RefcountBlock.GetOfZeros(g.order, f[3072..4096], x); }
  }

  lemma BlockZero()
    ensures |TablesOnly()| == 5120 && forall k :: 3072 <= k < 4096 ==> TablesOnly()[k] == 0
  {
    hide ToBE;
  }

  /** Exactly the first five host clusters are counted. */
  lemma FiveCounted(n: nat)
    ensures var g := NewGeo(); GeoOK(g) && Count(g, ZeroFlagFile(), n) == if n < 5 then 1 else 0
  {
    hide TablesOnly, Tallied, TabOK, L1Entry, RefBlkOff;
    TalliedOK(5);
    NewGeoOK();
    var g := NewGeo();
    CoveredIndex(g, n);
    BlockEmpty(IndexOf(g, n));
    if n < 512 { BlockEmpty(n); }
    hide RefCount;
  }

  lemma RolesCounted(p: nat)
    requires p < 5120
    ensures var g := NewGeo(); g.cs > 0 && ClusterOf(g, p) < 5
  {
  }

  /** With n clusters counted from the front the rest of the table's are free. */
  lemma {:induction false} FreeBehind(g: Geo, f: seq<byte>, k: nat)
    requires GeoOK(g) && k <= Cover(g) && forall m: nat :: m >= k ==> Count(g, f, m) == 0
    ensures FreeFrom(g, f, k) == Cover(g) - k
    decreases Cover(g) - k
  {
    hide Count, Cover;
    if k < Cover(g) { FreeBehind(g, f, k + 1); }
  }

  lemma ImageReady()
    ensures var g, f := NewGeo(), ZeroFlagFile();
            && ImageOK(g, f, NewRoles()) && DiskOK(g) && FreeFrom(g, f, 0) >= 500
            && L2Off(g, f, 0) == 4096 && Entry(g, f, 0, 0) == 1 && |f| == 5120 && f[0] == 0x51
            && RefBlkOff(g, f, 0) == 3072
  {
    hide Tallied, TablesOnly, TabOK, L1Entry, RefBlkOff, Count, ClusterOf, RefCount, RefcountBlock.Limit, FreeFrom,
      Entry, L2Off;
    var g, f := NewGeo(), ZeroFlagFile();
    NewGeoOK();
    TalliedOK(5);
    forall n: nat ensures Count(g, f, n) == if n < 5 then 1 else 0 { FiveCounted(n); }
    forall p | 0 <= p < 5120 ensures ClusterOf(g, p) < 5 { RolesCounted(p); }
    FreeBehind(g, f, 5);
    FreeMore(g, f, 0, 5);
  }

  /** A version 2 image whose only cluster carries the zero flag, 'Q' being its file's first byte: it is well
      formed and has room, and whatever a write of the cluster's second sector leaves, the file header
      is readable in the first, where a plain array would still hold zeros. */
  lemma HeaderBytesShown(data: seq<byte>, f': seq<byte>)
    requires |data| == 512
    ensures var g, f := NewGeo(), ZeroFlagFile();
      && ImageOK(g, f, NewRoles()) && DiskOK(g)
      && Overlay(Flat(g, NoBacking, f), 512, data)[0] == 0
      && (DiskWritten(g, NoBacking, f, f', 512, data) ==> FlatByte(g, NoBacking, f', 0) == 0x51)
  {
    hide ImageOK, Tallied, TablesOnly, TabOK, L1Entry, RefBlkOff, FreeFrom, Entry, L2Off;
    var g, f := NewGeo(), ZeroFlagFile();
    ImageReady();
    NewGeoOK();
    assert L1Index(g, 0) == 0 && L2Index(g, 0) == 0 && InCluster(g, 0) == 0;
    assert FlatByte(g, NoBacking, f, 0) == 0;
    assert ResidueByte(g, f, 0) == 0x51;
    assert Touched(g, 512, 512, 0);
  }

  /** The write itself: opening that image and writing its second sector. */
  method WriteNextToZeroFlag(data: seq<byte>) returns (img: Image)
    requires |data| == 512
    ensures fresh(img) && img.Valid() && img.g == NewGeo()
    ensures FlatByte(NewGeo(), NoBacking, ZeroFlagFile(), 0) == 0 && FlatByte(img.g, NoBacking, img.file, 0) == 0x51
  {
    hide ImageOK, Tallied, TablesOnly, TabOK, FreeFrom, DiskWritten, FlatByte, Inv, Total, ZeroFlagFile, DiskOK, Fits,
      GeoOK,
      Addrs, Apart, InMem, Gather, Demand, Missing, WriteSectors;
    ImageReady();
    ReadySizes();
    img := new Image.Open(NewGeo(), ZeroFlagFile(), NewRoles());
    var mem := new byte[512](i requires 0 <= i < 512 => data[i]);
    assert mem[..] == data;
    var iov := new Iov[1](_ => Iov(0, 512));
    OneEntry(iov[..], 512);
    MissingAtMost(img.refcountTable);
    TableReads(img.g, img.S(), 0);
    var ret := Pwritev(img, NoBacking, mem, iov, 512);
    GatherRun(data, iov[..]);
    HeaderBytesShown(data, img.file);
    ZeroShown();
  }

  lemma ReadySizes()
    ensures Demand(NewGeo(), 512, 512) == 2 && WriteSectors(NewGeo(), 512, 512) == 1 && NewGeo().rtSize == 1
  {
    NoPieces(2);
    hide Pieces;
    PiecesStep(2, 1, 1);
    assert SectorIn(1, 2) == 1;
    assert Pieces(2, 1, 1) == 1 + Pieces(2, 2, 0);
  }

  lemma NoPieces(n: nat)
    requires n > 0
    ensures Pieces(n, 2, 0) == 0
  {
  }

  lemma {:induction false} MissingAtMost(rt: seq<nat>)
    ensures Missing(rt) <= |rt|
  {
    if rt != [] { MissingAtMost(rt[..|rt| - 1]); }
  }

  lemma ZeroShown()
    ensures FlatByte(NewGeo(), NoBacking, ZeroFlagFile(), 0) == 0
  {
    hide ImageOK, ZeroFlagFile, Entry, L2Off;
    ImageReady();
    var g := NewGeo();
    assert L1Index(g, 0) == 0 && L2Index(g, 0) == 0 && InCluster(g, 0) == 0;
  }
}
