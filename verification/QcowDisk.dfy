/** The virtual disk: the flat array of bytes an image denotes, and qcow_preadv and qcow_pwritev,
    which read and write it through scatter/gather vectors, one cluster at a time. */
module QcowDisk {
  import opened Bytes
  import opened Common
  import opened QcowLayout
  import opened QcowState
  import opened QcowImage
  import opened Iovec

  /** The image below, seen where this one has no cluster. */
  datatype Backing = NoBacking | Raw(data: seq<byte>)

  function Below(bk: Backing, p: nat): byte {
    if bk.Raw? && p < |bk.data| then bk.data[p] else 0
  }

  // ---- positions on the disk ----

  function L1Index(g: Geo, p: nat): nat {
    if g.cs == 0 || g.l2n == 0 then 0 else ClusterOf(g, p) / g.l2n
  }

  function L2Index(g: Geo, p: nat): nat {
    if g.cs == 0 || g.l2n == 0 then 0 else ClusterOf(g, p) % g.l2n
  }

  /** Offset of a position inside its cluster. */
  function InCluster(g: Geo, p: nat): nat {
    if g.cs == 0 then 0 else p % g.cs
  }

  /** The tables reach the whole disk, and whole sectors of it. */
  ghost predicate DiskOK(g: Geo) {
    && g.size <= g.l1Size * (g.l2n * g.cs)
    && g.size % 512 == 0
  }

  lemma Reachable(g: Geo, p: nat)
    requires GeoOK(g) && DiskOK(g) && p < g.size
    ensures L1Index(g, p) < g.l1Size && L2Index(g, p) < g.l2n && InCluster(g, p) < g.cs
  {
    hide GeoOK;
    GeoPositive(g);
    IndexBelow(p, g.cs, g.l2n, g.l1Size);
  }

  lemma GeoPositive(g: Geo)
    requires GeoOK(g)
    ensures g.cs >= 512 && g.l2n >= 64 && g.cs % 512 == 0
  {
  }

  lemma IndexBelow(p: nat, cs: nat, l2n: nat, n: nat)
    requires cs > 0 && l2n > 0 && p < n * (l2n * cs)
    ensures p / cs / l2n < n && p / cs % l2n < l2n && p % cs < cs
  {
    var vc := p / cs;
    var i := vc / l2n;
    assert p == vc * cs + p % cs && vc == i * l2n + vc % l2n;
    assert n * l2n * cs == n * (l2n * cs);
    if i >= n {
      MulLe(n, i, l2n);
      MulLe(n * l2n, vc, cs);
      assert false;
    }
  }

  /** A position is determined by its cluster and its offset there. */
  lemma Position(g: Geo, p: nat)
    requires g.cs > 0
    ensures p == At(g, ClusterOf(g, p)) + InCluster(g, p) && InCluster(g, p) < g.cs
  {
  }

  lemma OtherCluster(g: Geo, p: nat, q: nat)
    requires g.cs > 0 && g.l2n > 0 && ClusterOf(g, p) != ClusterOf(g, q)
    ensures L1Index(g, p) != L1Index(g, q) || L2Index(g, p) != L2Index(g, q)
  {
    hide ClusterOf;
    var a, b := ClusterOf(g, p), ClusterOf(g, q);
    assert a == a / g.l2n * g.l2n + a % g.l2n && b == b / g.l2n * g.l2n + b % g.l2n;
  }

  /** Moving on inside one cluster. */
  lemma WithinCluster(g: Geo, p: nat, t: nat)
    requires g.cs > 0 && InCluster(g, p) + t < g.cs
    ensures ClusterOf(g, p + t) == ClusterOf(g, p) && InCluster(g, p + t) == InCluster(g, p) + t
  {
    Position(g, p);
    Position(g, p + t);
    ClusterBytes(g, ClusterOf(g, p), p + t);
  }

  /** The last byte of a cluster is followed by the first of the next. */
  lemma NextCluster(g: Geo, p: nat)
    requires g.cs > 0 && p > 0 && InCluster(g, p) == 0
    ensures ClusterOf(g, p - 1) == ClusterOf(g, p) - 1
  {
    Position(g, p);
    var n := ClusterOf(g, p);
    assert n > 0;
    AtNext(g, n - 1);
    ClusterBytes(g, n - 1, p - 1);
  }

  lemma ClusterMonotone(g: Geo, p: nat, q: nat)
    requires g.cs > 0 && p <= q
    ensures ClusterOf(g, p) <= ClusterOf(g, q)
  {
    Position(g, p);
    Position(g, q);
    if ClusterOf(g, q) < ClusterOf(g, p) {
      MulLe(ClusterOf(g, q) + 1, ClusterOf(g, p), g.cs);
      AtNext(g, ClusterOf(g, q));
    }
  }

  // ---- the disk ----

  /** The byte a guest reads at position p. */
  function FlatByte(g: Geo, bk: Backing, f: seq<byte>, p: nat): byte {
    match View(g, f, L1Index(g, p), L2Index(g, p), InCluster(g, p))
    case Unmapped => Below(bk, p)
    case Data(b) => b
  }

  /** The disk as one flat array. */
  function Flat(g: Geo, bk: Backing, f: seq<byte>): (d: seq<byte>)
    ensures |d| == g.size && forall p :: 0 <= p < g.size ==> d[p] == FlatByte(g, bk, f, p)
  {
    seq(g.size, p requires 0 <= p => FlatByte(g, bk, f, p))
  }

  /** What position p shows once its cluster has been made writable. */
  function ResidueByte(g: Geo, f: seq<byte>, p: nat): byte {
    Residue(g, f, L1Index(g, p), L2Index(g, p), InCluster(g, p))
  }

  /** A write of len bytes at off has to make p's cluster writable. */
  predicate Touched(g: Geo, off: nat, len: nat, p: nat)
    requires g.cs > 0
  {
    len > 0 && ClusterOf(g, off) <= ClusterOf(g, p) <= ClusterOf(g, off + len - 1)
  }

  /** What position p shows after qcow_pwritev of `data` at `off`. */
  function Written(g: Geo, bk: Backing, f: seq<byte>, off: nat, data: seq<byte>, p: nat): byte
    requires g.cs > 0
  {
    if off <= p < off + |data| then data[p - off]
    else if Touched(g, off, |data|, p) then ResidueByte(g, f, p)
    else FlatByte(g, bk, f, p)
  }

  /** The whole disk after that write. */
  ghost predicate DiskWritten(g: Geo, bk: Backing, f: seq<byte>, f': seq<byte>, off: nat, data: seq<byte>)
    requires g.cs > 0
  {
    forall p :: 0 <= p < g.size ==> FlatByte(g, bk, f', p) == Written(g, bk, f, off, data, p)
  }

  /** The plain array with `data` stored at `off`: what a disk is supposed to do. */
  function Overlay(d: seq<byte>, off: nat, data: seq<byte>): seq<byte>
    requires off + |data| <= |d|
  {
    d[..off] + data + d[off + |data|..]
  }

  /** The bytes next to a write that the image does not hold itself are zero where they have to
      survive it: in the backing image under unmapped clusters, and in the file's first cluster
      for zero-flag clusters. */
  ghost predicate NeighboursHeld(g: Geo, bk: Backing, f: seq<byte>, off: nat, len: nat)
    requires g.cs > 0
  {
    forall p :: 0 <= p < g.size && Touched(g, off, len, p) && !(off <= p < off + len) ==> Held(g, bk, f, p)
  }

  ghost predicate Held(g: Geo, bk: Backing, f: seq<byte>, p: nat) {
    var e := Entry(g, f, L1Index(g, p), L2Index(g, p));
    && (e == 0 ==> Below(bk, p) == 0)
    && (e != 0 && Strip(g, e) == 1 ==> ByteAt(f, InCluster(g, p)) == 0)
  }

  lemma HeldIff(g: Geo, bk: Backing, f: seq<byte>, role: seq<Role>, p: nat)
    requires TabOK(g, f, role) && L1Index(g, p) < g.l1Size && L2Index(g, p) < g.l2n
    ensures Held(g, bk, f, p) <==> ResidueByte(g, f, p) == FlatByte(g, bk, f, p)
  {
    hide Entry, L1Index, L2Index, InCluster;
    assert EntOK(g, f, role, L1Index(g, p), L2Index(g, p));
    var e := Entry(g, f, L1Index(g, p), L2Index(g, p));
    if Plain(g, e) { PlainUncompressed(g, e); }
  }

  /** A write is a plain array store exactly when the neighbours it drags along are held. */
  lemma WriteIsOverlayIff(g: Geo, bk: Backing, f: seq<byte>, role: seq<Role>, off: nat, data: seq<byte>)
    requires GeoOK(g) && DiskOK(g) && TabOK(g, f, role) && off + |data| <= g.size
    ensures NeighboursHeld(g, bk, f, off, |data|) <==>
            forall p :: 0 <= p < g.size ==> Written(g, bk, f, off, data, p) == Overlay(Flat(g, bk, f), off, data)[p]
  {
    hide GeoOK, DiskOK, TabOK, FlatByte, ResidueByte, L1Index, L2Index, InCluster, Held, ClusterOf;
    GeoPositive(g);
    forall p | 0 <= p < g.size
      ensures Overlay(Flat(g, bk, f), off, data)[p]
           == if off <= p < off + |data| then data[p - off] else FlatByte(g, bk, f, p)
      ensures Held(g, bk, f, p) <==> ResidueByte(g, f, p) == FlatByte(g, bk, f, p)
    {
      Reachable(g, p);
      HeldIff(g, bk, f, role, p);
    }
  }

  // ---- scattering into guest memory ----

  /** preadv(2) or iovec_memset into the first n entries of seg: data goes to the addresses they name. */
  method StoreIovec(mem: array<byte>, seg: array<Iov>, n: nat, data: seq<byte>)
    requires n <= seg.Length && InMem(seg[..n], mem.Length) && Apart(Addrs(seg[..n]))
    requires |data| == |Addrs(seg[..n])|
    modifies mem
    ensures Scattered(old(mem[..]), mem[..], Addrs(seg[..n]), data)
  {
    var copy := new Iov[n](i requires 0 <= i < n reads seg => seg[i]);
    assert copy[..n] == seg[..n];
    ghost var a := Addrs(seg[..n]);
    hide Addrs, Scattered, Apart;
    var copied := MemcpyIntoIovec(mem, copy, n, data, |data|);
    assert a[..copied] == a;
  }

  /** Scattering the next piece of the data through the next piece of the vector. */
  lemma ScatterMore(was: seq<byte>, mid: seq<byte>, mem: seq<byte>, a: seq<nat>, done: nat, n: nat, data: seq<byte>)
    requires Apart(a) && done + n <= |a| && done + n <= |data|
    requires Scattered(was, mid, a[..done], data)
    requires Scattered(mid, mem, a[done..done + n], data[done..done + n])
    ensures Scattered(was, mem, a[..done + n], data)
  {
    var x, y, z := a[..done], a[done..done + n], a[..done + n];
    assert z == x + y;
    forall k | 0 <= k < |z|
      ensures z[k] < |mem| && mem[z[k]] == data[k]
    {
      if k < done {
        assert z[k] == x[k];
        NotAgain(a, done, n, k);
      } else {
        assert z[k] == y[k - done];
      }
    }
  }

  lemma NotAgain(a: seq<nat>, done: nat, n: nat, k: nat)
    requires Apart(a) && done + n <= |a| && k < done
    ensures a[k] !in a[done..done + n]
  {
  }

  lemma SegmentApart(a: seq<nat>, off: nat, n: nat)
    requires Apart(a) && off + n <= |a|
    ensures Apart(a[off..off + n])
  {
  }

  // ---- reading ----

  /** raw_probe: a backing image is exactly as large as the disk. */
  ghost predicate BackingOK(g: Geo, bk: Backing) {
    bk.Raw? ==> |bk.data| == g.size
  }

  /** Where byte q of the cluster that holds p is read from, given what get_cluster_offset returns for p. */
  lemma ReadByte(g: Geo, bk: Backing, s: State, p: nat, q: nat)
    requires Inv(g, s) && DiskOK(g) && p <= q < g.size && InCluster(g, p) + (q - p) < g.cs
    ensures var c := Strip(g, Entry(g, s.file, L1Index(g, p), L2Index(g, p)));
            && (c > 1 ==> c + InCluster(g, p) + (q - p) < |s.file|)
            && FlatByte(g, bk, s.file, q) == if c == 0 then Below(bk, q) else if c == 1 then 0
                                             else s.file[c + InCluster(g, p) + (q - p)]
  {
    hide Fits, UseOK, AllocOK, RamOK, ClusterOf, InCluster, L1Index, L2Index, Below, DiskOK, L2CacheOK, RcCacheOK;
    AllocFacts(g, s);
    GeoPositive(g);
    Reachable(g, p);
    WithinCluster(g, p, q - p);
    SameIndices(g, p, q);
    ReadEntry(g, s.file, s.role, L1Index(g, p), L2Index(g, p), InCluster(g, q));
  }

  lemma ReadEntry(g: Geo, f: seq<byte>, role: seq<Role>, i: nat, j: nat, k: nat)
    requires TabOK(g, f, role) && i < g.l1Size && j < g.l2n && k < g.cs
    ensures var c := Strip(g, Entry(g, f, i, j));
            && (c > 1 ==> c + k < |f|)
            && View(g, f, i, j, k) == if c == 0 then Unmapped else if c == 1 then Data(0) else Data(f[c + k])
  {
    hide Entry;
    assert EntOK(g, f, role, i, j);
  }

  lemma SameIndices(g: Geo, p: nat, q: nat)
    requires g.cs > 0 && ClusterOf(g, p) == ClusterOf(g, q)
    ensures L1Index(g, p) == L1Index(g, q) && L2Index(g, p) == L2Index(g, q)
  {
  }

  /** The bytes qcow_preadv reads for one cluster's piece of the request. */
  function Fetched(g: Geo, bk: Backing, f: seq<byte>, c: nat, p: nat, n: nat): (d: seq<byte>)
    requires c > 1 ==> c + InCluster(g, p) + n <= |f|
    requires c == 0 && bk.Raw? ==> p + n <= |bk.data|
    ensures |d| == n
  {
    if c == 0 then
      (if bk.NoBacking? then Zeros(n) else bk.data[p..p + n])
    else if c == 1 then Zeros(n)
    else f[c + InCluster(g, p)..c + InCluster(g, p) + n]
  }

  lemma FetchedIsFlat(g: Geo, bk: Backing, s: State, p: nat, n: nat)
    requires Inv(g, s) && DiskOK(g) && BackingOK(g, bk) && p + n <= g.size && n > 0 && InCluster(g, p) + n <= g.cs
    ensures var c := Strip(g, Entry(g, s.file, L1Index(g, p), L2Index(g, p)));
            && (c > 1 ==> c + InCluster(g, p) + n <= |s.file|)
            && Fetched(g, bk, s.file, c, p, n) == Flat(g, bk, s.file)[p..p + n]
  {
    hide Inv, DiskOK, Entry, Strip, InCluster, L1Index, L2Index, FlatByte;
    var c := Strip(g, Entry(g, s.file, L1Index(g, p), L2Index(g, p)));
    ReadByte(g, bk, s, p, p + n - 1);
    var d := Flat(g, bk, s.file)[p..p + n];
    forall t | 0 <= t < n
      ensures Fetched(g, bk, s.file, c, p, n)[t] == d[t]
    {
      ReadByte(g, bk, s, p, p + t);
    }
  }

  /** sector_index */
  function SectorIn(sector: nat, clusterSectors: nat): nat
    requires clusterSectors > 0
  {
    sector % clusterSectors
  }

  /** Sector arithmetic: sector_index counts sectors inside the cluster. */
  lemma SectorIndex(g: Geo, sector: nat)
    requires g.cs > 0 && g.cs % 512 == 0
    ensures g.cs / 512 > 0 && InCluster(g, 512 * sector) == 512 * SectorIn(sector, g.cs / 512)
  {
    var n := g.cs / 512;
    var q, r := sector / n, sector % n;
    assert sector == q * n + r && g.cs == 512 * n;
    assert 512 * sector == q * (512 * n) + 512 * r;
    Quotient(512 * sector, q, 512 * r, 512 * n);
  }

  /** The body of qcow_preadv's loop: n bytes at position p, all inside one cluster. */
  method ReadPiece(img: Image, bk: Backing, mem: array<byte>, iov: array<Iov>, segment: array<Iov>,
                   p: nat, done: nat, n: nat)
    requires img.Valid() && DiskOK(img.g) && BackingOK(img.g, bk) && iov != segment && segment.Length >= iov.Length
    requires InMem(iov[..], mem.Length) && Apart(Addrs(iov[..])) && done + n <= Total(iov[..])
    requires n > 0 && p + n <= img.g.size && InCluster(img.g, p) + n <= img.g.cs
    modifies mem, img, img.l2Cache, img.rcCache, segment
    ensures img.Valid() && img.S() == old(img.S()).(l2s := img.l2Cache.slots)
    ensures done + n <= |Addrs(iov[..])|
    ensures Scattered(old(mem[..]), mem[..], Addrs(iov[..])[done..done + n], Flat(img.g, bk, img.file)[p..p + n])
  {
    hide Inv, DiskOK, Addrs, Apart, Scattered, Flat, Entry, Strip, InCluster, L1Index, L2Index, GeoOK, Fits, Fetched,
      Mapped, Total;
    AllocFacts(img.g, img.S());
    GeoPositive(img.g);
    Reachable(img.g, p);
    AddrsLength(iov[..]);
    var cnt := IovecSegment(iov, segment, done, n, mem.Length);
    FetchedIsFlat(img.g, bk, img.S(), p, n);
    var c := img.GetClusterOffset(L1Index(img.g, p), L2Index(img.g, p), false);
    var data := Fetched(img.g, bk, img.file, c, p, n);
    SegmentApart(Addrs(iov[..]), done, n);
    StoreIovec(mem, segment, cnt, data);
  }

  /** qcow_preadv: the guest's memory receives the disk's bytes, through the vector, in order. */
  method Preadv(img: Image, bk: Backing, mem: array<byte>, iov: array<Iov>, offset: nat) returns (ret: int)
    requires img.Valid() && DiskOK(img.g) && BackingOK(img.g, bk)
    requires InMem(iov[..], mem.Length) && Apart(Addrs(iov[..]))
    requires offset % 512 == 0 && Total(iov[..]) % 512 == 0 && offset + Total(iov[..]) <= img.g.size
    modifies mem, img, img.l2Cache, img.rcCache
    ensures img.Valid() && img.S() == old(img.S()).(l2s := img.l2Cache.slots)
    ensures ret == (if Total(iov[..]) == 0 then -1 else Total(iov[..]))
    ensures Scattered(old(mem[..]), mem[..], Addrs(iov[..]),
                      Flat(img.g, bk, img.file)[offset..offset + Total(iov[..])])
  {
    hide Inv, DiskOK, Addrs, Apart, Scattered, Flat, InCluster, GeoOK, Fits, Total;
    ghost var a, was, f := Addrs(iov[..]), mem[..], img.file;
    AllocFacts(img.g, img.S());
    GeoPositive(img.g);
    AddrsLength(iov[..]);
    assert iov[..iov.Length] == iov[..];
    var count := IovecLength(iov, iov.Length);
    ghost var d := Flat(img.g, bk, f)[offset..offset + count];
    var segment := new Iov[iov.Length](_ => Iov(0, 0));
    var sectorCount, sectorNum, done := count / 512, offset / 512, 0;
    var clusterSectors := img.g.cs / 512;
    ScatteredNothing(was, a, d);
    while sectorCount > 0
      invariant img.Valid() && img.S() == old(img.S()).(l2s := img.l2Cache.slots)
      invariant 0 <= sectorCount && 0 <= done && 512 * sectorCount + done == count && 512 * sectorNum == offset + done
      invariant Scattered(was, mem[..], a[..done], d)
    {
      SectorIndex(img.g, sectorNum);
      var sectorIndex := SectorIn(sectorNum, clusterSectors);
      var n := Min(sectorCount, clusterSectors - sectorIndex);
      ghost var mid := mem[..];
      ReadPiece(img, bk, mem, iov, segment, 512 * sectorNum, done, n * 512);
      SliceOfSlice(Flat(img.g, bk, f), offset, count, done, n * 512);
      ScatterMore(was, mid, mem[..], a, done, n * 512, d);
      sectorCount := sectorCount - n;
      sectorNum := sectorNum + n;
      done := done + n * 512;
    }
    assert a[..done] == a;
    ret := if done > 0 then done else -1;
  }

  lemma SliceOfSlice(d: seq<byte>, off: nat, len: nat, i: nat, n: nat)
    requires off + len <= |d| && i + n <= len
    ensures d[off..off + len][i..i + n] == d[off + i..off + i + n]
  {
    var x, y := d[off..off + len][i..i + n], d[off + i..off + i + n];
    forall k | 0 <= k < n ensures x[k] == y[k] {
      assert d[off..off + len][i + k] == d[off + (i + k)];
    }
  }

  // ---- writing ----

  /** Between f and f' the bytes `chunk` were stored at p, inside one cluster, which was made
      writable for it; every other cluster shows and would show what it did. */
  ghost predicate ChunkStored(g: Geo, bk: Backing, f: seq<byte>, f': seq<byte>, p: nat, chunk: seq<byte>)
    requires g.cs > 0
  {
    forall q :: 0 <= q < g.size ==>
      if ClusterOf(g, q) == ClusterOf(g, p) then
        FlatByte(g, bk, f', q) == if p <= q < p + |chunk| then chunk[q - p] else ResidueByte(g, f, q)
      else
        FlatByte(g, bk, f', q) == FlatByte(g, bk, f, q) && ResidueByte(g, f', q) == ResidueByte(g, f, q)
  }

  lemma ChunkStep(g: Geo, bk: Backing, s: State, s1: State, s2: State, p: nat, chunk: seq<byte>, c: nat)
    requires Inv(g, s) && Inv(g, s1) && DiskOK(g) && p < g.size && InCluster(g, p) + |chunk| <= g.cs
    requires Mapped(g, s, s1, L1Index(g, p), L2Index(g, p), c)
    requires SameViewBut(g, s1.file, s2.file, L1Index(g, p), L2Index(g, p)) && SameEntries(g, s1.file, s2.file)
    requires s2.file == Pwrite(s1.file, c + InCluster(g, p), chunk)
    ensures g.cs > 0 && ChunkStored(g, bk, s.file, s2.file, p, chunk)
  {
    hide Inv, DiskOK, Mapped, SameViewBut, SameEntries, L1Index, L2Index, InCluster, ClusterOf, FlatByte, ResidueByte,
      GeoOK, Fits, Pwrite;
    AllocFacts(g, s);
    AllocFacts(g, s1);
    GeoPositive(g);
    forall q | 0 <= q < g.size
      ensures ClusterOf(g, q) == ClusterOf(g, p) ==>
                FlatByte(g, bk, s2.file, q) == if p <= q < p + |chunk| then chunk[q - p] else ResidueByte(g, s.file, q)
      ensures ClusterOf(g, q) != ClusterOf(g, p) ==>
                FlatByte(g, bk, s2.file, q) == FlatByte(g, bk, s.file, q) &&
                ResidueByte(g, s2.file, q) == ResidueByte(g, s.file, q)
    {
      if ClusterOf(g, q) == ClusterOf(g, p) {
        ChunkHere(g, bk, s, s1, s2, p, chunk, c, q);
      } else {
        ChunkElsewhere(g, bk, s, s1, s2, p, c, q);
      }
    }
  }

  lemma ChunkHere(g: Geo, bk: Backing, s: State, s1: State, s2: State, p: nat, chunk: seq<byte>, c: nat, q: nat)
    requires GeoOK(g) && DiskOK(g) && p < g.size && InCluster(g, p) + |chunk| <= g.cs && q < g.size
    requires |s1.role| == |s1.file| && Mapped(g, s, s1, L1Index(g, p), L2Index(g, p), c)
    requires SameEntries(g, s1.file, s2.file)
    requires s2.file == Pwrite(s1.file, c + InCluster(g, p), chunk)
    requires g.cs > 0 && ClusterOf(g, q) == ClusterOf(g, p)
    ensures FlatByte(g, bk, s2.file, q) == if p <= q < p + |chunk| then chunk[q - p] else ResidueByte(g, s.file, q)
  {
    hide DiskOK, L1Index, L2Index, InCluster, ClusterOf, Entry, GeoOK, Residue, Below, SameViewBut, SameEntriesBut,
      RolesKept, At;
    Reachable(g, p);
    Reachable(g, q);
    SameIndices(g, p, q);
    Position(g, p);
    Position(g, q);
    var i, j, k := L1Index(g, p), L2Index(g, p), InCluster(g, q);
    PlainShape(g, c);
    assert Entry(g, s2.file, i, j) == Entry(g, s1.file, i, j);
    assert View(g, s1.file, i, j, k) == Data(ByteAt(s1.file, c + k));
    assert View(g, s2.file, i, j, k) == Data(ByteAt(s2.file, c + k));
  }

  lemma PlainShape(g: Geo, c: nat)
    requires 0 < c < TWO_62 && c % 2 == 0
    ensures Strip(g, c + CopiedFlag(g)) == c > 1 && c + CopiedFlag(g) != 0
  {
  }

  lemma ChunkElsewhere(g: Geo, bk: Backing, s: State, s1: State, s2: State, p: nat, c: nat, q: nat)
    requires Inv(g, s) && DiskOK(g) && p < g.size && q < g.size
    requires Mapped(g, s, s1, L1Index(g, p), L2Index(g, p), c)
    requires SameViewBut(g, s1.file, s2.file, L1Index(g, p), L2Index(g, p)) && SameEntries(g, s1.file, s2.file)
    requires g.cs > 0 && ClusterOf(g, q) != ClusterOf(g, p)
    ensures FlatByte(g, bk, s2.file, q) == FlatByte(g, bk, s.file, q)
    ensures ResidueByte(g, s2.file, q) == ResidueByte(g, s.file, q)
  {
    hide DiskOK, L1Index, L2Index, InCluster, ClusterOf, Entry, View, Residue, GeoOK, Fits, UseOK, AllocOK, RamOK,
      L2CacheOK, RcCacheOK, ByteAt;
    AllocFacts(g, s);
    GeoPositive(g);
    Reachable(g, p);
    Reachable(g, q);
    OtherCluster(g, p, q);
    var i, j, k := L1Index(g, q), L2Index(g, q), InCluster(g, q);
    assert View(g, s1.file, i, j, k) == View(g, s.file, i, j, k);
    assert View(g, s2.file, i, j, k) == View(g, s1.file, i, j, k);
    ResidueByView(g, s.file, s2.file, s.role, i, j, k);
  }

  /** The residue of a cluster follows from its entry, what it shows, and the header cluster. */
  lemma ResidueByView(g: Geo, f: seq<byte>, f': seq<byte>, role: seq<Role>, i: nat, j: nat, k: nat)
    requires TabOK(g, f, role) && i < g.l1Size && j < g.l2n && k < g.cs
    requires Entry(g, f', i, j) == Entry(g, f, i, j) && View(g, f', i, j, k) == View(g, f, i, j, k)
    requires g.v2 ==> ByteAt(f', k) == ByteAt(f, k)
    ensures Residue(g, f', i, j, k) == Residue(g, f, i, j, k)
  {
    hide Entry;
    assert EntOK(g, f, role, i, j);
    var e := Entry(g, f, i, j);
    if Plain(g, e) { PlainUncompressed(g, e); }
  }

  /** The first `done` bytes of the data have been stored. */
  ghost predicate Progress(g: Geo, bk: Backing, f0: seq<byte>, f: seq<byte>, off: nat, data: seq<byte>, done: nat)
    requires g.cs > 0 && done <= |data|
  {
    && (forall p :: 0 <= p < g.size ==> FlatByte(g, bk, f, p) == Written(g, bk, f0, off, data[..done], p))
    && (forall p :: 0 <= p < g.size && !Touched(g, off, done, p) ==> ResidueByte(g, f, p) == ResidueByte(g, f0, p))
  }

  lemma ProgressStart(g: Geo, bk: Backing, f: seq<byte>, off: nat, data: seq<byte>)
    requires g.cs > 0
    ensures Progress(g, bk, f, f, off, data, 0)
  {
    hide FlatByte, ResidueByte;
  }

  lemma ProgressStep(g: Geo, bk: Backing, f0: seq<byte>, f: seq<byte>, f': seq<byte>, off: nat, data: seq<byte>,
                     done: nat, n: nat)
    requires g.cs > 0 && n > 0 && done + n <= |data| && Progress(g, bk, f0, f, off, data, done)
    requires InCluster(g, off + done) + n <= g.cs && (done == 0 || InCluster(g, off + done) == 0)
    requires ChunkStored(g, bk, f, f', off + done, data[done..done + n])
    ensures Progress(g, bk, f0, f', off, data, done + n)
  {
    hide FlatByte, ResidueByte, ClusterOf, InCluster;
    var p := off + done;
    var a := ClusterOf(g, p);
    WithinCluster(g, p, n - 1);
    ClusterMonotone(g, off, p);
    if done > 0 { NextCluster(g, p); }
    assert forall q :: 0 <= q ==> (Touched(g, off, done + n, q) <==> Touched(g, off, done, q) || ClusterOf(g, q) == a);
    assert forall q :: 0 <= q && Touched(g, off, done, q) ==> ClusterOf(g, q) != a;
    forall q | 0 <= q < g.size
      ensures FlatByte(g, bk, f', q) == Written(g, bk, f0, off, data[..done + n], q)
    {
      ProgressByte(g, bk, f0, f, f', off, data, done, n, q);
    }
  }

  lemma ProgressByte(g: Geo, bk: Backing, f0: seq<byte>, f: seq<byte>, f': seq<byte>, off: nat, data: seq<byte>,
                     done: nat, n: nat, q: nat)
    requires g.cs > 0 && n > 0 && done + n <= |data| && Progress(g, bk, f0, f, off, data, done) && q < g.size
    requires InCluster(g, off + done) + n <= g.cs
    requires Touched(g, off, done + n, q) <==> Touched(g, off, done, q) || ClusterOf(g, q) == ClusterOf(g, off + done)
    requires Touched(g, off, done, q) ==> ClusterOf(g, q) != ClusterOf(g, off + done)
    requires ChunkStored(g, bk, f, f', off + done, data[done..done + n])
    ensures FlatByte(g, bk, f', q) == Written(g, bk, f0, off, data[..done + n], q)
  {
    hide FlatByte, ResidueByte, InCluster, Touched, ClusterOf;
    var p := off + done;
    if p <= q < p + n {
      WithinCluster(g, p, q - p);
    }
    if off <= q < p {
      WrittenTouched(g, off, done, q);
    }
  }

  lemma WrittenTouched(g: Geo, off: nat, len: nat, q: nat)
    requires g.cs > 0 && off <= q < off + len
    ensures Touched(g, off, len, q)
  {
    ClusterMonotone(g, off, q);
    ClusterMonotone(g, q, off + len - 1);
  }

  /** How many cluster pieces a run of `count` sectors falls into. */
  function Pieces(clusterSectors: nat, sector: nat, count: nat): nat
    requires clusterSectors > 0
    decreases count
  {
    if count == 0 then 0
    else
      var n := Min(count, clusterSectors - SectorIn(sector, clusterSectors));
      1 + Pieces(clusterSectors, sector + n, count - n)
  }

  lemma PiecesStep(clusterSectors: nat, sector: nat, count: nat)
    requires clusterSectors > 0 && count > 0
    ensures var n := Min(count, clusterSectors - SectorIn(sector, clusterSectors));
            && 0 < n <= count && n <= clusterSectors - SectorIn(sector, clusterSectors)
            && Pieces(clusterSectors, sector, count) == 1 + Pieces(clusterSectors, sector + n, count - n)
  {
  }

  /** The sectors qcow_pwritev really writes: the request cut off at the end of the disk. */
  function WriteSectors(g: Geo, offset: nat, total: nat): nat {
    if offset / 512 >= g.size / 512 then 0 else Min(total / 512, g.size / 512 - offset / 512)
  }

  /** Host allocations a write may need: an L2 table and a cluster for every piece. */
  function Demand(g: Geo, offset: nat, total: nat): nat {
    if g.cs < 512 then 0 else 2 * Pieces(g.cs / 512, offset / 512, WriteSectors(g, offset, total))
  }

  /** No entry becomes unmapped or a bare zero flag. */
  ghost predicate MappingsKept(g: Geo, f: seq<byte>, f': seq<byte>) {
    forall i, j :: 0 <= i < g.l1Size && 0 <= j < g.l2n ==>
      && (Entry(g, f', i, j) == 0 ==> Entry(g, f, i, j) == 0)
      && (Strip(g, Entry(g, f', i, j)) == 1 ==> Strip(g, Entry(g, f, i, j)) == 1)
  }

  lemma MappingsKeptTrans(g: Geo, f: seq<byte>, f1: seq<byte>, f2: seq<byte>)
    requires MappingsKept(g, f, f1) && MappingsKept(g, f1, f2)
    ensures MappingsKept(g, f, f2)
  {
    hide Entry, Strip;
  }

  lemma MappingsKeptRefl(g: Geo, f: seq<byte>)
    ensures MappingsKept(g, f, f)
  {
  }

  lemma MappedKeeps(g: Geo, s: State, s1: State, s2: State, i: nat, j: nat, c: nat)
    requires Mapped(g, s, s1, i, j, c) && SameEntries(g, s1.file, s2.file)
    ensures MappingsKept(g, s.file, s2.file)
  {
    hide Entry, SameViewBut, View, Residue;
    PlainShape(g, c);
    forall a, b | 0 <= a < g.l1Size && 0 <= b < g.l2n
      ensures Entry(g, s2.file, a, b) == 0 ==> Entry(g, s.file, a, b) == 0
      ensures Strip(g, Entry(g, s2.file, a, b)) == 1 ==> Strip(g, Entry(g, s.file, a, b)) == 1
    {
      assert Entry(g, s2.file, a, b) == Entry(g, s1.file, a, b);
      if a != i || b != j { assert Entry(g, s1.file, a, b) == Entry(g, s.file, a, b); }
    }
  }

  /** The body of qcow_pwritev's loop: n sectors at position p, all inside one cluster. */
  method WritePiece(img: Image, ghost bk: Backing, mem: array<byte>, iov: array<Iov>, segment: array<Iov>,
                    p: nat, done: nat, n: nat)
    requires img.Valid() && DiskOK(img.g) && iov != segment && segment.Length >= iov.Length
    requires InMem(iov[..], mem.Length) && done + n <= Total(iov[..])
    requires n > 0 && p + n <= img.g.size && InCluster(img.g, p) + n <= img.g.cs && img.Room() >= 2
    modifies img, img.l2Cache, img.rcCache, segment
    ensures img.Valid() && img.pend == old(img.pend) && img.Room() >= old(img.Room()) - 2
    ensures img.g.cs > 0 && done + n <= |Addrs(iov[..])|
    ensures forall k :: 0 <= k < |Addrs(iov[..])| ==> Addrs(iov[..])[k] < mem.Length
    ensures ChunkStored(img.g, bk, old(img.file), img.file, p, Gather(mem[..], Addrs(iov[..])[done..done + n]))
    ensures MappingsKept(img.g, old(img.file), img.file)
  {
    hide MappingsKept, Inv, DiskOK, Addrs, InCluster, L1Index, L2Index, GeoOK, Fits, Mapped, Total, Region,
      SameViewBut, SameEntries,
      ChunkStored;
    ghost var g, s := img.g, img.S();
    AllocFacts(g, s);
    GeoPositive(g);
    Reachable(g, p);
    AddrsLength(iov[..]);
    AddrsInMem(iov[..], mem.Length);
    var cnt := IovecSegment(iov, segment, done, n, mem.Length);
    var c := img.GetClusterOffset(L1Index(img.g, p), L2Index(img.g, p), true);
    ghost var s1 := img.S();
    MappedRegion(g, s, s1, L1Index(g, p), L2Index(g, p), c);
    var chunk := Gather(mem[..], Addrs(segment[..cnt]));
    img.WriteCluster(c, InCluster(img.g, p), chunk, L1Index(g, p), L2Index(g, p));
    ChunkStep(g, bk, s, s1, img.S(), p, chunk, c);
    MappedKeeps(g, s, s1, img.S(), L1Index(g, p), L2Index(g, p), c);
  }

  /** One round of qcow_pwritev's loop: the sectors from sectorNum on that lie in its cluster, `done` bytes of
      the data being stored already. */
  method WriteRound(img: Image, ghost bk: Backing, mem: array<byte>, iov: array<Iov>, segment: array<Iov>,
                    sectorNum: nat, sectorCount: nat, done: nat,
                    ghost f0: seq<byte>, ghost offset: nat, ghost data: seq<byte>)
    returns (n: nat)
    requires img.Valid() && DiskOK(img.g) && iov != segment && segment.Length >= iov.Length
    requires img.g.cs >= 512 && sectorNum + sectorCount <= img.g.size / 512 && 0 < sectorCount
    requires 512 * sectorNum == offset + done && |data| == done + 512 * sectorCount
    requires InMem(iov[..], mem.Length) && |data| <= |Addrs(iov[..])| == Total(iov[..])
    requires forall k :: 0 <= k < |Addrs(iov[..])| ==> Addrs(iov[..])[k] < mem.Length
    requires data == Gather(mem[..], Addrs(iov[..])[..|data|])
    requires done > 0 ==> InCluster(img.g, offset + done) == 0
    requires img.Room() >= 2 * Pieces(img.g.cs / 512, sectorNum, sectorCount)
    requires Progress(img.g, bk, f0, img.file, offset, data, done) && MappingsKept(img.g, f0, img.file)
    modifies img, img.l2Cache, img.rcCache, segment
    ensures img.Valid() && img.pend == old(img.pend) && 0 < n <= sectorCount && img.g.cs >= 512
    ensures n < sectorCount ==> InCluster(img.g, offset + done + 512 * n) == 0
    ensures img.Room() - 2 * Pieces(img.g.cs / 512, sectorNum + n, sectorCount - n) >=
            old(img.Room()) - 2 * Pieces(img.g.cs / 512, sectorNum, sectorCount)
    ensures done + 512 * n <= |data| && Progress(img.g, bk, f0, img.file, offset, data, done + 512 * n)
    ensures MappingsKept(img.g, f0, img.file)
  {
    hide Gather, Inv, DiskOK, Addrs, InCluster, GeoOK, Fits, Total, Progress, ChunkStored, Pieces, MappingsKept,
      SectorIn;
    ghost var g, f := img.g, img.file;
    AllocFacts(g, img.S());
    GeoPositive(g);
    SectorIndex(g, sectorNum);
    PiecesStep(img.g.cs / 512, sectorNum, sectorCount);
    n := Min(sectorCount, img.g.cs / 512 - SectorIn(sectorNum, img.g.cs / 512));
    WritePiece(img, bk, mem, iov, segment, 512 * sectorNum, done, n * 512);
    GatherSlice(mem[..], Addrs(iov[..]), |data|, done, done + n * 512);
    MappingsKeptTrans(g, f0, f, img.file);
    ProgressStep(g, bk, f0, f, img.file, offset, data, done, n * 512);
    if n < sectorCount { PieceEnd(g, sectorNum, n); }
  }

  /** qcow_pwritev: the disk shows the vector's bytes from `offset` on; `Written` says what else moved. */
  method Pwritev(img: Image, ghost bk: Backing, mem: array<byte>, iov: array<Iov>, offset: nat) returns (ret: int)
    requires img.Valid() && DiskOK(img.g)
    requires InMem(iov[..], mem.Length) && offset % 512 == 0 && Total(iov[..]) % 512 == 0
    requires img.Room() >= Demand(img.g, offset, Total(iov[..]))
    modifies img, img.l2Cache, img.rcCache
    ensures img.Valid() && img.pend == old(img.pend)
    ensures img.Room() >= old(img.Room()) - Demand(img.g, offset, Total(iov[..]))
    ensures var n := 512 * WriteSectors(img.g, offset, Total(iov[..]));
            && ret == (if offset >= img.g.size then 0 else if n == 0 then -1 else n)
            && img.g.cs > 0 && n <= |Addrs(iov[..])| && (forall k :: 0 <= k < n ==> Addrs(iov[..])[k] < mem.Length)
            && DiskWritten(img.g, bk, old(img.file), img.file, offset, Gather(mem[..], Addrs(iov[..])[..n]))
    ensures MappingsKept(img.g, old(img.file), img.file)
  {
    hide Gather, Inv, DiskOK, Addrs, InCluster, GeoOK, Fits, Total, Progress, ChunkStored, DiskWritten, Pieces,
      MappingsKept, SectorIn;
    ghost var g, f0 := img.g, img.file;
    AllocFacts(g, img.S());
    GeoPositive(g);
    WholeSectors(g);
    AddrsLength(iov[..]);
    AddrsInMem(iov[..], mem.Length);
    assert iov[..iov.Length] == iov[..];
    var count := IovecLength(iov, iov.Length);
    var sectorCount: nat, sectorNum: nat, done: nat := count / 512, offset / 512, 0;
    ghost var sectors := WriteSectors(g, offset, count);
    ghost var data := Gather(mem[..], Addrs(iov[..])[..512 * sectors]);
    ProgressStart(g, bk, f0, offset, data);
    MappingsKeptRefl(g, f0);
    if sectorNum >= img.g.size / 512 {
      ProgressDone(g, bk, f0, f0, offset, data);
      return 0;
    }
    sectorCount := Min(sectorCount, img.g.size / 512 - sectorNum);
    var segment := new Iov[iov.Length](_ => Iov(0, 0));
    while sectorCount > 0
      invariant img.Valid() && img.pend == old(img.pend)
      invariant 0 <= sectorCount && 512 * sectorCount + done == |data| && 512 * sectorNum == offset + done
      invariant done > 0 && sectorCount > 0 ==> InCluster(g, offset + done) == 0
      invariant img.Room() - 2 * Pieces(g.cs / 512, sectorNum, sectorCount) >=
                old(img.Room()) - 2 * Pieces(g.cs / 512, offset / 512, sectors)
      invariant Progress(g, bk, f0, img.file, offset, data, done)
      invariant MappingsKept(g, f0, img.file)
    {
      var n := WriteRound(img, bk, mem, iov, segment, sectorNum, sectorCount, done, f0, offset, data);
      sectorCount := sectorCount - n;
      sectorNum := sectorNum + n;
      done := done + n * 512;
    }
    ProgressDone(g, bk, f0, img.file, offset, data);
    ret := if done > 0 then done else -1;
  }

  lemma GatherSlice(mem: seq<byte>, a: seq<nat>, n: nat, i: nat, j: nat)
    requires i <= j <= n <= |a| && forall k :: 0 <= k < |a| ==> a[k] < |mem|
    ensures Gather(mem, a[..n])[i..j] == Gather(mem, a[i..j])
  {
  }

  lemma WholeSectors(g: Geo)
    requires DiskOK(g)
    ensures g.size % 512 == 0
  {
  }

  lemma MappedRegion(g: Geo, s: State, s': State, i: nat, j: nat, c: nat)
    requires Mapped(g, s, s', i, j, c)
    ensures Region(s'.role, c, g.cs, Private(i, j)) && s'.pend == s.pend
  {
  }

  lemma ProgressDone(g: Geo, bk: Backing, f0: seq<byte>, f: seq<byte>, off: nat, data: seq<byte>)
    requires g.cs > 0 && Progress(g, bk, f0, f, off, data, |data|)
    ensures DiskWritten(g, bk, f0, f, off, data)
  {
    hide FlatByte, Written;
    assert data[..|data|] == data;
  }

  /** A piece that is not the last ends with its cluster. */
  lemma PieceEnd(g: Geo, sector: nat, n: nat)
    requires g.cs >= 512 && g.cs % 512 == 0 && n == g.cs / 512 - SectorIn(sector, g.cs / 512)
    ensures InCluster(g, 512 * (sector + n)) == 0
  {
    SectorIndex(g, sector);
    var p := 512 * sector;
    Position(g, p);
    AtNext(g, ClusterOf(g, p));
    assert p + 512 * n == At(g, ClusterOf(g, p) + 1);
    AtOf(g, ClusterOf(g, p) + 1);
    Position(g, p + 512 * n);
  }
}
