/** Where on the host file a byte of the disk and the count of a host cluster are found: the image
    format in plain offsets, apart from the functions the operations use to get there. */
module QcowFormat {
  import opened Bytes
  import opened Common
  import opened QcowDisk
  import opened QcowLayout
  import opened QcowState
  import RefcountBlock

  // ---- the disk ----

  /** Byte k of the cluster that entry j of the i-th L2 table names. */
  function Place(g: Geo, i: nat, j: nat, k: nat): nat { (i * g.l2n + j) * g.cs + k }

  lemma PlaceIndices(g: Geo, i: nat, j: nat, k: nat)
    requires GeoOK(g) && j < g.l2n && k < g.cs
    ensures L1Index(g, Place(g, i, j, k)) == i && L2Index(g, Place(g, i, j, k)) == j
    ensures InCluster(g, Place(g, i, j, k)) == k
  {
    hide GeoOK;
    GeoPositive(g);
    Quotient(Place(g, i, j, k), i * g.l2n + j, k, g.cs);
    Quotient(i * g.l2n + j, i, j, g.l2n);
  }

  /** The disk shows at that place what the cluster holds, or the image below when there is none. */
  lemma PlaceShows(g: Geo, bk: Backing, f: seq<byte>, i: nat, j: nat, k: nat)
    requires GeoOK(g) && j < g.l2n && k < g.cs
    ensures FlatByte(g, bk, f, Place(g, i, j, k)) ==
            match View(g, f, i, j, k)
            case Unmapped => Below(bk, Place(g, i, j, k))
            case Data(b) => b
  {
    hide GeoOK, View, Place, L1Index, L2Index, InCluster;
    PlaceIndices(g, i, j, k);
  }

  /** Every offset of the disk is such a place. */
  lemma EveryPlace(g: Geo, p: nat) returns (i: nat, j: nat, k: nat)
    requires GeoOK(g) && DiskOK(g) && p < g.size
    ensures i < g.l1Size && j < g.l2n && k < g.cs && p == Place(g, i, j, k)
  {
    Reachable(g, p);
    GeoPositive(g);
    hide GeoOK, DiskOK;
    i, j, k := L1Index(g, p), L2Index(g, p), InCluster(g, p);
    Position(g, p);
    ClusterPlace(g, p);
    hide L1Index, L2Index, InCluster, ClusterOf;
  }

  lemma ClusterPlace(g: Geo, p: nat)
    requires g.cs > 0 && g.l2n > 0
    ensures ClusterOf(g, p) == L1Index(g, p) * g.l2n + L2Index(g, p)
  {
    hide ClusterOf;
    Euclid(ClusterOf(g, p), g.l2n);
  }

  /** The L2 table that the i-th L1 word names, without its flag bits: bit 63, and bit 0 from version 2 on. */
  function TableAt(g: Geo, f: seq<byte>, i: nat): nat {
    var t := U64(f, g.l1Off + 8 * i) % TWO_63;
    if g.v2 then t - t % 2 else t
  }

  /** In a well-formed image: an absent table or a zero word shows the image below; the word 1, bit 63 aside,
      shows zero from version 2 on; any other word is, bit 63 aside, the file offset of the cluster. */
  lemma DiskInBytes(g: Geo, bk: Backing, f: seq<byte>, role: seq<Role>, i: nat, j: nat, k: nat)
    requires GeoOK(g) && TabOK(g, f, role) && i < g.l1Size && j < g.l2n && k < g.cs
    ensures var p, e := Place(g, i, j, k), U64(f, TableAt(g, f, i) + 8 * j);
            if TableAt(g, f, i) == 0 || e == 0 then FlatByte(g, bk, f, p) == Below(bk, p)
            else if g.v2 && e % TWO_63 == 1 then FlatByte(g, bk, f, p) == 0
            else e % TWO_63 + k < |f| && FlatByte(g, bk, f, p) == f[e % TWO_63 + k]
  {
    hide GeoOK, Place, U64, FlatByte;
    PlaceShows(g, bk, f, i, j, k);
    assert EntOK(g, f, role, i, j);
  }

  // ---- the counts ----

  /** Byte y of the host cluster that entry x of the k-th refcount block counts. */
  function HostPlace(g: Geo, k: nat, x: nat, y: nat): nat { (k * g.per + x) * g.cs + y }

  /** The first bit of entry x. */
  function FirstBit(g: Geo, x: nat): nat { x * Pow2(g.order) }

  /** Host cluster k * per + x, that is, every byte y of it, is counted by entry x of the k-th refcount block. */
  lemma CountPlace(g: Geo, f: seq<byte>, k: nat, x: nat, y: nat)
    requires GeoOK(g) && x < g.per && y < g.cs
    ensures g.cs > 0 && ClusterOf(g, HostPlace(g, k, x, y)) == k * g.per + x
    ensures Count(g, f, k * g.per + x) == RefCount(g, f, k, x)
  {
    hide RefCount, GeoOK;
    Quotient(HostPlace(g, k, x, y), k * g.per + x, y, g.cs);
    BlockPlace(g, k, x);
  }

  lemma BlockPlace(g: Geo, k: nat, x: nat)
    requires x < g.per
    ensures BlkOf(g, k * g.per + x) == k && IndexOf(g, k * g.per + x) == x
  {
    Quotient(k * g.per + x, k, x, g.per);
  }

  /** Entry x of the block that the k-th word of the refcount table names: 2^order bits, from the low end of
      their byte below 8 bits, whole bytes and the most significant first from there on. */
  lemma CountInBytes(g: Geo, f: seq<byte>, k: nat, x: nat)
    requires GeoOK(g) && k < g.rtSize && x < g.per
    ensures var b, w := U64(f, g.rtOff + 8 * k), Pow2(g.order);
            var at := b + FirstBit(g, x) / 8;
            if b == 0 || b + g.cs > |f| then RefCount(g, f, k, x) == 0
            else if g.order < 3 then at < |f| && RefCount(g, f, k, x) == f[at] / Pow2(FirstBit(g, x) % 8) % Pow2(w)
            else at + w / 8 <= |f| && RefCount(g, f, k, x) == FromBE(f[at..at + w / 8])
  {
    hide U64, RefcountBlock.Get, Pow2, FromBE, FirstBit;
    var b := U64(f, g.rtOff + 8 * k);
    if b != 0 && b + g.cs <= |f| { EntryInBytes(g, f, b, x); }
  }

  lemma EntryInBytes(g: Geo, f: seq<byte>, b: nat, x: nat)
    requires g.order <= 6 && b + g.cs <= |f| && x < RefcountBlock.Capacity(g.order, g.cs)
    ensures var w := Pow2(g.order);
            var at, r := b + FirstBit(g, x) / 8, RefcountBlock.Get(g.order, f[b..b + g.cs], x);
            if g.order < 3 then at < |f| && r == f[at] / Pow2(FirstBit(g, x) % 8) % Pow2(w)
            else at + w / 8 <= |f| && r == FromBE(f[at..at + w / 8])
  {
    hide RefcountBlock.Get, RefcountBlock.Capacity, Pow2, FromBE;
    var w := Pow2(g.order);
    RefcountBlock.EntryPlace(g.order, f[b..b + g.cs], x);
    var n := FirstBit(g, x);
    hide FirstBit;
    if g.order >= 3 {
      Whole(n, w);
      SubSlice(f, b, g.cs, n / 8, w / 8);
    }
  }

  lemma SubSlice(f: seq<byte>, b: nat, n: nat, o: nat, w: nat)
    requires b + n <= |f| && o + w <= n
    ensures f[b..b + n][o..o + w] == f[b + o..b + o + w]
  {
    var s, t := f[b..b + n][o..o + w], f[b + o..b + o + w];
    forall k | 0 <= k < w ensures s[k] == t[k] { assert s[k] == f[b..b + n][o + k] == f[b + (o + k)]; }
    assert s == t;
  }

  lemma Whole(a: nat, w: nat)
    requires a % 8 == 0 && w % 8 == 0
    ensures (a + w) / 8 == a / 8 + w / 8
  {
  }
}
