/** The on-disk layout of a QCOW image (versions 1 and 2) as pure functions of the host file's
    bytes: what the L1 and L2 tables, the refcount table and its blocks say. A ghost `Role` for
    every byte of the file states who owns it; all disjointness of tables, clusters and refcount
    blocks is carried by the roles.

    A virtual cluster is named by its L1 index i and its L2 index j; a refcount by the index k of
    its block and the index x inside it. QcowDisk relates both to plain offsets. */
module QcowLayout {
  import opened Bytes
  import opened Common
  import RefcountBlock

  /** Who a byte of the file belongs to. `Private(i, j)` is a data cluster only virtual cluster (i, j)
      refers to, `Shared` one that may be referred to more than once, `Pinned` anything else in use. */
  datatype Role =
    Free | Pinned | L1Tab | RefTab | L2Tab(t: nat) | RefBlk(k: nat) | Private(i: nat, j: nat) | Shared

  datatype Geo = Geo(
    v2: bool,      // version 2 or later
    cs: nat,       // cluster size in bytes
    l2n: nat,      // entries in an L2 table
    l1Off: nat,    // file offset of the L1 table
    l1Size: nat,   // entries in the L1 table
    size: nat,     // virtual disk size in bytes
    rtOff: nat,    // file offset of the refcount table
    rtSize: nat,   // entries in the refcount table
    order: nat,    // refcount order
    per: nat)      // entries in a refcount block

  ghost predicate GeoOK(g: Geo) {
    && 512 <= g.cs <= 65536 && g.cs % 512 == 0
    && 64 <= g.l2n <= 8192
    && g.order <= 6 && g.per == RefcountBlock.Capacity(g.order, g.cs) && g.per > 0
    && (g.v2 ==> 8 * g.l2n == g.cs)
    && (!g.v2 ==> g.rtSize == 0)
  }

  // ---- flag bits of L1 and L2 entries ----

  /** The bit set in entries of clusters whose refcount is 1; version 1 has no such bit. */
  function CopiedFlag(g: Geo): nat {
    if g.v2 then TWO_63 else 0
  }

  predicate IsCopied(g: Geo, e: nat) {
    g.v2 && e >= TWO_63
  }

  /** e & ~cluster_copied */
  function Strip(g: Geo, e: nat): nat {
    if IsCopied(g, e) then e - TWO_63 else e
  }

  /** e & cluster_mask: version 1 drops bit 63, version 2 drops bits 63 and 0. */
  function Mask(g: Geo, e: nat): nat {
    if g.v2 then (e % TWO_63) / 2 * 2 else e % TWO_63
  }

  /** e & cluster_compressed */
  predicate IsCompressed(g: Geo, e: nat) {
    if g.v2 then (e / TWO_62) % 2 == 1 else e >= TWO_63
  }

  /** An entry that names an uncompressed cluster without the zero flag. */
  predicate Plain(g: Geo, e: nat) {
    0 < Strip(g, e) < TWO_62 && Strip(g, e) % 2 == 0
  }

  lemma PlainEntries(g: Geo, c: nat)
    requires 0 < c < TWO_62 && c % 2 == 0
    ensures Plain(g, c + CopiedFlag(g)) && Strip(g, c + CopiedFlag(g)) == c && Mask(g, c + CopiedFlag(g)) == c
    ensures IsCopied(g, c + CopiedFlag(g)) == g.v2 && c + CopiedFlag(g) < TWO_64
  {
  }

  lemma PlainUncompressed(g: Geo, e: nat)
    requires Plain(g, e)
    ensures !IsCompressed(g, e) && !IsCompressed(g, Strip(g, e))
    ensures !IsCopied(g, e) ==> Mask(g, e) == e
  {
  }

  // ---- what the file says ----

  function L1Entry(g: Geo, f: seq<byte>, i: nat): nat {
    U64(f, g.l1Off + 8 * i)
  }

  /** File offset of the i-th L2 table, 0 when there is none. */
  function L2Off(g: Geo, f: seq<byte>, i: nat): nat {
    Mask(g, L1Entry(g, f, i))
  }

  /** The L2 entry of virtual cluster (i, j), 0 when its L2 table does not exist. */
  function Entry(g: Geo, f: seq<byte>, i: nat, j: nat): nat {
    if L2Off(g, f, i) == 0 then 0 else U64(f, L2Off(g, f, i) + 8 * j)
  }

  function ByteAt(f: seq<byte>, k: nat): byte {
    if k < |f| then f[k] else 0
  }

  /** What the image itself says about one byte of the virtual disk. */
  datatype Seen = Unmapped | Data(b: byte)

  /** Byte k of virtual cluster (i, j); an entry with just the zero flag reads as zeros. */
  function View(g: Geo, f: seq<byte>, i: nat, j: nat, k: nat): Seen {
    var e := Entry(g, f, i, j);
    if e == 0 then Unmapped
    else if Strip(g, e) == 1 then Data(0)
    else Data(ByteAt(f, Strip(g, e) + k))
  }

  function RefBlkOff(g: Geo, f: seq<byte>, k: nat): nat {
    U64(f, g.rtOff + 8 * k)
  }

  /** Entry x of refcount block k; 0 when the block does not exist. */
  function RefCount(g: Geo, f: seq<byte>, k: nat, x: nat): nat
    requires GeoOK(g)
  {
    var rb := RefBlkOff(g, f, k);
    if k >= g.rtSize || rb == 0 || rb + g.cs > |f| || x >= g.per then 0
    else RefcountBlock.Get(g.order, f[rb..rb + g.cs], x)
  }

  // ---- well-formed images ----

  ghost predicate Region(role: seq<Role>, off: nat, len: nat, r: Role) {
    && off + len <= |role|
    && forall k :: off <= k < off + len ==> role[k] == r
  }

  ghost predicate L2OK(g: Geo, f: seq<byte>, role: seq<Role>, i: nat) {
    L2Off(g, f, i) != 0 ==> Region(role, L2Off(g, f, i), 8 * g.l2n, L2Tab(i))
  }

  /** An entry is absent, the bare zero flag (version 2), or names a whole cluster; only a cluster
      no other entry refers to may carry the copied bit. */
  ghost predicate EntOK(g: Geo, f: seq<byte>, role: seq<Role>, i: nat, j: nat) {
    var e := Entry(g, f, i, j);
    || e == 0
    || (g.v2 && e == 1)
    || (Plain(g, e) &&
        (|| Region(role, Strip(g, e), g.cs, Private(i, j))
         || (!IsCopied(g, e) && Region(role, Strip(g, e), g.cs, Shared))))
  }

  ghost predicate RtOK(g: Geo, f: seq<byte>, role: seq<Role>, k: nat) {
    RefBlkOff(g, f, k) != 0 ==> Region(role, RefBlkOff(g, f, k), g.cs, RefBlk(k))
  }

  ghost predicate TabOK(g: Geo, f: seq<byte>, role: seq<Role>) {
    && |role| == |f|
    && Region(role, g.l1Off, 8 * g.l1Size, L1Tab)
    && (forall i :: 0 <= i < g.l1Size ==> L2OK(g, f, role, i))
    && (forall i, j :: 0 <= i < g.l1Size && 0 <= j < g.l2n ==> EntOK(g, f, role, i, j))
    && (g.v2 ==> Region(role, 0, g.cs, Pinned))
    && Region(role, g.rtOff, 8 * g.rtSize, RefTab)
    && (forall k :: 0 <= k < g.rtSize ==> RtOK(g, f, role, k))
  }

  /** The virtual disk is the same, byte for byte. */
  ghost predicate SameView(g: Geo, f: seq<byte>, f': seq<byte>) {
    forall i, j, k :: 0 <= i < g.l1Size && 0 <= j < g.l2n && 0 <= k < g.cs ==>
                        View(g, f', i, j, k) == View(g, f, i, j, k)
  }

  /** The virtual disk is the same outside virtual cluster (a, b). */
  ghost predicate SameViewBut(g: Geo, f: seq<byte>, f': seq<byte>, a: nat, b: nat) {
    forall i, j, k :: 0 <= i < g.l1Size && 0 <= j < g.l2n && 0 <= k < g.cs && !(i == a && j == b) ==>
                        View(g, f', i, j, k) == View(g, f, i, j, k)
  }

  ghost predicate SameCounts(g: Geo, f: seq<byte>, f': seq<byte>)
    requires GeoOK(g)
  {
    forall k, x :: 0 <= k && 0 <= x ==> RefCount(g, f', k, x) == RefCount(g, f, k, x)
  }

  // ---- frames: a change confined to free bytes and to bytes of one role ----

  ghost predicate Touches(f: seq<byte>, role: seq<Role>, f': seq<byte>, role': seq<Role>, r: Role) {
    && |role| == |f| <= |f'| == |role'|
    && (forall k :: 0 <= k < |f| && role[k] != Free ==> role'[k] == role[k])
    && (forall k :: 0 <= k < |f| && role[k] != Free && role[k] != r ==> f'[k] == f[k])
  }

  lemma RegionKept(f: seq<byte>, role: seq<Role>, f': seq<byte>, role': seq<Role>, r: Role, off: nat, len: nat, q: Role)
    requires Touches(f, role, f', role', r) && Region(role, off, len, q) && q != Free
    ensures Region(role', off, len, q)
    ensures q != r ==> forall k :: off <= k < off + len ==> f'[k] == f[k]
  {
  }

  lemma WordKept(f: seq<byte>, role: seq<Role>, f': seq<byte>, role': seq<Role>, r: Role,
                 off: nat, len: nat, q: Role, at: nat)
    requires Touches(f, role, f', role', r) && Region(role, off, len, q) && q != Free && q != r
    requires off <= at && at + 8 <= off + len
    ensures U64(f', at) == U64(f, at)
  {
    U64Frame(f, f', at);
  }

  lemma L1Kept(g: Geo, f: seq<byte>, role: seq<Role>, f': seq<byte>, role': seq<Role>, r: Role, i: nat)
    requires Touches(f, role, f', role', r) && r != L1Tab
    requires Region(role, g.l1Off, 8 * g.l1Size, L1Tab) && i < g.l1Size
    ensures L1Entry(g, f', i) == L1Entry(g, f, i)
  {
    WordKept(f, role, f', role', r, g.l1Off, 8 * g.l1Size, L1Tab, g.l1Off + 8 * i);
  }

  lemma EntryKept(g: Geo, f: seq<byte>, role: seq<Role>, f': seq<byte>, role': seq<Role>, r: Role, i: nat, j: nat)
    requires TabOK(g, f, role) && i < g.l1Size && j < g.l2n
    requires Touches(f, role, f', role', r) && r != L1Tab && r != L2Tab(i)
    ensures L2Off(g, f', i) == L2Off(g, f, i)
    ensures Entry(g, f', i, j) == Entry(g, f, i, j)
  {
    hide U64, Mask;
    L1Kept(g, f, role, f', role', r, i);
    assert L2OK(g, f, role, i);
    var o := L2Off(g, f, i);
    if o != 0 {
      WordKept(f, role, f', role', r, o, 8 * g.l2n, L2Tab(i), o + 8 * j);
    }
  }

  lemma ViewKept(g: Geo, f: seq<byte>, role: seq<Role>, f': seq<byte>, role': seq<Role>, r: Role,
                 i: nat, j: nat, k: nat)
    requires TabOK(g, f, role) && i < g.l1Size && j < g.l2n && k < g.cs
    requires Touches(f, role, f', role', r) && r != L1Tab && r != L2Tab(i)
    requires r != Private(i, j) && r != Shared
    ensures View(g, f', i, j, k) == View(g, f, i, j, k)
  {
    EntryKept(g, f, role, f', role', r, i, j);
    assert EntOK(g, f, role, i, j);
    hide L2Off, Entry, U64;
  }

  lemma BlkOffKept(g: Geo, f: seq<byte>, role: seq<Role>, f': seq<byte>, role': seq<Role>, r: Role, k: nat)
    requires Touches(f, role, f', role', r) && r != RefTab
    requires Region(role, g.rtOff, 8 * g.rtSize, RefTab) && k < g.rtSize
    ensures RefBlkOff(g, f', k) == RefBlkOff(g, f, k)
  {
    WordKept(f, role, f', role', r, g.rtOff, 8 * g.rtSize, RefTab, g.rtOff + 8 * k);
  }

  lemma RefCountKept(g: Geo, f: seq<byte>, role: seq<Role>, f': seq<byte>, role': seq<Role>, r: Role, k: nat, x: nat)
    requires GeoOK(g) && TabOK(g, f, role)
    requires Touches(f, role, f', role', r) && r != RefTab && r != RefBlk(k)
    ensures RefCount(g, f', k, x) == RefCount(g, f, k, x)
  {
    hide RefcountBlock.Get, RefcountBlock.Capacity, RefBlkOff, L2OK, EntOK;
    if k < g.rtSize {
      BlkOffKept(g, f, role, f', role', r, k);
      assert RtOK(g, f, role, k);
      var rb := RefBlkOff(g, f, k);
      if rb != 0 {
        assert f'[rb..rb + g.cs] == f[rb..rb + g.cs];
      }
    }
  }

  lemma L2OKKept(g: Geo, f: seq<byte>, role: seq<Role>, f': seq<byte>, role': seq<Role>, r: Role, i: nat)
    requires L2OK(g, f, role, i)
    requires Touches(f, role, f', role', r) && L2Off(g, f', i) == L2Off(g, f, i)
    ensures L2OK(g, f', role', i)
  {
    hide L2Off;
  }

  lemma EntOKKept(g: Geo, f: seq<byte>, role: seq<Role>, f': seq<byte>, role': seq<Role>, r: Role, i: nat, j: nat)
    requires EntOK(g, f, role, i, j)
    requires Touches(f, role, f', role', r) && Entry(g, f', i, j) == Entry(g, f, i, j)
    ensures EntOK(g, f', role', i, j)
  {
    hide Entry;
  }

  lemma RtOKKept(g: Geo, f: seq<byte>, role: seq<Role>, f': seq<byte>, role': seq<Role>, r: Role, k: nat)
    requires RtOK(g, f, role, k)
    requires Touches(f, role, f', role', r) && RefBlkOff(g, f', k) == RefBlkOff(g, f, k)
    ensures RtOK(g, f', role', k)
  {
    hide RefBlkOff;
  }
}
