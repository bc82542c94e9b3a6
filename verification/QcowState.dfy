/** The run-time state of an open image as one value, its invariant, and what each primitive
    update does to it. `Inv` ties the RAM copies of the L1 and refcount tables and both block
    caches to the file, and says which host clusters the allocator may hand out. */
module QcowState {
  import opened Bytes
  import opened Common
  import opened QcowLayout
  import opened QcowSteps
  import opened TableCache
  import RefcountBlock

  datatype State = State(
    file: seq<byte>,
    l1: seq<nat>,          // RAM copy of the L1 table
    rt: seq<nat>,          // RAM copy of the refcount table
    l2s: seq<Slot>,        // L2 cache
    rcs: seq<Slot>,        // refcount block cache
    ff: nat,               // first_free_cluster, as a cluster number
    role: seq<Role>,
    pend: set<nat>)        // host clusters handed out but not yet counted

  // ---- host clusters ----

  /** The refcount block of host cluster n. */
  function BlkOf(g: Geo, n: nat): nat {
    if g.per == 0 then 0 else n / g.per
  }

  /** Its index in that block. */
  function IndexOf(g: Geo, n: nat): nat {
    if g.per == 0 then 0 else n % g.per
  }

  /** The refcount of host cluster n. */
  function Count(g: Geo, f: seq<byte>, n: nat): nat
    requires GeoOK(g)
  {
    RefCount(g, f, BlkOf(g, n), IndexOf(g, n))
  }

  /** Number of host clusters the refcount table covers. */
  function Cover(g: Geo): nat {
    g.rtSize * g.per
  }

  /** Offset of host cluster n. */
  function At(g: Geo, n: nat): nat {
    n * g.cs
  }

  function ClusterOf(g: Geo, p: nat): nat
    requires g.cs > 0
  {
    p / g.cs
  }

  ghost predicate Fits(g: Geo) {
    Cover(g) * g.cs <= TWO_62
  }

  lemma CoveredIndex(g: Geo, n: nat)
    requires g.per > 0
    ensures IndexOf(g, n) < g.per
    ensures n < Cover(g) <==> BlkOf(g, n) < g.rtSize
  {
    var k, x := n / g.per, n % g.per;
    assert n == k * g.per + x;
    if k >= g.rtSize {
      MulLe(g.rtSize, k, g.per);
    } else {
      MulLe(k + 1, g.rtSize, g.per);
      assert (k + 1) * g.per == k * g.per + g.per;
    }
  }

  lemma SameIndex(g: Geo, n: nat, m: nat)
    requires g.per > 0 && BlkOf(g, n) == BlkOf(g, m) && IndexOf(g, n) == IndexOf(g, m)
    ensures n == m
  {
    assert n == n / g.per * g.per + n % g.per;
    assert m == m / g.per * g.per + m % g.per;
  }

  /** Bytes of host cluster n, and only they, lie in [n * cs, (n + 1) * cs). */
  lemma ClusterBytes(g: Geo, n: nat, p: nat)
    requires g.cs > 0
    ensures ClusterOf(g, p) == n <==> At(g, n) <= p < At(g, n) + g.cs
  {
    var m := p / g.cs;
    assert At(g, m) <= p < At(g, m) + g.cs;
    if m < n {
      MulLe(m + 1, n, g.cs);
      assert (m + 1) * g.cs == m * g.cs + g.cs;
    } else if m > n {
      MulLe(n + 1, m, g.cs);
      assert (n + 1) * g.cs == n * g.cs + g.cs;
    }
  }

  lemma CountsSame(g: Geo, f: seq<byte>, f': seq<byte>, n: nat)
    requires GeoOK(g) && SameCounts(g, f, f')
    ensures Count(g, f', n) == Count(g, f, n)
  {
    hide RefCount, BlkOf, IndexOf;
  }

  // ---- the invariant ----

  ghost predicate Used(g: Geo, f: seq<byte>, n: nat, pend: set<nat>)
    requires GeoOK(g)
  {
    n in pend || Count(g, f, n) > 0
  }

  /** Version 2: every byte in use lies in a host cluster that is counted or pending. */
  ghost predicate UseOK(g: Geo, f: seq<byte>, role: seq<Role>, pend: set<nat>)
    requires GeoOK(g)
  {
    g.v2 ==> forall p :: 0 <= p < |role| && role[p] != Free ==> Used(g, f, ClusterOf(g, p), pend)
  }

  /** The RAM tables are the file's. */
  ghost predicate RamOK(g: Geo, f: seq<byte>, l1: seq<nat>, rt: seq<nat>) {
    && |l1| == g.l1Size && (forall i :: 0 <= i < g.l1Size ==> l1[i] == L1Entry(g, f, i))
    && |rt| == g.rtSize && (forall k :: 0 <= k < g.rtSize ==> rt[k] == RefBlkOff(g, f, k))
  }

  /** Cached L2 blocks are L2 tables the L1 table names. */
  ghost predicate L2Key(g: Geo, f: seq<byte>, role: seq<Role>, key: nat) {
    key != 0 ==> key < |role| && role[key].L2Tab? && role[key].t < g.l1Size && L2Off(g, f, role[key].t) == key
  }

  ghost predicate L2CacheOK(g: Geo, f: seq<byte>, role: seq<Role>, l2s: seq<Slot>) {
    && Coherent(l2s, 8 * g.l2n, f)
    && forall i :: 0 <= i < SLOTS ==> L2Key(g, f, role, l2s[i].key)
  }

  /** Cached refcount blocks are blocks the refcount table names. */
  ghost predicate RcKey(g: Geo, f: seq<byte>, role: seq<Role>, key: nat) {
    key != 0 ==> key < |role| && role[key].RefBlk? && role[key].k < g.rtSize && RefBlkOff(g, f, role[key].k) == key
  }

  ghost predicate RcCacheOK(g: Geo, f: seq<byte>, role: seq<Role>, rcs: seq<Slot>) {
    && Coherent(rcs, g.cs, f)
    && forall i :: 0 <= i < SLOTS ==> RcKey(g, f, role, rcs[i].key)
  }

  /** What is pending lies behind the allocator. */
  ghost predicate AllocOK(g: Geo, ff: nat, pend: set<nat>) {
    g.v2 ==> forall n :: n in pend ==> n < ff
  }

  ghost predicate Inv(g: Geo, s: State) {
    && GeoOK(g) && Fits(g)
    && TabOK(g, s.file, s.role)
    && UseOK(g, s.file, s.role, s.pend)
    && RamOK(g, s.file, s.l1, s.rt)
    && L2CacheOK(g, s.file, s.role, s.l2s)
    && RcCacheOK(g, s.file, s.role, s.rcs)
    && AllocOK(g, s.ff, s.pend)
  }

  /** Version 2: the header cluster is untouched. */
  ghost predicate HeaderKept(g: Geo, f: seq<byte>, f': seq<byte>) {
    g.v2 ==> forall k :: 0 <= k < g.cs ==> ByteAt(f', k) == ByteAt(f, k)
  }

  lemma HeaderUntouched(g: Geo, f: seq<byte>, role: seq<Role>, f': seq<byte>, role': seq<Role>, r: Role)
    requires TabOK(g, f, role) && Touches(f, role, f', role', r) && r != Pinned
    ensures HeaderKept(g, f, f')
  {
    hide L2OK, EntOK, RtOK;
  }

  ghost predicate SameEntries(g: Geo, f: seq<byte>, f': seq<byte>) {
    && (forall i, j :: 0 <= i < g.l1Size && 0 <= j < g.l2n ==> Entry(g, f', i, j) == Entry(g, f, i, j))
    && HeaderKept(g, f, f')
  }

  ghost predicate SameEntriesBut(g: Geo, f: seq<byte>, f': seq<byte>, a: nat, b: nat) {
    && (forall i, j :: 0 <= i < g.l1Size && 0 <= j < g.l2n && !(i == a && j == b) ==>
                         Entry(g, f', i, j) == Entry(g, f, i, j))
    && HeaderKept(g, f, f')
  }

  /** Nothing the guest sees has moved: the same L1 and L2 entries, the same virtual disk. */
  ghost predicate KeptTables(g: Geo, f: seq<byte>, f': seq<byte>) {
    && (forall i :: 0 <= i < g.l1Size ==> L1Entry(g, f', i) == L1Entry(g, f, i))
    && SameEntries(g, f, f')
    && SameView(g, f, f')
  }

  lemma KeptTablesTrans(g: Geo, f: seq<byte>, f1: seq<byte>, f2: seq<byte>)
    requires KeptTables(g, f, f1) && KeptTables(g, f1, f2)
    ensures KeptTables(g, f, f2)
  {
    hide L1Entry, Entry, View;
  }

  // ---- invariant parts under a framed change ----

  lemma L2CacheKept(g: Geo, f: seq<byte>, role: seq<Role>, f': seq<byte>, role': seq<Role>, r: Role, l2s: seq<Slot>)
    requires TabOK(g, f, role) && L2CacheOK(g, f, role, l2s)
    requires Touches(f, role, f', role', r) && !r.L2Tab?
    requires forall i :: 0 <= i < g.l1Size && L2Off(g, f, i) != 0 ==> L2Off(g, f', i) == L2Off(g, f, i)
    ensures L2CacheOK(g, f', role', l2s)
  {
    hide L2Off;
    forall i | 0 <= i < SLOTS && l2s[i].key != 0
      ensures L2Key(g, f', role', l2s[i].key)
      ensures forall k :: l2s[i].key <= k < l2s[i].key + 8 * g.l2n ==> f'[k] == f[k]
    {
      var key := l2s[i].key;
      assert L2Key(g, f, role, key);
      var t := role[key].t;
      assert L2OK(g, f, role, t);
      RegionKept(f, role, f', role', r, key, 8 * g.l2n, L2Tab(t));
    }
    CoherentFrame(l2s, 8 * g.l2n, f, f');
  }

  lemma RcCacheKept(g: Geo, f: seq<byte>, role: seq<Role>, f': seq<byte>, role': seq<Role>, r: Role, rcs: seq<Slot>)
    requires TabOK(g, f, role) && RcCacheOK(g, f, role, rcs)
    requires Touches(f, role, f', role', r) && !r.RefBlk?
    requires forall k :: 0 <= k < g.rtSize && RefBlkOff(g, f, k) != 0 ==> RefBlkOff(g, f', k) == RefBlkOff(g, f, k)
    ensures RcCacheOK(g, f', role', rcs)
  {
    hide RefBlkOff;
    forall i | 0 <= i < SLOTS && rcs[i].key != 0
      ensures RcKey(g, f', role', rcs[i].key)
      ensures forall k :: rcs[i].key <= k < rcs[i].key + g.cs ==> f'[k] == f[k]
    {
      var key := rcs[i].key;
      assert RcKey(g, f, role, key);
      var t := role[key].k;
      assert RtOK(g, f, role, t);
      RegionKept(f, role, f', role', r, key, g.cs, RefBlk(t));
    }
    CoherentFrame(rcs, g.cs, f, f');
  }

  lemma UseKept(g: Geo, f: seq<byte>, role: seq<Role>, pend: set<nat>, f': seq<byte>, role': seq<Role>, pend': set<nat>)
    requires GeoOK(g) && UseOK(g, f, role, pend)
    requires g.v2 ==> forall n :: 0 <= n && Used(g, f, n, pend) ==> Used(g, f', n, pend')
    requires forall p :: 0 <= p < |role'| && role'[p] != Free ==>
               (p < |role| && role[p] != Free) || (g.v2 ==> ClusterOf(g, p) in pend')
    ensures UseOK(g, f', role', pend')
  {
    hide Count;
  }

  // ---- claiming free bytes ----

  /** The roles after [c, c + len) is handed out with role r. */
  function Claim(role: seq<Role>, c: nat, len: nat, r: Role): (role': seq<Role>)
    ensures |role'| == Max(|role|, c + len)
    ensures forall p :: 0 <= p < |role'| ==>
              role'[p] == if c <= p < c + len then r else if p < |role| then role[p] else Free
  {
    seq(Max(|role|, c + len),
        p requires 0 <= p => if c <= p < c + len then r else if p < |role| then role[p] else Free)
  }

  ghost predicate Unclaimed(role: seq<Role>, c: nat, len: nat) {
    forall p :: c <= p < c + len && p < |role| ==> role[p] == Free
  }

  /** Handing out unclaimed bytes and filling them with `content` disturbs nothing. */
  lemma ClaimTouches(f: seq<byte>, role: seq<Role>, c: nat, content: seq<byte>, r: Role)
    requires |role| == |f| && Unclaimed(role, c, |content|)
    ensures Touches(f, role, Pwrite(f, c, content), Claim(role, c, |content|, r), Free)
    ensures Region(Claim(role, c, |content|, r), c, |content|, r)
    ensures forall k :: c <= k < c + |content| ==> Pwrite(f, c, content)[k] == content[k - c]
  {
  }

  lemma ClaimInv(g: Geo, s: State, s': State, n: nat, c: nat, content: seq<byte>, r: Role)
    requires Inv(g, s) && Unclaimed(s.role, c, |content|) && r != Free
    requires s' == s.(file := Pwrite(s.file, c, content), role := Claim(s.role, c, |content|, r),
                      ff := s'.ff, pend := s'.pend)
    requires g.v2 ==>
      && c == At(g, n) && |content| == g.cs && s'.pend == s.pend + {n}
      && n < s'.ff && s.ff <= s'.ff
    ensures Inv(g, s') && Region(s'.role, c, |content|, r)
    ensures KeptTables(g, s.file, s'.file) && SameCounts(g, s.file, s'.file)
    ensures Touches(s.file, s.role, s'.file, s'.role, Free)
    ensures forall k :: c <= k < c + |content| ==> s'.file[k] == content[k - c]
  {
    ClaimTouches(s.file, s.role, c, content, r);
    forall p | 0 <= p < |s'.role| && s'.role[p] != Free
      ensures (p < |s.role| && s.role[p] != Free) || (g.v2 ==> ClusterOf(g, p) in s'.pend)
    {
      if g.v2 && c <= p < c + |content| { ClusterBytes(g, n, p); }
    }
    hide L1Entry, L2Off, Entry, RefBlkOff, RefCount, Count, View, L2OK, EntOK, RtOK, Claim, Pwrite, Touches, At, Cover;
    DataStep(g, s.file, s.role, s'.file, s'.role, Free);
    HeaderUntouched(g, s.file, s.role, s'.file, s'.role, Free);
    forall n: nat ensures Count(g, s'.file, n) == Count(g, s.file, n) { CountsSame(g, s.file, s'.file, n); }
    UseKept(g, s.file, s.role, s.pend, s'.file, s'.role, s'.pend);
    OffsKept(g, s.file, s'.file);
    L2CacheKept(g, s.file, s.role, s'.file, s'.role, Free, s.l2s);
    RcCacheKept(g, s.file, s.role, s'.file, s'.role, Free, s.rcs);
  }

  lemma OffsKept(g: Geo, f: seq<byte>, f': seq<byte>)
    requires forall i :: 0 <= i < g.l1Size ==> L1Entry(g, f', i) == L1Entry(g, f, i)
    ensures forall i :: 0 <= i < g.l1Size ==> L2Off(g, f', i) == L2Off(g, f, i)
  {
    hide L1Entry;
  }

  // ---- the other primitive updates ----

  /** l1_table_update: a fresh L2 table enters the L1 table, in RAM and in the file. */
  lemma L1Inv(g: Geo, s: State, s': State, t: nat, c: nat)
    requires Inv(g, s) && t < g.l1Size && L2Off(g, s.file, t) == 0
    requires 0 < c < TWO_62 && c % 2 == 0 && Region(s.role, c, 8 * g.l2n, L2Tab(t))
    requires forall k :: c <= k < c + 8 * g.l2n ==> s.file[k] == 0
    requires s' == s.(file := PutWord(s.file, g.l1Off + 8 * t, c + CopiedFlag(g)),
                      l1 := s.l1[t := c + CopiedFlag(g)])
    ensures Inv(g, s') && SameView(g, s.file, s'.file) && SameCounts(g, s.file, s'.file)
    ensures L2Off(g, s'.file, t) == c
    ensures SameEntries(g, s.file, s'.file)
  {
    L1Step(g, s.file, s.role, s'.file, t, c);
    HeaderUntouched(g, s.file, s.role, s'.file, s.role, L1Tab);
    hide L1Entry, Entry, RefBlkOff, RefCount, Count, View, L2OK, EntOK, RtOK, PutWord, Touches, Mask, Cover;
    forall n: nat ensures Count(g, s'.file, n) == Count(g, s.file, n) { CountsSame(g, s.file, s'.file, n); }
    UseKept(g, s.file, s.role, s.pend, s'.file, s.role, s.pend);
    L2CacheKept(g, s.file, s.role, s'.file, s.role, L1Tab, s.l2s);
    RcCacheKept(g, s.file, s.role, s'.file, s.role, L1Tab, s.rcs);
  }

  lemma L2KeysApart(g: Geo, f: seq<byte>, role: seq<Role>, p: nat, q: nat)
    requires TabOK(g, f, role) && p != q && p != 0 && q != 0 && g.l2n > 0
    requires L2Key(g, f, role, p) && L2Key(g, f, role, q)
    ensures p + 8 * g.l2n <= q || q + 8 * g.l2n <= p
  {
    hide L2Off;
    assert L2OK(g, f, role, role[p].t);
    assert L2OK(g, f, role, role[q].t);
  }

  /** l2_table_update: cluster c becomes the data of virtual cluster (a, b), in the cache and in the file. */
  lemma L2Inv(g: Geo, s: State, s': State, at: nat, a: nat, b: nat, c: nat)
    requires Inv(g, s) && a < g.l1Size && b < g.l2n && L2Off(g, s.file, a) != 0
    requires at < SLOTS && s.l2s[at].key == L2Off(g, s.file, a)
    requires 0 < c < TWO_62 && c % 2 == 0 && Region(s.role, c, g.cs, Private(a, b))
    requires s' == s.(file := PutWord(s.file, L2Off(g, s.file, a) + 8 * b, c + CopiedFlag(g)),
                      l2s := s.l2s[at := s.l2s[at].(data := PutWord(s.l2s[at].data, 8 * b, c + CopiedFlag(g)))])
    ensures Inv(g, s') && SameViewBut(g, s.file, s'.file, a, b) && SameCounts(g, s.file, s'.file)
    ensures L2Off(g, s'.file, a) == L2Off(g, s.file, a)
    ensures SameEntriesBut(g, s.file, s'.file, a, b)
    ensures Entry(g, s'.file, a, b) == c + CopiedFlag(g)
    ensures forall k :: 0 <= k < g.cs ==> View(g, s'.file, a, b, k) == Data(s.file[c + k])
  {
    hide GeoOK, TabOK, UseOK, RamOK, L2CacheOK, RcCacheOK, AllocOK, Region, L1Entry, L2Off, Entry, View, PutWord,
      Touches, RefBlkOff, SameCounts, SameViewBut;
    L2Step(g, s.file, s.role, s'.file, a, b, c);
    HeaderUntouched(g, s.file, s.role, s'.file, s.role, L2Tab(a));
    OffsKept(g, s.file, s'.file);
    assert SameEntriesBut(g, s.file, s'.file, a, b);
    hide *;
    L2Rest(g, s, s', at, a, b, c + CopiedFlag(g));
  }

  lemma L2Rest(g: Geo, s: State, s': State, at: nat, a: nat, b: nat, v: nat)
    requires Inv(g, s) && TabOK(g, s'.file, s.role) && SameCounts(g, s.file, s'.file)
    requires forall i :: 0 <= i < g.l1Size ==> L1Entry(g, s'.file, i) == L1Entry(g, s.file, i)
    requires forall k :: 0 <= k < g.rtSize ==> RefBlkOff(g, s'.file, k) == RefBlkOff(g, s.file, k)
    requires Touches(s.file, s.role, s'.file, s.role, L2Tab(a))
    requires at < SLOTS && s.l2s[at].key == L2Off(g, s.file, a) != 0 && b < g.l2n
    requires s' == s.(file := PutWord(s.file, L2Off(g, s.file, a) + 8 * b, v),
                      l2s := s.l2s[at := s.l2s[at].(data := PutWord(s.l2s[at].data, 8 * b, v))])
    ensures Inv(g, s')
  {
    hide L1Entry, L2Off, RefBlkOff, PutWord, Touches, Cover, L2CacheOK, RcCacheOK, TabOK, UseOK, AllocOK;
    SameUse(g, s.file, s'.file, s.role, s.pend);
    RcCacheKept(g, s.file, s.role, s'.file, s.role, L2Tab(a), s.rcs);
    OffsKept(g, s.file, s'.file);
    L2CacheStep(g, s.file, s.role, s'.file, s.l2s, s'.l2s, at, b, v);
  }

  /** Equal counts keep what the allocator relies on. */
  lemma SameUse(g: Geo, f: seq<byte>, f': seq<byte>, role: seq<Role>, pend: set<nat>)
    requires GeoOK(g) && SameCounts(g, f, f') && UseOK(g, f, role, pend)
    ensures UseOK(g, f', role, pend)
  {
    forall n: nat ensures Count(g, f', n) == Count(g, f, n) { CountsSame(g, f, f', n); }
    hide Count;
    UseKept(g, f, role, pend, f', role, pend);
  }

  lemma L2CacheStep(g: Geo, f: seq<byte>, role: seq<Role>, f': seq<byte>, l2s: seq<Slot>, l2s': seq<Slot>,
                    at: nat, b: nat, v: nat)
    requires TabOK(g, f, role) && L2CacheOK(g, f, role, l2s) && at < SLOTS && l2s[at].key != 0 && b < g.l2n
    requires f' == PutWord(f, l2s[at].key + 8 * b, v)
    requires l2s' == l2s[at := l2s[at].(data := PutWord(l2s[at].data, 8 * b, v))]
    requires forall i :: 0 <= i < g.l1Size ==> L2Off(g, f', i) == L2Off(g, f, i)
    ensures L2CacheOK(g, f', role, l2s')
  {
    L2CacheWritten(g, f, role, l2s, at, b, v);
    hide L2Off, PutWord, L2Key, Coherent, TabOK;
    L2KeysKept(g, f, f', role, l2s, l2s');
  }

  lemma L2KeyKept(g: Geo, f: seq<byte>, f': seq<byte>, role: seq<Role>, key: nat)
    requires L2Key(g, f, role, key)
    requires forall i :: 0 <= i < g.l1Size ==> L2Off(g, f', i) == L2Off(g, f, i)
    ensures L2Key(g, f', role, key)
  {
    hide L2Off;
  }

  lemma L2CacheWritten(g: Geo, f: seq<byte>, role: seq<Role>, l2s: seq<Slot>, at: nat, b: nat, v: nat)
    requires TabOK(g, f, role) && L2CacheOK(g, f, role, l2s) && at < SLOTS && l2s[at].key != 0 && b < g.l2n
    ensures Coherent(l2s[at := l2s[at].(data := PutWord(l2s[at].data, 8 * b, v))], 8 * g.l2n,
                     PutWord(f, l2s[at].key + 8 * b, v))
  {
    hide TabOK, L2Key, ToBE;
    forall i | 0 <= i < SLOTS && i != at && l2s[i].key != 0
      ensures l2s[i].key + 8 * g.l2n <= l2s[at].key || l2s[at].key + 8 * g.l2n <= l2s[i].key
    {
      L2KeysApart(g, f, role, l2s[i].key, l2s[at].key);
    }
    WriteThrough(l2s, 8 * g.l2n, f, at, 8 * b, ToBE(v, 8));
  }

  /** rc_table_update: a fresh refcount block enters the refcount table, in RAM and in the file. */
  lemma RtInv(g: Geo, s: State, s': State, t: nat, c: nat)
    requires Inv(g, s) && t < g.rtSize && RefBlkOff(g, s.file, t) == 0
    requires 0 < c < TWO_64 && Region(s.role, c, g.cs, RefBlk(t))
    requires forall k :: c <= k < c + g.cs ==> s.file[k] == 0
    requires s' == s.(file := PutWord(s.file, g.rtOff + 8 * t, c), rt := s.rt[t := c])
    ensures Inv(g, s') && KeptTables(g, s.file, s'.file) && SameCounts(g, s.file, s'.file)
    ensures RefBlkOff(g, s'.file, t) == c
  {
    RtStep(g, s.file, s.role, s'.file, t, c);
    HeaderUntouched(g, s.file, s.role, s'.file, s.role, RefTab);
    hide L1Entry, L2Off, Entry, RefBlkOff, RefCount, Count, View, L2OK, EntOK, RtOK, PutWord, Touches, Cover;
    forall n: nat ensures Count(g, s'.file, n) == Count(g, s.file, n) { CountsSame(g, s.file, s'.file, n); }
    UseKept(g, s.file, s.role, s.pend, s'.file, s.role, s.pend);
    OffsKept(g, s.file, s'.file);
    L2CacheKept(g, s.file, s.role, s'.file, s.role, RefTab, s.l2s);
    RcCacheKept(g, s.file, s.role, s'.file, s.role, RefTab, s.rcs);
  }

  lemma RcKeysApart(g: Geo, f: seq<byte>, role: seq<Role>, p: nat, q: nat)
    requires TabOK(g, f, role) && p != q && p != 0 && q != 0 && g.cs > 0
    requires RcKey(g, f, role, p) && RcKey(g, f, role, q)
    ensures p + g.cs <= q || q + g.cs <= p
  {
    hide RefBlkOff;
    assert RtOK(g, f, role, role[p].k);
    assert RtOK(g, f, role, role[q].k);
  }

  lemma RcCacheWritten(g: Geo, f: seq<byte>, role: seq<Role>, rcs: seq<Slot>, at: nat, blk: seq<byte>)
    requires TabOK(g, f, role) && RcCacheOK(g, f, role, rcs) && at < SLOTS && rcs[at].key != 0
    requires g.cs > 0 && |blk| == g.cs
    ensures Coherent(rcs[at := rcs[at].(data := blk)], g.cs, Pwrite(f, rcs[at].key, blk))
  {
    hide TabOK, Pwrite, RcKey;
    forall i | 0 <= i < SLOTS && i != at && rcs[i].key != 0
      ensures rcs[i].key + g.cs <= rcs[at].key || rcs[at].key + g.cs <= rcs[i].key
    {
      RcKeysApart(g, f, role, rcs[i].key, rcs[at].key);
    }
    assert Holds(rcs[at], g.cs, f);
    PwriteAll(rcs[at].data, blk);
    WriteThrough(rcs, g.cs, f, at, 0, blk);
  }

  lemma PwriteAll(data: seq<byte>, blk: seq<byte>)
    requires |data| == |blk|
    ensures Pwrite(data, 0, blk) == blk
  {
  }

  lemma RcKeyKept(g: Geo, f: seq<byte>, f': seq<byte>, role: seq<Role>, key: nat)
    requires RcKey(g, f, role, key)
    requires forall k :: 0 <= k < g.rtSize ==> RefBlkOff(g, f', k) == RefBlkOff(g, f, k)
    ensures RcKey(g, f', role, key)
  {
    hide RefBlkOff;
  }

  /** Storing refcount v of host cluster n in the cached block and writing the block back. */
  lemma BlkInv(g: Geo, s: State, s': State, at: nat, n: nat, v: nat, blk: seq<byte>)
    requires Inv(g, s) && g.v2 && n < Cover(g) && v < RefcountBlock.Limit(g.order)
    requires v == 0 ==> n < s.ff
    requires at < SLOTS && s.rcs[at].key != 0 && s.rcs[at].key == RefBlkOff(g, s.file, BlkOf(g, n))
    requires |s.rcs[at].data| == g.cs && IndexOf(g, n) < g.per
    requires blk == RefcountBlock.Set(g.order, s.rcs[at].data, IndexOf(g, n), v)
    requires s' == s.(file := Pwrite(s.file, s.rcs[at].key, blk),
                      rcs := s.rcs[at := s.rcs[at].(data := blk)],
                      pend := if v > 0 then s.pend - {n} else s.pend + {n})
    ensures Inv(g, s') && KeptTables(g, s.file, s'.file)
    ensures forall m: nat :: Count(g, s'.file, m) == if m == n then v else Count(g, s.file, m)
    ensures forall k :: 0 <= k < g.rtSize ==> RefBlkOff(g, s'.file, k) == RefBlkOff(g, s.file, k)
  {
    hide RefcountBlock.Set, RefcountBlock.Get, RefcountBlock.Limit, RefcountBlock.Capacity, BlkOf, IndexOf, Cover,
      PutCount, RefBlkOff, Pwrite, L1Entry, L2Off, Entry, View, RefCount, Count, L2OK, EntOK, RtOK, Region,
      L2Key, RcKey, Coherent, Used;
    CoveredIndex(g, n);
    SlotCount(s.rcs, g.cs, s.file);
    BlkIsPutCount(g, s, s', at, n, v, blk);
    BlkStep(g, s.file, s.role, s'.file, BlkOf(g, n), IndexOf(g, n), v);
    HeaderUntouched(g, s.file, s.role, s'.file, s.role, RefBlk(BlkOf(g, n)));
    hide Touches;
    OneCount(g, s.file, s'.file, n, v);
    CountedUse(g, s, s', n, v);
    RcCacheWritten(g, s.file, s.role, s.rcs, at, blk);
    RcKeysKept(g, s.file, s'.file, s.role, s.rcs, s'.rcs);
    OffsKept(g, s.file, s'.file);
    L2CacheKept(g, s.file, s.role, s'.file, s.role, RefBlk(BlkOf(g, n)), s.l2s);
  }

  lemma SlotCount(slots: seq<Slot>, blockSize: nat, f: seq<byte>)
    requires Coherent(slots, blockSize, f)
    ensures |slots| == SLOTS
  {
  }

  lemma BlkIsPutCount(g: Geo, s: State, s': State, at: nat, n: nat, v: nat, blk: seq<byte>)
    requires GeoOK(g) && RcCacheOK(g, s.file, s.role, s.rcs) && IndexOf(g, n) < g.per
    requires v < RefcountBlock.Limit(g.order)
    requires at < SLOTS && s.rcs[at].key != 0 && s.rcs[at].key == RefBlkOff(g, s.file, BlkOf(g, n))
    requires |s.rcs[at].data| == g.cs
    requires blk == RefcountBlock.Set(g.order, s.rcs[at].data, IndexOf(g, n), v)
    requires s'.file == Pwrite(s.file, s.rcs[at].key, blk)
    ensures s'.file == PutCount(g, s.file, BlkOf(g, n), IndexOf(g, n), v)
  {
    hide RefcountBlock.Set, RefcountBlock.Limit, RefcountBlock.Capacity, BlkOf, IndexOf, RefBlkOff, Pwrite, RcKey;
    SlotReads(s.rcs, g.cs, s.file, at);
  }

  lemma SlotReads(slots: seq<Slot>, blockSize: nat, f: seq<byte>, at: nat)
    requires Coherent(slots, blockSize, f) && at < SLOTS && slots[at].key != 0
    ensures slots[at].key + blockSize <= |f| && slots[at].data == f[slots[at].key..slots[at].key + blockSize]
  {
    assert Holds(slots[at], blockSize, f);
  }

  lemma OneCount(g: Geo, f: seq<byte>, f': seq<byte>, n: nat, v: nat)
    requires GeoOK(g)
    requires forall k, x :: 0 <= k && 0 <= x ==>
               RefCount(g, f', k, x) == if k == BlkOf(g, n) && x == IndexOf(g, n) then v else RefCount(g, f, k, x)
    ensures forall m: nat :: Count(g, f', m) == if m == n then v else Count(g, f, m)
  {
    hide RefCount, BlkOf, IndexOf, RefcountBlock.Capacity;
    forall m: nat ensures Count(g, f', m) == if m == n then v else Count(g, f, m) {
      if BlkOf(g, m) == BlkOf(g, n) && IndexOf(g, m) == IndexOf(g, n) {
        SameIndex(g, m, n);
      }
    }
  }

  lemma CountedUse(g: Geo, s: State, s': State, n: nat, v: nat)
    requires GeoOK(g) && UseOK(g, s.file, s.role, s.pend) && AllocOK(g, s.ff, s.pend)
    requires v == 0 ==> n < s.ff
    requires s' == s.(file := s'.file, rcs := s'.rcs, pend := if v > 0 then s.pend - {n} else s.pend + {n})
    requires forall m: nat :: Count(g, s'.file, m) == if m == n then v else Count(g, s.file, m)
    ensures UseOK(g, s'.file, s'.role, s'.pend) && AllocOK(g, s'.ff, s'.pend)
  {
    hide Count;
    UseKept(g, s.file, s.role, s.pend, s'.file, s.role, s'.pend);
  }

  lemma RcKeysKept(g: Geo, f: seq<byte>, f': seq<byte>, role: seq<Role>, rcs: seq<Slot>, rcs': seq<Slot>)
    requires |rcs| == |rcs'| == SLOTS && forall i :: 0 <= i < SLOTS ==> rcs'[i].key == rcs[i].key
    requires forall i :: 0 <= i < SLOTS ==> RcKey(g, f, role, rcs[i].key)
    requires forall k :: 0 <= k < g.rtSize ==> RefBlkOff(g, f', k) == RefBlkOff(g, f, k)
    ensures forall i :: 0 <= i < SLOTS ==> RcKey(g, f', role, rcs'[i].key)
  {
    hide RefBlkOff, RcKey;
    forall i | 0 <= i < SLOTS ensures RcKey(g, f', role, rcs'[i].key) {
      RcKeyKept(g, f, f', role, rcs[i].key);
    }
  }

  lemma L2KeysKept(g: Geo, f: seq<byte>, f': seq<byte>, role: seq<Role>, l2s: seq<Slot>, l2s': seq<Slot>)
    requires |l2s| == |l2s'| == SLOTS && forall i :: 0 <= i < SLOTS ==> l2s'[i].key == l2s[i].key
    requires forall i :: 0 <= i < SLOTS ==> L2Key(g, f, role, l2s[i].key)
    requires forall i :: 0 <= i < g.l1Size ==> L2Off(g, f', i) == L2Off(g, f, i)
    ensures forall i :: 0 <= i < SLOTS ==> L2Key(g, f', role, l2s'[i].key)
  {
    hide L2Off, L2Key;
    forall i | 0 <= i < SLOTS ensures L2Key(g, f', role, l2s'[i].key) {
      L2KeyKept(g, f, f', role, l2s[i].key);
    }
  }

  /** Writing inside a data cluster private to virtual cluster (a, b). */
  lemma DataInv(g: Geo, s: State, s': State, a: nat, b: nat, c: nat, off: nat, data: seq<byte>)
    requires Inv(g, s) && a < g.l1Size && b < g.l2n
    requires Region(s.role, c, g.cs, Private(a, b)) && off + |data| <= g.cs
    requires s' == s.(file := Pwrite(s.file, c + off, data))
    ensures Inv(g, s') && SameViewBut(g, s.file, s'.file, a, b) && SameCounts(g, s.file, s'.file)
    ensures SameEntries(g, s.file, s'.file)
    ensures forall t :: 0 <= t < g.l1Size ==> L2Off(g, s'.file, t) == L2Off(g, s.file, t)
    ensures |s'.file| == |s.file| && Touches(s.file, s.role, s'.file, s'.role, Private(a, b))
  {
    assert Touches(s.file, s.role, s'.file, s.role, Private(a, b));
    hide L1Entry, L2Off, Entry, RefBlkOff, RefCount, Count, View, L2OK, EntOK, RtOK, Pwrite, Touches, Cover,
      L2Key, RcKey, Coherent, Used, Region;
    DataStep(g, s.file, s.role, s'.file, s.role, Private(a, b));
    HeaderUntouched(g, s.file, s.role, s'.file, s.role, Private(a, b));
    SameUse(g, s.file, s'.file, s.role, s.pend);
    OffsKept(g, s.file, s'.file);
    L2CacheKept(g, s.file, s.role, s'.file, s.role, Private(a, b), s.l2s);
    RcCacheKept(g, s.file, s.role, s'.file, s.role, Private(a, b), s.rcs);
  }
}
