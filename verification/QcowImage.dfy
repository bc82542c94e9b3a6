/** An open QCOW image: the tables in RAM, the two block caches and the host file, with the
    operations of qcow.c on them. Host file I/O succeeds in full. */
module QcowImage {
  import opened Bytes
  import opened Common
  import opened QcowLayout
  import opened QcowSteps
  import opened QcowState
  import opened TableCache
  import RefcountBlock

  /** Number of refcount blocks that do not exist yet. */
  function Missing(rt: seq<nat>): nat {
    if rt == [] then 0 else (if rt[|rt| - 1] == 0 then 1 else 0) + Missing(rt[..|rt| - 1])
  }

  lemma {:induction false} MissingFilled(rt: seq<nat>, k: nat, c: nat)
    requires k < |rt| && rt[k] == 0 && c != 0
    ensures Missing(rt[k := c]) == Missing(rt) - 1
  {
    var n := |rt| - 1;
    if k == n {
      assert rt[k := c][..n] == rt[..n];
    } else {
      assert rt[k := c][..n] == rt[..n][k := c];
      MissingFilled(rt[..n], k, c);
    }
  }

  lemma {:induction false} MissingAny(rt: seq<nat>, k: nat)
    requires k < |rt| && rt[k] == 0
    ensures Missing(rt) >= 1
  {
    if k < |rt| - 1 { MissingAny(rt[..|rt| - 1], k); }
  }

  /** The host clusters from k on that the refcount table covers and does not count. */
  ghost function FreeFrom(g: Geo, f: seq<byte>, k: nat): nat
    decreases Cover(g) - k
  {
    if k >= Cover(g) || !GeoOK(g) then 0 else (if Count(g, f, k) == 0 then 1 else 0) + FreeFrom(g, f, k + 1)
  }

  lemma {:induction false} FreeSame(g: Geo, f: seq<byte>, f': seq<byte>, k: nat)
    requires GeoOK(g) && forall m: nat :: m >= k ==> (Count(g, f', m) == 0 <==> Count(g, f, m) == 0)
    ensures FreeFrom(g, f', k) == FreeFrom(g, f, k)
    decreases Cover(g) - k
  {
    hide Count, Cover;
    if k < Cover(g) { FreeSame(g, f, f', k + 1); }
  }

  /** Counted clusters do not add to it, a free one adds one. */
  lemma {:induction false} FreeSkip(g: Geo, f: seq<byte>, k: nat, n: nat)
    requires GeoOK(g) && k <= n < Cover(g) && Count(g, f, n) == 0
    requires forall m :: k <= m < n ==> Count(g, f, m) > 0
    ensures FreeFrom(g, f, k) == FreeFrom(g, f, n + 1) + 1
    decreases n - k
  {
    hide Count, Cover;
    if k < n { FreeSkip(g, f, k + 1, n); }
  }

  lemma {:induction false} FreeMore(g: Geo, f: seq<byte>, j: nat, k: nat)
    requires GeoOK(g) && j <= k
    ensures FreeFrom(g, f, j) >= FreeFrom(g, f, k)
    decreases k - j
  {
    hide Count, Cover;
    if j < k { FreeMore(g, f, j + 1, k); }
  }

  /** Free clusters ahead of the allocator, less one for every refcount block that may have to be made. */
  ghost function Slack(g: Geo, s: State): int {
    FreeFrom(g, s.file, s.ff) - Missing(s.rt)
  }

  /** Host cluster m became a refcount block between the two refcount tables. */
  ghost predicate NewBlock(g: Geo, rt: seq<nat>, rt': seq<nat>, m: nat) {
    exists k :: 0 <= k < |rt| && k < |rt'| && rt[k] == 0 && rt'[k] != 0 && rt'[k] == At(g, m)
  }

  /** Existing refcount blocks stay where they are. */
  ghost predicate Extends(rt: seq<nat>, rt': seq<nat>) {
    |rt'| == |rt| && forall k :: 0 <= k < |rt| && rt[k] != 0 ==> rt'[k] == rt[k]
  }

  lemma AtInjective(g: Geo, m: nat, n: nat)
    requires g.cs > 0 && At(g, m) == At(g, n)
    ensures m == n
  {
    ClusterBytes(g, m, At(g, m));
    ClusterBytes(g, n, At(g, m));
  }

  lemma AtNext(g: Geo, n: nat)
    ensures At(g, n + 1) == At(g, n) + g.cs
  {
  }

  lemma AtOf(g: Geo, n: nat)
    requires g.cs > 0
    ensures ClusterOf(g, At(g, n)) == n
  {
    ClusterBytes(g, n, At(g, n));
  }

  /** A covered host cluster is below the largest file offset and at an even offset. */
  lemma AtBounds(g: Geo, n: nat)
    requires GeoOK(g) && Fits(g) && n < Cover(g)
    ensures At(g, n) + g.cs <= TWO_62 && At(g, n) % 2 == 0
  {
    MulLe(n + 1, Cover(g), g.cs);
    AtNext(g, n);
    hide Cover;
    EvenMul(n, g.cs);
  }

  lemma {:induction false} EvenMul(n: nat, m: nat)
    requires m % 2 == 0
    ensures (n * m) % 2 == 0
  {
    if n > 0 {
      EvenMul(n - 1, m);
      assert n * m == (n - 1) * m + m;
    }
  }

  /** Rounding up to a multiple of size: (off + size - 1) & ~(size - 1). */
  function AlignUp(off: nat, size: nat): (r: nat)
    requires size > 0 && size % 2 == 0
    ensures off <= r < off + size && r % 2 == 0
  {
    var q := (off + size - 1) / size;
    assert off + size - 1 == q * size + (off + size - 1) % size;
    EvenMul(q, size);
    q * size
  }

  /** The result is a multiple of size, the least one not below off. */
  lemma AlignUpMultiple(off: nat, size: nat) returns (q: nat)
    requires size > 0 && size % 2 == 0
    ensures AlignUp(off, size) == q * size && forall p: nat :: p * size >= off ==> p >= q
  {
    q := (off + size - 1) / size;
    forall p: nat | p * size >= off ensures p >= q {
      if p < q { MulLe(p + 1, q, size); }
    }
  }

  lemma BlockSizes(g: Geo)
    requires GeoOK(g)
    ensures 0 < g.cs <= 65536 && g.cs % 2 == 0 && 0 < 8 * g.l2n <= 65536
  {
  }

  lemma GrownBlock(g: Geo, len: nat, size: nat)
    requires GeoOK(g) && (size == g.cs || size == 8 * g.l2n)
    ensures 0 < size <= 65536 && size % 2 == 0
    ensures len <= AlignUp(len, size) && AlignUp(len, size) + size <= len + 0x20000 && AlignUp(len, size) % 2 == 0
  {
    BlockSizes(g);
    hide *;
  }

  /** An uncounted host cluster that is not pending has no byte in use. */
  lemma UncountedUnclaimed(g: Geo, s: State, n: nat)
    requires Inv(g, s) && g.v2 && n !in s.pend && Count(g, s.file, n) == 0
    ensures Unclaimed(s.role, At(g, n), g.cs)
  {
    hide Count, At;
    forall p | At(g, n) <= p < At(g, n) + g.cs && p < |s.role|
      ensures s.role[p] == Free
    {
      ClusterBytes(g, n, p);
    }
  }

  /** A block the refcount table names may be cached. */
  lemma RcLookupInv(g: Geo, s: State, s': State, k: nat)
    requires Inv(g, s) && k < g.rtSize && RefBlkOff(g, s.file, k) != 0
    requires s' == s.(rcs := s'.rcs) && Coherent(s'.rcs, g.cs, s.file)
    requires forall i :: 0 <= i < SLOTS ==>
               s'.rcs[i].key == RefBlkOff(g, s.file, k) || s'.rcs[i].key == s.rcs[i].key
    ensures Inv(g, s')
  {
    hide RefBlkOff, Cover, UseOK, AllocOK, L2CacheOK, Coherent;
    assert RtOK(g, s.file, s.role, k);
    assert |s.rcs| == SLOTS && |s'.rcs| == SLOTS by {
      CoherentLength(s.rcs, g.cs, s.file);
      CoherentLength(s'.rcs, g.cs, s.file);
    }
    forall i | 0 <= i < SLOTS ensures RcKey(g, s.file, s.role, s'.rcs[i].key) {
      assert RcKey(g, s.file, s.role, s.rcs[i].key);
    }
  }

  lemma CoherentLength(slots: seq<Slot>, blockSize: nat, file: seq<byte>)
    requires Coherent(slots, blockSize, file)
    ensures |slots| == SLOTS
  {
  }

  /** A block the L1 table names may be cached. */
  lemma L2LookupInv(g: Geo, s: State, s': State, t: nat)
    requires Inv(g, s) && t < g.l1Size && L2Off(g, s.file, t) != 0
    requires s' == s.(l2s := s'.l2s) && Coherent(s'.l2s, 8 * g.l2n, s.file)
    requires forall i :: 0 <= i < SLOTS ==>
               s'.l2s[i].key == L2Off(g, s.file, t) || s'.l2s[i].key == s.l2s[i].key
    ensures Inv(g, s')
  {
    hide L2Off, Cover, UseOK, AllocOK, RcCacheOK, Coherent;
    assert L2OK(g, s.file, s.role, t);
    assert |s.l2s| == SLOTS && |s'.l2s| == SLOTS by {
      CoherentLength(s.l2s, 8 * g.l2n, s.file);
      CoherentLength(s'.l2s, 8 * g.l2n, s.file);
    }
    forall i | 0 <= i < SLOTS ensures L2Key(g, s.file, s.role, s'.l2s[i].key) {
      assert L2Key(g, s.file, s.role, s.l2s[i].key);
    }
  }

  lemma CountReads(g: Geo, f: seq<byte>, n: nat)
    requires GeoOK(g) && n < Cover(g) && IndexOf(g, n) < g.per
    ensures Count(g, f, n) ==
            var rb := RefBlkOff(g, f, BlkOf(g, n));
            if rb == 0 || rb + g.cs > |f| then 0 else RefcountBlock.Get(g.order, f[rb..rb + g.cs], IndexOf(g, n))
  {
    CoveredIndex(g, n);
    hide RefBlkOff, RefcountBlock.Get, RefcountBlock.Capacity, BlkOf, IndexOf;
  }

  /** The allocator turned s into s' by handing out [c, c + size), zeroed, with role r; in version 2
      this is host cluster n, neither counted nor pending before and pending now. */
  ghost predicate Handed(g: Geo, s: State, s': State, c: nat, size: nat, r: Role, n: nat)
    requires GeoOK(g)
  {
    && 0 < c && c + size <= TWO_62 && c % 2 == 0
    && Unclaimed(s.role, c, size) && Region(s'.role, c, size, r)
    && c + size <= |s'.file| && (forall k :: c <= k < c + size ==> s'.file[k] == 0)
    && Touches(s.file, s.role, s'.file, s'.role, Free)
    && KeptTables(g, s.file, s'.file) && SameCounts(g, s.file, s'.file)
    && s'.l1 == s.l1 && s'.rt == s.rt && s'.l2s == s.l2s
    && (if g.v2 then
          && c == At(g, n) && n < Cover(g) && s.ff <= n && n !in s.pend && Count(g, s.file, n) == 0
          && s'.pend == s.pend + {n} && s'.ff == n + 1
          && FreeFrom(g, s'.file, s'.ff) == FreeFrom(g, s.file, s.ff) - 1
        else
          c >= |s.file| && |s'.file| <= |s.file| + 0x20000 && s'.pend == s.pend)
  }

  lemma AllocFacts(g: Geo, s: State)
    requires Inv(g, s)
    ensures GeoOK(g) && Fits(g) && |s.role| == |s.file|
    ensures g.v2 ==> forall n :: n in s.pend ==> n < s.ff
  {
    hide Count;
  }

  lemma ClusterHanded(g: Geo, s: State, s': State, n: nat, r: Role)
    requires Inv(g, s) && g.v2 && r != Free && s.ff <= n < Cover(g) && Count(g, s.file, n) == 0
    requires forall m :: s.ff <= m < n ==> Count(g, s.file, m) > 0
    requires s' == s.(file := Pwrite(s.file, At(g, n), Zeros(g.cs)), role := Claim(s.role, At(g, n), g.cs, r),
                      pend := s.pend + {n}, ff := n + 1)
    ensures Inv(g, s') && Handed(g, s, s', At(g, n), g.cs, r, n)
  {
    hide Inv, KeptTables, SameCounts, Touches, At, Cover, Count, Unclaimed, FreeFrom, Fits, Pwrite, Claim, Zeros,
      Region;
    AllocFacts(g, s);
    UncountedUnclaimed(g, s, n);
    AtBounds(g, n);
    var c := At(g, n);
    ZeroedClaim(g, s, s', n, r);
    NotHeader(g, s, n);
    FreeSkip(g, s.file, s.ff, n);
    CountsFree(g, s.file, s'.file, n + 1);
  }

  /** Claiming host cluster n and zeroing it. */
  lemma ZeroedClaim(g: Geo, s: State, s': State, n: nat, r: Role)
    requires Inv(g, s) && g.v2 && r != Free && Unclaimed(s.role, At(g, n), g.cs) && s.ff <= n
    requires s' == s.(file := Pwrite(s.file, At(g, n), Zeros(g.cs)), role := Claim(s.role, At(g, n), g.cs, r),
                      pend := s.pend + {n}, ff := n + 1)
    ensures Inv(g, s') && Region(s'.role, At(g, n), g.cs, r)
    ensures KeptTables(g, s.file, s'.file) && SameCounts(g, s.file, s'.file)
    ensures Touches(s.file, s.role, s'.file, s'.role, Free)
    ensures At(g, n) + g.cs <= |s'.file| && forall k :: At(g, n) <= k < At(g, n) + g.cs ==> s'.file[k] == 0
  {
    ClaimInv(g, s, s', n, At(g, n), Zeros(g.cs), r);
    hide Inv, KeptTables, SameCounts, Touches, At, Cover, Count, Unclaimed;
  }

  /** An unclaimed host cluster is not the header's. */
  lemma NotHeader(g: Geo, s: State, n: nat)
    requires Inv(g, s) && g.v2 && Unclaimed(s.role, At(g, n), g.cs)
    ensures At(g, n) > 0
  {
    PinnedHeader(g, s);
    AllocFacts(g, s);
    BlockSizes(g);
    hide Inv, At;
  }

  /** Equal counts leave the same clusters free. */
  lemma CountsFree(g: Geo, f: seq<byte>, f': seq<byte>, k: nat)
    requires GeoOK(g) && SameCounts(g, f, f')
    ensures FreeFrom(g, f', k) == FreeFrom(g, f, k)
  {
    hide SameCounts, Count, FreeFrom;
    forall m: nat ensures Count(g, f', m) == Count(g, f, m) { CountsSame(g, f, f', m); }
    FreeSame(g, f, f', k);
  }

  /** What the refcount cache holds is no part of what the allocator did. */
  lemma HandedFrom(g: Geo, s0: State, s: State, s': State, c: nat, size: nat, r: Role, n: nat)
    requires GeoOK(g) && Handed(g, s, s', c, size, r, n) && s == s0.(rcs := s.rcs)
    ensures Handed(g, s0, s', c, size, r, n)
  {
    hide KeptTables, SameCounts, Touches, At, Cover, Count, Unclaimed, Region;
  }

  lemma PinnedHeader(g: Geo, s: State)
    requires Inv(g, s) && g.v2
    ensures |s.role| > 0 && s.role[0] == Pinned
  {
  }

  lemma BlockHanded(g: Geo, s: State, s': State, c: nat, size: nat, r: Role)
    requires Inv(g, s) && !g.v2 && r != Free && 0 < |s.file| <= c && c % 2 == 0
    requires c + size <= |s.file| + 0x20000 <= TWO_62
    requires s' == s.(file := Pwrite(s.file, c, Zeros(size)), role := Claim(s.role, c, size, r))
    ensures Inv(g, s') && Handed(g, s, s', c, size, r, 0)
  {
    AllocFacts(g, s);
    ClaimInv(g, s, s', 0, c, Zeros(size), r);
    hide Inv, KeptTables, SameCounts, Touches, Count;
  }

  // ---- setting a refcount ----

  /** Host cluster n counts v, every refcount block made on the way counts 1, all else is as before. */
  ghost predicate CountsSet(g: Geo, rt: seq<nat>, rt': seq<nat>, f: seq<byte>, f': seq<byte>, n: nat, v: nat)
    requires GeoOK(g)
  {
    forall m: nat :: Count(g, f', m) ==
      if m == n then v else if NewBlock(g, rt, rt', m) then 1 else Count(g, f, m)
  }

  /** Bytes in use keep their role. */
  ghost predicate RolesKept(role: seq<Role>, role': seq<Role>) {
    |role| <= |role'| && forall k :: 0 <= k < |role| && role[k] != Free ==> role'[k] == role[k]
  }

  /** What qcow2_set_refcount(n, v) did to the state. */
  ghost predicate RefsSet(g: Geo, s: State, s': State, n: nat, v: nat)
    requires GeoOK(g)
  {
    && KeptTables(g, s.file, s'.file) && s'.l1 == s.l1 && s'.l2s == s.l2s
    && RolesKept(s.role, s'.role)
    && Extends(s.rt, s'.rt)
    && CountsSet(g, s.rt, s'.rt, s.file, s'.file, n, v)
    && (forall m :: NewBlock(g, s.rt, s'.rt, m) ==> Count(g, s.file, m) == 0 && m !in s.pend && s.ff <= m)
    && s'.pend == (if v > 0 then s.pend - {n} else s.pend + {n})
    && s.ff <= s'.ff
    && Slack(g, s') >= Slack(g, s)
  }

  /** The refcount block exists: only the one count changes. */
  lemma RefsSetDirect(g: Geo, s: State, s': State, at: nat, n: nat, v: nat, blk: seq<byte>)
    requires Inv(g, s) && g.v2 && n < Cover(g) && v < RefcountBlock.Limit(g.order)
    requires Used(g, s.file, n, s.pend) && (v == 0 ==> n < s.ff)
    requires at < SLOTS && s.rcs[at].key != 0 && s.rcs[at].key == RefBlkOff(g, s.file, BlkOf(g, n))
    requires |s.rcs[at].data| == g.cs && IndexOf(g, n) < g.per
    requires blk == RefcountBlock.Set(g.order, s.rcs[at].data, IndexOf(g, n), v)
    requires s' == s.(file := Pwrite(s.file, s.rcs[at].key, blk),
                      rcs := s.rcs[at := s.rcs[at].(data := blk)],
                      pend := if v > 0 then s.pend - {n} else s.pend + {n})
    ensures Inv(g, s') && RefsSet(g, s, s', n, v)
  {
    hide Inv, KeptTables, Count, Cover, BlkOf, IndexOf, RefBlkOff, Pwrite, RefcountBlock.Set, FreeFrom, Missing;
    BlkInv(g, s, s', at, n, v, blk);
    AllocFacts(g, s);
    FreeSame(g, s.file, s'.file, s.ff);
  }

  /** Composing: a block B for table slot k was handed out (n1), entered and counted, and the
      count of n was stored after that. */
  lemma RefsSetVia(g: Geo, s: State, s1: State, s2: State, s3: State, s4: State,
                   k: nat, b: nat, n1: nat, n: nat, v: nat)
    requires GeoOK(g) && g.v2 && k < |s.rt| && s.rt[k] == 0
    requires Handed(g, s, s1, b, g.cs, RefBlk(k), n1)
    requires KeptTables(g, s1.file, s2.file) && SameCounts(g, s1.file, s2.file)
    requires s2 == s1.(file := s2.file, rt := s1.rt[k := b])
    requires RefsSet(g, s2, s3, n1, 1)
    requires RefsSet(g, s3, s4, n, v) && s4.rt == s3.rt
    requires Used(g, s.file, n, s.pend)
    ensures RefsSet(g, s, s4, n, v)
  {
    hide RefsSet, Handed, Count, At;
    ViaTables(g, s, s1, s2, s3, s4, k, b, n1, n, v);
    ViaCounts(g, s, s1, s2, s3, s4, k, b, n1, n, v);
    ViaBooks(g, s, s1, s2, s3, s4, k, b, n1, n, v);
    RefsSetFrom(g, s, s4, n, v);
  }

  lemma RefsSetFrom(g: Geo, s: State, s': State, n: nat, v: nat)
    requires GeoOK(g)
    requires KeptTables(g, s.file, s'.file) && s'.l1 == s.l1 && s'.l2s == s.l2s && RolesKept(s.role, s'.role)
    requires Extends(s.rt, s'.rt) && CountsSet(g, s.rt, s'.rt, s.file, s'.file, n, v)
    requires forall m :: NewBlock(g, s.rt, s'.rt, m) ==> Count(g, s.file, m) == 0 && m !in s.pend && s.ff <= m
    requires s'.pend == (if v > 0 then s.pend - {n} else s.pend + {n})
    requires s.ff <= s'.ff && Slack(g, s') >= Slack(g, s)
    ensures RefsSet(g, s, s', n, v)
  {
  }

  lemma RefsSetFromLookup(g: Geo, s0: State, s: State, s': State, n: nat, v: nat)
    requires GeoOK(g) && RefsSet(g, s, s', n, v) && s == s0.(rcs := s.rcs)
    ensures RefsSet(g, s0, s', n, v)
  {
    hide KeptTables, Count, CountsSet, At, Extends, NewBlock, Missing, FreeFrom;
  }

  /** What the allocator promises about a host cluster that becomes refcount block k. */
  lemma HandedBlock(g: Geo, s: State, s': State, b: nat, k: nat, n: nat)
    requires GeoOK(g) && g.v2 && Handed(g, s, s', b, g.cs, RefBlk(k), n) && k < |s.rt| && s.rt[k] == 0
    ensures 0 < b < TWO_64 && b == At(g, n) && n < Cover(g) && n in s'.pend
    ensures Region(s'.role, b, g.cs, RefBlk(k)) && forall p :: b <= p < b + g.cs ==> s'.file[p] == 0
    ensures s'.rt == s.rt && s.ff <= s'.ff && FreeFrom(g, s'.file, s'.ff) == FreeFrom(g, s.file, s.ff) - 1
    ensures Missing(s'.rt[k := b]) == Missing(s.rt) - 1
  {
    hide At, Cover, KeptTables, SameCounts, Touches, Unclaimed, Count;
    MissingFilled(s.rt, k, b);
  }

  lemma PerPositive(g: Geo)
    requires GeoOK(g)
    ensures g.per > 0 && g.order <= 6
  {
  }

  /** A cluster in use is not the one handed out, and stays in use; that one is in use now. */
  lemma HandedUse(g: Geo, s: State, s': State, b: nat, k: nat, n: nat, m: nat)
    requires GeoOK(g) && g.v2 && Handed(g, s, s', b, g.cs, RefBlk(k), n) && Used(g, s.file, m, s.pend)
    ensures m != n && Used(g, s'.file, m, s'.pend) && Used(g, s'.file, n, s'.pend)
  {
    hide Count, At, Cover, KeptTables, SameCounts, Touches, Unclaimed, Region, FreeFrom;
    CountsSame(g, s.file, s'.file, m);
  }

  lemma CountsUse(g: Geo, f: seq<byte>, f': seq<byte>, m: nat, pend: set<nat>)
    requires GeoOK(g) && SameCounts(g, f, f') && Used(g, f, m, pend)
    ensures Used(g, f', m, pend)
  {
    hide Count, SameCounts;
    CountsSame(g, f, f', m);
  }

  /** Setting the count of n leaves every other cluster in use that was. */
  lemma UseStays(g: Geo, s: State, s': State, n: nat, v: nat, m: nat)
    requires GeoOK(g) && RefsSet(g, s, s', n, v) && m != n && Used(g, s.file, m, s.pend)
    ensures Used(g, s'.file, m, s'.pend)
  {
    hide Count, KeptTables, RolesKept, Extends, NewBlock, FreeFrom, Missing;
  }

  /** Refcount block b, once in the table, stays there while it is being counted. */
  lemma BlockStays(g: Geo, s: State, s': State, k: nat, b: nat, n: nat)
    requires Inv(g, s) && Inv(g, s') && RefsSet(g, s, s', n, 1) && k < g.rtSize && k < |s.rt| && s.rt[k] == b != 0
    ensures RefBlkOff(g, s'.file, k) == b && s.ff <= s'.ff
  {
    TableReads(g, s', k);
    hide Inv, RefBlkOff, KeptTables, Count, CountsSet, NewBlock, Missing, FreeFrom;
  }

  lemma KeptTablesRefl(g: Geo, f: seq<byte>)
    ensures KeptTables(g, f, f)
  {
  }

  lemma SizesV2(g: Geo)
    requires GeoOK(g)
    ensures g.v2 ==> 8 * g.l2n == g.cs
  {
  }

  lemma LimitAboveOne(order: nat)
    requires order <= 6
    ensures RefcountBlock.Limit(order) >= 2
  {
  }

  lemma ViaTables(g: Geo, s: State, s1: State, s2: State, s3: State, s4: State, k: nat, b: nat, n1: nat, n: nat, v: nat)
    requires GeoOK(g) && g.v2 && k < |s.rt| && s.rt[k] == 0
    requires Handed(g, s, s1, b, g.cs, RefBlk(k), n1)
    requires KeptTables(g, s1.file, s2.file) && s2 == s1.(file := s2.file, rt := s1.rt[k := b])
    requires RefsSet(g, s2, s3, n1, 1) && RefsSet(g, s3, s4, n, v)
    ensures KeptTables(g, s.file, s4.file) && s4.l1 == s.l1 && s4.l2s == s.l2s && RolesKept(s.role, s4.role)
  {
    hide KeptTables, Count, CountsSet, At, Extends, NewBlock, Missing, FreeFrom;
    KeptTablesTrans(g, s.file, s1.file, s2.file);
    KeptTablesTrans(g, s.file, s2.file, s3.file);
    KeptTablesTrans(g, s.file, s3.file, s4.file);
  }

  lemma ViaBooks(g: Geo, s: State, s1: State, s2: State, s3: State, s4: State, k: nat, b: nat, n1: nat, n: nat, v: nat)
    requires GeoOK(g) && g.v2 && k < |s.rt| && s.rt[k] == 0
    requires Handed(g, s, s1, b, g.cs, RefBlk(k), n1)
    requires SameCounts(g, s1.file, s2.file) && s2 == s1.(file := s2.file, rt := s1.rt[k := b])
    requires RefsSet(g, s2, s3, n1, 1) && RefsSet(g, s3, s4, n, v) && s4.rt == s3.rt
    ensures s4.pend == (if v > 0 then s.pend - {n} else s.pend + {n})
    ensures s.ff <= s4.ff && Slack(g, s4) >= Slack(g, s)
  {
    hide KeptTables, Count, CountsSet, At, Extends, NewBlock, Missing, FreeFrom, Touches, Region, Unclaimed, SameCounts;
    MissingFilled(s.rt, k, b);
    CountsFree(g, s1.file, s2.file, s1.ff);
  }

  lemma ViaCounts(g: Geo, s: State, s1: State, s2: State, s3: State, s4: State, k: nat, b: nat, n1: nat, n: nat, v: nat)
    requires GeoOK(g) && g.v2 && k < |s.rt| && s.rt[k] == 0
    requires Handed(g, s, s1, b, g.cs, RefBlk(k), n1)
    requires SameCounts(g, s1.file, s2.file) && s2 == s1.(file := s2.file, rt := s1.rt[k := b])
    requires RefsSet(g, s2, s3, n1, 1) && RefsSet(g, s3, s4, n, v) && s4.rt == s3.rt
    requires Used(g, s.file, n, s.pend)
    ensures Extends(s.rt, s4.rt) && CountsSet(g, s.rt, s4.rt, s.file, s4.file, n, v)
    ensures forall m :: NewBlock(g, s.rt, s4.rt, m) ==> Count(g, s.file, m) == 0 && m !in s.pend && s.ff <= m
  {
    hide KeptTables, Missing, FreeFrom, Touches, Region, Unclaimed, RolesKept;
    forall m: nat ensures Count(g, s2.file, m) == Count(g, s.file, m) {
      CountsSame(g, s.file, s1.file, m);
      CountsSame(g, s1.file, s2.file, m);
    }
    hide Count, SameCounts, At;
    forall m: nat
      ensures NewBlock(g, s.rt, s4.rt, m) <==> m == n1 || NewBlock(g, s2.rt, s3.rt, m)
    {
      NewBlockVia(g, s.rt, s2.rt, s3.rt, k, n1, m);
    }
    forall m: nat ensures !NewBlock(g, s3.rt, s4.rt, m) {}
  }

  lemma NewBlockVia(g: Geo, rt: seq<nat>, rt2: seq<nat>, rt3: seq<nat>, k: nat, n1: nat, m: nat)
    requires g.cs > 0 && k < |rt| && rt[k] == 0 && At(g, n1) != 0
    requires rt2 == rt[k := At(g, n1)] && Extends(rt2, rt3)
    ensures NewBlock(g, rt, rt3, m) <==> m == n1 || NewBlock(g, rt2, rt3, m)
  {
    hide At;
    if m == n1 {
      assert rt3[k] == At(g, n1);
    }
    if NewBlock(g, rt, rt3, m) {
      var j :| 0 <= j < |rt| && j < |rt3| && rt[j] == 0 && rt3[j] != 0 && rt3[j] == At(g, m);
      if j == k {
        AtInjective(g, m, n1);
      } else {
        assert rt2[j] == 0;
      }
    }
    if NewBlock(g, rt2, rt3, m) {
      var j :| 0 <= j < |rt2| && j < |rt3| && rt2[j] == 0 && rt3[j] != 0 && rt3[j] == At(g, m);
      assert rt[j] == 0;
    }
  }

  /** A well-formed image file: what qcow_image_open and qcow2_image_open may be given, with the
      ghost account of who owns which byte and of where the counted host clusters end. */
  ghost predicate ImageOK(g: Geo, file: seq<byte>, role: seq<Role>) {
    && GeoOK(g) && Fits(g)
    && TabOK(g, file, role)
    && UseOK(g, file, role, {})
  }

  class Image {
    const g: Geo
    var file: seq<byte>
    var l1Table: seq<nat>
    var refcountTable: seq<nat>
    var firstFreeCluster: nat
    const l2Cache: TableCache
    const rcCache: TableCache
    ghost var role: seq<Role>
    ghost var pend: set<nat>
    ghost var ff: nat

    ghost function S(): State
      reads this, l2Cache, rcCache
    {
      State(file, l1Table, refcountTable, l2Cache.slots, rcCache.slots, ff, role, pend)
    }

    ghost predicate Valid()
      reads this, l2Cache, rcCache
    {
      && l2Cache != rcCache
      && l2Cache.blockSize == 8 * g.l2n && rcCache.blockSize == g.cs
      && Inv(g, S())
      && (g.v2 ==> firstFreeCluster == At(g, ff))
    }

    /** Room left: version 2 needs a free cluster that the refcount table covers for every allocation
        and every refcount block still missing; version 1 stays below the largest file offset. */
    ghost function Room(): int
      reads this
    {
      if g.v2 then FreeFrom(g, file, ff) - Missing(refcountTable) else (TWO_62 - |file|) / 0x20000
    }

    /** Opening an image reads both tables whole and starts with empty caches. */
    constructor Open(g: Geo, file: seq<byte>, ghost role: seq<Role>)
      requires ImageOK(g, file, role)
      ensures Valid() && fresh(l2Cache) && fresh(rcCache)
      ensures this.g == g && this.file == file && this.role == role && pend == {} && ff == 0
    {
      this.g := g;
      this.file := file;
      l1Table := seq(g.l1Size, i requires 0 <= i => L1Entry(g, file, i));
      refcountTable := seq(g.rtSize, k requires 0 <= k => RefBlkOff(g, file, k));
      firstFreeCluster := 0;
      l2Cache := new TableCache(8 * g.l2n);
      rcCache := new TableCache(g.cs);
      this.role, this.pend, this.ff := role, {}, 0;
      new;
      hide L1Entry, RefBlkOff, TabOK, UseOK, Count, Fits, GeoOK;
      assert RamOK(g, file, l1Table, refcountTable);
      assert l2Cache.Valid(file) && rcCache.Valid(file);
      assert L2CacheOK(g, file, role, l2Cache.slots);
      assert RcCacheOK(g, file, role, rcCache.slots);
      assert At(g, 0) == 0;
    }

    /** rc_cache_lookup of a block the refcount table names: it is always found. */
    method RefBlock(ghost k: nat, off: nat) returns (at: nat)
      requires Valid() && k < g.rtSize && off == RefBlkOff(g, file, k) != 0
      modifies rcCache
      ensures Valid() && S() == old(S()).(rcs := rcCache.slots)
      ensures at < SLOTS && |rcCache.slots| == SLOTS && rcCache.slots[at].key == off
      ensures off + g.cs <= |file| && rcCache.slots[at].data == file[off..off + g.cs]
    {
      ghost var s := S();
      hide RefBlkOff, TabOK, UseOK, L2CacheOK, RcKey, AllocOK, Holds, Fits, GeoOK, RamOK, Coherent;
      RefBlkInFile(g, s, k);
      var found;
      at, found := rcCache.Lookup(file, off);
      CoherentLength(s.rcs, g.cs, s.file);
      CoherentLength(rcCache.slots, g.cs, s.file);
      RcLookupInv(g, s, S(), k);
    }

    /** qcow2_get_refcount */
    method GetRefcount(clusterOffset: nat) returns (rc: nat)
      requires Valid() && g.v2 && ClusterOf(g, clusterOffset) < Cover(g)
      modifies rcCache
      ensures Valid() && S() == old(S()).(rcs := rcCache.slots)
      ensures rc == Count(g, file, ClusterOf(g, clusterOffset))
    {
      var n := ClusterOf(g, clusterOffset);
      CoveredIndex(g, n);
      CountReads(g, file, n);
      hide Count, RefBlkOff, TabOK, UseOK, L2CacheOK, RcCacheOK, AllocOK, Cover;
      var refblockOffset := refcountTable[BlkOf(g, n)];
      if refblockOffset == 0 {
        return 0;
      }
      var at := RefBlock(BlkOf(g, n), refblockOffset);
      rc := RefcountBlock.Get(g.order, rcCache.slots[at].data, IndexOf(g, n));
    }

    /** qcow_block_alloc: version 1 grows the file by an aligned block. */
    method QcowBlockAlloc(size: nat, ghost r: Role) returns (offset: nat)
      requires Valid() && !g.v2 && (size == g.cs || size == 8 * g.l2n) && r != Free
      requires 0 < |file| <= TWO_62 - 0x20000
      modifies this`file, this`role
      ensures Valid() && Handed(g, old(S()), S(), offset, size, r, 0)
      ensures offset == AlignUp(|old(file)|, size)
    {
      ghost var s := S();
      AllocFacts(g, s);
      GrownBlock(g, |file|, size);
      offset := AlignUp(|file|, size);
      hide AlignUp, Inv, Handed, GeoOK, Fits, Pwrite, Claim, Zeros;
      file := Pwrite(file, offset, Zeros(size));
      role := Claim(role, offset, size, r);
      BlockHanded(g, s, S(), offset, size, r);
    }

    /** The scan of qcow2_block_alloc: the first uncounted host cluster from first_free_cluster on. */
    method FirstFree() returns (cluster: nat, ghost n: nat)
      requires Valid() && g.v2 && FreeFrom(g, file, ff) > 0
      modifies rcCache
      ensures Valid() && S() == old(S()).(rcs := rcCache.slots)
      ensures cluster == At(g, n) && ff <= n < Cover(g) && Count(g, file, n) == 0
      ensures forall m :: ff <= m < n ==> Count(g, file, m) > 0
    {
      hide Inv, At, Cover, Count, GeoOK, Fits, ClusterOf;
      cluster, n := firstFreeCluster, ff;
      AllocFacts(g, S());
      BlockSizes(g);
      AtOf(g, n);
      var rc := GetRefcount(cluster);
      while rc != 0
        invariant Valid()
        invariant cluster == At(g, n) && ff <= n < Cover(g) && rc == Count(g, file, n) && FreeFrom(g, file, n) > 0
        invariant forall m :: ff <= m < n ==> Count(g, file, m) > 0
        decreases Cover(g) - n
      {
        cluster := cluster + g.cs;
        AtNext(g, n);
        n := n + 1;
        AtOf(g, n);
        rc := GetRefcount(cluster);
      }
    }

    /** qcow2_block_alloc: the first uncounted host cluster from first_free_cluster on, zeroed. */
    method Qcow2BlockAlloc(size: nat, ghost r: Role) returns (cluster: nat, ghost n: nat)
      requires Valid() && g.v2 && size == g.cs && r != Free
      requires FreeFrom(g, file, ff) > 0
      modifies this`file, this`firstFreeCluster, this`role, this`pend, this`ff, rcCache
      ensures Valid() && Handed(g, old(S()), S(), cluster, size, r, n)
      ensures forall m :: old(ff) <= m < n ==> Count(g, old(file), m) > 0
    {
      hide Inv, At, Cover, Count, Handed, GeoOK, Fits, Pwrite, Claim, Zeros, FreeFrom;
      AllocFacts(g, S());
      ghost var s0 := S();
      cluster, n := FirstFree();
      ghost var s := S();
      file := Pwrite(file, cluster, Zeros(g.cs));
      firstFreeCluster := cluster + g.cs;
      role := Claim(role, cluster, g.cs, r);
      pend, ff := pend + {n}, n + 1;
      AtNext(g, n);
      ClusterHanded(g, s, S(), n, r);
      HandedFrom(g, s0, s, S(), cluster, size, r, n);
    }

    /** rc_table_update with a fresh refcount block. */
    method RcTableUpdate(rcIndex: nat, refblockOffset: nat)
      requires Valid() && rcIndex < g.rtSize && refcountTable[rcIndex] == 0
      requires 0 < refblockOffset < TWO_64 && Region(role, refblockOffset, g.cs, RefBlk(rcIndex))
      requires forall k :: refblockOffset <= k < refblockOffset + g.cs ==> file[k] == 0
      modifies this`file, this`refcountTable
      ensures Valid() && S() == old(S()).(file := file, rt := old(refcountTable)[rcIndex := refblockOffset])
      ensures KeptTables(g, old(file), file) && SameCounts(g, old(file), file)
    {
      ghost var s := S();
      hide Handed, RefBlkOff, KeptTables, SameCounts, TabOK, UseOK, AllocOK, L2CacheOK, RcCacheOK, GeoOK, Fits, PutWord;
      refcountTable := refcountTable[rcIndex := refblockOffset];
      file := PutWord(file, g.rtOff + 8 * rcIndex, refblockOffset);
      RtInv(g, s, S(), rcIndex, refblockOffset);
    }

    /** The last step of qcow2_set_refcount: store the count in the cached block, write the block back. */
    method StoreRefcount(ghost n: nat, rcIndex: nat, refblockIndex: nat, refblockOffset: nat, value: nat)
      requires Valid() && g.v2 && n < Cover(g) && rcIndex == BlkOf(g, n) && refblockIndex == IndexOf(g, n)
      requires value < RefcountBlock.Limit(g.order) && Used(g, file, n, pend) && (value == 0 ==> n < ff)
      requires refblockOffset == RefBlkOff(g, file, rcIndex) != 0
      modifies this`file, this`pend, rcCache
      ensures Valid() && RefsSet(g, old(S()), S(), n, value) && refcountTable == old(refcountTable)
    {
      ghost var s0 := S();
      AllocFacts(g, s0);
      CoveredIndex(g, n);
      hide RefBlkOff, Inv, Cover, BlkOf, IndexOf, RefcountBlock.Set, RefcountBlock.Limit, RefcountBlock.Capacity,
        RefsSet, Pwrite;
      var at := RefBlock(rcIndex, refblockOffset);
      ghost var s := S();
      var blk := RefcountBlock.Set(g.order, rcCache.slots[at].data, refblockIndex, value);
      rcCache.slots := rcCache.slots[at := rcCache.slots[at].(data := blk)];
      file := Pwrite(file, refblockOffset, blk);
      pend := if value > 0 then pend - {n} else pend + {n};
      RefsSetDirect(g, s, S(), at, n, value, blk);
      RefsSetFromLookup(g, s0, s, S(), n, value);
    }

    /** qcow2_set_refcount */
    method Qcow2SetRefcount(clusterOffset: nat, value: nat, ghost n: nat)
      requires Valid() && g.v2 && clusterOffset == At(g, n) && n < Cover(g)
      requires value < RefcountBlock.Limit(g.order) && Used(g, file, n, pend) && (value == 0 ==> n < ff)
      requires Room() >= 0
      modifies this, rcCache
      ensures Valid() && RefsSet(g, old(S()), S(), n, value)
      decreases Missing(refcountTable)
    {
      hide Inv, At, Cover, BlkOf, IndexOf, ClusterOf, RefsSet, RefBlkOff, GeoOK, Fits, Handed, Missing, FreeFrom,
        KeptTables,
        SameCounts, Region, Count, Used, RefcountBlock.Limit;
      ghost var s := S();
      AllocFacts(g, s);
      BlockSizes(g);
      AtOf(g, n);
      PerPositive(g);
      CoveredIndex(g, n);
      var rcIndex, refblockIndex := BlkOf(g, ClusterOf(g, clusterOffset)), IndexOf(g, ClusterOf(g, clusterOffset));
      TableReads(g, s, rcIndex);
      LimitAboveOne(g.order);
      var refblockOffset := refcountTable[rcIndex];
      if refblockOffset == 0 {
        MissingAny(refcountTable, rcIndex);
        ghost var n1;
        refblockOffset, n1 := Qcow2BlockAlloc(g.cs, RefBlk(rcIndex));
        ghost var s1 := S();
        HandedBlock(g, s, s1, refblockOffset, rcIndex, n1);
        HandedUse(g, s, s1, refblockOffset, rcIndex, n1, n);
        RcTableUpdate(rcIndex, refblockOffset);
        ghost var s2 := S();
        CountsFree(g, s1.file, s2.file, s1.ff);
        CountsUse(g, s1.file, s2.file, n, s1.pend);
        CountsUse(g, s1.file, s2.file, n1, s1.pend);
        Qcow2SetRefcount(refblockOffset, 1, n1);
        ghost var s3 := S();
        BlockStays(g, s2, s3, rcIndex, refblockOffset, n1);
        UseStays(g, s2, s3, n1, 1, n);
        StoreRefcount(n, rcIndex, refblockIndex, refblockOffset, value);
        RefsSetVia(g, s, s1, s2, s3, S(), rcIndex, refblockOffset, n1, n, value);
      } else {
        StoreRefcount(n, rcIndex, refblockIndex, refblockOffset, value);
      }
    }

    /** s->block_alloc */
    method BlockAlloc(size: nat, ghost r: Role) returns (offset: nat, ghost n: nat)
      requires Valid() && (size == g.cs || size == 8 * g.l2n) && r != Free
      requires Room() >= 1 && |file| > 0
      modifies this`file, this`firstFreeCluster, this`role, this`pend, this`ff, rcCache
      ensures Valid() && Handed(g, old(S()), S(), offset, size, r, n)
      ensures Room() >= old(Room()) - 1
    {
      n := 0;
      AllocFacts(g, S());
      SizesV2(g);
      hide Inv, KeptTables, SameCounts, Touches, Unclaimed, Region, At, Count, Missing, FreeFrom, GeoOK, Cover;
      if g.v2 {
        offset, n := Qcow2BlockAlloc(size, r);
      } else {
        offset := QcowBlockAlloc(size, r);
      }
    }

    /** s->set_refcount(s, offset, 1) for a block just handed out. */
    method CountNew(offset: nat, ghost n: nat)
      requires Valid() && Room() >= 0
      requires g.v2 ==> offset == At(g, n) && n < Cover(g) && n in pend
      modifies this, rcCache
      ensures Valid() && Room() >= old(Room())
      ensures KeptTables(g, old(file), file) && RolesKept(old(role), role)
      ensures pend == if g.v2 then old(pend) - {n} else old(pend)
    {
      AllocFacts(g, S());
      LimitAboveOne(g.order);
      hide Inv, Count, At, Cover, KeptTables, GeoOK, Fits, RefcountBlock.Limit, CountsSet, Missing, FreeFrom,
        NewBlock, Extends;
      if g.v2 {
        Qcow2SetRefcount(offset, 1, n);
      } else {
        KeptTablesRefl(g, file);
      }
    }

    /** l1_table_update with a fresh L2 table. */
    method L1TableUpdate(l1Index: nat, l2Offset: nat)
      requires Valid() && l1Index < g.l1Size && L2Off(g, file, l1Index) == 0
      requires 0 < l2Offset < TWO_62 && l2Offset % 2 == 0 && Region(role, l2Offset, 8 * g.l2n, L2Tab(l1Index))
      requires forall k :: l2Offset <= k < l2Offset + 8 * g.l2n ==> file[k] == 0
      modifies this`file, this`l1Table
      ensures Valid() && S() == old(S()).(file := file, l1 := l1Table) && |file| == |old(file)|
      ensures SameView(g, old(file), file) && L2Off(g, file, l1Index) == l2Offset
      ensures SameEntries(g, old(file), file)
      ensures Room() == old(Room())
    {
      hide L2Off, Entry, View, TabOK, UseOK, AllocOK, L2CacheOK, RcCacheOK, GeoOK, Fits, RamOK, Region, SameCounts,
        FreeFrom, Missing, Cover;
      ghost var s := S();
      RamTableLengths(g, s);
      l1Table := l1Table[l1Index := l2Offset + CopiedFlag(g)];
      file := PutWord(file, g.l1Off + 8 * l1Index, l2Offset + CopiedFlag(g));
      L1Inv(g, s, S(), l1Index, l2Offset);
      SameLength(g, s, S());
      CountsFree(g, s.file, file, ff);
    }

    /** The first half of get_cluster_offset when the L2 table is missing: allocate a table,
        enter it into the L1 table, count it. */
    method L2TableAlloc(l1Index: nat) returns (l2Offset: nat)
      requires Valid() && l1Index < g.l1Size && L2Off(g, file, l1Index) == 0
      requires Room() >= 1
      modifies this, rcCache
      ensures Valid() && L2Off(g, file, l1Index) == l2Offset != 0
      ensures SameView(g, old(file), file) && SameEntries(g, old(file), file)
      ensures RolesKept(old(role), role) && pend == old(pend)
      ensures Room() >= old(Room()) - 1
    {
      hide L2Off, Entry, View, Inv, At, Count, Cover, Missing, FreeFrom, GeoOK, Fits, Touches, SameCounts, KeptTables,
        Unclaimed;
      ghost var s := S();
      AllocFacts(g, s);
      BlockSizes(g);
      FileNotEmpty(g, s, l1Index);
      ghost var n;
      l2Offset, n := BlockAlloc(8 * g.l2n, L2Tab(l1Index));
      ghost var f1, role1 := file, role;
      HandedTable(g, s, S(), l2Offset, 8 * g.l2n, L2Tab(l1Index), n);
      L1TableUpdate(l1Index, l2Offset);
      ghost var f2 := file;
      CountNew(l2Offset, n);
      L2TableMade(g, s.file, f1, f2, file, l1Index, l2Offset);
    }

    /** l2_cache_lookup of a table the L1 table names: it is always found. */
    method L2Table(l1Index: nat, l2Offset: nat) returns (at: nat)
      requires Valid() && l1Index < g.l1Size && l2Offset == L2Off(g, file, l1Index) != 0
      modifies l2Cache
      ensures Valid() && S() == old(S()).(l2s := l2Cache.slots)
      ensures at < SLOTS && |l2Cache.slots| == SLOTS && l2Cache.slots[at].key == l2Offset
      ensures l2Offset + 8 * g.l2n <= |file|
      ensures l2Cache.slots[at].data == file[l2Offset..l2Offset + 8 * g.l2n]
    {
      ghost var s := S();
      hide L2Off, TabOK, UseOK, RcCacheOK, L2Key, AllocOK, Holds, Fits, GeoOK, RamOK, Coherent;
      L2TableInFile(g, s, l1Index);
      var found;
      at, found := l2Cache.Lookup(file, l2Offset);
      CoherentLength(s.l2s, 8 * g.l2n, s.file);
      CoherentLength(l2Cache.slots, 8 * g.l2n, s.file);
      L2LookupInv(g, s, S(), l1Index);
    }

    /** l2_table_update with cluster c, private to the virtual cluster. */
    method L2TableUpdate(at: nat, l2Offset: nat, l1Index: nat, l2Index: nat, c: nat)
      requires Valid() && l1Index < g.l1Size && l2Index < g.l2n && l2Offset == L2Off(g, file, l1Index) != 0
      requires at < SLOTS && |l2Cache.slots| == SLOTS && l2Cache.slots[at].key == l2Offset
      requires 0 < c < TWO_62 && c % 2 == 0 && Region(role, c, g.cs, Private(l1Index, l2Index))
      modifies this`file, l2Cache
      ensures Valid() && S() == old(S()).(file := file, l2s := l2Cache.slots) && |file| == |old(file)|
      ensures SameViewBut(g, old(file), file, l1Index, l2Index) && SameEntriesBut(g, old(file), file, l1Index, l2Index)
      ensures Entry(g, file, l1Index, l2Index) == c + CopiedFlag(g)
      ensures forall k :: 0 <= k < g.cs ==> View(g, file, l1Index, l2Index, k) == Data(old(file)[c + k])
      ensures Room() == old(Room())
    {
      hide L2Off, Entry, View, TabOK, UseOK, AllocOK, L2CacheOK, RcCacheOK, GeoOK, Fits, RamOK, SameCounts, PutWord,
        FreeFrom, Missing, Cover;
      ghost var s := S();
      l2Cache.slots := l2Cache.slots[at := l2Cache.slots[at].(data :=
                         PutWord(l2Cache.slots[at].data, 8 * l2Index, c + CopiedFlag(g)))];
      file := PutWord(file, l2Offset + 8 * l2Index, c + CopiedFlag(g));
      L2Inv(g, s, S(), at, l1Index, l2Index, c);
      SameLength(g, s, S());
      CountsFree(g, s.file, file, ff);
    }

    /** pwrite inside data cluster c, which only virtual cluster (i, j) refers to. */
    method WriteCluster(c: nat, off: nat, data: seq<byte>, ghost i: nat, ghost j: nat)
      requires Valid() && i < g.l1Size && j < g.l2n
      requires Region(role, c, g.cs, Private(i, j)) && off + |data| <= g.cs
      modifies this`file
      ensures Valid() && S() == old(S()).(file := Pwrite(old(file), c + off, data)) && |file| == |old(file)|
      ensures SameViewBut(g, old(file), file, i, j) && SameEntries(g, old(file), file)
      ensures forall t :: 0 <= t < g.l1Size ==> L2Off(g, file, t) == L2Off(g, old(file), t)
      ensures Room() == old(Room())
    {
      hide L2Off, Entry, View, TabOK, UseOK, AllocOK, L2CacheOK, RcCacheOK, GeoOK, Fits, RamOK, SameCounts, Region,
        Pwrite, FreeFrom, Missing, Cover;
      ghost var s := S();
      file := Pwrite(file, c + off, data);
      DataInv(g, s, S(), i, j, c, off, data);
      CountsFree(g, s.file, file, ff);
    }

    /** The tail shared by both branches below: enter cluster c into the L2 table, count it. */
    method EnterCluster(at: nat, l2Offset: nat, l1Index: nat, l2Index: nat, c: nat, ghost n: nat)
      requires Valid() && l1Index < g.l1Size && l2Index < g.l2n && l2Offset == L2Off(g, file, l1Index) != 0
      requires at < SLOTS && |l2Cache.slots| == SLOTS && l2Cache.slots[at].key == l2Offset
      requires 0 < c < TWO_62 && c % 2 == 0 && Region(role, c, g.cs, Private(l1Index, l2Index))
      requires Room() >= 0 && (g.v2 ==> c == At(g, n) && n < Cover(g) && n in pend)
      modifies this, l2Cache, rcCache
      ensures Valid() && Room() >= old(Room())
      ensures Entered(g, old(S()), S(), l1Index, l2Index, c)
      ensures pend == if g.v2 then old(pend) - {n} else old(pend)
    {
      ghost var s := S();
      AllocFacts(g, s);
      assert c + g.cs <= |role|;
      hide L2Off, Entry, View, Inv, At, Count, Cover, Missing, FreeFrom, GeoOK, Fits, KeptTables, Region, SameViewBut,
        SameEntriesBut, Entered;
      L2TableUpdate(at, l2Offset, l1Index, l2Index, c);
      ghost var s1 := S();
      CountNew(c, n);
      EnteredThen(g, s, s1, S(), l1Index, l2Index, c);
    }

    /** get_cluster_offset, the branch for an unmapped cluster: allocate it zeroed, enter it, count it. */
    method FreshCluster(at: nat, l2Offset: nat, l1Index: nat, l2Index: nat) returns (c: nat)
      requires Valid() && l1Index < g.l1Size && l2Index < g.l2n && l2Offset == L2Off(g, file, l1Index) != 0
      requires at < SLOTS && |l2Cache.slots| == SLOTS && l2Cache.slots[at].key == l2Offset
      requires Entry(g, file, l1Index, l2Index) == 0 && Room() >= 1
      modifies this, l2Cache, rcCache
      ensures Valid() && Mapped(g, old(S()), S(), l1Index, l2Index, c) && Room() >= old(Room()) - 1
    {
      ghost var s := S();
      AllocFacts(g, s);
      BlockSizes(g);
      FileNotEmpty(g, s, l1Index);
      ghost var n;
      hide L2Off, Entry, View, Inv, At, Count, Cover, Missing, FreeFrom, GeoOK, Fits, Touches, SameCounts, KeptTables,
        Handed,
        Mapped, Entered, Region;
      c, n := BlockAlloc(g.cs, Private(l1Index, l2Index));
      ghost var s1 := S();
      HandedTable(g, s, s1, c, g.cs, Private(l1Index, l2Index), n);
      EnterCluster(at, l2Offset, l1Index, l2Index, c, n);
      FreshMapped(g, s, s1, S(), l1Index, l2Index, c);
    }

    /** Copy-on-write, first half: allocate a cluster, read the old one, write the copy. */
    method CopyOut(oldOffset: nat, ghost i: nat, ghost j: nat) returns (c: nat, ghost n: nat)
      requires Valid() && i < g.l1Size && j < g.l2n && Room() >= 1
      requires Entry(g, file, i, j) != 0 && !IsCopied(g, Entry(g, file, i, j))
      requires oldOffset == Mask(g, Entry(g, file, i, j))
      modifies this`file, this`firstFreeCluster, this`role, this`pend, this`ff, rcCache
      ensures Valid() && Copied(g, old(S()), S(), i, j, c, n)
      ensures Room() >= old(Room()) - 1
    {
      hide L2Off, Entry, View, Inv, At, Count, Cover, Missing, FreeFrom, GeoOK, Fits, Touches, SameCounts, KeptTables,
        Handed,
        Copied, Mask, Residue, Pwrite, Region, SameViewBut, SameEntries, ReadyToCopy;
      ghost var s := S();
      AllocFacts(g, s);
      BlockSizes(g);
      FileNotEmpty(g, s, i);
      c, n := BlockAlloc(g.cs, Private(i, j));
      ghost var s1 := S();
      HandedForCopy(g, s, s1, i, j, c, n, oldOffset);
      var cowBuffer := file[oldOffset..oldOffset + g.cs];
      WriteCluster(c, 0, cowBuffer, i, j);
      CopiedFrom(g, s, s1, S(), i, j, c, n, cowBuffer);
    }

    /** get_cluster_offset, the branch for a cluster not known to be unshared: copy it into a fresh
        cluster, enter that, count it. */
    method CopyCluster(at: nat, l2Offset: nat, l1Index: nat, l2Index: nat, oldOffset: nat) returns (c: nat)
      requires Valid() && l1Index < g.l1Size && l2Index < g.l2n && l2Offset == L2Off(g, file, l1Index) != 0
      requires at < SLOTS && |l2Cache.slots| == SLOTS && l2Cache.slots[at].key == l2Offset
      requires Entry(g, file, l1Index, l2Index) != 0 && !IsCopied(g, Entry(g, file, l1Index, l2Index))
      requires oldOffset == Mask(g, Entry(g, file, l1Index, l2Index)) && Room() >= 1
      modifies this, l2Cache, rcCache
      ensures Valid() && Mapped(g, old(S()), S(), l1Index, l2Index, c) && Room() >= old(Room()) - 1
    {
      ghost var s := S();
      hide L2Off, Entry, View, Inv, At, Count, Cover, Missing, FreeFrom, GeoOK, Fits, Mapped, Entered, Mask, Residue,
        Region,
        SameViewBut, SameEntries;
      ghost var n;
      c, n := CopyOut(oldOffset, l1Index, l2Index);
      ghost var s2 := S();
      EnterCluster(at, l2Offset, l1Index, l2Index, c, n);
      CopyMapped(g, s, s2, S(), l1Index, l2Index, c, n);
    }

    /** get_cluster_offset for virtual cluster (l1Index, l2Index): the file offset of its host
        cluster, allocated or copied first when writing; 0 when unmapped and reading. */
    method GetClusterOffset(l1Index: nat, l2Index: nat, allocate: bool) returns (c: nat)
      requires Valid() && l1Index < g.l1Size && l2Index < g.l2n
      requires allocate ==> Room() >= 2
      modifies this, l2Cache, rcCache
      ensures Valid()
      ensures !allocate ==> S() == old(S()).(l2s := l2Cache.slots) && c == Strip(g, Entry(g, file, l1Index, l2Index))
      ensures allocate ==> Mapped(g, old(S()), S(), l1Index, l2Index, c) && Room() >= old(Room()) - 2
    {
      hide Inv, L2Off, Entry, View, Mapped, Residue, Region, SameViewBut, SameEntries, SameEntriesBut, SameView,
        Missing, FreeFrom,
        Cover, At, Count, GeoOK, Fits, IsCompressed, Plain;
      ghost var s := S();
      L1Reads(g, s, l1Index);
      SameAsItself(g, s);
      var l2Offset := Mask(g, l1Table[l1Index]);
      if l2Offset == 0 {
        NoTable(g, file, l1Index, l2Index);
        if !allocate {
          return 0;
        }
        l2Offset := L2TableAlloc(l1Index);
      }
      ghost var s1 := S();
      var at := L2Table(l1Index, l2Offset);
      ghost var s2 := S();
      EntryReads(g, s2, l1Index, l2Index);
      var clusterOffset := U64(l2Cache.slots[at].data, 8 * l2Index);
      if clusterOffset == 0 {
        if !allocate {
          return 0;
        }
        c := FreshCluster(at, l2Offset, l1Index, l2Index);
      } else {
        EntryShape(g, s2, l1Index, l2Index);
        assert !IsCompressed(g, clusterOffset);
        if !IsCopied(g, clusterOffset) && allocate {
          c := CopyCluster(at, l2Offset, l1Index, l2Index, Mask(g, clusterOffset));
        } else {
          c := Strip(g, clusterOffset);
        }
      }
      if allocate { MappedAfter(g, s, s2, S(), l1Index, l2Index, c); }
    }
  }

  lemma L1Reads(g: Geo, s: State, t: nat)
    requires Inv(g, s) && t < g.l1Size
    ensures |s.l1| == g.l1Size && Mask(g, s.l1[t]) == L2Off(g, s.file, t)
  {
    hide L1Entry;
  }

  lemma NoTable(g: Geo, f: seq<byte>, i: nat, j: nat)
    requires L2Off(g, f, i) == 0
    ensures Entry(g, f, i, j) == 0
  {
  }

  /** The cached block's word is the file's L2 entry. */
  lemma EntryReads(g: Geo, s: State, i: nat, j: nat)
    requires Inv(g, s) && i < g.l1Size && j < g.l2n && L2Off(g, s.file, i) != 0
    ensures L2Off(g, s.file, i) + 8 * g.l2n <= |s.file|
    ensures U64(s.file[L2Off(g, s.file, i)..L2Off(g, s.file, i) + 8 * g.l2n], 8 * j) == Entry(g, s.file, i, j)
  {
    hide L2Off;
    L2TableInFile(g, s, i);
    var o := L2Off(g, s.file, i);
    assert s.file[o..o + 8 * g.l2n][8 * j..8 * j + 8] == s.file[o + 8 * j..o + 8 * j + 8];
  }

  /** A mapped entry is not compressed; a copied one names a cluster of its own. */
  lemma EntryShape(g: Geo, s: State, i: nat, j: nat)
    requires Inv(g, s) && i < g.l1Size && j < g.l2n && Entry(g, s.file, i, j) != 0
    ensures !IsCompressed(g, Entry(g, s.file, i, j))
    ensures IsCopied(g, Entry(g, s.file, i, j)) ==> Mapped(g, s, s, i, j, Strip(g, Entry(g, s.file, i, j)))
  {
    assert EntOK(g, s.file, s.role, i, j);
    hide Entry;
    var e := Entry(g, s.file, i, j);
    if Plain(g, e) { PlainUncompressed(g, e); }
  }

  lemma SameAsItself(g: Geo, s: State)
    ensures SameView(g, s.file, s.file) && SameEntries(g, s.file, s.file) && RolesKept(s.role, s.role)
  {
  }

  /** Mapping a cluster after its L2 table was looked up, or made because it was missing. */
  lemma MappedAfter(g: Geo, s: State, s2: State, s3: State, i: nat, j: nat, c: nat)
    requires i < g.l1Size && j < g.l2n && (s2.file == s.file || Entry(g, s.file, i, j) == 0)
    requires SameView(g, s.file, s2.file) && SameEntries(g, s.file, s2.file)
    requires RolesKept(s.role, s2.role) && s2.pend == s.pend
    requires Mapped(g, s2, s3, i, j, c)
    ensures Mapped(g, s, s3, i, j, c)
  {
    hide Entry, View;
  }

  /** The byte a write to another part of the cluster leaves at (i, j, k): unmapped clusters become
      zeros, and a zero-flag entry has no cluster of its own, so file offset 0 is copied. */
  function Residue(g: Geo, f: seq<byte>, i: nat, j: nat, k: nat): byte {
    var e := Entry(g, f, i, j);
    if e == 0 then 0
    else if IsCopied(g, e) then ByteAt(f, Strip(g, e) + k)
    else ByteAt(f, Mask(g, e) + k)
  }

  /** Virtual cluster (i, j) is now mapped to cluster c, which nothing else refers to; nothing else changed. */
  ghost predicate Mapped(g: Geo, s: State, s': State, i: nat, j: nat, c: nat) {
    && 0 < c < TWO_62 && c % 2 == 0 && Region(s'.role, c, g.cs, Private(i, j))
    && Entry(g, s'.file, i, j) == c + CopiedFlag(g)
    && SameViewBut(g, s.file, s'.file, i, j) && SameEntriesBut(g, s.file, s'.file, i, j)
    && (forall k :: 0 <= k < g.cs ==> View(g, s'.file, i, j, k) == Data(Residue(g, s.file, i, j, k)))
    && RolesKept(s.role, s'.role) && s'.pend == s.pend
  }

  /** Cluster c of s is now entered for (i, j): it shows what c held. */
  ghost predicate Entered(g: Geo, s: State, s': State, i: nat, j: nat, c: nat) {
    && Entry(g, s'.file, i, j) == c + CopiedFlag(g)
    && SameViewBut(g, s.file, s'.file, i, j) && SameEntriesBut(g, s.file, s'.file, i, j)
    && c + g.cs <= |s.file| && (forall k :: 0 <= k < g.cs ==> View(g, s'.file, i, j, k) == Data(s.file[c + k]))
    && RolesKept(s.role, s'.role)
  }

  lemma EnteredThen(g: Geo, s: State, s1: State, s2: State, i: nat, j: nat, c: nat)
    requires i < g.l1Size && j < g.l2n && s1.role == s.role && RolesKept(s1.role, s2.role)
    requires c + g.cs <= |s.role| == |s.file|
    requires SameViewBut(g, s.file, s1.file, i, j) && SameEntriesBut(g, s.file, s1.file, i, j)
    requires Entry(g, s1.file, i, j) == c + CopiedFlag(g)
    requires forall k :: 0 <= k < g.cs ==> View(g, s1.file, i, j, k) == Data(s.file[c + k])
    requires KeptTables(g, s1.file, s2.file)
    ensures Entered(g, s, s2, i, j, c)
  {
    hide Entry, View, L1Entry;
  }

  lemma FreshMapped(g: Geo, s: State, s1: State, s2: State, i: nat, j: nat, c: nat)
    requires i < g.l1Size && j < g.l2n && Entry(g, s.file, i, j) == 0
    requires 0 < c < TWO_62 && c % 2 == 0 && Region(s1.role, c, g.cs, Private(i, j))
    requires c + g.cs <= |s1.file| && forall k :: c <= k < c + g.cs ==> s1.file[k] == 0
    requires KeptTables(g, s.file, s1.file) && RolesKept(s.role, s1.role)
    requires Entered(g, s1, s2, i, j, c) && s2.pend == s.pend
    ensures Mapped(g, s, s2, i, j, c)
  {
    hide Entry, View, L1Entry;
  }

  /** Cluster c, private to (i, j) but not entered yet, holds what a copy must hold. */
  ghost predicate Copied(g: Geo, s: State, s': State, i: nat, j: nat, c: nat, n: nat) {
    && 0 < c < TWO_62 && c % 2 == 0 && Region(s'.role, c, g.cs, Private(i, j)) && c + g.cs <= |s'.file|
    && SameViewBut(g, s.file, s'.file, i, j) && SameEntries(g, s.file, s'.file)
    && (forall t :: 0 <= t < g.l1Size ==> L2Off(g, s'.file, t) == L2Off(g, s.file, t))
    && RolesKept(s.role, s'.role)
    && (forall k :: 0 <= k < g.cs ==> s'.file[c + k] == Residue(g, s.file, i, j, k))
    && (g.v2 ==> c == At(g, n) && n < Cover(g) && n in s'.pend && s'.pend - {n} == s.pend)
    && (!g.v2 ==> s'.pend == s.pend)
  }

  /** Cluster c was handed out for (i, j) and `buf` is what the old cluster holds. */
  ghost predicate ReadyToCopy(g: Geo, s: State, s1: State, i: nat, j: nat, c: nat, n: nat, buf: seq<byte>) {
    && 0 < c < TWO_62 && c % 2 == 0 && Region(s1.role, c, g.cs, Private(i, j)) && c + g.cs <= |s1.file|
    && KeptTables(g, s.file, s1.file) && RolesKept(s.role, s1.role)
    && (forall t :: 0 <= t < g.l1Size ==> L2Off(g, s1.file, t) == L2Off(g, s.file, t))
    && |buf| == g.cs && (forall k :: 0 <= k < g.cs ==> buf[k] == Residue(g, s.file, i, j, k))
    && (g.v2 ==> c == At(g, n) && n < Cover(g) && n in s1.pend && s1.pend - {n} == s.pend)
    && (!g.v2 ==> s1.pend == s.pend)
  }

  lemma HandedForCopy(g: Geo, s: State, s1: State, i: nat, j: nat, c: nat, n: nat, o: nat)
    requires Inv(g, s) && Inv(g, s1) && i < g.l1Size && j < g.l2n
    requires Handed(g, s, s1, c, g.cs, Private(i, j), n)
    requires Entry(g, s.file, i, j) != 0 && !IsCopied(g, Entry(g, s.file, i, j)) && o == Mask(g, Entry(g, s.file, i, j))
    ensures o + g.cs <= |s1.file| && Region(s1.role, c, g.cs, Private(i, j))
    ensures ReadyToCopy(g, s, s1, i, j, c, n, s1.file[o..o + g.cs])
  {
    AllocFacts(g, s);
    AllocFacts(g, s1);
    BlockSizes(g);
    hide Inv, Entry, View, L2Off, Mask, Residue, KeptTables, Count, At, Cover, IsCopied, Handed;
    HandedTable(g, s, s1, c, g.cs, Private(i, j), n);
    CopySource(g, s, s1, c, g.cs, Private(i, j), n, i, j);
  }

  lemma CopiedFrom(g: Geo, s: State, s1: State, s2: State, i: nat, j: nat, c: nat, n: nat, buf: seq<byte>)
    requires ReadyToCopy(g, s, s1, i, j, c, n, buf)
    requires forall t :: 0 <= t < g.l1Size ==> L2Off(g, s2.file, t) == L2Off(g, s1.file, t)
    requires s2 == s1.(file := Pwrite(s1.file, c, buf))
    requires SameViewBut(g, s1.file, s2.file, i, j) && SameEntries(g, s1.file, s2.file)
    ensures Copied(g, s, s2, i, j, c, n)
  {
    hide Entry, View, L1Entry, Residue, L2Off, At, Cover;
  }

  lemma CopyMapped(g: Geo, s: State, s2: State, s3: State, i: nat, j: nat, c: nat, n: nat)
    requires i < g.l1Size && j < g.l2n
    requires Copied(g, s, s2, i, j, c, n) && Entered(g, s2, s3, i, j, c) && s3.pend == s.pend
    ensures Mapped(g, s, s3, i, j, c)
  {
    hide Entry, View, L1Entry, Residue, L2Off, At, Cover;
    forall k | 0 <= k < g.cs
      ensures View(g, s3.file, i, j, k) == Data(Residue(g, s.file, i, j, k))
    {
      assert s2.file[c + k] == Residue(g, s.file, i, j, k);
    }
  }

  /** The cluster a copy is made from lies in the file and in bytes in use. */
  lemma OldCluster(g: Geo, s: State, i: nat, j: nat)
    requires Inv(g, s) && i < g.l1Size && j < g.l2n
    requires Entry(g, s.file, i, j) != 0 && !IsCopied(g, Entry(g, s.file, i, j))
    ensures var o := Mask(g, Entry(g, s.file, i, j));
            && o + g.cs <= |s.file|
            && (forall k :: o <= k < o + g.cs ==> s.role[k] != Free)
            && (forall k :: 0 <= k < g.cs ==> s.file[o + k] == Residue(g, s.file, i, j, k))
  {
    assert EntOK(g, s.file, s.role, i, j);
    hide Entry;
    var e := Entry(g, s.file, i, j);
    if Plain(g, e) { PlainUncompressed(g, e); }
  }

  /** After the allocation the old cluster still reads what the copy must hold. */
  lemma CopySource(g: Geo, s: State, s': State, c: nat, size: nat, r: Role, n: nat, i: nat, j: nat)
    requires Inv(g, s) && Handed(g, s, s', c, size, r, n) && i < g.l1Size && j < g.l2n
    requires Entry(g, s.file, i, j) != 0 && !IsCopied(g, Entry(g, s.file, i, j))
    ensures var o := Mask(g, Entry(g, s.file, i, j));
            && o + g.cs <= |s'.file|
            && forall k :: 0 <= k < g.cs ==> s'.file[o..o + g.cs][k] == Residue(g, s.file, i, j, k)
  {
    AllocFacts(g, s);
    OldCluster(g, s, i, j);
    hide KeptTables, SameCounts, Count, At, Cover, Inv, Entry, Mask, Residue, Region, Unclaimed;
  }

  lemma L2TableInFile(g: Geo, s: State, t: nat)
    requires Inv(g, s) && t < g.l1Size && L2Off(g, s.file, t) != 0
    ensures L2Off(g, s.file, t) + 8 * g.l2n <= |s.file|
    ensures Coherent(s.l2s, 8 * g.l2n, s.file)
  {
    hide L2Off;
    assert L2OK(g, s.file, s.role, t);
  }

  lemma RamTableLengths(g: Geo, s: State)
    requires Inv(g, s)
    ensures |s.l1| == g.l1Size && |s.rt| == g.rtSize
  {
  }

  lemma SameLength(g: Geo, s: State, s': State)
    requires Inv(g, s) && Inv(g, s') && s'.role == s.role
    ensures |s'.file| == |s.file|
  {
  }

  lemma FileNotEmpty(g: Geo, s: State, i: nat)
    requires Inv(g, s) && i < g.l1Size
    ensures |s.file| > 0
  {
  }

  /** What an allocation leaves alone, and where its block is. */
  lemma HandedTable(g: Geo, s: State, s': State, c: nat, size: nat, r: Role, n: nat)
    requires GeoOK(g) && Handed(g, s, s', c, size, r, n) && size > 0
    ensures 0 < c < TWO_62 && c % 2 == 0 && Region(s'.role, c, size, r)
    ensures forall k :: c <= k < c + size ==> s'.file[k] == 0
    ensures KeptTables(g, s.file, s'.file) && RolesKept(s.role, s'.role)
    ensures forall i :: 0 <= i < g.l1Size ==> L2Off(g, s'.file, i) == L2Off(g, s.file, i)
    ensures g.v2 ==> c == At(g, n) && n < Cover(g) && n in s'.pend && s'.pend - {n} == s.pend
    ensures !g.v2 ==> s'.pend == s.pend
  {
    OffsKept(g, s.file, s'.file);
    hide L2Off, Entry, View, At, Cover, Count, L1Entry, SameCounts, Unclaimed;
  }

  lemma L2TableMade(g: Geo, f: seq<byte>, f1: seq<byte>, f2: seq<byte>, f3: seq<byte>, t: nat, c: nat)
    requires KeptTables(g, f, f1) && SameView(g, f1, f2) && SameEntries(g, f1, f2) && KeptTables(g, f2, f3)
    requires t < g.l1Size && L2Off(g, f2, t) == c
    ensures SameView(g, f, f3) && SameEntries(g, f, f3) && L2Off(g, f3, t) == c
  {
    OffsKept(g, f2, f3);
    hide L1Entry, Entry, View, L2Off;
  }

  lemma TableReads(g: Geo, s: State, k: nat)
    requires Inv(g, s) && k < g.rtSize
    ensures |s.rt| == g.rtSize && s.rt[k] == RefBlkOff(g, s.file, k)
  {
    hide RefBlkOff;
  }

  lemma RefBlkInFile(g: Geo, s: State, k: nat)
    requires Inv(g, s) && k < g.rtSize && RefBlkOff(g, s.file, k) != 0
    ensures RefBlkOff(g, s.file, k) + g.cs <= |s.file|
    ensures Coherent(s.rcs, g.cs, s.file)
  {
    hide RefBlkOff;
    assert RtOK(g, s.file, s.role, k);
  }
}
