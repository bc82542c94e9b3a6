/** Runs that mix allocations with changes of reference counts, which allocate refcount blocks of
    their own: no host cluster is handed out twice. */
module QcowAlloc {
  import opened Bytes
  import opened Common
  import opened QcowLayout
  import opened QcowState
  import opened QcowImage
  import RefcountBlock

  /** Ask for a cluster; set the count of the k-th one handed out so far; or set the count of host cluster
      n, if it is counted and the new count does not make a cluster ahead of the allocator free. */
  datatype Request = Get | SetHanded(k: nat, value: nat) | SetCounted(n: nat, value: nat)

  /** The clusters handed out since the file was f0: in ascending order, behind first_free_cluster, counted
      or pending, and none of them a refcount block. None was counted in f0: what f0 counts is still counted,
      or the allocator is past it. */
  ghost predicate Fresh(g: Geo, f0: seq<byte>, s: State, ns: seq<nat>)
    requires GeoOK(g)
  {
    && (forall i, j :: 0 <= i < j < |ns| ==> ns[i] < ns[j])
    && (forall i :: 0 <= i < |ns| ==> ns[i] < s.ff && ns[i] < Cover(g) && At(g, ns[i]) > 0)
    && (forall i :: 0 <= i < |ns| ==> Used(g, s.file, ns[i], s.pend) && Count(g, f0, ns[i]) == 0)
    && (forall m: nat :: Count(g, f0, m) > 0 ==> m < s.ff || Count(g, s.file, m) > 0)
    && (forall i, j :: 0 <= i < |ns| && 0 <= j < |s.rt| ==> s.rt[j] != At(g, ns[i]))
  }

  lemma BlockNotHanded(g: Geo, s: State, n: nat, j: nat)
    requires Inv(g, s) && j < g.rtSize && Unclaimed(s.role, At(g, n), g.cs) && At(g, n) > 0
    ensures |s.rt| == g.rtSize && s.rt[j] != At(g, n)
  {
    hide At, L2CacheOK, RcCacheOK, UseOK, AllocOK;
    TableReads(g, s, j);
    assert RtOK(g, s.file, s.role, j);
    assert s.rt[j] != 0 ==> s.role[s.rt[j]] == RefBlk(j);
  }

  lemma GetFresh(g: Geo, f0: seq<byte>, s: State, s': State, c: nat, r: Role, n: nat, ns: seq<nat>)
    requires Inv(g, s) && g.v2 && GeoOK(g) && Fresh(g, f0, s, ns) && Handed(g, s, s', c, g.cs, r, n)
    ensures Fresh(g, f0, s', ns + [n]) && FreeFrom(g, s'.file, s'.ff) == FreeFrom(g, s.file, s.ff) - 1
    ensures s'.rt == s.rt && c == At(g, n)
  {
    hide Inv, At, Cover, Region, Unclaimed, Touches, KeptTables, SameCounts, Count, FreeFrom;
    AllocFacts(g, s);
    RtLength(g, s);
    forall j | 0 <= j < |s.rt| ensures s.rt[j] != At(g, n) { BlockNotHanded(g, s, n, j); }
    forall m: nat ensures Count(g, s'.file, m) == Count(g, s.file, m) { CountsSame(g, s.file, s'.file, m); }
  }

  lemma RtLength(g: Geo, s: State)
    requires Inv(g, s)
    ensures |s.rt| == g.rtSize
  {
  }

  /** A change of the count of cluster n, with the allocations inside it. */
  lemma SetFresh(g: Geo, f0: seq<byte>, s: State, s': State, n: nat, v: nat, ns: seq<nat>)
    requires GeoOK(g) && Fresh(g, f0, s, ns) && RefsSet(g, s, s', n, v) && (v == 0 ==> n < s.ff)
    ensures Fresh(g, f0, s', ns) && Slack(g, s') >= Slack(g, s)
  {
    hide At, Cover, KeptTables, Count, RolesKept, Missing, FreeFrom;
    forall k, j | 0 <= k < |ns| && 0 <= j < |s'.rt| ensures s'.rt[j] != At(g, ns[k]) {
      var m := ns[k];
      assert s.rt[j] == 0 && s'.rt[j] != 0 && s'.rt[j] == At(g, m) ==> NewBlock(g, s.rt, s'.rt, m);
    }
  }

  lemma NoneHanded(g: Geo, s: State)
    requires GeoOK(g)
    ensures Fresh(g, s.file, s, [])
  {
    hide At, Cover, Count;
  }

  /** One request. */
  method Serve(img: Image, req: Request, got: seq<nat>, ghost ns: seq<nat>, ghost f0: seq<byte>)
    returns (got': seq<nat>, ghost ns': seq<nat>)
    requires img.Valid() && img.g.v2 && img.Room() >= 1
    requires !req.Get? ==> req.value < RefcountBlock.Limit(img.g.order)
    requires |got| == |ns| && Fresh(img.g, f0, img.S(), ns)
    requires forall i :: 0 <= i < |got| ==> got[i] == At(img.g, ns[i])
    modifies img, img.rcCache
    ensures img.Valid() && img.Room() >= old(img.Room()) - 1
    ensures |got'| == |ns'| && Fresh(img.g, f0, img.S(), ns')
    ensures forall i :: 0 <= i < |got'| ==> got'[i] == At(img.g, ns'[i])
    ensures got' == got || (req.Get? && |got'| == |got| + 1 && got'[..|got|] == got)
  {
    hide Inv, At, Cover, Count, GeoOK, Fits, Handed, RefsSet, Fresh, Missing, FreeFrom, RefcountBlock.Limit, ClusterOf;
    ghost var g, s := img.g, img.S();
    AllocFacts(g, s);
    BlockSizes(g);
    got', ns' := got, ns;
    match req {
      case Get =>
        var c;
        ghost var n;
        c, n := img.Qcow2BlockAlloc(img.g.cs, Pinned);
        GetFresh(g, f0, s, img.S(), c, Pinned, n, ns);
        got', ns' := got + [c], ns + [n];
      case SetHanded(k, value) =>
        if k < |got| {
          FreshAt(g, f0, s, ns, k);
          img.Qcow2SetRefcount(got[k], value, ns[k]);
          SetFresh(g, f0, s, img.S(), ns[k], value, ns);
        }
      case SetCounted(n, value) =>
        if n < Cover(img.g) {
          AtOf(g, n);
          var rc := img.GetRefcount(At(img.g, n));
          SameFresh(g, f0, s, img.S(), ns);
          if rc > 0 && (value > 0 || At(img.g, n) < img.firstFreeCluster) {
            BehindCursor(g, n, img.ff);
            ghost var s1 := img.S();
            img.Qcow2SetRefcount(At(img.g, n), value, n);
            SetFresh(g, f0, s1, img.S(), n, value, ns);
          }
        }
    }
  }

  lemma BehindCursor(g: Geo, n: nat, m: nat)
    requires g.cs > 0
    ensures At(g, n) < At(g, m) ==> n < m
  {
    if m <= n { MulLe(m, n, g.cs); }
  }

  lemma SameFresh(g: Geo, f0: seq<byte>, s: State, s': State, ns: seq<nat>)
    requires GeoOK(g) && Fresh(g, f0, s, ns) && s' == s.(rcs := s'.rcs)
    ensures Fresh(g, f0, s', ns)
  {
    hide At, Cover, Count;
  }

  /** Over any run of allocations and count changes on a version 2 image no two clusters handed out are the
      same, none was counted when the run began, and none is a refcount block, though the count changes
      themselves allocate those. */
  method AllocationRun(img: Image, reqs: seq<Request>) returns (got: seq<nat>, ghost ns: seq<nat>)
    requires img.Valid() && img.g.v2 && img.Room() >= |reqs|
    requires forall i :: 0 <= i < |reqs| && !reqs[i].Get? ==> reqs[i].value < RefcountBlock.Limit(img.g.order)
    modifies img, img.rcCache
    ensures img.Valid() && |got| == |ns| && Fresh(img.g, old(img.file), img.S(), ns)
    ensures forall i :: 0 <= i < |got| ==> got[i] == At(img.g, ns[i])
    ensures forall i, j :: 0 <= i < j < |got| ==> got[i] != got[j]
  {
    hide Inv, At, Cover, Count, GeoOK, Fits, Fresh, Missing, FreeFrom, RefcountBlock.Limit;
    ghost var g, f0 := img.g, img.file;
    got, ns := [], [];
    AllocFacts(g, img.S());
    NoneHanded(g, img.S());
    var k := 0;
    while k < |reqs|
      invariant k <= |reqs| && img.Valid() && img.Room() >= |reqs| - k
      invariant |got| == |ns| && Fresh(g, f0, img.S(), ns)
      invariant forall i :: 0 <= i < |got| ==> got[i] == At(g, ns[i])
    {
      got, ns := Serve(img, reqs[k], got, ns, f0);
      k := k + 1;
    }
    forall i, j | 0 <= i < j < |got| ensures got[i] != got[j] {
      FreshApart(g, f0, img.S(), ns, i, j);
    }
  }

  lemma FreshAt(g: Geo, f0: seq<byte>, s: State, ns: seq<nat>, i: nat)
    requires GeoOK(g) && Fresh(g, f0, s, ns) && i < |ns|
    ensures ns[i] < s.ff && ns[i] < Cover(g) && Used(g, s.file, ns[i], s.pend)
  {
    hide At, Cover, Count;
  }

  lemma FreshApart(g: Geo, f0: seq<byte>, s: State, ns: seq<nat>, i: nat, j: nat)
    requires GeoOK(g) && Fresh(g, f0, s, ns) && i < j < |ns|
    ensures At(g, ns[i]) != At(g, ns[j])
  {
    hide At, Cover, Count;
    BlockSizes(g);
    if At(g, ns[i]) == At(g, ns[j]) { AtInjective(g, ns[i], ns[j]); }
  }
}
