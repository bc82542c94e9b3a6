/** What each kind of update of the host file does to a well-formed image: the tables stay well
    formed, and the virtual disk and the refcounts change exactly where the update says. */
module QcowSteps {
  import opened Bytes
  import opened Common
  import opened QcowLayout
  import RefcountBlock

  /** File f with the 8-byte word at `at` replaced. */
  function PutWord(f: seq<byte>, at: nat, v: nat): seq<byte> {
    Pwrite(f, at, ToBE(v, 8))
  }

  lemma PutWordReads(f: seq<byte>, at: nat, v: nat, p: nat)
    requires v < TWO_64 && at + 8 <= |f| && p + 8 <= |f|
    requires p == at || p + 8 <= at || at + 8 <= p
    ensures U64(PutWord(f, at, v), p) == if p == at then v else U64(f, p)
  {
    if p == at {
      U64Written(f, at, v);
    } else {
      U64Frame(f, PutWord(f, at, v), p);
    }
  }

  lemma PutWordTouches(f: seq<byte>, role: seq<Role>, off: nat, len: nat, r: Role, at: nat, v: nat)
    requires |role| == |f| && Region(role, off, len, r) && off <= at && at + 8 <= off + len
    ensures |PutWord(f, at, v)| == |f|
    ensures Touches(f, role, PutWord(f, at, v), role, r)
  {
  }

  lemma TabFromParts(g: Geo, f: seq<byte>, role: seq<Role>, f': seq<byte>, role': seq<Role>, r: Role)
    requires TabOK(g, f, role) && Touches(f, role, f', role', r)
    requires forall i :: 0 <= i < g.l1Size ==> L2OK(g, f', role', i)
    requires forall i, j :: 0 <= i < g.l1Size && 0 <= j < g.l2n ==> EntOK(g, f', role', i, j)
    requires forall k :: 0 <= k < g.rtSize ==> RtOK(g, f', role', k)
    ensures TabOK(g, f', role')
  {
    hide L2OK, EntOK, RtOK;
    RegionKept(f, role, f', role', r, g.l1Off, 8 * g.l1Size, L1Tab);
    RegionKept(f, role, f', role', r, g.rtOff, 8 * g.rtSize, RefTab);
    if g.v2 {
      RegionKept(f, role, f', role', r, 0, g.cs, Pinned);
    }
  }

  /** The refcount table and its blocks are untouched. */
  lemma CountsKept(g: Geo, f: seq<byte>, role: seq<Role>, f': seq<byte>, role': seq<Role>, r: Role)
    requires GeoOK(g) && TabOK(g, f, role)
    requires Touches(f, role, f', role', r) && r != RefTab && !r.RefBlk?
    ensures SameCounts(g, f, f')
    ensures forall k :: 0 <= k < g.rtSize ==> RefBlkOff(g, f', k) == RefBlkOff(g, f, k) && RtOK(g, f', role', k)
  {
    hide RefCount, Touches, RefBlkOff, RtOK;
    forall k: nat, x: nat
      ensures RefCount(g, f', k, x) == RefCount(g, f, k, x)
    {
      RefCountKept(g, f, role, f', role', r, k, x);
    }
    forall k | 0 <= k < g.rtSize
      ensures RefBlkOff(g, f', k) == RefBlkOff(g, f, k) && RtOK(g, f', role', k)
    {
      BlkOffKept(g, f, role, f', role', r, k);
      RtOKKept(g, f, role, f', role', r, k);
    }
  }

  /** The L1 table, the L2 tables and the data they name are untouched. */
  lemma TablesKept(g: Geo, f: seq<byte>, role: seq<Role>, f': seq<byte>, role': seq<Role>, r: Role)
    requires TabOK(g, f, role)
    requires Touches(f, role, f', role', r) && r != L1Tab && !r.L2Tab?
    ensures forall i :: 0 <= i < g.l1Size ==> L1Entry(g, f', i) == L1Entry(g, f, i) && L2OK(g, f', role', i)
    ensures forall i, j :: 0 <= i < g.l1Size && 0 <= j < g.l2n ==>
              Entry(g, f', i, j) == Entry(g, f, i, j) && EntOK(g, f', role', i, j)
    ensures !r.Private? && r != Shared ==> SameView(g, f, f')
    ensures r.Private? ==> SameViewBut(g, f, f', r.i, r.j)
  {
    hide Entry, View, Touches, L2OK, EntOK, RtOK;
    forall i | 0 <= i < g.l1Size
      ensures L1Entry(g, f', i) == L1Entry(g, f, i) && L2OK(g, f', role', i)
    {
      L1Kept(g, f, role, f', role', r, i);
      L2OKKept(g, f, role, f', role', r, i);
    }
    hide L1Entry, L2Off;
    forall i, j | 0 <= i < g.l1Size && 0 <= j < g.l2n
      ensures Entry(g, f', i, j) == Entry(g, f, i, j) && EntOK(g, f', role', i, j)
    {
      EntryKept(g, f, role, f', role', r, i, j);
      EntOKKept(g, f, role, f', role', r, i, j);
    }
    forall i, j, k | 0 <= i < g.l1Size && 0 <= j < g.l2n && 0 <= k < g.cs && r != Shared && r != Private(i, j)
      ensures View(g, f', i, j, k) == View(g, f, i, j, k)
    {
      ViewKept(g, f, role, f', role', r, i, j, k);
    }
  }

  /** Writing free bytes, growing the file, or writing inside clusters private to one virtual cluster. */
  lemma DataStep(g: Geo, f: seq<byte>, role: seq<Role>, f': seq<byte>, role': seq<Role>, r: Role)
    requires GeoOK(g) && TabOK(g, f, role)
    requires Touches(f, role, f', role', r) && (r == Free || r.Private?)
    ensures TabOK(g, f', role') && SameCounts(g, f, f')
    ensures forall i :: 0 <= i < g.l1Size ==> L1Entry(g, f', i) == L1Entry(g, f, i)
    ensures forall k :: 0 <= k < g.rtSize ==> RefBlkOff(g, f', k) == RefBlkOff(g, f, k)
    ensures forall i, j :: 0 <= i < g.l1Size && 0 <= j < g.l2n ==> Entry(g, f', i, j) == Entry(g, f, i, j)
    ensures r == Free ==> SameView(g, f, f')
    ensures r.Private? ==> SameViewBut(g, f, f', r.i, r.j)
  {
    hide L1Entry, L2Off, Entry, RefBlkOff, RefCount, View, L2OK, EntOK, RtOK, Touches;
    CountsKept(g, f, role, f', role', r);
    TablesKept(g, f, role, f', role', r);
    TabFromParts(g, f, role, f', role', r);
  }

  /** Entering a fresh, zeroed L2 table at offset c into slot t of the L1 table. */
  lemma L1Step(g: Geo, f: seq<byte>, role: seq<Role>, f': seq<byte>, t: nat, c: nat)
    requires GeoOK(g) && TabOK(g, f, role)
    requires t < g.l1Size && L2Off(g, f, t) == 0
    requires 0 < c < TWO_62 && c % 2 == 0 && Region(role, c, 8 * g.l2n, L2Tab(t))
    requires forall k :: c <= k < c + 8 * g.l2n ==> f[k] == 0
    requires f' == PutWord(f, g.l1Off + 8 * t, c + CopiedFlag(g))
    ensures
      && |f'| == |f| && TabOK(g, f', role) && SameView(g, f, f') && SameCounts(g, f, f')
      && L1Entry(g, f', t) == c + CopiedFlag(g) && L2Off(g, f', t) == c
      && (forall i :: 0 <= i < g.l1Size && i != t ==> L1Entry(g, f', i) == L1Entry(g, f, i))
      && (forall k :: 0 <= k < g.rtSize ==> RefBlkOff(g, f', k) == RefBlkOff(g, f, k))
      && (forall i, j :: 0 <= i < g.l1Size && 0 <= j < g.l2n ==> Entry(g, f', i, j) == Entry(g, f, i, j))
      && Touches(f, role, f', role, L1Tab)
  {
    PlainEntries(g, c);
    PutWordTouches(f, role, g.l1Off, 8 * g.l1Size, L1Tab, g.l1Off + 8 * t, c + CopiedFlag(g));
    CountsKept(g, f, role, f', role, L1Tab);
    hide RefBlkOff, RefCount, RtOK, EntOK, Mask, U64;
    forall i | 0 <= i < g.l1Size
      ensures L1Entry(g, f', i) == if i == t then c + CopiedFlag(g) else L1Entry(g, f, i)
      ensures L2OK(g, f', role, i)
    {
      L1StepSlot(g, f, role, f', t, c, i);
    }
    hide PutWord, L1Entry;
    forall i, j | 0 <= i < g.l1Size && 0 <= j < g.l2n
      ensures Entry(g, f', i, j) == Entry(g, f, i, j) && EntOK(g, f', role, i, j)
    {
      L1StepEntry(g, f, role, f', t, c, i, j);
      assert EntOK(g, f, role, i, j);
      EntOKKept(g, f, role, f', role, L1Tab, i, j);
    }
    SameEntriesView(g, f, role, f', role, L1Tab);
    hide Entry, L2Off, L2OK;
    TabFromParts(g, f, role, f', role, L1Tab);
  }

  lemma L1StepSlot(g: Geo, f: seq<byte>, role: seq<Role>, f': seq<byte>, t: nat, c: nat, i: nat)
    requires TabOK(g, f, role) && t < g.l1Size && i < g.l1Size
    requires 0 < c < TWO_62 && c % 2 == 0 && Region(role, c, 8 * g.l2n, L2Tab(t))
    requires f' == PutWord(f, g.l1Off + 8 * t, c + CopiedFlag(g))
    ensures L1Entry(g, f', i) == if i == t then c + CopiedFlag(g) else L1Entry(g, f, i)
    ensures L2OK(g, f', role, i)
  {
    PlainEntries(g, c);
    hide PutWord, U64, Mask;
    PutWordReads(f, g.l1Off + 8 * t, c + CopiedFlag(g), g.l1Off + 8 * i);
    assert L2OK(g, f, role, i);
  }

  lemma L1StepEntry(g: Geo, f: seq<byte>, role: seq<Role>, f': seq<byte>, t: nat, c: nat, i: nat, j: nat)
    requires TabOK(g, f, role) && i < g.l1Size && j < g.l2n
    requires Touches(f, role, f', role, L1Tab)
    requires L2Off(g, f, t) == 0 && L2Off(g, f', t) == c && (i != t ==> L2Off(g, f', i) == L2Off(g, f, i))
    requires Region(role, c, 8 * g.l2n, L2Tab(t))
    requires forall k :: c <= k < c + 8 * g.l2n ==> f[k] == 0
    ensures Entry(g, f', i, j) == Entry(g, f, i, j)
  {
    hide L2Off;
    if i == t {
      RegionKept(f, role, f', role, L1Tab, c, 8 * g.l2n, L2Tab(t));
      U64OfZeros(f', c + 8 * j);
    } else {
      assert L2OK(g, f, role, i);
      var o := L2Off(g, f, i);
      if o != 0 {
        WordKept(f, role, f', role, L1Tab, o, 8 * g.l2n, L2Tab(i), o + 8 * j);
      }
    }
  }

  /** When all entries are the same and the change is in neither private nor shared data, so is the view. */
  lemma SameEntriesView(g: Geo, f: seq<byte>, role: seq<Role>, f': seq<byte>, role': seq<Role>, r: Role)
    requires TabOK(g, f, role) && Touches(f, role, f', role', r) && !r.Private? && r != Shared
    requires forall i, j :: 0 <= i < g.l1Size && 0 <= j < g.l2n ==> Entry(g, f', i, j) == Entry(g, f, i, j)
    ensures SameView(g, f, f')
  {
    hide Entry;
    forall i, j, k | 0 <= i < g.l1Size && 0 <= j < g.l2n && 0 <= k < g.cs
      ensures View(g, f', i, j, k) == View(g, f, i, j, k)
    {
      assert EntOK(g, f, role, i, j);
      assert Entry(g, f', i, j) == Entry(g, f, i, j);
    }
  }

  /** Entering cluster c, private to (a, b), into that virtual cluster's L2 entry. */
  lemma L2Step(g: Geo, f: seq<byte>, role: seq<Role>, f': seq<byte>, a: nat, b: nat, c: nat)
    requires GeoOK(g) && TabOK(g, f, role)
    requires a < g.l1Size && b < g.l2n && L2Off(g, f, a) != 0
    requires 0 < c < TWO_62 && c % 2 == 0 && Region(role, c, g.cs, Private(a, b))
    requires f' == PutWord(f, L2Off(g, f, a) + 8 * b, c + CopiedFlag(g))
    ensures
      && |f'| == |f| && TabOK(g, f', role) && SameViewBut(g, f, f', a, b) && SameCounts(g, f, f')
      && (forall i :: 0 <= i < g.l1Size ==> L1Entry(g, f', i) == L1Entry(g, f, i))
      && (forall k :: 0 <= k < g.rtSize ==> RefBlkOff(g, f', k) == RefBlkOff(g, f, k))
      && (forall i, j :: 0 <= i < g.l1Size && 0 <= j < g.l2n && !(i == a && j == b) ==>
            Entry(g, f', i, j) == Entry(g, f, i, j))
      && Entry(g, f', a, b) == c + CopiedFlag(g)
      && (forall k :: 0 <= k < g.cs ==> View(g, f', a, b, k) == Data(f[c + k]))
      && Touches(f, role, f', role, L2Tab(a))
  {
    var o := L2Off(g, f, a);
    PlainEntries(g, c);
    assert L2OK(g, f, role, a);
    PutWordTouches(f, role, o, 8 * g.l2n, L2Tab(a), o + 8 * b, c + CopiedFlag(g));
    CountsKept(g, f, role, f', role, L2Tab(a));
    hide RefBlkOff, RefCount, RtOK, Mask, U64, Touches;
    forall i | 0 <= i < g.l1Size
      ensures L1Entry(g, f', i) == L1Entry(g, f, i) && L2OK(g, f', role, i)
    {
      L1Kept(g, f, role, f', role, L2Tab(a), i);
      L2OKKept(g, f, role, f', role, L2Tab(a), i);
    }
    hide L1Entry, PutWord;
    forall i, j | 0 <= i < g.l1Size && 0 <= j < g.l2n
      ensures Entry(g, f', i, j) == if i == a && j == b then c + CopiedFlag(g) else Entry(g, f, i, j)
    {
      if i == a {
        L2StepEntry(g, f, role, f', a, b, c, j);
      } else {
        EntryKept(g, f, role, f', role, L2Tab(a), i, j);
      }
    }
    hide L2Off, L2OK, Entry;
    forall i, j | 0 <= i < g.l1Size && 0 <= j < g.l2n
      ensures EntOK(g, f', role, i, j)
    {
      if i != a || j != b {
        EntOKKept(g, f, role, f', role, L2Tab(a), i, j);
      }
    }
    TabFromParts(g, f, role, f', role, L2Tab(a));
    L2StepView(g, f, role, f', a, b, c);
  }

  lemma L2StepEntry(g: Geo, f: seq<byte>, role: seq<Role>, f': seq<byte>, a: nat, b: nat, c: nat, j: nat)
    requires TabOK(g, f, role) && a < g.l1Size && b < g.l2n && j < g.l2n
    requires L2Off(g, f, a) != 0 && L2Off(g, f', a) == L2Off(g, f, a) && c + CopiedFlag(g) < TWO_64
    requires f' == PutWord(f, L2Off(g, f, a) + 8 * b, c + CopiedFlag(g))
    ensures Entry(g, f', a, j) == if j == b then c + CopiedFlag(g) else Entry(g, f, a, j)
  {
    assert L2OK(g, f, role, a);
    hide U64, L2Off, PutWord;
    PutWordReads(f, L2Off(g, f, a) + 8 * b, c + CopiedFlag(g), L2Off(g, f, a) + 8 * j);
  }

  lemma L2StepView(g: Geo, f: seq<byte>, role: seq<Role>, f': seq<byte>, a: nat, b: nat, c: nat)
    requires TabOK(g, f, role) && a < g.l1Size && b < g.l2n && Touches(f, role, f', role, L2Tab(a))
    requires 0 < c < TWO_62 && c % 2 == 0 && Region(role, c, g.cs, Private(a, b))
    requires forall i, j :: 0 <= i < g.l1Size && 0 <= j < g.l2n ==>
               Entry(g, f', i, j) == if i == a && j == b then c + CopiedFlag(g) else Entry(g, f, i, j)
    ensures SameViewBut(g, f, f', a, b)
    ensures forall k :: 0 <= k < g.cs ==> View(g, f', a, b, k) == Data(f[c + k])
  {
    hide Entry;
    forall i, j, k | 0 <= i < g.l1Size && 0 <= j < g.l2n && 0 <= k < g.cs && !(i == a && j == b)
      ensures View(g, f', i, j, k) == View(g, f, i, j, k)
    {
      assert EntOK(g, f, role, i, j);
      assert Entry(g, f', i, j) == Entry(g, f, i, j);
    }
    PlainEntries(g, c);
    assert Entry(g, f', a, b) == c + CopiedFlag(g);
  }

  /** Entering a fresh, zeroed refcount block at offset c into slot t of the refcount table: it
      counts nothing, which is what its absence said. */
  lemma RtStep(g: Geo, f: seq<byte>, role: seq<Role>, f': seq<byte>, t: nat, c: nat)
    requires GeoOK(g) && TabOK(g, f, role)
    requires t < g.rtSize && RefBlkOff(g, f, t) == 0
    requires 0 < c < TWO_64 && Region(role, c, g.cs, RefBlk(t))
    requires forall k :: c <= k < c + g.cs ==> f[k] == 0
    requires f' == PutWord(f, g.rtOff + 8 * t, c)
    ensures
      && |f'| == |f| && TabOK(g, f', role) && SameView(g, f, f') && SameCounts(g, f, f')
      && RefBlkOff(g, f', t) == c
      && (forall k :: 0 <= k < g.rtSize && k != t ==> RefBlkOff(g, f', k) == RefBlkOff(g, f, k))
      && (forall i :: 0 <= i < g.l1Size ==> L1Entry(g, f', i) == L1Entry(g, f, i))
      && (forall i, j :: 0 <= i < g.l1Size && 0 <= j < g.l2n ==> Entry(g, f', i, j) == Entry(g, f, i, j))
      && Touches(f, role, f', role, RefTab)
  {
    PutWordTouches(f, role, g.rtOff, 8 * g.rtSize, RefTab, g.rtOff + 8 * t, c);
    TablesKept(g, f, role, f', role, RefTab);
    hide View, Entry, L1Entry, L2Off, L2OK, EntOK, U64;
    forall k | 0 <= k < g.rtSize
      ensures RefBlkOff(g, f', k) == if k == t then c else RefBlkOff(g, f, k)
      ensures RtOK(g, f', role, k)
    {
      RtStepSlot(g, f, role, f', t, c, k);
    }
    hide PutWord, RefBlkOff;
    TabFromParts(g, f, role, f', role, RefTab);
    forall k: nat, x: nat
      ensures RefCount(g, f', k, x) == RefCount(g, f, k, x)
    {
      if k < g.rtSize && x < g.per {
        RtStepCount(g, f, role, f', t, c, k, x);
      }
    }
  }

  lemma RtStepSlot(g: Geo, f: seq<byte>, role: seq<Role>, f': seq<byte>, t: nat, c: nat, k: nat)
    requires TabOK(g, f, role) && t < g.rtSize && k < g.rtSize
    requires 0 < c < TWO_64 && Region(role, c, g.cs, RefBlk(t))
    requires f' == PutWord(f, g.rtOff + 8 * t, c)
    ensures RefBlkOff(g, f', k) == if k == t then c else RefBlkOff(g, f, k)
    ensures RtOK(g, f', role, k)
  {
    hide PutWord, U64;
    PutWordReads(f, g.rtOff + 8 * t, c, g.rtOff + 8 * k);
    assert RtOK(g, f, role, k);
  }

  lemma RtStepCount(g: Geo, f: seq<byte>, role: seq<Role>, f': seq<byte>, t: nat, c: nat, k: nat, x: nat)
    requires GeoOK(g) && TabOK(g, f, role) && Touches(f, role, f', role, RefTab)
    requires t < g.rtSize && RefBlkOff(g, f, t) == 0
    requires 0 < c && Region(role, c, g.cs, RefBlk(t))
    requires forall k :: c <= k < c + g.cs ==> f[k] == 0
    requires k < g.rtSize && x < g.per
    requires RefBlkOff(g, f', k) == if k == t then c else RefBlkOff(g, f, k)
    ensures RefCount(g, f', k, x) == RefCount(g, f, k, x)
  {
    hide RefBlkOff, RefcountBlock.Get;
    if k == t {
      RegionKept(f, role, f', role, RefTab, c, g.cs, RefBlk(t));
      if c + g.cs <= |f'| {
        RefcountBlock.GetOfZeros(g.order, f'[c..c + g.cs], x);
      }
    } else {
      assert RtOK(g, f, role, k);
      var rb := RefBlkOff(g, f, k);
      if rb != 0 {
        RegionKept(f, role, f', role, RefTab, rb, g.cs, RefBlk(k));
        assert f'[rb..rb + g.cs] == f[rb..rb + g.cs];
      }
    }
  }

  /** Refcount block k of the file with entry x set to v, written back whole. */
  function PutCount(g: Geo, f: seq<byte>, k: nat, x: nat, v: nat): seq<byte>
    requires GeoOK(g) && x < g.per && v < RefcountBlock.Limit(g.order)
  {
    var rb := RefBlkOff(g, f, k);
    if rb + g.cs > |f| then f else Pwrite(f, rb, RefcountBlock.Set(g.order, f[rb..rb + g.cs], x, v))
  }

  /** Storing one refcount changes that count and no other, and nothing the guest sees. */
  lemma BlkStep(g: Geo, f: seq<byte>, role: seq<Role>, f': seq<byte>, t: nat, y: nat, v: nat)
    requires GeoOK(g) && TabOK(g, f, role)
    requires t < g.rtSize && y < g.per && RefBlkOff(g, f, t) != 0 && v < RefcountBlock.Limit(g.order)
    requires f' == PutCount(g, f, t, y, v)
    ensures RefBlkOff(g, f, t) + g.cs <= |f|
    ensures
      && |f'| == |f| && TabOK(g, f', role) && SameView(g, f, f')
      && (forall k, x :: 0 <= k && 0 <= x ==>
            RefCount(g, f', k, x) == if k == t && x == y then v else RefCount(g, f, k, x))
      && (forall k :: 0 <= k < g.rtSize ==> RefBlkOff(g, f', k) == RefBlkOff(g, f, k))
      && (forall i :: 0 <= i < g.l1Size ==> L1Entry(g, f', i) == L1Entry(g, f, i))
      && (forall i, j :: 0 <= i < g.l1Size && 0 <= j < g.l2n ==> Entry(g, f', i, j) == Entry(g, f, i, j))
      && Touches(f, role, f', role, RefBlk(t))
  {
    assert RtOK(g, f, role, t);
    var rb := RefBlkOff(g, f, t);
    hide RefcountBlock.Get, RefcountBlock.Set, RefcountBlock.Limit, RefcountBlock.Capacity, U64;
    assert Touches(f, role, f', role, RefBlk(t));
    hide PutCount;
    TablesKept(g, f, role, f', role, RefBlk(t));
    hide View, Entry, L1Entry, L2Off, L2OK, EntOK;
    forall k | 0 <= k < g.rtSize
      ensures RefBlkOff(g, f', k) == RefBlkOff(g, f, k) && RtOK(g, f', role, k)
    {
      BlkOffKept(g, f, role, f', role, RefBlk(t), k);
      RtOKKept(g, f, role, f', role, RefBlk(t), k);
    }
    hide RefBlkOff, RtOK;
    TabFromParts(g, f, role, f', role, RefBlk(t));
    forall k: nat, x: nat
      ensures RefCount(g, f', k, x) == if k == t && x == y then v else RefCount(g, f, k, x)
    {
      if k == t && x < g.per {
        PutCountReads(g, f, t, y, v, x);
      } else if k != t {
        RefCountKept(g, f, role, f', role, RefBlk(t), k, x);
      }
    }
  }

  lemma PutCountReads(g: Geo, f: seq<byte>, t: nat, y: nat, v: nat, x: nat)
    requires GeoOK(g) && t < g.rtSize && y < g.per && v < RefcountBlock.Limit(g.order) && x < g.per
    requires RefBlkOff(g, f, t) != 0 && RefBlkOff(g, f, t) + g.cs <= |f|
    requires RefBlkOff(g, PutCount(g, f, t, y, v), t) == RefBlkOff(g, f, t)
    ensures RefCount(g, PutCount(g, f, t, y, v), t, x) == if x == y then v else RefCount(g, f, t, x)
  {
    hide RefBlkOff, RefCount, PutCount, RefcountBlock.Get, RefcountBlock.Set, RefcountBlock.Limit;
    var f' := PutCount(g, f, t, y, v);
    PutCountBlock(g, f, t, y, v);
    RefCountReads(g, f, t, x);
    RefCountReads(g, f', t, x);
    RefcountBlock.GetAfterSet(g.order, f[RefBlkOff(g, f, t)..RefBlkOff(g, f, t) + g.cs], y, v, x);
  }

  lemma PutCountBlock(g: Geo, f: seq<byte>, t: nat, y: nat, v: nat)
    requires GeoOK(g) && y < g.per && v < RefcountBlock.Limit(g.order)
    requires RefBlkOff(g, f, t) + g.cs <= |f|
    ensures |PutCount(g, f, t, y, v)| == |f|
    ensures PutCount(g, f, t, y, v)[RefBlkOff(g, f, t)..RefBlkOff(g, f, t) + g.cs]
         == RefcountBlock.Set(g.order, f[RefBlkOff(g, f, t)..RefBlkOff(g, f, t) + g.cs], y, v)
  {
    hide RefBlkOff, RefcountBlock.Set, RefcountBlock.Limit, RefcountBlock.Capacity;
    var rb := RefBlkOff(g, f, t);
    PwriteReads(f, rb, RefcountBlock.Set(g.order, f[rb..rb + g.cs], y, v));
  }

  lemma RefCountReads(g: Geo, f: seq<byte>, k: nat, x: nat)
    requires GeoOK(g) && k < g.rtSize && x < g.per
    requires RefBlkOff(g, f, k) != 0 && RefBlkOff(g, f, k) + g.cs <= |f|
    ensures RefCount(g, f, k, x) == RefcountBlock.Get(g.order, f[RefBlkOff(g, f, k)..RefBlkOff(g, f, k) + g.cs], x)
  {
  }
}
