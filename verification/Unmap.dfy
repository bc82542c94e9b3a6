/** UNMAP: descriptors are split and dispatched under the lock of a shared state, and the split whose
    callback drops the last reference completes the command. */
module Unmap {
  import opened Common
  import opened UnmapSplit

  const STS_ASYNC_HANDLED := -2
  const STS_OK := 0
  const STS_INVALID_PARAM_LIST := 9
  const STS_RANGE := 14
  const MAX_UNMAP_LBA_COUNT: nat := 32 * 1024 * 1024

  /** struct unmap_state */
  datatype Shared = Shared(refcount: nat, error: bool, status: int)

  /** The locked section of handle_unmap_cbk, and the status to finish with when it drops the last
      reference. Only the first error is kept. */
  function Section(s: Shared, ret: int): (Shared, Option<int>)
    requires s.refcount > 0
  {
    var first := !s.error && ret != STS_OK;
    var n := Shared(s.refcount - 1, s.error || first, if first then ret else s.status);
    (n, if n.refcount > 0 then None else Some(if n.error then n.status else ret))
  }

  /** The end of the locked section of handle_unmap_internal. */
  function Unlock(s: Shared, ret: int): Shared {
    s.(status := ret, error := s.error || ret != STS_ASYNC_HANDLED)
  }

  // ---- walking the descriptors ----

  datatype Descriptor = Descriptor(lba: nat, nlbas: nat)

  predicate Fits(d: Descriptor) { d.lba < TWO_64 && d.nlbas < TWO_32 }

  /** The device's size and granularity, and what the handler or the work queue says to the k-th split. */
  datatype Target = Target(numLbas: nat, gran: nat, align: nat, handler: nat -> int)

  /** async_handle_cmd: work that returns no error is handled asynchronously. */
  function Dispatch(t: Target, k: nat): int {
    if t.handler(k) == STS_OK then STS_ASYNC_HANDLED else t.handler(k)
  }

  predicate TargetOK(t: Target) { 0 < t.gran < TWO_32 && t.align < TWO_32 && t.numLbas < TWO_64 }

  /** The split loop from a cursor on: what it returns, and the splits dispatched by then. */
  function SplitFrom(t: Target, c: Cursor, done: seq<Piece>): (int, seq<Piece>)
    requires TargetOK(t) && c.len <= c.left
    decreases c.left, if c.len == 0 then 1 else 0
  {
    if c.left == 0 then (STS_ASYNC_HANDLED, done)
    else if Dispatch(t, |done|) != STS_ASYNC_HANDLED then (Dispatch(t, |done|), done)
    else SplitFrom(t, Next(c, t.gran), done + [Piece(c.lba, c.len)])
  }

  function Checked(t: Target, d: Descriptor): int {
    if d.nlbas > MAX_UNMAP_LBA_COUNT then STS_INVALID_PARAM_LIST
    else if (d.lba + d.nlbas) % TWO_64 > t.numLbas || (d.lba + d.nlbas) % TWO_64 < d.lba then STS_RANGE
    else STS_OK
  }

  /** What the descriptor loop returns and the splits it has dispatched, after `ret` and `done`. */
  function Walk(t: Target, ds: seq<Descriptor>, ret: int, done: seq<Piece>): (int, seq<Piece>)
    requires TargetOK(t)
  {
    if ds == [] then (ret, done)
    else if Checked(t, ds[0]) != STS_OK then (Checked(t, ds[0]), done)
    else if ds[0].nlbas == 0 then Walk(t, ds[1..], STS_OK, done)
    else
      var r := SplitFrom(t, Start(ds[0].lba, ds[0].nlbas, t.gran, t.align), done);
      if r.0 != STS_ASYNC_HANDLED then r else Walk(t, ds[1..], STS_ASYNC_HANDLED, r.1)
  }

  class UnmapState {
    var refcount: nat
    var error: bool
    var status: int
    ghost var dispatched: seq<Piece>

    function Abs(): Shared
      reads this
    {
      Shared(refcount, error, status)
    }

    constructor ()
      ensures Abs() == Shared(0, false, 0) && dispatched == []
    {
      refcount, error, status, dispatched := 0, false, 0, [];
    }

    /** align_and_split_unmap */
    method AlignAndSplit(t: Target, d: Descriptor) returns (ret: int)
      requires TargetOK(t) && Fits(d) && 0 < d.nlbas && refcount == |dispatched|
      modifies this`refcount, this`dispatched
      ensures (ret, dispatched) == SplitFrom(t, Start(d.lba, d.nlbas, t.gran, t.align), old(dispatched))
      ensures refcount == |dispatched|
    {
      hide And;
      var mask := (t.align + TWO_64 - 1) % TWO_64;
      var lba: nat, nlbas: nat := d.lba, d.nlbas;
      var lbas: nat := Min((t.gran + TWO_64 - And(lba, mask)) % TWO_64, nlbas);
      ret := -1;
      while nlbas > 0
        invariant lbas <= nlbas && refcount == |dispatched|
        invariant SplitFrom(t, Cursor(lba, nlbas, lbas), dispatched)
               == SplitFrom(t, Start(d.lba, d.nlbas, t.gran, t.align), old(dispatched))
        invariant nlbas == 0 ==> ret == STS_ASYNC_HANDLED
        decreases nlbas, if lbas == 0 then 1 else 0
      {
        ret := Dispatch(t, refcount);
        if ret != STS_ASYNC_HANDLED { return; }
        dispatched := dispatched + [Piece(lba, lbas)];
        nlbas := nlbas - lbas;
        lba := lba + lbas;
        lbas := Min(t.gran, nlbas);
        refcount := refcount + 1;
      }
    }

    /** The locked section of handle_unmap_internal; the caller completes the command itself when nothing
        was dispatched. */
    method DispatchAll(t: Target, ds: seq<Descriptor>) returns (ret: int)
      requires TargetOK(t) && forall i :: 0 <= i < |ds| ==> Fits(ds[i])
      requires Abs() == Shared(0, false, 0) && dispatched == []
      modifies this
      ensures (ret, dispatched) == Walk(t, ds, STS_OK, []) && refcount == |dispatched|
      ensures Abs() == Unlock(Shared(|dispatched|, false, 0), ret)
    {
      ret := STS_OK;
      var k := 0;
      ghost var want := Walk(t, ds, STS_OK, []);
      while k < |ds|
        invariant k <= |ds| && refcount == |dispatched| && !error && status == 0
        invariant Walk(t, ds[k..], ret, dispatched) == want
      {
        var d := ds[k];
        assert ds[k..][1..] == ds[k + 1..];
        ret := Checked(t, d);
        if ret != STS_OK { break; }
        if d.nlbas > 0 {
          ret := AlignAndSplit(t, d);
          if ret != STS_ASYNC_HANDLED { break; }
        }
        k := k + 1;
      }
      status := ret;
      if ret != STS_ASYNC_HANDLED { error := true; }
    }

    /** The locked section of handle_unmap_cbk. */
    method CallbackSection(ret: int) returns (last: Option<int>)
      requires refcount > 0
      modifies this`refcount, this`error, this`status
      ensures (Abs(), last) == old(Section(Abs(), ret))
    {
      if !error && ret != STS_OK {
        error := true;
        status := ret;
      }
      refcount := refcount - 1;
      if refcount > 0 { return None; }
      return Some(if error then status else ret);
    }
  }

  // ---- what is dispatched ----

  /** The split loop dispatches the pieces in order, up to the first that is refused; it returns
      success exactly when none is, and never the plain OK. */
  lemma {:induction false} SplitsInOrder(t: Target, c: Cursor, done: seq<Piece>) returns (m: nat)
    requires TargetOK(t) && c.len <= c.left
    ensures m <= |Pieces(c, t.gran)|
    ensures var r := SplitFrom(t, c, done);
            && r.1 == done + Pieces(c, t.gran)[..m]
            && (r.0 == STS_ASYNC_HANDLED <==> m == |Pieces(c, t.gran)|) && r.0 != STS_OK
    decreases c.left, if c.len == 0 then 1 else 0
  {
    var ps := Pieces(c, t.gran);
    m := 0;
    if c.left > 0 && Dispatch(t, |done|) == STS_ASYNC_HANDLED {
      m := SplitsInOrder(t, Next(c, t.gran), done + [Piece(c.lba, c.len)]);
      m := m + 1;
      assert ps[..m] == [ps[0]] + ps[1..][..m - 1];
    }
  }

  function AllPieces(t: Target, ds: seq<Descriptor>): seq<Piece>
    requires TargetOK(t)
  {
    if ds == [] then [] else Pieces(Start(ds[0].lba, ds[0].nlbas, t.gran, t.align), t.gran) + AllPieces(t, ds[1..])
  }

  /** The descriptor loop, when no check and no dispatch fails, has dispatched the pieces of every
      descriptor, and its result tells only whether the last descriptor was empty. A failure is its
      result, which is never OK. */
  lemma {:induction false} WalkResult(t: Target, ds: seq<Descriptor>, ret: int, done: seq<Piece>)
    requires TargetOK(t)
    ensures var r := Walk(t, ds, ret, done);
            && (ds != [] && r.0 == STS_OK ==> ds[|ds| - 1].nlbas == 0)
            && (ds != [] && r.0 == STS_ASYNC_HANDLED ==> ds[|ds| - 1].nlbas > 0 && |r.1| > |done|)
            && (ds != [] && (r.0 == STS_OK || r.0 == STS_ASYNC_HANDLED) ==> r.1 == done + AllPieces(t, ds))
            && |done| <= |r.1|
  {
    hide SplitFrom, Pieces, And;
    if ds != [] && Checked(t, ds[0]) == STS_OK {
      var c := Start(ds[0].lba, ds[0].nlbas, t.gran, t.align);
      if ds[0].nlbas == 0 {
        NoPieces(c, t.gran);
        WalkResult(t, ds[1..], STS_OK, done);
      } else {
        var m := SplitsInOrder(t, c, done);
        PiecesCover(c, t.gran);
        var r := SplitFrom(t, c, done);
        if r.0 == STS_ASYNC_HANDLED {
          WalkResult(t, ds[1..], STS_ASYNC_HANDLED, r.1);
          var ps := Pieces(c, t.gran);
          assert ps[..m] == ps;
          assert done + ps + AllPieces(t, ds[1..]) == done + (ps + AllPieces(t, ds[1..]));
        }
      }
      if |ds| > 1 { assert ds[1..][|ds| - 2] == ds[|ds| - 1]; }
    }
  }

  /** The split loop dispatches everything exactly when none of its pieces, counted on from those before, is
      refused. */
  lemma {:induction false} SplitsAll(t: Target, c: Cursor, done: seq<Piece>)
    requires TargetOK(t) && c.len <= c.left
    ensures SplitFrom(t, c, done).0 == STS_ASYNC_HANDLED <==> Accepted(t, |done|, |done| + |Pieces(c, t.gran)|)
    decreases c.left, if c.len == 0 then 1 else 0
  {
    if c.left > 0 { SplitsAll(t, Next(c, t.gran), done + [Piece(c.lba, c.len)]); }
  }

  /** Neither the handler nor the work queue refuses the splits from the k-th to before the n-th. */
  predicate Accepted(t: Target, k: nat, n: nat) {
    forall j :: k <= j < n ==> Dispatch(t, j) == STS_ASYNC_HANDLED
  }

  predicate AllChecked(t: Target, ds: seq<Descriptor>) {
    forall k :: 0 <= k < |ds| ==> Checked(t, ds[k]) == STS_OK
  }

  predicate Fine(ret: int) { ret == STS_OK || ret == STS_ASYNC_HANDLED }

  /** Dispatching fails exactly when some descriptor does not pass its check or some piece is refused. */
  lemma {:induction false} WalkFine(t: Target, ds: seq<Descriptor>, ret: int, done: seq<Piece>)
    requires TargetOK(t) && Fine(ret)
    ensures Fine(Walk(t, ds, ret, done).0) <==>
            AllChecked(t, ds) && Accepted(t, |done|, |done| + |AllPieces(t, ds)|)
  {
    hide SplitFrom, Pieces, And;
    if ds != [] {
      assert AllChecked(t, ds) <==> Checked(t, ds[0]) == STS_OK && AllChecked(t, ds[1..]) by {
        assert forall k :: 0 < k < |ds| ==> ds[k] == ds[1..][k - 1];
        assert forall k :: 0 <= k < |ds| - 1 ==> ds[1..][k] == ds[k + 1];
      }
      var c := Start(ds[0].lba, ds[0].nlbas, t.gran, t.align);
      if ds[0].nlbas == 0 {
        NoPieces(c, t.gran);
        WalkFine(t, ds[1..], STS_OK, done);
      } else {
        var r := SplitFrom(t, c, done);
        var m := SplitsInOrder(t, c, done);
        SplitsAll(t, c, done);
        WalkFine(t, ds[1..], STS_ASYNC_HANDLED, r.1);
      }
    }
  }

  // ---- what is checked ----

  /** No more blocks than the limit, and none behind the end of the device. */
  predicate InRange(t: Target, d: Descriptor) {
    d.nlbas <= 0x200_0000 && d.lba + d.nlbas <= t.numLbas
  }

  /** The check in 64-bit arithmetic is that one, and its status tells which part fails. */
  lemma CheckedExact(t: Target, d: Descriptor)
    requires TargetOK(t) && Fits(d)
    ensures Checked(t, d) == if InRange(t, d) then STS_OK
                             else if d.nlbas > 0x200_0000 then STS_INVALID_PARAM_LIST else STS_RANGE
  {
  }

  lemma AllCheckedExact(t: Target, ds: seq<Descriptor>)
    requires TargetOK(t) && forall k :: 0 <= k < |ds| ==> Fits(ds[k])
    ensures AllChecked(t, ds) <==> forall k :: 0 <= k < |ds| ==> InRange(t, ds[k])
  {
    hide Checked, InRange;
    forall k | 0 <= k < |ds| ensures Checked(t, ds[k]) == STS_OK <==> InRange(t, ds[k]) { CheckedExact(t, ds[k]); }
  }

  /** A piece of the descriptor, which is in range. */
  predicate PieceOf(t: Target, d: Descriptor, p: Piece) {
    InRange(t, d) && d.lba <= p.lba && p.lba + p.len <= d.lba + d.nlbas
  }

  /** Every piece dispatched lies in a descriptor of the list that is in range, and so on the device. */
  lemma DispatchedInside(t: Target, ds: seq<Descriptor>, p: Piece)
    requires TargetOK(t) && (forall k :: 0 <= k < |ds| ==> Fits(ds[k])) && p in Walk(t, ds, STS_OK, []).1
    ensures exists k :: 0 <= k < |ds| && PieceOf(t, ds[k], p)
    ensures p.lba + p.len <= t.numLbas
  {
    hide Walk;
    WalkInside(t, ds, STS_OK, [], p);
  }

  lemma {:induction false} WalkInside(t: Target, ds: seq<Descriptor>, ret: int, done: seq<Piece>, p: Piece)
    requires TargetOK(t) && (forall k :: 0 <= k < |ds| ==> Fits(ds[k])) && p in Walk(t, ds, ret, done).1
    ensures p in done || exists k :: 0 <= k < |ds| && PieceOf(t, ds[k], p)
  {
    hide SplitFrom, Pieces, And, Checked, InRange;
    if ds != [] && Checked(t, ds[0]) == STS_OK {
      CheckedExact(t, ds[0]);
      if ds[0].nlbas == 0 {
        WalkInside(t, ds[1..], STS_OK, done, p);
      } else {
        var c := Start(ds[0].lba, ds[0].nlbas, t.gran, t.align);
        var r := SplitFrom(t, c, done);
        var m := SplitsInOrder(t, c, done);
        PiecesCover(c, t.gran);
        if r.0 == STS_ASYNC_HANDLED { WalkInside(t, ds[1..], STS_ASYNC_HANDLED, r.1, p); }
        if p in r.1 && p !in done {
          var k :| 0 <= k < |Pieces(c, t.gran)| && Pieces(c, t.gran)[k] == p;
          ChainWithin(Pieces(c, t.gran), c.lba, c.lba + c.left, k);
          assert PieceOf(t, ds[0], p);
        }
      }
      assert forall k :: 0 <= k < |ds| - 1 ==> ds[1..][k] == ds[k + 1];
    }
  }

  /** The first descriptor out of range ends the loop with its status, all pieces before it being
      dispatched, if none of those is refused. */
  lemma FirstFailure(t: Target, ds: seq<Descriptor>, k: nat)
    requires TargetOK(t) && (forall j :: 0 <= j < |ds| ==> Fits(ds[j])) && k < |ds|
    requires (forall j :: 0 <= j < k ==> InRange(t, ds[j])) && !InRange(t, ds[k])
    requires Accepted(t, 0, |AllPieces(t, ds[..k])|)
    ensures Walk(t, ds, STS_OK, []) ==
            (if ds[k].nlbas > 0x200_0000 then STS_INVALID_PARAM_LIST else STS_RANGE, AllPieces(t, ds[..k]))
  {
    hide Walk, Checked, InRange, AllPieces, AllChecked;
    CheckedExact(t, ds[k]);
    AllCheckedExact(t, ds[..k]);
    StopsAt(t, ds, STS_OK, [], k);
    assert [] + AllPieces(t, ds[..k]) == AllPieces(t, ds[..k]);
  }

  lemma {:induction false} StopsAt(t: Target, ds: seq<Descriptor>, ret: int, done: seq<Piece>, k: nat)
    requires TargetOK(t) && k < |ds| && AllChecked(t, ds[..k]) && Checked(t, ds[k]) != STS_OK
    requires Accepted(t, |done|, |done| + |AllPieces(t, ds[..k])|)
    ensures Walk(t, ds, ret, done) == (Checked(t, ds[k]), done + AllPieces(t, ds[..k]))
    decreases k
  {
    hide SplitFrom, Pieces, And, Checked;
    if k > 0 {
      var c, less := Start(ds[0].lba, ds[0].nlbas, t.gran, t.align), ds[1..][..k - 1];
      FirstOf(t, ds, k);
      if ds[0].nlbas == 0 {
        NoPieces(c, t.gran);
        StopsAt(t, ds[1..], STS_OK, done, k - 1);
        assert [] + AllPieces(t, less) == AllPieces(t, less);
      } else {
        SplitsAll(t, c, done);
        var m := SplitsInOrder(t, c, done);
        var ps := Pieces(c, t.gran);
        assert ps[..m] == ps;
        StopsAt(t, ds[1..], STS_ASYNC_HANDLED, done + ps, k - 1);
        assert done + ps + AllPieces(t, less) == done + (ps + AllPieces(t, less));
      }
    } else {
      assert ds[..0] == [] && done + [] == done;
    }
  }

  lemma FirstOf(t: Target, ds: seq<Descriptor>, k: nat)
    requires TargetOK(t) && 0 < k <= |ds| && AllChecked(t, ds[..k])
    ensures Checked(t, ds[0]) == STS_OK && AllChecked(t, ds[1..][..k - 1])
    ensures AllPieces(t, ds[..k]) ==
            Pieces(Start(ds[0].lba, ds[0].nlbas, t.gran, t.align), t.gran) + AllPieces(t, ds[1..][..k - 1])
  {
    hide Pieces, And, Checked;
    assert ds[..k][0] == ds[0] && ds[..k][1..] == ds[1..][..k - 1];
    var less := ds[1..][..k - 1];
    forall j | 0 <= j < |less| ensures Checked(t, less[j]) == STS_OK { assert less[j] == ds[..k][j + 1]; }
  }

  /** The first piece refused, of descriptors in range, ends the loop with what the handler or the work queue
      said to it; the pieces before it are dispatched. */
  lemma FirstRefusal(t: Target, ds: seq<Descriptor>, k: nat, j: nat)
    requires TargetOK(t) && (forall i :: 0 <= i < |ds| ==> Fits(ds[i])) && k <= |ds|
    requires (forall i :: 0 <= i < k ==> InRange(t, ds[i])) && j < |AllPieces(t, ds[..k])|
    requires Accepted(t, 0, j) && t.handler(j) != STS_OK && t.handler(j) != STS_ASYNC_HANDLED
    ensures Walk(t, ds, STS_OK, []) == (t.handler(j), AllPieces(t, ds[..k])[..j])
  {
    hide Walk, Checked, InRange, AllPieces, AllChecked;
    AllCheckedExact(t, ds[..k]);
    RefusedAt(t, ds, STS_OK, [], k, j);
    assert [] + AllPieces(t, ds[..k])[..j] == AllPieces(t, ds[..k])[..j];
  }

  lemma {:induction false} SplitRefused(t: Target, c: Cursor, done: seq<Piece>, j: nat)
    requires TargetOK(t) && c.len <= c.left && j < |Pieces(c, t.gran)|
    requires Accepted(t, |done|, |done| + j) && Dispatch(t, |done| + j) != STS_ASYNC_HANDLED
    ensures SplitFrom(t, c, done) == (Dispatch(t, |done| + j), done + Pieces(c, t.gran)[..j])
    decreases j
  {
    var ps := Pieces(c, t.gran);
    if j > 0 {
      SplitRefused(t, Next(c, t.gran), done + [ps[0]], j - 1);
      assert done + [ps[0]] + ps[1..][..j - 1] == done + ps[..j];
    } else {
      assert done + ps[..0] == done;
    }
  }

  lemma {:induction false} RefusedAt(t: Target, ds: seq<Descriptor>, ret: int, done: seq<Piece>, k: nat, j: nat)
    requires TargetOK(t) && k <= |ds| && AllChecked(t, ds[..k]) && j < |AllPieces(t, ds[..k])|
    requires Accepted(t, |done|, |done| + j) && Dispatch(t, |done| + j) != STS_ASYNC_HANDLED
    ensures Walk(t, ds, ret, done) == (Dispatch(t, |done| + j), done + AllPieces(t, ds[..k])[..j])
    decreases k
  {
    hide SplitFrom, Pieces, And, Checked;
    if k > 0 {
      var c, less := Start(ds[0].lba, ds[0].nlbas, t.gran, t.align), ds[1..][..k - 1];
      var ps := Pieces(c, t.gran);
      FirstOf(t, ds, k);
      if ds[0].nlbas == 0 {
        NoPieces(c, t.gran);
        RefusedAt(t, ds[1..], STS_OK, done, k - 1, j);
        assert [] + AllPieces(t, less) == AllPieces(t, less);
      } else if j < |ps| {
        SplitRefused(t, c, done, j);
        assert (ps + AllPieces(t, less))[..j] == ps[..j];
      } else {
        SplitsAll(t, c, done);
        var m := SplitsInOrder(t, c, done);
        assert ps[..m] == ps;
        RefusedAt(t, ds[1..], STS_ASYNC_HANDLED, done + ps, k - 1, j - |ps|);
        assert done + ps + AllPieces(t, less)[..j - |ps|] == done + (ps + AllPieces(t, less))[..j];
      }
    }
  }

  lemma NoPieces(c: Cursor, gran: nat)
    requires c.len == c.left == 0
    ensures Pieces(c, gran) == []
  {
  }
}
