/** Every schedule of the thread that dispatches the splits of an UNMAP command and the threads that run
    their callbacks. */
module UnmapRuns {
  import opened Common
  import opened Unmap
  import opened UnmapSplit

  /** The dispatching thread holds the lock, has released it with a copy of the reference count, or has
      returned. */
  datatype Main = Dispatching | Unlocked(n: nat) | Returned

  /** A split awaits its callback, or its callback has dropped the last reference and will free the state
      and finish the command, or is over. */
  datatype Split = Waiting | Last(answer: int) | Over

  /** Counted besides: how often the state is freed, the statuses the command is finished with, what
      dispatching returned, and what callbacks reported in the order of their locked sections. */
  datatype State = State(main: Main, splits: seq<Split>, sh: Shared, freed: nat, answers: seq<int>, ret: int,
                         rets: seq<int>)

  datatype Step =
    | DispatchSplit
    | EndDispatch(ret: int)
    | MainTail                     // after the lock: leave, or free and answer when nothing was dispatched
    | CallbackLocked(i: nat, ret: int)
    | CallbackTail(i: nat)         // after the lock: the last callback frees and answers

  const BEGIN := State(Dispatching, [], Shared(0, false, 0), 0, [], 0, [])

  /** Callbacks need the lock. Dispatching that ends well has dispatched a split. */
  predicate Enabled(s: State, a: Step) {
    match a
    case DispatchSplit => s.main == Dispatching
    case EndDispatch(ret) => s.main == Dispatching && (ret == STS_ASYNC_HANDLED ==> s.splits != [])
    case MainTail => s.main.Unlocked?
    case CallbackLocked(i, ret) =>
      s.main != Dispatching && i < |s.splits| && s.splits[i] == Waiting && s.sh.refcount > 0
    case CallbackTail(i) => i < |s.splits| && s.splits[i].Last?
  }

  function Next(s: State, a: Step): State
    requires Enabled(s, a)
  {
    match a
    case DispatchSplit => s.(splits := s.splits + [Waiting], sh := s.sh.(refcount := s.sh.refcount + 1))
    case EndDispatch(ret) => s.(main := Unlocked(s.sh.refcount), sh := Unlock(s.sh, ret), ret := ret)
    case MainTail =>
      if s.main.n > 0 then s.(main := Returned)
      else s.(main := Returned, freed := s.freed + 1, answers := s.answers + [s.ret])
    case CallbackLocked(i, ret) =>
      var r := Section(s.sh, ret);
      s.(sh := r.0, splits := s.splits[i := if r.1.None? then Over else Last(r.1.value)], rets := s.rets + [ret])
    case CallbackTail(i) =>
      s.(splits := s.splits[i := Over], freed := s.freed + 1, answers := s.answers + [s.splits[i].answer])
  }

  /** The first error, or OK. */
  function FirstError(rets: seq<int>): int {
    if rets == [] then STS_OK
    else if FirstError(rets[..|rets| - 1]) != STS_OK then FirstError(rets[..|rets| - 1])
    else rets[|rets| - 1]
  }

  lemma {:induction false} NoError(rets: seq<int>)
    ensures FirstError(rets) == STS_OK <==> forall k :: 0 <= k < |rets| ==> rets[k] == STS_OK
  {
    if rets != [] { NoError(rets[..|rets| - 1]); }
  }

  /** It is the first: all reports before it are OK. */
  lemma {:induction false} FirstErrorAt(rets: seq<int>, k: nat)
    requires k < |rets| && rets[k] != STS_OK && forall j :: 0 <= j < k ==> rets[j] == STS_OK
    ensures FirstError(rets) == rets[k]
  {
    var n := |rets| - 1;
    if k < n {
      FirstErrorAt(rets[..n], k);
    } else {
      NoError(rets[..n]);
    }
  }

  /** What the command is finished with: the result of dispatching, if that is not the asynchronous one;
      otherwise the first error of a callback. */
  function Outcome(ret: int, rets: seq<int>): int {
    if ret == STS_ASYNC_HANDLED then FirstError(rets) else ret
  }

  function Waits(splits: seq<Split>): nat {
    if splits == [] then 0 else Waits(splits[..|splits| - 1]) + if splits[|splits| - 1] == Waiting then 1 else 0
  }

  lemma {:induction false} WaitsUpdate(splits: seq<Split>, i: nat, x: Split)
    requires i < |splits|
    ensures Waits(splits[i := x]) ==
            Waits(splits) - (if splits[i] == Waiting then 1 else 0) + (if x == Waiting then 1 else 0)
  {
    var n := |splits| - 1;
    if i == n {
      assert splits[i := x][..n] == splits[..n];
    } else {
      assert splits[i := x][..n] == splits[..n][i := x];
      WaitsUpdate(splits[..n], i, x);
    }
  }

  lemma {:induction false} WaitsPositive(splits: seq<Split>)
    ensures Waits(splits) > 0 <==> exists i :: 0 <= i < |splits| && splits[i] == Waiting
    ensures Waits(splits) <= |splits|
  {
    if splits != [] { WaitsPositive(splits[..|splits| - 1]); }
  }

  /** References are the splits whose callback is to come; the error kept is the one of the outcome. */
  ghost predicate Counted(s: State) {
    && s.sh.refcount == Waits(s.splits)
    && |s.rets| + s.sh.refcount == |s.splits|
    && (s.main == Dispatching ==> !s.sh.error && s.rets == [])
    && (s.main != Dispatching ==>
          && (s.ret == STS_ASYNC_HANDLED ==> s.splits != [])
          && s.sh.error == (s.ret != STS_ASYNC_HANDLED || FirstError(s.rets) != STS_OK)
          && (s.sh.error ==> s.sh.status == Outcome(s.ret, s.rets)))
    && (s.main.Unlocked? ==> (s.main.n == 0 <==> s.splits == []))
  }

  /** The command has been finished at most once, and not before the last callback. */
  ghost predicate OnceAnswered(s: State) {
    && s.freed == |s.answers| <= 1
    && (s.main == Dispatching || (s.main.Unlocked? && s.splits == []) ==> s.answers == [])
    && (s.answers != [] ==> s.answers == [Outcome(s.ret, s.rets)] && NoneLast(s.splits) && Waits(s.splits) == 0)
    && (Waits(s.splits) > 0 ==> NoneLast(s.splits))
    && (s.answers == [] && s.main != Dispatching && Waits(s.splits) == 0 ==>
          if s.splits == [] then s.main.Unlocked? else OneLast(s.splits, Outcome(s.ret, s.rets)))
  }

  ghost predicate NoneLast(splits: seq<Split>) {
    forall i :: 0 <= i < |splits| ==> !splits[i].Last?
  }

  ghost predicate OneLast(splits: seq<Split>, answer: int) {
    && (exists i :: 0 <= i < |splits| && splits[i] == Last(answer))
    && forall i, j :: 0 <= i < |splits| && 0 <= j < |splits| && splits[i].Last? && splits[j].Last? ==> i == j
  }

  ghost predicate Inv(s: State) { Counted(s) && OnceAnswered(s) }

  lemma CountedKept(s: State, a: Step)
    requires Counted(s) && Enabled(s, a)
    ensures Counted(Next(s, a))
  {
    var n := Next(s, a);
    match a
    case DispatchSplit => assert n.splits[..|s.splits|] == s.splits;
    case EndDispatch(ret) => WaitsPositive(s.splits);
    case MainTail =>
    case CallbackLocked(i, ret) =>
      WaitsUpdate(s.splits, i, n.splits[i]);
      assert n.rets[..|s.rets|] == s.rets;
    case CallbackTail(i) => WaitsUpdate(s.splits, i, Over);
  }

  /** The last callback answers with the outcome. */
  lemma LastAnswer(s: State, i: nat, ret: int)
    requires Counted(s) && Enabled(s, CallbackLocked(i, ret))
    ensures var r := Section(s.sh, ret); r.1.Some? ==> r.1.value == Outcome(s.ret, s.rets + [ret])
    ensures Section(s.sh, ret).1.Some? <==> Waits(s.splits) == 1
  {
    assert (s.rets + [ret])[..|s.rets|] == s.rets;
  }

  lemma AnsweredKept(s: State, a: Step)
    requires Inv(s) && Enabled(s, a)
    ensures OnceAnswered(Next(s, a))
  {
    hide FirstError, Waits, Section;
    var n := Next(s, a);
    WaitsPositive(s.splits);
    match a
    case DispatchSplit => WaitsPositive(n.splits);
    case EndDispatch(ret) =>
    case MainTail =>
    case CallbackLocked(i, ret) =>
      LastAnswer(s, i, ret);
      WaitsUpdate(s.splits, i, n.splits[i]);
      assert n.splits[i].Last? ==> forall j :: 0 <= j < |n.splits| && j != i ==> n.splits[j] == s.splits[j];
    case CallbackTail(i) =>
      WaitsUpdate(s.splits, i, Over);
  }

  ghost predicate Runs(s: State, steps: seq<Step>)
    decreases |steps|
  {
    steps == [] || (Enabled(s, steps[0]) && Runs(Next(s, steps[0]), steps[1..]))
  }

  function After(s: State, steps: seq<Step>): State
    requires Runs(s, steps)
    decreases |steps|
  {
    if steps == [] then s else After(Next(s, steps[0]), steps[1..])
  }

  lemma {:induction false} RunKeeps(s: State, steps: seq<Step>)
    requires Inv(s) && Runs(s, steps)
    ensures Inv(After(s, steps))
    decreases |steps|
  {
    hide Counted, OnceAnswered, Next, Enabled;
    if steps != [] {
      CountedKept(s, steps[0]);
      AnsweredKept(s, steps[0]);
      RunKeeps(Next(s, steps[0]), steps[1..]);
    }
  }

  predicate Quiet(s: State) { s.main == Returned && forall i :: 0 <= i < |s.splits| ==> s.splits[i] == Over }

  /** In every schedule the state is freed and the command finished at most once, with the outcome, and
      not while a split awaits its callback. When the dispatching thread has returned and every callback
      is over, both have happened once. */
  lemma AnsweredOnce(steps: seq<Step>)
    requires Runs(BEGIN, steps)
    ensures var e := After(BEGIN, steps);
            && e.freed == |e.answers| <= 1
            && (e.answers != [] ==> e.answers == [Outcome(e.ret, e.rets)] && |e.rets| == |e.splits|)
            && (Quiet(e) ==> e.freed == 1 && e.answers == [Outcome(e.ret, e.rets)])
  {
    hide Runs, After, FirstError, Outcome;
    RunKeeps(BEGIN, steps);
    WaitsPositive(After(BEGIN, steps).splits);
  }

  /** The outcome is OK exactly when every callback reported success and dispatching ended well, or when
      dispatching returned OK, as it does after an empty last descriptor: then errors of splits are
      lost. */
  lemma OutcomeOk(ret: int, rets: seq<int>)
    ensures Outcome(ret, rets) == STS_OK <==>
            ret == STS_OK || (ret == STS_ASYNC_HANDLED && forall k :: 0 <= k < |rets| ==> rets[k] == STS_OK)
  {
    NoError(rets);
  }

  lemma {:induction false} NothingToDispatch(t: Target, ds: seq<Descriptor>)
    requires TargetOK(t)
    ensures AllPieces(t, ds) == [] <==> forall k :: 0 <= k < |ds| ==> ds[k].nlbas == 0
  {
    if ds != [] {
      PiecesCover(Start(ds[0].lba, ds[0].nlbas, t.gran, t.align), t.gran);
      NothingToDispatch(t, ds[1..]);
      assert forall k :: 0 < k < |ds| ==> ds[k] == ds[1..][k - 1];
    }
  }

  // ---- runs of one command ----

  lemma OneStep(s: State, x: Step, rest: seq<Step>)
    ensures Runs(s, [x] + rest) <==> Enabled(s, x) && Runs(Next(s, x), rest)
    ensures Runs(s, [x] + rest) ==> After(s, [x] + rest) == After(Next(s, x), rest)
  {
    assert ([x] + rest)[1..] == rest;
  }

  function Dispatches(n: nat): seq<Step> { if n == 0 then [] else [DispatchSplit] + Dispatches(n - 1) }

  /** What the dispatching thread does for a parameter list, as the descriptor loop decides it. */
  function Dispatched(t: Target, ds: seq<Descriptor>): seq<Step>
    requires TargetOK(t)
  {
    Dispatches(|Walk(t, ds, STS_OK, []).1|) + [EndDispatch(Walk(t, ds, STS_OK, []).0)]
  }

  /** n splits dispatched, and then the lock released with a result. */
  function Under(n: nat): State { BEGIN.(splits := seq(n, _ => Waiting), sh := Shared(n, false, 0)) }

  function Behind(n: nat, ret: int): State {
    Under(n).(main := Unlocked(n), sh := Unlock(Shared(n, false, 0), ret), ret := ret)
  }

  lemma {:induction false} DispatchRun(k: nat, n: nat, rest: seq<Step>)
    ensures Runs(Under(k), Dispatches(n) + rest) <==> Runs(Under(k + n), rest)
    ensures Runs(Under(k + n), rest) ==> After(Under(k), Dispatches(n) + rest) == After(Under(k + n), rest)
    decreases n
  {
    if n == 0 {
      assert Dispatches(n) + rest == rest;
    } else {
      hide Runs, After;
      OneStep(Under(k), DispatchSplit, Dispatches(n - 1) + rest);
      assert Dispatches(n) + rest == [DispatchSplit] + (Dispatches(n - 1) + rest);
      assert Next(Under(k), DispatchSplit) == Under(k + 1) by {
        assert Under(k).splits + [Waiting] == Under(k + 1).splits;
      }
      DispatchRun(k + 1, n - 1, rest);
    }
  }

  /** The dispatching thread leaves behind the shared state that the locked section does: one reference
      for each split of the descriptor loop, and its result. */
  lemma CommandBegins(t: Target, ds: seq<Descriptor>, rest: seq<Step>)
    requires TargetOK(t)
    ensures var r := Walk(t, ds, STS_OK, []);
            && (Runs(BEGIN, Dispatched(t, ds) + rest) <==> Runs(Behind(|r.1|, r.0), rest))
            && (Runs(Behind(|r.1|, r.0), rest) ==>
                  After(BEGIN, Dispatched(t, ds) + rest) == After(Behind(|r.1|, r.0), rest))
  {
    hide Runs, After, Walk;
    var r := Walk(t, ds, STS_OK, []);
    WalkResult(t, ds, STS_OK, []);
    if ds == [] { WalkNothing(t); }
    DispatchRun(0, |r.1|, [EndDispatch(r.0)] + rest);
    OneStep(Under(|r.1|), EndDispatch(r.0), rest);
    assert Dispatched(t, ds) + rest == Dispatches(|r.1|) + ([EndDispatch(r.0)] + rest);
    assert Under(0) == BEGIN;
  }

  lemma WalkNothing(t: Target)
    requires TargetOK(t)
    ensures Walk(t, [], STS_OK, []) == (STS_OK, [])
  {
  }

  /** After the lock is released no split is added and the result stays. */
  lemma {:induction false} RestKeeps(s: State, rest: seq<Step>)
    requires Runs(s, rest) && s.main != Dispatching
    ensures var e := After(s, rest); e.ret == s.ret && |e.splits| == |s.splits|
    decreases |rest|
  {
    if rest != [] { RestKeeps(Next(s, rest[0]), rest[1..]); }
  }

  /** Every run of a command that becomes quiet finishes it once, with the outcome of what the descriptor
      loop returned and of one report for each split it dispatched. */
  lemma CommandEnds(t: Target, ds: seq<Descriptor>, rest: seq<Step>)
    requires TargetOK(t) && Runs(BEGIN, Dispatched(t, ds) + rest)
    requires Quiet(After(BEGIN, Dispatched(t, ds) + rest))
    ensures var e, r := After(BEGIN, Dispatched(t, ds) + rest), Walk(t, ds, STS_OK, []);
            e.answers == [Outcome(r.0, e.rets)] && |e.rets| == |r.1|
  {
    hide Runs, After, Walk, Outcome, FirstError;
    var r := Walk(t, ds, STS_OK, []);
    CommandBegins(t, ds, rest);
    RestKeeps(Behind(|r.1|, r.0), rest);
    AnsweredOnce(Dispatched(t, ds) + rest);
  }

  /** And every list of reports comes up: the dispatching thread returns, and the callbacks run in order. */
  lemma CommandWith(t: Target, ds: seq<Descriptor>, rets: seq<int>) returns (rest: seq<Step>)
    requires TargetOK(t) && |rets| == |Walk(t, ds, STS_OK, []).1|
    ensures Runs(BEGIN, Dispatched(t, ds) + rest)
    ensures var e := After(BEGIN, Dispatched(t, ds) + rest); Quiet(e) && e.rets == rets
  {
    hide Runs, After, Walk, Quiet;
    var r := Walk(t, ds, STS_OK, []);
    var s := Next(Behind(|r.1|, r.0), MainTail);
    if rets == [] {
      rest := [];
      NoSteps(s);
    } else {
      rest := Callbacks(s, 0, rets);
    }
    OneStep(Behind(|r.1|, r.0), MainTail, rest);
    rest := [MainTail] + rest;
    CommandBegins(t, ds, rest);
    assert [] + rets == rets;
  }

  lemma NoSteps(s: State)
    requires s.main == Returned && s.splits == []
    ensures Runs(s, []) && After(s, []) == s && Quiet(s)
  {
  }

  lemma {:induction false} Callbacks(s: State, k: nat, rets: seq<int>) returns (steps: seq<Step>)
    requires s.main == Returned && rets != [] && |s.splits| == k + |rets| && s.sh.refcount == |rets|
    requires forall i :: 0 <= i < |s.splits| ==> s.splits[i] == if i < k then Over else Waiting
    ensures Runs(s, steps) && Quiet(After(s, steps)) && After(s, steps).rets == s.rets + rets
    decreases |rets|
  {
    hide Runs, After;
    var n := Next(s, CallbackLocked(k, rets[0]));
    if |rets| == 1 {
      var e := Next(n, CallbackTail(k));
      AtEnd(e);
      OneStep(n, CallbackTail(k), []);
      steps := [CallbackTail(k)] + [];
      assert rets == [rets[0]];
    } else {
      steps := Callbacks(n, k + 1, rets[1..]);
      assert s.rets + rets == (s.rets + [rets[0]]) + rets[1..];
    }
    OneStep(s, CallbackLocked(k, rets[0]), steps);
    steps := [CallbackLocked(k, rets[0])] + steps;
  }

  lemma AtEnd(s: State)
    ensures Runs(s, []) && After(s, []) == s
  {
  }

  predicate HasError(rets: seq<int>) { exists k :: 0 <= k < |rets| && rets[k] != STS_OK }

  /** No run of the command in which a split reports an error is answered with OK. */
  ghost predicate ErrorsReported(t: Target, ds: seq<Descriptor>)
    requires TargetOK(t)
  {
    forall rest: seq<Step> :: Runs(BEGIN, Dispatched(t, ds) + rest) ==>
      var e := After(BEGIN, Dispatched(t, ds) + rest);
      Quiet(e) && HasError(e.rets) ==> e.answers != [STS_OK]
  }

  /** In every run of a command an error that a split reports is reported to the initiator, if and only if
      some descriptor does not pass its check, some piece is refused, the last descriptor is not empty, or
      all are. */
  lemma ErrorsReportedIff(t: Target, ds: seq<Descriptor>)
    requires TargetOK(t)
    ensures ErrorsReported(t, ds) <==>
            || !AllChecked(t, ds) || !Accepted(t, 0, |AllPieces(t, ds)|)
            || (ds != [] && ds[|ds| - 1].nlbas > 0) || forall k :: 0 <= k < |ds| ==> ds[k].nlbas == 0
  {
    hide Walk, FirstError, AllPieces, Runs, After, Quiet, HasError, Outcome, AllChecked, Accepted;
    var r := Walk(t, ds, STS_OK, []);
    WalkResult(t, ds, STS_OK, []);
    WalkFine(t, ds, STS_OK, []);
    NothingToDispatch(t, ds);
    if ds == [] { WalkNothing(t); }
    assert [] + AllPieces(t, ds) == AllPieces(t, ds);
    if r.0 == STS_OK && r.1 != [] {
      var rets := seq(|r.1|, _ => STS_RANGE);
      HasErrorAt(rets, 0);
      OutcomeOk(r.0, rets);
      var rest := CommandWith(t, ds, rets);
      CommandEnds(t, ds, rest);
    } else {
      forall rest: seq<Step> | Runs(BEGIN, Dispatched(t, ds) + rest)
        ensures var e := After(BEGIN, Dispatched(t, ds) + rest);
                Quiet(e) && HasError(e.rets) ==> e.answers != [STS_OK]
      {
        var e := After(BEGIN, Dispatched(t, ds) + rest);
        if Quiet(e) && HasError(e.rets) {
          CommandEnds(t, ds, rest);
          OutcomeOk(r.0, e.rets);
          ErrorAt(e.rets);
        }
      }
    }
  }

  lemma HasErrorAt(rets: seq<int>, k: nat)
    requires k < |rets| && rets[k] != STS_OK
    ensures HasError(rets)
  {
  }

  lemma ErrorAt(rets: seq<int>)
    requires HasError(rets)
    ensures rets != [] && !(forall k :: 0 <= k < |rets| ==> rets[k] == STS_OK)
  {
  }

  /** A device of n blocks that unmaps one block at a time and refuses none. */
  function Willing(n: nat): Target { Target(n, 1, 1, _ => STS_OK) }

  lemma OneThenNone(n: nat)
    requires 0 < n < TWO_64
    ensures TargetOK(Willing(n))
    ensures Walk(Willing(n), [Descriptor(0, 1), Descriptor(0, 0)], STS_OK, []) == (STS_OK, [Piece(0, 1)])
  {
    var t, ds := Willing(n), [Descriptor(0, 1), Descriptor(0, 0)];
    assert ds[1..] == [Descriptor(0, 0)];
    assert Walk(t, ds[1..], STS_ASYNC_HANDLED, [Piece(0, 1)]) == Walk(t, [], STS_OK, [Piece(0, 1)]);
    assert Start(0, 1, 1, 1) == Cursor(0, 1, 1);
    assert [] + [Piece(0, 1)] == [Piece(0, 1)];
    assert SplitFrom(t, Cursor(0, 1, 1), []) == SplitFrom(t, UnmapSplit.Next(Cursor(0, 1, 1), 1), [Piece(0, 1)]);
  }

  /** A command of one block and an empty descriptor behind it, answered with OK although the block's split
      reports an error. */
  lemma ErrorLost(n: nat, error: int)
    requires 0 < n < TWO_64 && error != STS_OK
    ensures var ds := [Descriptor(0, 1), Descriptor(0, 0)];
            var rest := [CallbackLocked(0, error), CallbackTail(0), MainTail];
            && TargetOK(Willing(n)) && Dispatched(Willing(n), ds) == [DispatchSplit, EndDispatch(STS_OK)]
            && Runs(BEGIN, Dispatched(Willing(n), ds) + rest)
            && var e := After(BEGIN, Dispatched(Willing(n), ds) + rest);
               Quiet(e) && e.rets == [error] && e.answers == [STS_OK]
  {
    OneThenNone(n);
    var t, ds := Willing(n), [Descriptor(0, 1), Descriptor(0, 0)];
    assert Dispatches(1) == [DispatchSplit] + Dispatches(0);
    hide Runs, After, Walk, Willing;
    var s := Behind(1, STS_OK);
    var s1 := State(Unlocked(1), [Last(STS_OK)], Shared(0, true, STS_OK), 0, [], STS_OK, [error]);
    var s2 := State(Unlocked(1), [Over], Shared(0, true, STS_OK), 1, [STS_OK], STS_OK, [error]);
    AtEnd(s2.(main := Returned));
    OneStep(s2, MainTail, []);
    OneStep(s1, CallbackTail(0), [MainTail]);
    assert s.splits[0 := Last(STS_OK)] == s1.splits && s1.splits[0 := Over] == s2.splits;
    assert Next(s, CallbackLocked(0, error)) == s1;
    OneStep(s, CallbackLocked(0, error), [CallbackTail(0), MainTail]);
    CommandBegins(t, ds, [CallbackLocked(0, error), CallbackTail(0), MainTail]);
  }
}
