/** The device lock. In implicit failover commands start an acquisition in a thread of its own; in explicit
    failover the command thread acquires it for the initiator. Lost locks, reopens of other threads and
    releases change the same state meanwhile. */
module Lock {
  const STS_OK := 0
  const STS_FENCED := 12
  const STS_HW_ERR := 13
  const STS_TRANSITION := 19
  const STS_IMPL_TRANSITION_ERR := 20
  const EIO := 5

  datatype LockState = Unlocked | Locked | Locking

  /** What the device reports to initiators: that it changes access states by itself, or on request. */
  datatype Failover = Implicit | Explicit

  /** Where an acquisition is: waiting for running commands, at the handler's lock call, reopening the
      device after being fenced, or about to store its result. `called` says that the result is the lock
      call's. */
  datatype Phase = WaitQueue | Calling(retries: nat) | Reopening(retries: nat) | Storing(ret: int, called: bool)

  /** What the command thread is at: taking commands, between the two sections of a release, in an acquisition
      of its own, or cancelled. Device removal cancels it before it releases the lock itself. */
  datatype Command = Ready | Releasing(removed: bool) | Acquiring(p: Phase) | Removed

  /** The lock state, the acquisitions of lock threads in progress, the command thread, and what the lock call
      of the last acquisition to store LOCKED returned. */
  datatype State = State(mode: Failover, lock: LockState, acqs: seq<Phase>, cmd: Command, granted: bool)

  /** Whose acquisition: a lock thread's, or the command thread's. */
  datatype Who = Thread(a: nat) | Commands

  datatype Step =
    | Transition(threadOk: bool)       // alua_implicit_transition
    | AcquireBegin                     // a request to make the access state active
    | QueueWaited(w: Who, ok: bool)    // tcmu_acquire_dev_lock, step by step
    | LockCall(w: Who, ret: int)
    | Reopened(w: Who, ok: bool)
    | Store(w: Who)
    | LockLost                         // tcmu_notify_lock_lost
    | OtherReopen                      // __tcmu_reopen_dev in another thread drops the lock
    | ReleaseBegin                     // tcmu_release_dev_lock: the check, and the store after unlocking
    | ReleaseEnd
    | Cancelled                        // the command thread, whatever it is at

  predicate Busy(s: State, w: Who) {
    match w
    case Thread(a) => a < |s.acqs|
    case Commands => s.cmd.Acquiring?
  }

  function PhaseOf(s: State, w: Who): Phase
    requires Busy(s, w)
  {
    match w
    case Thread(a) => s.acqs[a]
    case Commands => s.cmd.p
  }

  /** Requests of both kinds and releases are taken by the command thread, one at a time. It does not look at
      what the device reports before it acquires the lock. */
  predicate CanStep(s: State, x: Step) {
    match x
    case Transition(_) => s.mode == Implicit && s.cmd == Ready
    case AcquireBegin => s.cmd == Ready
    case QueueWaited(w, _) => Busy(s, w) && PhaseOf(s, w).WaitQueue?
    case LockCall(w, _) => Busy(s, w) && PhaseOf(s, w).Calling?
    case Reopened(w, _) => Busy(s, w) && PhaseOf(s, w).Reopening?
    case Store(w) => Busy(s, w) && PhaseOf(s, w).Storing?
    case ReleaseBegin => s.cmd == Ready || s.cmd == Removed
    case ReleaseEnd => s.cmd.Releasing?
    case _ => true
  }

  /** What follows a return of the lock call: a fenced first try reopens the device. */
  function AfterCall(retries: nat, ret: int): Phase {
    if ret == STS_FENCED && retries < 1 then Reopening(retries) else Storing(ret, true)
  }

  /** What follows the reopen: another call, or giving up with the fenced status. */
  function AfterReopen(retries: nat, ok: bool): Phase {
    if ok then Calling(retries + 1) else Storing(STS_FENCED, true)
  }

  /** A store that leaves an acquisition in progress alone. */
  function Dropped(lock: LockState): LockState { if lock != Locking then Unlocked else Locking }

  function Without(acqs: seq<Phase>, a: nat): seq<Phase>
    requires a < |acqs|
  {
    acqs[..a] + acqs[a + 1..]
  }

  function At(s: State, w: Who, p: Phase): State
    requires Busy(s, w)
  {
    match w
    case Thread(a) => s.(acqs := s.acqs[a := p])
    case Commands => s.(cmd := Acquiring(p))
  }

  function Over(s: State, w: Who): State
    requires Busy(s, w)
  {
    match w
    case Thread(a) => s.(acqs := Without(s.acqs, a))
    case Commands => s.(cmd := Ready)
  }

  function Next(s: State, x: Step): State
    requires CanStep(s, x)
  {
    match x
    case Transition(threadOk) =>
      if s.lock != Unlocked || !threadOk then s
      else s.(lock := Locking, acqs := s.acqs + [WaitQueue])
    case AcquireBegin => s.(cmd := Acquiring(WaitQueue))
    case QueueWaited(w, ok) => At(s, w, if ok then Calling(0) else Storing(STS_OK, false))
    case LockCall(w, ret) => At(s, w, AfterCall(PhaseOf(s, w).retries, ret))
    case Reopened(w, ok) =>
      At(s, w, AfterReopen(PhaseOf(s, w).retries, ok)).(lock := if ok then Dropped(s.lock) else s.lock)
    case Store(w) =>
      var p := PhaseOf(s, w);
      var lock := if p.ret == STS_OK then Locked else Unlocked;
      Over(s, w).(lock := lock, granted := if p.ret == STS_OK then p.called else s.granted)
    case LockLost => s.(lock := Dropped(s.lock))
    case OtherReopen => s.(lock := Dropped(s.lock))
    case ReleaseBegin => if s.lock == Locked then s.(cmd := Releasing(s.cmd == Removed)) else s
    case ReleaseEnd => s.(lock := Unlocked, cmd := if s.cmd.removed then Removed else Ready)
    case Cancelled => s.(cmd := Removed)
  }

  function Begin(mode: Failover): State { State(mode, Unlocked, [], Ready, true) }

  ghost predicate Runs(s: State, steps: seq<Step>)
    decreases |steps|
  {
    steps == [] || (CanStep(s, steps[0]) && Runs(Next(s, steps[0]), steps[1..]))
  }

  function After(s: State, steps: seq<Step>): State
    requires Runs(s, steps)
    decreases |steps|
  {
    if steps == [] then s else After(Next(s, steps[0]), steps[1..])
  }

  // ---- what one step keeps ----

  /** LOCKING exactly while one lock thread is acquiring, and there is never a second. */
  predicate Single(s: State) { |s.acqs| == if s.lock == Locking then 1 else 0 }

  /** Nothing is being acquired while a release is under way. */
  predicate Ordered(s: State) { s.cmd.Releasing? ==> s.lock != Locking }

  /** The command thread stores its own result over an acquisition in progress. */
  predicate Stray(s: State, x: Step) { x == Store(Commands) && s.lock == Locking }

  predicate FailedWait(x: Step) { x.QueueWaited? && !x.ok }

  predicate CallsFirst(p: Phase) { p.Storing? ==> p.called }

  /** LOCKED was stored after a lock call returned OK, and will be. */
  ghost predicate Granted(s: State) {
    && s.granted
    && (forall a :: 0 <= a < |s.acqs| ==> CallsFirst(s.acqs[a]))
    && (s.cmd.Acquiring? ==> CallsFirst(s.cmd.p))
  }

  /** Releases are kept apart from acquisitions by every step. Uniqueness is kept by every step but a stray
      store; that only the lock call leads to LOCKED is kept by every step but a failed wait. Stale notices,
      other reopens, releases and further commands leave an acquisition in progress as it is. */
  lemma StepKeeps(s: State, x: Step)
    requires CanStep(s, x) && Ordered(s)
    ensures Ordered(Next(s, x))
    ensures Single(s) ==> (Single(Next(s, x)) <==> !Stray(s, x))
    ensures Granted(s) ==> (Granted(Next(s, x)) <==> !FailedWait(x))
    ensures s.lock == Locking && (x.LockLost? || x.OtherReopen? || x.Transition? || x.ReleaseBegin?) ==> Next(s, x) == s
  {
    var n := Next(s, x);
    if FailedWait(x) && x.w.Thread? { assert n.acqs[x.w.a] == Storing(STS_OK, false); }
  }

  /** Outside an acquisition a lost notice, another reopen and the end of a release leave the lock free; a
      release leaves it free at all times. Only an acquisition takes it. */
  lemma StepFrees(s: State, x: Step)
    requires CanStep(s, x) && Ordered(s)
    ensures (x.LockLost? || x.OtherReopen?) && s.lock != Locking ==> Next(s, x).lock == Unlocked
    ensures x.ReleaseEnd? ==> Next(s, x).lock == Unlocked && Next(s, x).acqs == s.acqs && !Next(s, x).cmd.Releasing?
    ensures x.ReleaseBegin? ==> Next(s, x).lock == s.lock && (Next(s, x).cmd.Releasing? <==> s.lock == Locked)
    ensures Next(s, x).lock == Locked && s.lock != Locked ==> x.Store?
    ensures Next(s, x).lock == Locking && s.lock != Locking ==>
              x.Transition? && x.threadOk && s.lock == Unlocked && Next(s, x).acqs == s.acqs + [WaitQueue]
    ensures x.Transition? && x.threadOk && s.lock == Unlocked ==> Next(s, x).lock == Locking
  {
  }

  /** An acquisition calls the lock at most twice, and reopens the device at most once between: so many calls
      are behind it at each point. */
  predicate FewCalls(p: Phase) {
    match p
    case Calling(n) => n <= 1
    case Reopening(n) => n == 0
    case _ => true
  }

  ghost predicate AllFew(s: State) {
    (forall a :: 0 <= a < |s.acqs| ==> FewCalls(s.acqs[a])) && (s.cmd.Acquiring? ==> FewCalls(s.cmd.p))
  }

  /** Every step keeps that. The lock call is made again only after a fenced call and a successful reopen; the
      result stored is otherwise the last call's, or fenced. */
  lemma CallsKept(s: State, x: Step)
    requires CanStep(s, x) && AllFew(s)
    ensures AllFew(Next(s, x))
    ensures x.LockCall? ==>
              && Busy(Next(s, x), x.w)
              && PhaseOf(Next(s, x), x.w) ==
                 if x.ret == STS_FENCED && PhaseOf(s, x.w).retries == 0 then Reopening(0) else Storing(x.ret, true)
    ensures x.Reopened? ==>
              && Busy(Next(s, x), x.w)
              && PhaseOf(Next(s, x), x.w) == if x.ok then Calling(1) else Storing(STS_FENCED, true)
  {
  }

  // ---- whole runs ----

  ghost predicate AlwaysSingle(s: State, steps: seq<Step>)
    requires Runs(s, steps)
    decreases |steps|
  {
    Single(s) && (steps == [] || AlwaysSingle(Next(s, steps[0]), steps[1..]))
  }

  /** The command thread is never acquiring beside a lock thread. */
  ghost predicate AlwaysAlone(s: State, steps: seq<Step>)
    requires Runs(s, steps)
    decreases |steps|
  {
    && (s.cmd.Acquiring? ==> s.acqs == [])
    && (steps == [] || AlwaysAlone(Next(s, steps[0]), steps[1..]))
  }

  ghost predicate AlwaysGranted(s: State, steps: seq<Step>)
    requires Runs(s, steps)
    decreases |steps|
  {
    Granted(s) && (steps == [] || AlwaysGranted(Next(s, steps[0]), steps[1..]))
  }

  ghost predicate NoStray(s: State, steps: seq<Step>)
    requires Runs(s, steps)
    decreases |steps|
  {
    steps == [] || (!Stray(s, steps[0]) && NoStray(Next(s, steps[0]), steps[1..]))
  }

  /** Over any interleaving the state is LOCKING exactly while one lock thread is acquiring, and there is never
      a second one, if and only if the command thread never stores a result of its own meanwhile. */
  lemma {:induction false} SingleUnlessStray(s: State, steps: seq<Step>)
    requires Single(s) && Ordered(s) && Runs(s, steps)
    ensures AlwaysSingle(s, steps) <==> NoStray(s, steps)
    decreases |steps|
  {
    hide Single, CanStep, Next, Ordered, Stray;
    if steps != [] {
      StepKeeps(s, steps[0]);
      if Single(Next(s, steps[0])) { SingleUnlessStray(Next(s, steps[0]), steps[1..]); }
    }
  }

  /** Lock threads in implicit failover only, the command thread's acquisitions in explicit failover only. */
  predicate OneKind(s: State) {
    match s.mode
    case Implicit => !s.cmd.Acquiring?
    case Explicit => s.acqs == []
  }

  lemma {:induction false} KindKept(s: State, steps: seq<Step>)
    requires Single(s) && Ordered(s) && OneKind(s) && Runs(s, steps)
    requires s.mode == Implicit ==> AcquireBegin !in steps
    ensures AlwaysSingle(s, steps) && AlwaysAlone(s, steps)
    decreases |steps|
  {
    if steps != [] {
      StepKeeps(s, steps[0]);
      assert steps[0] in steps;
      KindKept(Next(s, steps[0]), steps[1..]);
    }
  }

  /** So there is never a second acquisition, in any interleaving with lost locks, reopens, releases and
      removal, on a device that is used as it reports: with implicit failover it is not asked to become
      active. With explicit failover nothing is asked of the initiator. */
  lemma OneAcquisition(mode: Failover, steps: seq<Step>)
    requires Runs(Begin(mode), steps) && (mode == Implicit ==> AcquireBegin !in steps)
    ensures AlwaysSingle(Begin(mode), steps) && AlwaysAlone(Begin(mode), steps)
  {
    hide Runs;
    KindKept(Begin(mode), steps);
  }

  /** Over any interleaving LOCKED is only ever stored after the lock call returned OK, if and only if no
      wait for running commands fails. */
  lemma {:induction false} LockedByCall(s: State, steps: seq<Step>)
    requires Granted(s) && Ordered(s) && Runs(s, steps)
    ensures AlwaysGranted(s, steps) <==> forall i :: 0 <= i < |steps| ==> !FailedWait(steps[i])
    decreases |steps|
  {
    hide Granted, CanStep, Next, Ordered;
    if steps != [] {
      StepKeeps(s, steps[0]);
      if Granted(Next(s, steps[0])) { LockedByCall(Next(s, steps[0]), steps[1..]); }
      assert forall i :: 0 < i < |steps| ==> steps[i] == steps[1..][i - 1];
      assert forall i :: 0 <= i < |steps| - 1 ==> steps[1..][i] == steps[i + 1];
    }
  }

  // ---- two runs that go wrong ----

  lemma OneStep(s: State, x: Step, n: State, rest: seq<Step>)
    requires CanStep(s, x) && Next(s, x) == n && Runs(n, rest)
    ensures Runs(s, [x] + rest) && After(s, [x] + rest) == After(n, rest)
  {
    assert ([x] + rest)[1..] == rest;
  }

  /** A device with implicit failover that is asked to become active all the same: the command thread acquires
      the lock beside the lock thread, fails, and stores UNLOCKED; the next command starts a second lock
      thread while the first goes on. */
  lemma StrayAcquisition() returns (steps: seq<Step>)
    ensures Runs(Begin(Implicit), steps) && |After(Begin(Implicit), steps).acqs| == 2
    ensures steps == [Transition(true), AcquireBegin, QueueWaited(Commands, true), LockCall(Commands, STS_HW_ERR),
                      Store(Commands), Transition(true)]
  {
    var one := State(Implicit, Locking, [WaitQueue], Ready, true);
    var two := State(Implicit, Locking, [WaitQueue, WaitQueue], Ready, true);
    var failed := one.(cmd := Acquiring(Storing(STS_HW_ERR, true)));
    NoSteps(two);
    hide Runs, After;
    OneStep(one.(lock := Unlocked), Transition(true), two, []);
    steps := [Transition(true)] + [];
    OneStep(failed, Store(Commands), one.(lock := Unlocked), steps);
    steps := [Store(Commands)] + steps;
    OneStep(one.(cmd := Acquiring(Calling(0))), LockCall(Commands, STS_HW_ERR), failed, steps);
    steps := [LockCall(Commands, STS_HW_ERR)] + steps;
    OneStep(one.(cmd := Acquiring(WaitQueue)), QueueWaited(Commands, true), one.(cmd := Acquiring(Calling(0))), steps);
    steps := [QueueWaited(Commands, true)] + steps;
    OneStep(one, AcquireBegin, one.(cmd := Acquiring(WaitQueue)), steps);
    steps := [AcquireBegin] + steps;
    OneStep(Begin(Implicit), Transition(true), one, steps);
    steps := [Transition(true)] + steps;
  }

  lemma NoSteps(s: State)
    ensures Runs(s, []) && After(s, []) == s
  {
  }

  /** A failed wait for running commands stores LOCKED without a lock call, in either kind of failover. */
  lemma LockedWithoutCall(mode: Failover) returns (steps: seq<Step>)
    ensures Runs(Begin(mode), steps)
    ensures After(Begin(mode), steps).lock == Locked && !After(Begin(mode), steps).granted
    ensures steps == if mode == Implicit then [Transition(true), QueueWaited(Thread(0), false), Store(Thread(0))]
                     else [AcquireBegin, QueueWaited(Commands, false), Store(Commands)]
  {
    var b, stored := Begin(mode), Storing(STS_OK, false);
    var locked := b.(lock := Locked, granted := false);
    NoSteps(locked);
    hide Runs, After;
    if mode == Implicit {
      var s1, s2 := b.(lock := Locking, acqs := [WaitQueue]), b.(lock := Locking, acqs := [stored]);
      assert [WaitQueue][0 := stored] == [stored] && Without([stored], 0) == [];
      OneStep(s2, Store(Thread(0)), locked, []);
      steps := [Store(Thread(0))] + [];
      OneStep(s1, QueueWaited(Thread(0), false), s2, steps);
      steps := [QueueWaited(Thread(0), false)] + steps;
      OneStep(b, Transition(true), s1, steps);
      steps := [Transition(true)] + steps;
    } else {
      var s1, s2 := b.(cmd := Acquiring(WaitQueue)), b.(cmd := Acquiring(stored));
      OneStep(s2, Store(Commands), locked, []);
      steps := [Store(Commands)] + [];
      OneStep(s1, QueueWaited(Commands, false), s2, steps);
      steps := [QueueWaited(Commands, false)] + steps;
      OneStep(b, AcquireBegin, s1, steps);
      steps := [AcquireBegin] + steps;
    }
  }

  // ---- the same state, in place ----

  /** The k-th try opens the device, or it is stopping after it. */
  predicate Ends(opens: nat -> int, stopping: nat -> bool, k: nat) { opens(k) == 0 || stopping(k + 1) }

  class Device {
    var lockState: LockState
    var inRecovery: bool
    var isOpen: bool

    constructor ()
      ensures lockState == Unlocked && !inRecovery && isOpen
    {
      lockState, inRecovery, isOpen := Unlocked, false, true;
    }

    /** alua_implicit_transition: a command may proceed only under the lock; the first one to find it free
        starts an acquisition. */
    method ImplicitTransition(threadOk: bool, ghost s: State) returns (ret: int)
      requires s.lock == lockState && CanStep(s, Transition(threadOk))
      modifies this`lockState
      ensures lockState == Next(s, Transition(threadOk)).lock
      ensures ret == match old(lockState)
                     case Locked => STS_OK
                     case Locking => STS_TRANSITION
                     case Unlocked => if threadOk then STS_TRANSITION else STS_IMPL_TRANSITION_ERR
    {
      if lockState == Locked { return STS_OK; }
      if lockState == Locking { return STS_TRANSITION; }
      lockState := Locking;
      if !threadOk {
        lockState := Unlocked;
        return STS_IMPL_TRANSITION_ERR;
      }
      return STS_TRANSITION;
    }

    /** tcmu_notify_lock_lost */
    method NotifyLockLost(ghost s: State)
      requires s.lock == lockState
      modifies this`lockState
      ensures lockState == Next(s, LockLost).lock
      ensures lockState == if old(lockState) == Locking then Locking else Unlocked
    {
      if lockState != Locking { lockState := Unlocked; }
    }

    /** tcmu_release_dev_lock up to the handler's unlock call: whether it goes on. */
    method ReleaseBegin(ghost s: State) returns (go: bool)
      requires s.lock == lockState && CanStep(s, Step.ReleaseBegin)
      ensures go <==> lockState == Locked
      ensures go <==> Next(s, Step.ReleaseBegin).cmd.Releasing?
    {
      return lockState == Locked;
    }

    /** And after it: the device counts as unlocked whatever the handler returned. */
    method ReleaseEnd(ghost s: State)
      requires s.lock == lockState && CanStep(s, Step.ReleaseEnd)
      modifies this`lockState
      ensures lockState == Unlocked == Next(s, Step.ReleaseEnd).lock
    {
      lockState := Unlocked;
    }

    /** tcmu_acquire_dev_lock, in a lock thread or the command thread, where the k-th lock call returns
        calls(k) and the k-th reopen succeeds if reopens(k): at most two calls, the second after a fenced
        first one and a successful reopen; the result is the last call's, and LOCKED is stored exactly
        for OK. */
    method AcquireDevLock(queueOk: bool, calls: nat -> int, reopens: nat -> bool) returns (ret: int, n: nat)
      modifies this`lockState
      ensures lockState == if ret == STS_OK then Locked else Unlocked
      ensures !queueOk ==> n == 0 && ret == STS_OK
      ensures queueOk ==> 1 <= n <= 2 && ret == calls(n - 1) && (n == 2 <==> calls(0) == STS_FENCED && reopens(0))
    {
      ret, n := STS_OK, 0;
      if queueOk {
        while true
          invariant n <= 1
          invariant n == 1 ==> calls(0) == STS_FENCED && reopens(0)
          decreases 2 - n
        {
          ret := calls(n);
          n := n + 1;
          if !(ret == STS_FENCED && n <= 1 && reopens(n - 1)) { break; }
        }
      }
      lockState := if ret == STS_OK then Locked else Unlocked;
    }

    /** __tcmu_reopen_dev past its wait for running commands and its first check for stopping: close, then
        try to open until it works, the device is stopping, or the retries are used up. A negative number
        of retries means no limit, so then one of the others must come. */
    method Reopen(retries: int, opens: nat -> int, stopping: nat -> bool) returns (ret: int, n: nat)
      requires inRecovery && (retries < 0 ==> exists k: nat :: Ends(opens, stopping, k))
      modifies this
      ensures !inRecovery && lockState == Dropped(old(lockState))
      ensures isOpen <==> ret == 0
      ensures ret == if n == 0 then -EIO else opens(n - 1)
      ensures forall k :: 0 <= k < n - 1 ==> opens(k) != 0
      ensures forall k :: 0 <= k < n ==> !stopping(k) && (retries < 0 || k <= retries)
      ensures ret == 0 || stopping(n) || (retries >= 0 && n > retries)
    {
      if lockState != Locking { lockState := Unlocked; }
      isOpen := false;
      ret, n := -EIO, 0;
      ghost var bound: nat := if retries >= 0 then retries + 1 else
        var k: nat :| Ends(opens, stopping, k); k + 1;
      while ret != 0 && !stopping(n) && (retries < 0 || n <= retries)
        invariant n <= bound
        invariant isOpen <==> ret == 0
        invariant inRecovery && lockState == Dropped(old(lockState))
        invariant ret == if n == 0 then -EIO else opens(n - 1)
        invariant forall k :: 0 <= k < n - 1 ==> opens(k) != 0
        invariant forall k :: 0 <= k < n ==> !stopping(k) && (retries < 0 || k <= retries)
        decreases bound - n
      {
        ret := opens(n);
        if ret == 0 { isOpen := true; }
        n := n + 1;
      }
      inRecovery := false;
    }
  }
}
