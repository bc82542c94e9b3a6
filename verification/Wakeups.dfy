/** Tracking of asynchronous commands: completing threads share one kick of the kernel, taken by
    whichever of them finds none pending. */
module Wakeups {
  // ---- the two counters ----

  /** tracked_aio_ops and pending_wakeups */
  datatype Track = Track(tracked: nat, pending: nat)

  /** track_aio_request_finish: with `announce` the caller asks to wake the kernel, and is told whether
      it is the one to do so. */
  function Finished(k: Track, announce: bool): (Track, bool)
    requires k.tracked > 0
  {
    if announce then (Track(k.tracked - 1, k.pending + 1), k.pending + 1 == 1)
    else (k.(tracked := k.tracked - 1), false)
  }

  /** track_aio_wakeup_finish: whether to kick once more. */
  function WokenUp(k: Track): (Track, bool)
    requires k.pending > 0
  {
    if k.pending > 1 then (k.(pending := 1), true) else (k.(pending := 0), false)
  }

  // ---- threads running aio_command_finish ----

  /** A thread is outside, has completed command number `ix` in the ring and not announced it, is in the
      wake-up loop about to kick, or in the loop after a kick. */
  datatype Pc = Outside | Completed(ix: nat) | Kick | Kicked

  /** Threads, counters, the requests started and not yet completed, the number of commands completed,
      and how many of them were completed when the last kick started. */
  datatype State = State(threads: seq<Pc>, track: Track, started: nat, done: nat, seen: nat)

  datatype Step =
    | Start                    // a request is handed to the handler
    | SyncFinish               // it is answered at once, without announcing
    | Complete(tid: nat)       // a thread completes it in the ring
    | Finish(tid: nat)         // and runs track_aio_request_finish
    | ProcessingComplete(tid: nat)
    | WakeupFinish(tid: nat)

  predicate InLoop(p: Pc) { p == Kick || p == Kicked }

  predicate Enabled(s: State, a: Step) {
    match a
    case Start => true
    case SyncFinish => s.started > 0 && s.track.tracked > 0
    case Complete(t) => t < |s.threads| && s.threads[t] == Outside && s.started > 0
    case Finish(t) => t < |s.threads| && s.threads[t].Completed? && s.track.tracked > 0
    case ProcessingComplete(t) => t < |s.threads| && s.threads[t] == Kick
    case WakeupFinish(t) => t < |s.threads| && s.threads[t] == Kicked && s.track.pending > 0
  }

  function Next(s: State, a: Step): State
    requires Enabled(s, a)
  {
    match a
    case Start => s.(track := s.track.(tracked := s.track.tracked + 1), started := s.started + 1)
    case SyncFinish => s.(track := Finished(s.track, false).0, started := s.started - 1)
    case Complete(t) =>
      s.(threads := s.threads[t := Completed(s.done + 1)], started := s.started - 1, done := s.done + 1)
    case Finish(t) =>
      var r := Finished(s.track, true);
      s.(threads := s.threads[t := if r.1 then Kick else Outside], track := r.0)
    case ProcessingComplete(t) => s.(threads := s.threads[t := Kicked], seen := s.done)
    case WakeupFinish(t) =>
      var r := WokenUp(s.track);
      s.(threads := s.threads[t := if r.1 then Kick else Outside], track := r.0)
  }

  /** Threads that have completed a command and not announced it. */
  function Unannounced(threads: seq<Pc>): nat {
    if threads == [] then 0
    else Unannounced(threads[..|threads| - 1]) + if threads[|threads| - 1].Completed? then 1 else 0
  }

  lemma {:induction false} UnannouncedUpdate(threads: seq<Pc>, t: nat, p: Pc)
    requires t < |threads|
    ensures Unannounced(threads[t := p]) ==
            Unannounced(threads) - (if threads[t].Completed? then 1 else 0) + (if p.Completed? then 1 else 0)
  {
    var n := |threads| - 1;
    if t == n {
      assert threads[t := p][..n] == threads[..n];
    } else {
      assert threads[t := p][..n] == threads[..n][t := p];
      UnannouncedUpdate(threads[..n], t, p);
    }
  }

  /** A kick is still to come: a thread is about to kick, or will be told to kick again. */
  ghost predicate Owed(s: State) {
    s.track.pending > 1 || exists t :: 0 <= t < |s.threads| && s.threads[t] == Kick
  }

  ghost predicate OneKicker(threads: seq<Pc>, pending: nat) {
    && (pending > 0 <==> exists t :: 0 <= t < |threads| && InLoop(threads[t]))
    && forall t, u :: 0 <= t < |threads| && 0 <= u < |threads| && InLoop(threads[t]) && InLoop(threads[u]) ==> t == u
  }

  /** Every command completed after the last kick started is owed a kick, or its thread has yet to
      announce it. */
  ghost predicate Covered(s: State) {
    forall i :: s.seen < i <= s.done ==> Owed(s) || ToAnnounce(s.threads, i)
  }

  ghost predicate ToAnnounce(threads: seq<Pc>, ix: nat) {
    exists t :: 0 <= t < |threads| && threads[t] == Completed(ix)
  }

  ghost predicate Inv(s: State) {
    && s.track.tracked == s.started + Unannounced(s.threads)
    && OneKicker(s.threads, s.track.pending)
    && s.seen <= s.done
    && Covered(s)
  }

  lemma Init(n: nat)
    ensures Inv(State(seq(n, _ => Outside), Track(0, 0), 0, 0, 0))
  {
    NoneUnannounced(seq(n, _ => Outside));
  }

  lemma {:induction false} NoneUnannounced(threads: seq<Pc>)
    requires forall t :: 0 <= t < |threads| ==> !threads[t].Completed?
    ensures Unannounced(threads) == 0
  {
    if threads != [] { NoneUnannounced(threads[..|threads| - 1]); }
  }

  lemma KickerKept(s: State, a: Step)
    requires OneKicker(s.threads, s.track.pending) && Enabled(s, a)
    ensures OneKicker(Next(s, a).threads, Next(s, a).track.pending)
  {
    var n := Next(s, a);
    if a.Complete? || a.Finish? || a.ProcessingComplete? || a.WakeupFinish? {
      assert forall u :: 0 <= u < |s.threads| && u != a.tid ==> n.threads[u] == s.threads[u];
      assert n.threads[a.tid] == Kick ==> InLoop(n.threads[a.tid]);
    }
  }

  lemma CoverKept(s: State, a: Step)
    requires OneKicker(s.threads, s.track.pending) && Covered(s) && Enabled(s, a) && s.seen <= s.done
    ensures Covered(Next(s, a))
  {
    var n := Next(s, a);
    OwedCarries(s, a);
    forall i | n.seen < i <= n.done
      ensures Owed(n) || ToAnnounce(n.threads, i)
    {
      if a.Complete? && i == n.done {
        assert n.threads[a.tid] == Completed(i);
      } else if !Owed(s) && !a.Finish? {
        assert ToAnnounce(s.threads, i);
        var t :| 0 <= t < |s.threads| && s.threads[t] == Completed(i);
        assert n.threads[t] == Completed(i);
      }
    }
  }

  /** An owed kick stays owed until one starts, and announcing a completion makes one owed. */
  lemma OwedCarries(s: State, a: Step)
    requires OneKicker(s.threads, s.track.pending) && Enabled(s, a)
    ensures a.Finish? || (Owed(s) && !a.ProcessingComplete?) ==> Owed(Next(s, a))
  {
    var n := Next(s, a);
    if a.Finish? {
      if s.track.pending == 0 { assert n.threads[a.tid] == Kick; }
    } else if a.WakeupFinish? {
      if s.track.pending > 1 { assert n.threads[a.tid] == Kick; }
      assert InLoop(s.threads[a.tid]);
    } else if s.track.pending <= 1 && Owed(s) && !a.ProcessingComplete? {
      var t :| 0 <= t < |s.threads| && s.threads[t] == Kick;
      assert n.threads[t] == Kick;
    }
  }

  /** Every step keeps the invariant. */
  lemma NextKeeps(s: State, a: Step)
    requires Inv(s) && Enabled(s, a)
    ensures Inv(Next(s, a))
  {
    hide OneKicker, Covered;
    KickerKept(s, a);
    CoverKept(s, a);
    var n := Next(s, a);
    if a.Complete? || a.Finish? || a.ProcessingComplete? || a.WakeupFinish? {
      UnannouncedUpdate(s.threads, a.tid, n.threads[a.tid]);
    }
  }

  /** The assertions of the two locked sections hold: no step waits for a counter. */
  lemma AssertionsHold(s: State)
    requires Inv(s)
    ensures s.started > 0 ==> s.track.tracked > 0
    ensures forall t :: 0 <= t < |s.threads| ==>
              (s.threads[t].Completed? ==> s.track.tracked > 0) && (s.threads[t] == Kicked ==> s.track.pending > 0)
  {
    forall t | 0 <= t < |s.threads| && s.threads[t].Completed? ensures Unannounced(s.threads) > 0 {
      UnannouncedUpdate(s.threads, t, Outside);
    }
    assert forall t :: 0 <= t < |s.threads| && s.threads[t] == Kicked ==> InLoop(s.threads[t]);
  }

  /** A run of enabled steps. */
  ghost predicate Runs(s: State, steps: seq<Step>)
    decreases |steps|
  {
    steps == [] || (Enabled(s, steps[0]) && Runs(Next(s, steps[0]), steps[1..]))
  }

  function After(s: State, steps: seq<Step>): State
    requires Runs(s, steps)
    decreases |steps|
  {
    if steps == [] then s else After(Next(s, steps[0]), steps[1..])
  }

  lemma {:induction false} RunKeeps(s: State, steps: seq<Step>)
    requires Inv(s) && Runs(s, steps)
    ensures Inv(After(s, steps))
    decreases |steps|
  {
    hide Inv, Enabled, Next;
    if steps != [] {
      NextKeeps(s, steps[0]);
      RunKeeps(Next(s, steps[0]), steps[1..]);
    }
  }

  /** In any run of any number of threads at most one is in the wake-up loop, and wake-ups are pending
      exactly when one is. Once all have left, none is pending, every tracked request is one not yet
      completed, and the last kick started after the last completion. */
  lemma NoLostWakeup(n: nat, steps: seq<Step>)
    requires Runs(State(seq(n, _ => Outside), Track(0, 0), 0, 0, 0), steps)
    ensures var e := After(State(seq(n, _ => Outside), Track(0, 0), 0, 0, 0), steps);
            && OneKicker(e.threads, e.track.pending)
            && ((forall t :: 0 <= t < |e.threads| ==> e.threads[t] == Outside) ==>
                  e.track == Track(e.started, 0) && e.seen == e.done)
  {
    hide Runs, After;
    Init(n);
    RunKeeps(State(seq(n, _ => Outside), Track(0, 0), 0, 0, 0), steps);
    var e := After(State(seq(n, _ => Outside), Track(0, 0), 0, 0, 0), steps);
    if forall t :: 0 <= t < |e.threads| ==> e.threads[t] == Outside {
      NoneUnannounced(e.threads);
      AllSeen(e);
    }
  }

  lemma AllSeen(s: State)
    requires Inv(s) && forall t :: 0 <= t < |s.threads| ==> s.threads[t] == Outside
    ensures s.track.pending == 0 && s.seen == s.done
  {
    assert s.seen < s.done ==> !ToAnnounce(s.threads, s.done);
  }

  // ---- the locked sections ----

  /** The counters in place. Each locked section is given the state of all threads it finds, and takes it
      to the next one. */
  class AioTrack {
    var tracked: nat
    var pending: nat

    function Abs(): Track
      reads this
    {
      Track(tracked, pending)
    }

    constructor ()
      ensures Abs() == Track(0, 0)
    {
      tracked, pending := 0, 0;
    }

    /** track_aio_request_start: what is tracked stays the requests started and those completed but not
        announced. */
    method RequestStart(ghost s: State)
      requires s.track == Abs() && Inv(s)
      modifies this
      ensures Abs() == Next(s, Start).track && Inv(Next(s, Start))
      ensures tracked == s.started + 1 + Unannounced(s.threads) && pending == old(pending)
    {
      NextKeeps(s, Start);
      tracked := tracked + 1;
    }

    /** track_aio_request_finish, for a request answered at once or by thread tid after completing it: the
        thread is to kick exactly if no other is in the wake-up loop. */
    method RequestFinish(announce: bool, ghost s: State, ghost tid: nat) returns (wakeUp: bool)
      requires s.track == Abs() && Inv(s) && Enabled(s, if announce then Finish(tid) else SyncFinish)
      modifies this
      ensures var n := Next(s, if announce then Finish(tid) else SyncFinish);
              && Abs() == n.track && Inv(n) && (announce ==> Owed(n))
              && (wakeUp <==> announce && n.threads[tid] == Kick)
      ensures wakeUp <==> announce && forall t :: 0 <= t < |s.threads| ==> !InLoop(s.threads[t])
    {
      ghost var a := if announce then Finish(tid) else SyncFinish;
      NextKeeps(s, a);
      OwedCarries(s, a);
      tracked := tracked - 1;
      wakeUp := false;
      if announce {
        pending := pending + 1;
        wakeUp := pending == 1;
      }
    }

    /** track_aio_wakeup_finish, for thread tid after its kick: it kicks again exactly if completions were
        announced meanwhile, and else leaves no thread in the loop. */
    method WakeupFinish(ghost s: State, ghost tid: nat) returns (wakeUp: bool)
      requires s.track == Abs() && Inv(s) && Enabled(s, Step.WakeupFinish(tid))
      modifies this
      ensures var n := Next(s, Step.WakeupFinish(tid));
              && Abs() == n.track && Inv(n) && (wakeUp <==> n.threads[tid] == Kick)
              && (Owed(s) ==> Owed(n))
              && (!wakeUp ==> forall t :: 0 <= t < |n.threads| ==> !InLoop(n.threads[t]))
      ensures wakeUp <==> old(pending) > 1
    {
      NextKeeps(s, Step.WakeupFinish(tid));
      OwedCarries(s, Step.WakeupFinish(tid));
      if pending > 1 {
        pending, wakeUp := 1, true;
      } else {
        pending, wakeUp := 0, false;
      }
    }
  }
}
