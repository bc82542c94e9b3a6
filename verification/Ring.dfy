/** The command ring shared with the kernel: entries are put at the head, fetched in order, and given
    back from the tail with the response of whichever command completes next. */
module Ring {
  import opened Common

  datatype Op = Pad | Cmd | Unknown

  /** An entry of the ring: operation and length in bytes, command id, whether its CDB length is one the
      daemon supports, the status of the response, and the unknown-operation flag. */
  datatype Entry = Entry(op: Op, len: nat, id: nat, supported: bool, status: nat, flagged: bool)

  /** A response: the id of the command it is for and its status. */
  datatype Answer = Answer(id: nat, status: nat)

  // ---- offsets ----

  function Slot(x: nat, size: nat): nat
    requires size > 0
  {
    x % size
  }

  lemma SlotAdd(x: nat, len: nat, size: nat)
    requires size > 0
    ensures Slot(Slot(x, size) + len, size) == Slot(x + len, size) && Slot(x, size) < size
  {
    var q, r := x / size, x % size;
    assert x + len == q * size + (r + len);
    AddMultiple(r + len, q, size);
  }

  lemma {:induction false} AddMultiple(y: nat, q: nat, size: nat)
    requires size > 0
    ensures (q * size + y) % size == y % size
    decreases q
  {
    if q > 0 {
      assert q * size + y == size + ((q - 1) * size + y);
      AddMultiple(y, q - 1, size);
      OneMore((q - 1) * size + y, size);
    }
  }

  lemma OneMore(x: nat, size: nat)
    requires size > 0
    ensures (size + x) % size == x % size
  {
    var q, r := x / size, x % size;
    assert size + x == (q + 1) * size + r;
    Quotient(size + x, q + 1, r, size);
  }

  /** Offsets less than a ring apart are different slots. */
  lemma SlotsDiffer(x: nat, y: nat, size: nat)
    requires x < y < x + size
    ensures Slot(x, size) != Slot(y, size)
  {
    SlotAdd(x, y - x, size);
    var r := Slot(x, size);
    if r + (y - x) < size {
      Quotient(r + (y - x), 0, r + (y - x), size);
    } else {
      Quotient(r + (y - x), 1, r + (y - x) - size, size);
    }
  }

  // ---- logs of entries ----

  /** The responses that the command entries of a log carry, in order. */
  function Answers(s: seq<Entry>): seq<Answer> {
    if s == [] then []
    else
      var e := s[|s| - 1];
      Answers(s[..|s| - 1]) + if e.op == Cmd then [Answer(e.id, e.status)] else []
  }

  /** The ids of the commands of a log that are handed to the handler. */
  function Fetched(s: seq<Entry>): seq<nat> {
    if s == [] then []
    else
      var e := s[|s| - 1];
      Fetched(s[..|s| - 1]) + if e.op == Cmd && e.supported then [e.id] else []
  }

  /** The commands of a log that are dropped for their CDB length. */
  function Dropped(s: seq<Entry>): nat {
    if s == [] then 0
    else Dropped(s[..|s| - 1]) + if s[|s| - 1].op == Cmd && !s[|s| - 1].supported then 1 else 0
  }

  function Commands(s: seq<Entry>): nat {
    if s == [] then 0 else Commands(s[..|s| - 1]) + if s[|s| - 1].op == Cmd then 1 else 0
  }

  lemma {:induction false} CommandCounts(s: seq<Entry>)
    ensures |Answers(s)| == Commands(s) == |Fetched(s)| + Dropped(s)
  {
    if s != [] { CommandCounts(s[..|s| - 1]); }
  }

  lemma {:induction false} SameOps(s: seq<Entry>, r: seq<Entry>)
    requires |s| == |r| && forall k :: 0 <= k < |s| ==> s[k].op == r[k].op
    ensures Commands(s) == Commands(r)
  {
    if s != [] { SameOps(s[..|s| - 1], r[..|r| - 1]); }
  }

  /** More commands in the longer prefix means a command entry between the two. */
  lemma {:induction false} CommandBetween(s: seq<Entry>, a: nat, b: nat) returns (k: nat)
    requires a <= b <= |s| && Commands(s[..a]) < Commands(s[..b])
    ensures a <= k < b && s[k].op == Cmd
    decreases b - a
  {
    assert s[..b][..b - 1] == s[..b - 1];
    if s[b - 1].op == Cmd { k := b - 1; } else { k := CommandBetween(s, a, b - 1); }
  }

  lemma {:induction false} NoCommandBetween(s: seq<Entry>, a: nat, b: nat)
    requires a <= b <= |s| && forall k :: a <= k < b ==> s[k].op != Cmd
    ensures Answers(s[..b]) == Answers(s[..a]) && Commands(s[..a]) == Commands(s[..b])
    decreases b - a
  {
    if a < b {
      assert s[..b][..b - 1] == s[..b - 1];
      NoCommandBetween(s, a, b - 1);
    }
  }

  lemma {:induction false} SomeCommandBetween(s: seq<Entry>, a: nat, k: nat, b: nat)
    requires a <= k < b <= |s| && s[k].op == Cmd
    ensures Commands(s[..a]) < Commands(s[..b])
    decreases b - a
  {
    assert s[..b][..b - 1] == s[..b - 1];
    if k < b - 1 { SomeCommandBetween(s, a, k, b - 1); } else { CommandsGrow(s, a, b - 1); }
  }

  lemma {:induction false} CommandsGrow(s: seq<Entry>, a: nat, b: nat)
    requires a <= b <= |s|
    ensures Commands(s[..a]) <= Commands(s[..b])
    decreases b - a
  {
    if a < b {
      assert s[..b][..b - 1] == s[..b - 1];
      CommandsGrow(s, a, b - 1);
    }
  }

  function Ids(a: seq<Answer>): seq<nat> {
    seq(|a|, i requires 0 <= i < |a| => a[i].id)
  }

  /** A well-formed ring: log[k] is what entry k holds now, or held when it was given back. Entries lie
      one after the other at absolute offsets offs, of which the ring has the remainders. */
  ghost predicate Laid(offs: seq<nat>, log: seq<Entry>) {
    && |offs| == |log| + 1
    && (forall k :: 0 <= k < |log| ==> offs[k + 1] == offs[k] + log[k].len)
    && forall j, k :: 0 <= j < k < |offs| ==> offs[j] < offs[k]
  }

  /** The log against the entries the kernel put: operations and lengths are never changed, ids only
      in entries given back. */
  ghost predicate Agrees(put: seq<Entry>, log: seq<Entry>, t: nat) {
    && |log| == |put|
    && (forall k :: 0 <= k < |put| ==> log[k].op == put[k].op && log[k].len == put[k].len)
    && forall k :: t <= k < |put| ==> log[k].id == put[k].id && log[k].supported == put[k].supported
  }

  lemma LaidGrow(offs: seq<nat>, log: seq<Entry>, e: Entry)
    requires Laid(offs, log) && e.len > 0
    ensures Laid(offs + [offs[|log|] + e.len], log + [e])
  {
  }

  lemma AgreesGrow(put: seq<Entry>, log: seq<Entry>, t: nat, e: Entry)
    requires Agrees(put, log, t)
    ensures |log| == |put| && Agrees(put + [e], log + [e], t)
  {
  }

  lemma LaidAt(offs: seq<nat>, log: seq<Entry>, j: nat, k: nat)
    requires Laid(offs, log) && j < k <= |log|
    ensures |offs| == |log| + 1 && offs[j] < offs[k] && offs[j + 1] == offs[j] + log[j].len
  {
  }

  class Device {
    const size: nat          // cmdr_size
    const ring: array<Entry> // by offset; meaningful at the offset of an entry
    var head: nat            // mb->cmd_head, moved by the kernel
    var mbTail: nat          // mb->cmd_tail
    var devTail: nat         // dev->cmd_tail

    ghost var put: seq<Entry>
    ghost var log: seq<Entry>
    ghost var offs: seq<nat>
    ghost var t: nat                    // entries given back
    ghost var f: nat                    // entries fetched
    ghost var fetched: seq<nat>         // ids handed out, in order
    ghost var completed: seq<Answer>    // responses, in order of completion
    ghost var inflight: multiset<nat>   // ids handed out and not completed

    ghost predicate Placed()
      reads this, ring
    {
      && ring.Length == size > 0
      && |offs| == |log| + 1 && Laid(offs, log) && t <= f <= |log|
      && offs[|log|] < offs[t] + size
      && mbTail == Slot(offs[t], size) && devTail == Slot(offs[f], size) && head == Slot(offs[|log|], size)
      && forall k :: t <= k < |log| ==> Slot(offs[k], size) < size && ring[Slot(offs[k], size)] == log[k]
    }

    /** What was handed out is what was completed and what is in flight; the entries given back carry the
        responses in the order of completion. */
    ghost predicate Answered()
      reads this
    {
      && |log| == |put| && Agrees(put, log, t) && t <= f <= |put|
      && fetched == Fetched(put[..f])
      && completed == Answers(log[..t])
      && multiset(fetched) == multiset(Ids(completed)) + inflight
    }

    ghost predicate Valid()
      reads this, ring
    {
      Placed() && Answered()
    }

    constructor (n: nat)
      requires n > 0
      ensures Valid() && size == n && fresh(ring) && put == [] && completed == []
    {
      size, ring := n, new Entry[n](_ => Entry(Pad, 0, 0, false, 0, false));
      head, mbTail, devTail := 0, 0, 0;
      put, log, offs, t, f, fetched, completed, inflight := [], [], [0], 0, 0, [], [], multiset{};
    }

    /** The kernel puts an entry where it fits behind the head without reaching the tail. */
    method KernelPut(e: Entry)
      requires Valid() && e.len > 0 && offs[|log|] + e.len < offs[t] + size
      modifies this`head, this`put, this`log, this`offs, ring
      ensures Valid() && put == old(put) + [e]
    {
      hide Answers, Fetched, Slot, Laid, Agrees;
      LaidGrow(offs, log, e);
      AgreesGrow(put, log, t, e);
      var h := |log|;
      SlotAdd(offs[h], e.len, size);
      assert put[..f] == (put + [e])[..f] && log[..t] == (log + [e])[..t];
      forall k | t <= k < h ensures Slot(offs[k], size) != head {
        LaidAt(offs, log, k, h);
        if t < k { LaidAt(offs, log, t, k); }
        SlotsDiffer(offs[k], offs[h], size);
      }
      ring[head] := e;
      head := Slot(head + e.len, size);
      put, log, offs := put + [e], log + [e], offs + [offs[h] + e.len];
      assert Placed();
    }

    /** Reading the tail entries: their slot is in the ring, and the cursors are equal only if no entry
        lies between them. */
    lemma Cursor(k: nat)
      requires Placed() && t <= k < |log|
      ensures Slot(offs[k], size) < ring.Length && ring[Slot(offs[k], size)] == log[k] && log[k].len > 0
      ensures Slot(offs[k], size) != head
      ensures Slot(Slot(offs[k], size) + log[k].len, size) == Slot(offs[k + 1], size)
      ensures forall j :: t <= j < |log| && j != k ==> Slot(offs[j], size) != Slot(offs[k], size)
    {
      hide Slot, Laid;
      LaidAt(offs, log, k, |log|);
      if t < k { LaidAt(offs, log, t, k); }
      SlotsDiffer(offs[k], offs[|log|], size);
      SlotAdd(offs[k], log[k].len, size);
      forall j | t <= j < |log| && j != k ensures Slot(offs[j], size) != Slot(offs[k], size) {
        LaidAt(offs, log, j, |log|);
        if t < j { LaidAt(offs, log, t, j); }
        if j < k {
          LaidAt(offs, log, j, k);
          SlotsDiffer(offs[j], offs[k], size);
        } else {
          LaidAt(offs, log, k, j);
          SlotsDiffer(offs[k], offs[j], size);
        }
      }
    }

    /** What the fetch cursor points at. */
    lemma FetchCursor()
      requires Valid()
      ensures |log| == |put| && |offs| == |put| + 1 && t <= f <= |put| && (devTail != head <==> f < |put|)
      ensures f < |put| ==>
                && devTail < ring.Length && devTail == Slot(offs[f], size) && ring[devTail] == log[f]
                && log[f].op == put[f].op && log[f].id == put[f].id && log[f].supported == put[f].supported
    {
      hide Slot, Laid, Agrees, Answers, Fetched;
      if f < |log| { Cursor(f); AgreesAt(put, log, t, f); }
    }

    /** TCMU_UPDATE_DEV_TAIL: the fetch cursor passes one entry. */
    method UpdateDevTail()
      requires Valid() && f < |put|
      modifies this`devTail, this`f, this`fetched, this`inflight
      ensures Valid() && f == old(f) + 1
      ensures fetched == old(fetched) + Handed(put[old(f)])
      ensures inflight == old(inflight) + multiset(Handed(put[old(f)]))
    {
      hide Slot, Laid, Agrees, Answers, Fetched, Handed, Ids;
      Cursor(f);
      FetchedStep(put, f);
      MultisetAppend(fetched, Handed(put[f]));
      devTail := Slot(devTail + ring[devTail].len, size);
      f, fetched, inflight := f + 1, fetched + Handed(put[f]), inflight + multiset(Handed(put[f]));
    }

    /** Changes the entry k at or behind the tail in place, but not its operation, length, id or support. */
    method SetEntry(ghost k: nat, slot: nat, e: Entry)
      requires Valid() && t <= k < |log| && slot == Slot(offs[k], size)
      requires slot < ring.Length && e == log[k].(flagged := e.flagged)
      modifies this`log, ring
      ensures Valid() && k < |old(log)| && log == old(log)[k := e]
    {
      hide Slot, Laid, Agrees, Answers, Fetched;
      Cursor(k);
      LaidSet(offs, log, k, e);
      AgreesSet(put, log, t, k, e);
      assert log[..t] == log[k := e][..t];
      ring[slot] := e;
      log := log[k := e];
      assert Placed();
    }

    /** tcmulib_get_next_command: the next supported command in ring order, if there is one; padding and
        commands with an unsupported CDB length are passed over, entries of unknown operation are flagged
        and passed over. */
    method GetNextCommand() returns (r: Option<nat>)
      requires Valid()
      modifies this`devTail, this`f, this`fetched, this`inflight, this`log, ring
      ensures Valid() && old(f) <= f <= |put| == |log|
      ensures match r
              case None => f == |put| && fetched == old(fetched) && inflight == old(inflight)
                           && PassedOver(put, log, old(f), f)
              case Some(id) => old(f) < f && put[f - 1].op == Cmd && put[f - 1].supported && put[f - 1].id == id
                               && fetched == old(fetched) + [id] && inflight == old(inflight) + multiset{id}
                               && PassedOver(put, log, old(f), f - 1)
    {
      hide Placed, Answered, PassedOver, Agrees;
      FetchCursor();
      NothingPassed(put, log, f);
      while devTail != head
        invariant Valid() && old(f) <= f <= |put| == |log| && (devTail != head <==> f < |put|)
        invariant fetched == old(fetched) && inflight == old(inflight)
        invariant PassedOver(put, log, old(f), f)
        decreases |put| - f
      {
        FetchCursor();
        var ent := ring[devTail];
        if ent.op == Cmd && ent.supported {
          UpdateDevTail();
          FetchCursor();
          return Some(ent.id);
        }
        PassOne(put, log, old(f), f, ent.(flagged := true));
        if ent.op == Unknown {
          SetEntry(f, devTail, ent.(flagged := true));
        }
        UpdateDevTail();
        FetchCursor();
      }
      return None;
    }

    /** Every id handed out is one response or is in flight; commands behind the tail are those completed,
        so while one is in flight a fetched command entry is left. */
    lemma FetchedEntryLeft() returns (k: nat)
      requires Valid()
      ensures |completed| + |inflight| == |fetched| && |log| == |put|
      ensures Commands(put[..f]) - Commands(put[..t]) == |inflight| + Dropped(put[..f])
      ensures |inflight| > 0 ==> t <= k < f <= |log| && log[k].op == Cmd
    {
      hide Placed, Laid;
      assert |multiset(fetched)| == |fetched| && |multiset(Ids(completed))| == |completed|;
      CommandCounts(put[..f]);
      CommandCounts(log[..t]);
      SameOps(log[..t], put[..t]);
      k := t;
      if |inflight| > 0 {
        k := CommandBetween(put, t, f);
      }
    }

    /** With nothing in flight every id handed out has been answered once, and every fetched command
        entry is given back exactly when no command was dropped for its CDB length: a dropped command's
        entry takes the response of a later one, whose own entry then stays in the ring. */
    lemma Idle()
      requires Valid() && inflight == multiset{}
      ensures multiset(Ids(completed)) == multiset(fetched) && |log| == |put| && t <= f <= |log|
      ensures (forall k :: t <= k < f ==> log[k].op != Cmd) <==> Dropped(put[..f]) == 0
    {
      hide Placed, Laid;
      var c := FetchedEntryLeft();
      if forall k :: t <= k < f ==> log[k].op != Cmd {
        NoCommandBetween(put, t, f);
      } else {
        var k :| t <= k < f && log[k].op == Cmd;
        SomeCommandBetween(put, t, k, f);
      }
    }

    /** What the release cursor points at. */
    lemma TailCursor()
      requires Valid()
      ensures |log| == |put| && |offs| == |put| + 1 && t <= f <= |put|
      ensures t < |log| ==>
                && mbTail < ring.Length && mbTail == Slot(offs[t], size) && ring[mbTail] == log[t] && mbTail != head
    {
      hide Slot, Laid, Agrees, Answers, Fetched;
      if t < |log| { Cursor(t); }
    }

    /** TCMU_UPDATE_RB_TAIL over a fetched entry that is no command. */
    method SkipTail()
      requires Valid() && t < f && log[t].op != Cmd
      modifies this`mbTail, this`t
      ensures Valid() && t == old(t) + 1
    {
      hide Slot, Laid, Agrees, Fetched, Ids, Answers;
      Cursor(t);
      AnswersStep(log, t);
      AgreesMore(put, log, t);
      LaidAt(offs, log, t, t + 1);
      mbTail := Slot(mbTail + ring[mbTail].len, size);
      t := t + 1;
    }

    /** Writes the response into the command entry at the tail and gives the entry back. */
    method Respond(id: nat, status: nat)
      requires Valid() && t < f && log[t].op == Cmd && id in inflight
      modifies this`mbTail, this`t, this`log, this`completed, this`inflight, ring
      ensures Valid() && t == old(t) + 1 && |log| == |old(log)|
      ensures completed == old(completed) + [Answer(id, status)] && inflight == old(inflight) - multiset{id}
      ensures log == old(log)[old(t) := old(log)[old(t)].(id := id, status := status)]
    {
      hide Slot, Laid, Agrees, Fetched, Ids, Answers;
      Cursor(t);
      var e := ring[mbTail].(id := id, status := status);
      ghost var log1 := log[t := e];
      LaidSet(offs, log, t, e);
      LaidAt(offs, log1, t, t + 1);
      AnswersStep(log1, t);
      assert log1[..t] == log[..t];
      AgreesMore(put, log, t);
      AgreesSet(put, log, t + 1, t, e);
      MoveOne(multiset(fetched), completed, inflight, Answer(id, status));
      ring[mbTail] := e;
      mbTail := Slot(mbTail + e.len, size);
      log, completed, inflight, t := log1, completed + [Answer(id, status)], inflight - multiset{id}, t + 1;
    }

    /** tcmulib_command_complete, for a command in flight. The response goes into the first command entry
        not given back, whatever command that entry held; the entry has been fetched, and with it every
        entry before it is given back. */
    method CommandComplete(id: nat, status: nat)
      requires Valid() && id in inflight
      modifies this`mbTail, this`t, this`log, this`completed, this`inflight, ring
      ensures Valid() && old(t) < t <= f && |log| == |old(log)|
      ensures completed == old(completed) + [Answer(id, status)] && inflight == old(inflight) - multiset{id}
      ensures log[t - 1].op == Cmd && log[t - 1].id == id && log[t - 1].status == status
      ensures forall k :: old(t) <= k < t - 1 ==> log[k].op != Cmd
      ensures forall k :: 0 <= k < |log| && k != t - 1 ==> log[k] == old(log)[k]
    {
      hide Placed, Answered;
      ghost var c := FetchedEntryLeft();
      TailCursor();
      while mbTail != head
        invariant Valid() && old(t) <= t <= c < f <= |log| && log == old(log)
        invariant mbTail < ring.Length && ring[mbTail] == log[t] && mbTail != head
        invariant completed == old(completed) && inflight == old(inflight)
        invariant forall k :: old(t) <= k < t ==> log[k].op != Cmd
        decreases f - t
      {
        if ring[mbTail].op == Cmd { break; }
        SkipTail();
        TailCursor();
      }
      Respond(id, status);
      TailCursor();
    }
  }

  lemma MoveOne(all: multiset<nat>, done: seq<Answer>, inflight: multiset<nat>, a: Answer)
    requires all == multiset(Ids(done)) + inflight && a.id in inflight
    ensures all == multiset(Ids(done + [a])) + (inflight - multiset{a.id})
  {
    assert Ids(done + [a]) == Ids(done) + [a.id];
  }

  /** The response a command entry carries. */
  function Response(e: Entry): seq<Answer> { if e.op == Cmd then [Answer(e.id, e.status)] else [] }

  lemma AnswersStep(s: seq<Entry>, t: nat)
    requires t < |s|
    ensures Answers(s[..t + 1]) == Answers(s[..t]) + Response(s[t])
  {
    assert s[..t + 1][..t] == s[..t];
  }

  lemma AgreesMore(put: seq<Entry>, log: seq<Entry>, t: nat)
    requires Agrees(put, log, t)
    ensures Agrees(put, log, t + 1)
  {
  }

  /** Entries from a to b hand out no command, and those of unknown operation are flagged. */
  ghost predicate PassedOver(put: seq<Entry>, log: seq<Entry>, a: nat, b: nat) {
    && b <= |put| == |log|
    && forall k :: a <= k < b ==> Handed(put[k]) == [] && (put[k].op == Unknown ==> log[k].flagged)
  }

  lemma NothingPassed(put: seq<Entry>, log: seq<Entry>, a: nat)
    requires a <= |put| == |log|
    ensures PassedOver(put, log, a, a)
  {
  }

  lemma PassOne(put: seq<Entry>, log: seq<Entry>, a: nat, b: nat, e: Entry)
    requires b < |put| == |log| && PassedOver(put, log, a, b) && Handed(put[b]) == []
    ensures put[b].op != Unknown ==> PassedOver(put, log, a, b + 1)
    ensures e.flagged ==> PassedOver(put, log[b := e], a, b + 1)
  {
  }

  function Handed(e: Entry): seq<nat> { if e.op == Cmd && e.supported then [e.id] else [] }

  lemma FetchedStep(s: seq<Entry>, f: nat)
    requires f < |s|
    ensures Fetched(s[..f + 1]) == Fetched(s[..f]) + Handed(s[f])
  {
    assert s[..f + 1][..f] == s[..f];
  }

  lemma MultisetAppend(a: seq<nat>, b: seq<nat>)
    ensures multiset(a + b) == multiset(a) + multiset(b)
  {
  }

  lemma AgreesAt(put: seq<Entry>, log: seq<Entry>, t: nat, k: nat)
    requires Agrees(put, log, t) && k < |put|
    ensures |log| == |put| && log[k].op == put[k].op && log[k].len == put[k].len
    ensures t <= k ==> log[k].id == put[k].id && log[k].supported == put[k].supported
  {
  }

  lemma AgreesSet(put: seq<Entry>, log: seq<Entry>, t: nat, k: nat, e: Entry)
    requires Agrees(put, log, t) && k < |log| && e.op == log[k].op && e.len == log[k].len
    requires k < t || (e.id == log[k].id && e.supported == log[k].supported)
    ensures Agrees(put, log[k := e], t)
  {
  }

  lemma LaidSet(offs: seq<nat>, log: seq<Entry>, k: nat, e: Entry)
    requires Laid(offs, log) && k < |log| && e.len == log[k].len
    ensures Laid(offs, log[k := e])
  {
  }
}
