/** Device recovery: a device that has lost its connection is put on the list of one target port group,
    whose thread reopens it; lock threads and state queries may reopen it directly. */
module Recovery {
  import opened Common

  /** A target port as the kernel describes it; id stands for fabric, WWN and port group tag. */
  datatype Port = Port(id: nat, enabled: bool)

  /** struct tgt_port_grp: while hooked it is on the global recovery list. devs are the devices its
        thread has still to reopen, busy says that it is reopening the first. */
  datatype Group = Group(port: nat, hooked: bool, devs: seq<nat>, busy: bool)

  /** direct counts the threads inside tcmu_reopen_dev past its check. */
  datatype Device = Device(inRecovery: bool, stopping: bool, direct: nat)

  datatype State = State(devs: seq<Device>, groups: seq<Group>)

  // ---- tcmu_add_dev_to_recovery_list ----

  /** port_is_on_recovery_list: the first hooked group of the port, or |groups|. */
  function Hooked(groups: seq<Group>, id: nat): (g: nat)
    ensures g <= |groups| && (g < |groups| ==> groups[g].hooked && groups[g].port == id)
    ensures forall k :: 0 <= k < g ==> !(groups[k].hooked && groups[k].port == id)
  {
    if groups == [] then 0
    else if groups[0].hooked && groups[0].port == id then 0
    else Hooked(groups[1..], id) + 1
  }

  /** The group of the first port that has a hooked one, or |groups|. */
  function Listed(groups: seq<Group>, ports: seq<Port>): (g: nat)
    ensures g <= |groups| && (g < |groups| ==> groups[g].hooked)
  {
    if ports == [] then |groups|
    else if Hooked(groups, ports[0].id) < |groups| then Hooked(groups, ports[0].id)
    else Listed(groups, ports[1..])
  }

  /** The last enabled port. */
  function Enabled(ports: seq<Port>): Option<nat> {
    if ports == [] then None
    else if ports[|ports| - 1].enabled then Some(ports[|ports| - 1].id)
    else Enabled(ports[..|ports| - 1])
  }

  /** The groups with device d added, or none on failure: the ports cannot be read, none is enabled, or
      the thread cannot be started. */
  function Added(groups: seq<Group>, ports: Option<seq<Port>>, threadOk: bool, d: nat): Option<seq<Group>> {
    if ports.None? then None
    else
      var g := Listed(groups, ports.value);
      if g < |groups| then Some(groups[g := groups[g].(devs := [d] + groups[g].devs)])
      else if Enabled(ports.value).None? || !threadOk then None
      else Some(groups + [Group(Enabled(ports.value).value, true, [d], false)])
  }

  // ---- where a device is listed, apart from the search that finds the place ----

  ghost predicate HasHooked(groups: seq<Group>, id: nat) {
    exists g :: 0 <= g < |groups| && groups[g].hooked && groups[g].port == id
  }

  ghost predicate AnyHooked(groups: seq<Group>, ports: seq<Port>) {
    exists k :: 0 <= k < |ports| && HasHooked(groups, ports[k].id)
  }

  /** The ports can be read, and one of them has a listed group, or one is enabled and a thread for a new
      group starts. */
  ghost predicate CanList(groups: seq<Group>, ports: Option<seq<Port>>, threadOk: bool) {
    && ports.Some?
    && (AnyHooked(groups, ports.value) || (threadOk && exists k :: 0 <= k < |ports.value| && ports.value[k].enabled))
  }

  /** Group g, listed for port number k and the first of the ports to have one, has got device d. */
  ghost predicate JoinedAt(groups: seq<Group>, after: seq<Group>, ports: seq<Port>, d: nat, g: nat, k: nat) {
    && g < |groups| && k < |ports| && groups[g].hooked && groups[g].port == ports[k].id
    && !AnyHooked(groups, ports[..k])
    && after == groups[g := groups[g].(devs := [d] + groups[g].devs)]
  }

  /** No port has a listed group, and one has been made for port number k, the last that is enabled. */
  ghost predicate StartedAt(groups: seq<Group>, after: seq<Group>, ports: seq<Port>, d: nat, k: nat) {
    && k < |ports| && ports[k].enabled && (forall j :: k < j < |ports| ==> !ports[j].enabled)
    && !AnyHooked(groups, ports)
    && after == groups + [Group(ports[k].id, true, [d], false)]
  }

  ghost predicate Placed(groups: seq<Group>, after: seq<Group>, ports: seq<Port>, d: nat) {
    || (exists g, k :: JoinedAt(groups, after, ports, d, g, k))
    || exists k :: StartedAt(groups, after, ports, d, k)
  }

  lemma HookedExact(groups: seq<Group>, id: nat)
    ensures Hooked(groups, id) < |groups| <==> HasHooked(groups, id)
  {
  }

  lemma {:induction false} ListedExact(groups: seq<Group>, ports: seq<Port>) returns (k: nat)
    ensures Listed(groups, ports) < |groups| <==> AnyHooked(groups, ports)
    ensures Listed(groups, ports) < |groups| ==>
              k < |ports| && groups[Listed(groups, ports)].port == ports[k].id && !AnyHooked(groups, ports[..k])
  {
    hide Hooked, HasHooked;
    k := 0;
    if ports != [] {
      HookedExact(groups, ports[0].id);
      if Hooked(groups, ports[0].id) == |groups| {
        k := ListedExact(groups, ports[1..]);
        k := k + 1;
        RestHooked(groups, ports);
        if Listed(groups, ports) < |groups| {
          assert ports[..k][1..] == ports[1..][..k - 1];
          RestHooked(groups, ports[..k]);
        }
      }
    }
  }

  lemma RestHooked(groups: seq<Group>, ports: seq<Port>)
    requires ports != [] && !HasHooked(groups, ports[0].id)
    ensures AnyHooked(groups, ports) <==> AnyHooked(groups, ports[1..])
  {
    hide HasHooked;
    if AnyHooked(groups, ports[1..]) {
      var k :| 0 <= k < |ports| - 1 && HasHooked(groups, ports[1..][k].id);
      assert ports[1..][k] == ports[k + 1];
    }
    if AnyHooked(groups, ports) {
      var k :| 0 <= k < |ports| && HasHooked(groups, ports[k].id);
      assert ports[1..][k - 1] == ports[k];
    }
  }

  lemma {:induction false} EnabledExact(ports: seq<Port>) returns (k: nat)
    ensures Enabled(ports).Some? <==> exists j :: 0 <= j < |ports| && ports[j].enabled
    ensures Enabled(ports).Some? ==>
              && k < |ports| && ports[k].enabled && Enabled(ports).value == ports[k].id
              && forall j :: k < j < |ports| ==> !ports[j].enabled
  {
    k := 0;
    if ports != [] {
      var n := |ports| - 1;
      if ports[n].enabled {
        k := n;
      } else {
        k := EnabledExact(ports[..n]);
        assert forall j :: 0 <= j < n ==> ports[..n][j] == ports[j];
      }
    }
  }

  /** Adding a device succeeds exactly then, and puts it there. */
  lemma AddedExact(groups: seq<Group>, ports: Option<seq<Port>>, threadOk: bool, d: nat)
    ensures Added(groups, ports, threadOk, d).Some? <==> CanList(groups, ports, threadOk)
    ensures Added(groups, ports, threadOk, d).Some? ==>
              Placed(groups, Added(groups, ports, threadOk, d).value, ports.value, d)
  {
    hide Listed, Enabled, AnyHooked;
    if ports.Some? {
      var k := ListedExact(groups, ports.value);
      var e := EnabledExact(ports.value);
      var g := Listed(groups, ports.value);
      if Added(groups, ports, threadOk, d).Some? {
        var after := Added(groups, ports, threadOk, d).value;
        if g < |groups| {
          assert JoinedAt(groups, after, ports.value, d, g, k);
        } else {
          assert StartedAt(groups, after, ports.value, d, e);
        }
      }
    }
  }

  // ---- steps ----

  datatype Step =
    | ConnLost(d: nat, ports: Option<seq<Port>>, threadOk: bool)
    | Unhook(g: nat)                       // a recovery thread leaves the global list
    | BeginReopen(g: nat)                  // and takes the first device of its own
    | EndReopen(g: nat)
    | TryReopen(d: nat)                    // tcmu_reopen_dev up to its check
    | EndDirect(d: nat)
    | Stop(d: nat)

  predicate CanStep(s: State, a: Step) {
    match a
    case ConnLost(d, _, _) => d < |s.devs|
    case Unhook(g) => g < |s.groups| && s.groups[g].hooked
    case BeginReopen(g) => g < |s.groups| && !s.groups[g].hooked && !s.groups[g].busy && s.groups[g].devs != []
    case EndReopen(g) => g < |s.groups| && s.groups[g].busy && s.groups[g].devs != [] && s.groups[g].devs[0] < |s.devs|
    case TryReopen(d) => d < |s.devs|
    case EndDirect(d) => d < |s.devs| && s.devs[d].direct > 0
    case Stop(d) => d < |s.devs|
  }

  function Next(s: State, a: Step): State
    requires CanStep(s, a)
  {
    match a
    case ConnLost(d, ports, threadOk) =>
      if s.devs[d].stopping || s.devs[d].inRecovery then s
      else
        var gs := Added(s.groups, ports, threadOk, d);
        if gs.None? then s else State(s.devs[d := s.devs[d].(inRecovery := true)], gs.value)
    case Unhook(g) => s.(groups := s.groups[g := s.groups[g].(hooked := false)])
    case BeginReopen(g) => s.(groups := s.groups[g := s.groups[g].(busy := true)])
    case EndReopen(g) =>
      var grp := s.groups[g];
      State(s.devs[grp.devs[0] := s.devs[grp.devs[0]].(inRecovery := false)],
            s.groups[g := grp.(busy := false, devs := grp.devs[1..])])
    case TryReopen(d) =>
      if s.devs[d].inRecovery then s
      else s.(devs := s.devs[d := s.devs[d].(inRecovery := true, direct := s.devs[d].direct + 1)])
    case EndDirect(d) =>
      s.(devs := s.devs[d := s.devs[d].(inRecovery := false, direct := s.devs[d].direct - 1)])
    case Stop(d) => s.(devs := s.devs[d := s.devs[d].(stopping := true)])
  }

  // ---- who reopens a device, and where it is listed ----

  function Occurs(ds: seq<nat>, d: nat): nat {
    if ds == [] then 0 else (if ds[0] == d then 1 else 0) + Occurs(ds[1..], d)
  }

  /** The times device d is listed, over all groups. */
  function InLists(groups: seq<Group>, d: nat): nat {
    if groups == [] then 0 else InLists(groups[..|groups| - 1], d) + Occurs(groups[|groups| - 1].devs, d)
  }

  /** The parties reopening d: threads inside tcmu_reopen_dev, and groups busy with it. */
  function Reopeners(groups: seq<Group>, d: nat): nat {
    if groups == [] then 0
    else
      var g := groups[|groups| - 1];
      Reopeners(groups[..|groups| - 1], d) + if g.busy && g.devs != [] && g.devs[0] == d then 1 else 0
  }

  lemma {:induction false} InListsUpdate(groups: seq<Group>, g: nat, x: Group, d: nat)
    requires g < |groups|
    ensures InLists(groups[g := x], d) == InLists(groups, d) - Occurs(groups[g].devs, d) + Occurs(x.devs, d)
  {
    var n := |groups| - 1;
    if g == n {
      assert groups[g := x][..n] == groups[..n];
    } else {
      assert groups[g := x][..n] == groups[..n][g := x];
      InListsUpdate(groups[..n], g, x, d);
    }
  }

  lemma {:induction false} ReopenersListed(groups: seq<Group>, d: nat)
    ensures Reopeners(groups, d) <= InLists(groups, d)
  {
    if groups != [] { ReopenersListed(groups[..|groups| - 1], d); }
  }

  /** A device is flagged exactly when one party claims it: a list entry or a direct reopener. */
  ghost predicate ClaimsOK(s: State) {
    forall d :: 0 <= d < |s.devs| ==>
      InLists(s.groups, d) + s.devs[d].direct == if s.devs[d].inRecovery then 1 else 0
  }

  ghost predicate GroupsOK(s: State) {
    && (forall g :: 0 <= g < |s.groups| ==> GroupOK(s.groups[g], |s.devs|))
    && forall g, h :: 0 <= g < h < |s.groups| ==> !SameHooked(s.groups[g], s.groups[h])
  }

  predicate SameHooked(g: Group, h: Group) { g.hooked && h.hooked && g.port == h.port }

  ghost predicate GroupOK(g: Group, n: nat) {
    && (forall i :: 0 <= i < |g.devs| ==> g.devs[i] < n)
    && (g.busy ==> !g.hooked && g.devs != [])
  }

  ghost predicate Inv(s: State) { ClaimsOK(s) && GroupsOK(s) }

  lemma OccursCons(ds: seq<nat>, x: nat, d: nat)
    ensures Occurs([x] + ds, d) == (if x == d then 1 else 0) + Occurs(ds, d)
  {
    assert ([x] + ds)[1..] == ds;
  }

  /** Adding a device lists it once more, and no other. */
  lemma AddedLists(groups: seq<Group>, ports: Option<seq<Port>>, threadOk: bool, x: nat, d: nat)
    requires Added(groups, ports, threadOk, x).Some?
    ensures InLists(Added(groups, ports, threadOk, x).value, d) == InLists(groups, d) + if x == d then 1 else 0
  {
    hide Listed, Enabled;
    var g := Listed(groups, ports.value);
    if g < |groups| {
      InListsUpdate(groups, g, groups[g].(devs := [x] + groups[g].devs), d);
      OccursCons(groups[g].devs, x, d);
    } else {
      var gs := Added(groups, ports, threadOk, x).value;
      assert gs[..|groups|] == groups;
      OccursCons([], x, d);
      assert [x] + [] == [x];
    }
  }

  lemma ClaimsKept(s: State, a: Step)
    requires ClaimsOK(s) && CanStep(s, a)
    ensures ClaimsOK(Next(s, a))
  {
    hide Added, InLists, Occurs;
    var n := Next(s, a);
    forall d | 0 <= d < |s.devs|
      ensures InLists(n.groups, d) + n.devs[d].direct == if n.devs[d].inRecovery then 1 else 0
    {
      match a {
        case ConnLost(x, ports, threadOk) =>
          if n != s { AddedLists(s.groups, ports, threadOk, x, d); }
        case Unhook(g) => InListsUpdate(s.groups, g, n.groups[g], d);
        case BeginReopen(g) => InListsUpdate(s.groups, g, n.groups[g], d);
        case EndReopen(g) =>
          InListsUpdate(s.groups, g, n.groups[g], d);
          OccursCons(s.groups[g].devs[1..], s.groups[g].devs[0], d);
          assert s.groups[g].devs == [s.groups[g].devs[0]] + s.groups[g].devs[1..];
        case _ =>
      }
    }
  }

  lemma {:induction false} NoneListed(groups: seq<Group>, ports: seq<Port>, k: nat)
    requires Listed(groups, ports) == |groups| && k < |ports|
    ensures forall g :: 0 <= g < |groups| ==> !(groups[g].hooked && groups[g].port == ports[k].id)
  {
    if k > 0 { NoneListed(groups, ports[1..], k - 1); }
  }

  lemma {:induction false} EnabledIn(ports: seq<Port>) returns (k: nat)
    requires Enabled(ports).Some?
    ensures k < |ports| && ports[k].id == Enabled(ports).value
  {
    if ports[|ports| - 1].enabled { k := |ports| - 1; } else { k := EnabledIn(ports[..|ports| - 1]); }
  }

  lemma AddedGroups(groups: seq<Group>, ports: Option<seq<Port>>, threadOk: bool, d: nat, g: nat)
    requires Added(groups, ports, threadOk, d).Some?
    ensures var gs := Added(groups, ports, threadOk, d).value;
            && |groups| <= |gs|
            && (g < |groups| ==>
                  gs[g] == groups[g] || (groups[g].hooked && gs[g] == groups[g].(devs := [d] + groups[g].devs)))
            && (|groups| < |gs| ==> |gs| == |groups| + 1 && gs[|groups|] == Group(gs[|groups|].port, true, [d], false))
            && (g < |groups| < |gs| ==> !SameHooked(groups[g], gs[|groups|]))
  {
    hide Hooked;
    var l := Listed(groups, ports.value);
    if l == |groups| {
      var k := EnabledIn(ports.value);
      NoneListed(groups, ports.value, k);
    }
  }

  lemma GroupsKept(s: State, a: Step)
    requires GroupsOK(s) && CanStep(s, a)
    ensures GroupsOK(Next(s, a))
  {
    hide Added;
    var n := Next(s, a);
    if a.ConnLost? && n != s {
      forall g | 0 <= g < |n.groups| ensures GroupOK(n.groups[g], |n.devs|) {
        AddedGroups(s.groups, a.ports, a.threadOk, a.d, g);
      }
      forall g, h | 0 <= g < h < |n.groups| ensures !SameHooked(n.groups[g], n.groups[h]) {
        AddedGroups(s.groups, a.ports, a.threadOk, a.d, g);
        AddedGroups(s.groups, a.ports, a.threadOk, a.d, h);
      }
    }
  }

  // ---- runs ----

  ghost predicate Runs(s: State, steps: seq<Step>)
    decreases |steps|
  {
    steps == [] || (CanStep(s, steps[0]) && Runs(Next(s, steps[0]), steps[1..]))
  }

  function After(s: State, steps: seq<Step>): State
    requires Runs(s, steps)
    decreases |steps|
  {
    if steps == [] then s else After(Next(s, steps[0]), steps[1..])
  }

  function Begin(n: nat): State { State(seq(n, _ => Device(false, false, 0)), []) }

  lemma {:induction false} RunKeeps(s: State, steps: seq<Step>)
    requires Inv(s) && Runs(s, steps)
    ensures Inv(After(s, steps))
    decreases |steps|
  {
    hide ClaimsOK, GroupsOK, Next, CanStep;
    if steps != [] {
      ClaimsKept(s, steps[0]);
      GroupsKept(s, steps[0]);
      RunKeeps(Next(s, steps[0]), steps[1..]);
    }
  }

  /** In any interleaving of lost connections, recovery threads and direct reopens: at most one party
      reopens a device at a time; a device that is flagged and not reopened directly is listed exactly
      once over all groups, any other is not listed; no port has two hooked groups. */
  lemma OneReopener(n: nat, steps: seq<Step>, d: nat)
    requires Runs(Begin(n), steps) && d < |After(Begin(n), steps).devs|
    ensures var e := After(Begin(n), steps);
            && Reopeners(e.groups, d) + e.devs[d].direct <= 1
            && (Reopeners(e.groups, d) + e.devs[d].direct == 1 ==> e.devs[d].inRecovery)
            && InLists(e.groups, d) == (if e.devs[d].inRecovery && e.devs[d].direct == 0 then 1 else 0)
            && forall g, h :: 0 <= g < h < |e.groups| ==> !SameHooked(e.groups[g], e.groups[h])
  {
    hide Runs, After, InLists, Reopeners;
    InvBegin(n);
    RunKeeps(Begin(n), steps);
    ReopenersListed(After(Begin(n), steps).groups, d);
  }

  lemma InvBegin(n: nat)
    ensures Inv(Begin(n))
  {
  }

  /** Whatever is reachable, a step that ends a reopen finds the flag set; once a thread has unhooked its
      group no step adds a device to it; and a step clears the flag of a device only by ending its
      reopen. */
  lemma StepsAreOrderly(s: State, a: Step, g: nat)
    requires Inv(s) && CanStep(s, a)
    ensures a.EndReopen? ==> s.devs[s.groups[a.g].devs[0]].inRecovery
    ensures a.EndDirect? ==> s.devs[a.d].inRecovery
    ensures g < |s.groups| ==> g < |Next(s, a).groups|
    ensures g < |s.groups| && !s.groups[g].hooked ==>
              !Next(s, a).groups[g].hooked
              && (Next(s, a).groups[g].devs == s.groups[g].devs
                  || (a == EndReopen(g) && Next(s, a).groups[g].devs == s.groups[g].devs[1..]))
    ensures |Next(s, a).devs| == |s.devs|
    ensures forall d :: 0 <= d < |s.devs| && s.devs[d].inRecovery && !Next(s, a).devs[d].inRecovery ==>
              a == EndDirect(d) || (a.EndReopen? && s.groups[a.g].devs[0] == d)
  {
    hide Added;
    match a
    case ConnLost(d, ports, threadOk) =>
      if Next(s, a) != s { AddedGroups(s.groups, ports, threadOk, d, g); }
    case EndReopen(h) =>
      FirstListed(s.groups, h);
      assert InLists(s.groups, s.groups[h].devs[0]) >= 1;
    case _ =>
  }

  lemma {:induction false} FirstListed(groups: seq<Group>, g: nat)
    requires g < |groups| && groups[g].devs != []
    ensures InLists(groups, groups[g].devs[0]) >= 1
  {
    if g < |groups| - 1 { FirstListed(groups[..|groups| - 1], g); }
  }

  // ---- a listed device is reopened ----

  lemma OneStep(s: State, a: Step, rest: seq<Step>)
    requires CanStep(s, a) && Runs(Next(s, a), rest)
    ensures Runs(s, [a] + rest) && After(s, [a] + rest) == After(Next(s, a), rest)
  {
    assert ([a] + rest)[1..] == rest;
  }

  lemma NoSteps(s: State)
    ensures Runs(s, []) && After(s, []) == s
  {
  }

  /** A recovery thread that has left the list, and is not reopening, comes to the end of its own list by
      reopening one device after the other; then none of them is in recovery, and no other device has
      changed. */
  lemma {:induction false} GroupDrained(s: State, g: nat) returns (steps: seq<Step>)
    requires Inv(s) && g < |s.groups| && !s.groups[g].hooked && !s.groups[g].busy
    ensures Runs(s, steps) && |After(s, steps).devs| == |s.devs|
    ensures |After(s, steps).groups| == |s.groups| && After(s, steps).groups[g].devs == []
    ensures forall d :: 0 <= d < |s.devs| ==>
              After(s, steps).devs[d] ==
              if d in s.groups[g].devs then s.devs[d].(inRecovery := false) else s.devs[d]
    decreases |s.groups[g].devs|
  {
    hide Runs, After, ClaimsOK;
    steps := [];
    NoSteps(s);
    var ds := s.groups[g].devs;
    if ds != [] {
      var s1 := Next(s, BeginReopen(g));
      ClaimsKept(s, BeginReopen(g));
      GroupsKept(s, BeginReopen(g));
      assert GroupOK(s1.groups[g], |s1.devs|);
      var s2 := Next(s1, EndReopen(g));
      ClaimsKept(s1, EndReopen(g));
      GroupsKept(s1, EndReopen(g));
      steps := GroupDrained(s2, g);
      OneStep(s1, EndReopen(g), steps);
      steps := [EndReopen(g)] + steps;
      OneStep(s, BeginReopen(g), steps);
      steps := [BeginReopen(g)] + steps;
      assert ds == [ds[0]] + ds[1..];
    }
  }

  /** The group a device has been added to. */
  lemma PlacedIn(groups: seq<Group>, after: seq<Group>, ports: seq<Port>, d: nat) returns (g: nat)
    requires Placed(groups, after, ports, d)
    ensures g < |after| && after[g].hooked && d in after[g].devs
  {
    hide AnyHooked;
    if j, k :| JoinedAt(groups, after, ports, d, j, k) {
      g := j;
    } else {
      g := |groups|;
    }
  }

  /** A device that loses its connection and can be listed is then reopened by its group's thread: from any
      reachable state there is a run to one in which it is no longer in recovery. */
  lemma LostIsRecovered(s: State, d: nat, ports: Option<seq<Port>>, threadOk: bool) returns (steps: seq<Step>)
    requires Inv(s) && d < |s.devs| && !s.devs[d].stopping && !s.devs[d].inRecovery
    requires CanList(s.groups, ports, threadOk)
    ensures Runs(s, [ConnLost(d, ports, threadOk)] + steps)
    ensures var e := After(s, [ConnLost(d, ports, threadOk)] + steps);
            |e.devs| == |s.devs| && e.devs[d] == s.devs[d]
  {
    hide Runs, After, ClaimsOK, Added, AnyHooked, Placed;
    var lost := ConnLost(d, ports, threadOk);
    AddedExact(s.groups, ports, threadOk, d);
    ClaimsKept(s, lost);
    GroupsKept(s, lost);
    var s1 := Next(s, lost);
    var g := PlacedIn(s.groups, s1.groups, ports.value, d);
    assert GroupOK(s1.groups[g], |s1.devs|);
    ClaimsKept(s1, Unhook(g));
    GroupsKept(s1, Unhook(g));
    var s2 := Next(s1, Unhook(g));
    steps := GroupDrained(s2, g);
    OneStep(s1, Unhook(g), steps);
    steps := [Unhook(g)] + steps;
    OneStep(s, lost, steps);
  }

  /** A direct reopen from its check to its end leaves everything as it was; a device in recovery is left
      alone, and one that is stopping is only marked. */
  lemma DirectReopened(s: State, d: nat)
    requires d < |s.devs|
    ensures !s.devs[d].inRecovery ==>
              var s1 := Next(s, TryReopen(d));
              && d < |s1.devs| && s1.devs[d].inRecovery && CanStep(s1, EndDirect(d)) && Next(s1, EndDirect(d)) == s
    ensures s.devs[d].inRecovery ==> Next(s, TryReopen(d)) == s
    ensures Next(s, Stop(d)) == s.(devs := s.devs[d := s.devs[d].(stopping := true)])
  {
  }

  // ---- the locked sections, in place ----

  const EBUSY := 16
  const EIO := 5
  const ENOMEM := 12

  class Runner {
    var devs: seq<Device>
    var groups: seq<Group>

    function Abs(): State
      reads this
    {
      State(devs, groups)
    }

    constructor (n: nat)
      ensures Abs() == Begin(n)
    {
      devs, groups := seq(n, _ => Device(false, false, 0)), [];
    }

    /** port_is_on_recovery_list */
    method PortIsOnRecoveryList(id: nat) returns (g: nat)
      ensures g == Hooked(groups, id)
    {
      g := 0;
      while g < |groups|
        invariant g <= |groups|
        invariant forall k :: 0 <= k < g ==> !(groups[k].hooked && groups[k].port == id)
      {
        if groups[g].port == id && groups[g].hooked { return; }
        g := g + 1;
      }
    }

    /** tcmu_add_dev_to_recovery_list */
    method AddDevToRecoveryList(d: nat, ports: Option<seq<Port>>, threadOk: bool) returns (ret: int)
      modifies this`groups
      ensures ret == 0 <==> old(Added(groups, ports, threadOk, d)).Some?
      ensures groups == if ret == 0 then old(Added(groups, ports, threadOk, d)).value else old(groups)
    {
      hide Hooked;
      if ports.None? { return -EIO; }
      var ps := ports.value;
      var enabled: Option<nat> := None;
      var k := 0;
      while k < |ps|
        invariant k <= |ps| && groups == old(groups)
        invariant enabled == Enabled(ps[..k]) && Listed(groups, ps) == Listed(groups, ps[k..])
      {
        assert ps[..k + 1][..k] == ps[..k] && ps[k..][1..] == ps[k + 1..];
        if ps[k].enabled { enabled := Some(ps[k].id); }
        var g := PortIsOnRecoveryList(ps[k].id);
        if g < |groups| {
          groups := groups[g := groups[g].(devs := [d] + groups[g].devs)];
          return 0;
        }
        k := k + 1;
      }
      assert ps[..k] == ps;
      if enabled.None? { return -EIO; }
      if !threadOk { return -ENOMEM; }
      groups := groups + [Group(enabled.value, true, [d], false)];
      return 0;
    }

    /** tcmu_notify_conn_lost: a device that is neither stopping nor in recovery is flagged and listed once, if
        it can be; otherwise nothing changes. */
    method NotifyConnLost(d: nat, ports: Option<seq<Port>>, threadOk: bool)
      requires d < |devs|
      modifies this
      ensures Abs() == Next(old(Abs()), ConnLost(d, ports, threadOk))
      ensures var was := old(devs[d]);
              if !was.stopping && !was.inRecovery && CanList(old(groups), ports, threadOk) then
                && devs == old(devs)[d := was.(inRecovery := true)]
                && Placed(old(groups), groups, ports.value, d)
                && (forall x: nat :: InLists(groups, x) == old(InLists(groups, x)) + if x == d then 1 else 0)
              else
                devs == old(devs) && groups == old(groups)
      ensures old(ClaimsOK(Abs()) && !devs[d].inRecovery) && devs[d].inRecovery ==> InLists(groups, d) == 1
    {
      hide Added, InLists, CanList, Placed;
      AddedExact(groups, ports, threadOk, d);
      if Added(groups, ports, threadOk, d).Some? {
        forall x: nat
          ensures InLists(Added(groups, ports, threadOk, d).value, x) == InLists(groups, x) + if x == d then 1 else 0
        {
          AddedLists(groups, ports, threadOk, d, x);
        }
      }
      if devs[d].stopping || devs[d].inRecovery { return; }
      var ret := AddDevToRecoveryList(d, ports, threadOk);
      if ret == 0 { devs := devs[d := devs[d].(inRecovery := true)]; }
    }

    /** tcmu_reopen_dev up to the call of __tcmu_reopen_dev */
    method TryReopen(d: nat) returns (ret: int)
      requires d < |devs|
      modifies this`devs
      ensures Abs() == Next(old(Abs()), Step.TryReopen(d)) && (ret == 0 <==> !old(devs[d]).inRecovery)
      ensures ret == 0 ==> devs == old(devs)[d := old(devs[d]).(inRecovery := true, direct := old(devs[d]).direct + 1)]
      ensures ret != 0 ==> ret == -EBUSY && devs == old(devs)
    {
      if devs[d].inRecovery { return -EBUSY; }
      devs := devs[d := devs[d].(inRecovery := true, direct := devs[d].direct + 1)];
      return 0;
    }

    /** A recovery thread takes the first device of its list. */
    method TakeFirst(g: nat)
      requires CanStep(Abs(), BeginReopen(g))
      modifies this`groups
      ensures Abs() == Next(old(Abs()), BeginReopen(g))
      ensures groups == old(groups)[g := old(groups[g]).(busy := true)] && devs == old(devs)
    {
      groups := groups[g := groups[g].(busy := true)];
    }

    /** __tcmu_reopen_dev, run by a recovery thread, is over for that device. */
    method FinishFirst(g: nat)
      requires CanStep(Abs(), EndReopen(g))
      modifies this
      ensures Abs() == Next(old(Abs()), EndReopen(g))
      ensures var was := old(groups[g]);
              && groups == old(groups)[g := was.(busy := false, devs := was.devs[1..])]
              && devs == old(devs)[was.devs[0] := old(devs)[was.devs[0]].(inRecovery := false)]
    {
      var d := groups[g].devs[0];
      devs := devs[d := devs[d].(inRecovery := false)];
      groups := groups[g := groups[g].(busy := false, devs := groups[g].devs[1..])];
    }
  }
}
