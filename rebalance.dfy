/** One rebalance pass: filter the services, and for each one in turn
    compute its spread and fair share and drain its over-scheduled hosts.
    A failed host lookup, or a host count of zero (a division by zero),
    ends the whole pass. */
module Rebalance {
  import opened Records
  import opened LabelFilter
  import opened Exclusion
  import opened Spread
  import opened FairShare
  import opened Drain

  /** How the service is named in the notification: `stack/name`. */
  function ServiceRef(s: Service): string
  {
    s.stackName + "/" + s.name
  }

  /** Excluded services get no spread at all. */
  function ServiceSpread(s: Service): seq<Entry>
  {
    if Excluded(s) then [] else SpreadOf(s.containers)
  }

  function HostCount(s: Service, env: Platform): nat
  {
    NumHosts(env.hostsWithLabel(HostLabel(s)), |ServiceSpread(s)|)
  }

  /** One host drain: nothing when its lookup fails (which ends the pass),
      else the events the mode dictates. */
  function DrainStep(t: Target, dryRun: bool, ctx: Context, env: Platform): Outcome
  {
    if !env.hostFound(t.entry.hostId) then Outcome([], HostLookupFailed(t.entry.hostId))
    else if dryRun then Outcome([], Completed)
    else Outcome(LiveDrain(t.entry, t.toDelete, ctx, env), Completed)
  }

  function DrainSteps(ts: seq<Target>, dryRun: bool, ctx: Context, env: Platform): seq<Outcome>
  {
    seq(|ts|, k requires 0 <= k < |ts| => DrainStep(ts[k], dryRun, ctx, env))
  }

  /** The pass over one service. */
  function ServicePass(s: Service, dryRun: bool, channel: string, env: Platform): Outcome
  {
    var n := HostCount(s, env);
    if n == 0 then Outcome([], DivideByZero(ServiceRef(s)))
    else
      var plan := Plan(ServiceSpread(s), Quot(s.scale, n), Rem(s.scale, n));
      Chain(DrainSteps(plan, dryRun, Context(channel, ServiceRef(s), s.scale, n), env))
  }

  function ServiceSteps(ss: seq<Service>, dryRun: bool, channel: string, env: Platform): seq<Outcome>
  {
    seq(|ss|, k requires 0 <= k < |ss| => ServicePass(ss[k], dryRun, channel, env))
  }

  /** The services a pass considers. */
  function Candidates(collection: seq<Service>, filter: string): seq<Service>
    requires filter != "" ==> '=' in filter
  {
    if filter == "" then collection else Selected(collection, FilterKey(filter), FilterValue(filter))
  }

  /** The whole pass: the candidates in order, until one ends it. */
  function PassOf(collection: seq<Service>, filter: string, dryRun: bool, channel: string, env: Platform): Outcome
    requires filter != "" ==> '=' in filter
  {
    Chain(ServiceSteps(Candidates(collection, filter), dryRun, channel, env))
  }

  // ---------------------------------------------------------------------
  // The program

  lemma PlanStep(entries: seq<Entry>, i: nat, perHost: int, offset: int)
    requires i < |entries|
    requires NoneTolerated(entries[..i], perHost, offset)
    requires !Tolerated(entries[i], perHost, offset)
    ensures NoneTolerated(entries[..i + 1], perHost, offset)
    ensures Plan(entries[..i + 1], perHost, offset) ==
            Plan(entries[..i], perHost, offset) +
            (if OverScheduled(entries[i], perHost) then [Target(entries[i], entries[i].count - perHost)] else [])
  {
    assert entries[..i + 1] == entries[..i] + [entries[i]];
    PlanAppend(entries[..i], [entries[i]], perHost, offset);
    assert [entries[i]][1..] == [];
  }

  lemma DrainStepsSplit(done: seq<Target>, t: Target, later: seq<Target>, dryRun: bool, ctx: Context, env: Platform)
    ensures DrainSteps(done + [t], dryRun, ctx, env) == DrainSteps(done, dryRun, ctx, env) + [DrainStep(t, dryRun, ctx, env)]
    ensures DrainSteps(done + ([t] + later), dryRun, ctx, env) ==
            DrainSteps(done, dryRun, ctx, env) + ([DrainStep(t, dryRun, ctx, env)] + DrainSteps(later, dryRun, ctx, env))
  {
  }

  lemma ServiceStepsSlice(ss: seq<Service>, i: nat, j: nat, dryRun: bool, channel: string, env: Platform)
    requires i <= j <= |ss|
    ensures ServiceSteps(ss[i..j], dryRun, channel, env) == ServiceSteps(ss, dryRun, channel, env)[i..j]
  {
  }

  lemma ServiceStepsSplit(ss: seq<Service>, i: nat, dryRun: bool, channel: string, env: Platform)
    requires i < |ss|
    ensures ServiceSteps(ss[..i + 1], dryRun, channel, env) ==
            ServiceSteps(ss[..i], dryRun, channel, env) + [ServicePass(ss[i], dryRun, channel, env)]
    ensures ServiceSteps(ss, dryRun, channel, env) ==
            ServiceSteps(ss[..i], dryRun, channel, env) +
            ([ServicePass(ss[i], dryRun, channel, env)] + ServiceSteps(ss[i + 1..], dryRun, channel, env))
  {
    var r := ServiceSteps(ss, dryRun, channel, env);
    ServiceStepsSlice(ss, 0, i, dryRun, channel, env);
    ServiceStepsSlice(ss, 0, i + 1, dryRun, channel, env);
    ServiceStepsSlice(ss, i + 1, |ss|, dryRun, channel, env);
    assert ss[0..i] == ss[..i] && ss[0..i + 1] == ss[..i + 1] && ss[i + 1..|ss|] == ss[i + 1..];
    SliceAround(r, i);
  }

  lemma SliceAround<T>(r: seq<T>, i: nat)
    requires i < |r|
    ensures r[..i + 1] == r[..i] + [r[i]]
    ensures r == r[..i] + ([r[i]] + r[i + 1..])
  {
  }

  /** One iteration of the plan loop at an entry at or under the share:
      nothing is drained. */
  lemma DrainLoopSkip(entries: seq<Entry>, i: nat, perHost: int, offset: int, dryRun: bool, ctx: Context,
                      env: Platform, events: seq<Event>)
    requires i < |entries|
    requires NoneTolerated(entries[..i], perHost, offset)
    requires !OverScheduled(entries[i], perHost)
    requires Outcome(events, Completed) == Chain(DrainSteps(Plan(entries[..i], perHost, offset), dryRun, ctx, env))
    ensures NoneTolerated(entries[..i + 1], perHost, offset)
    ensures Outcome(events, Completed) == Chain(DrainSteps(Plan(entries[..i + 1], perHost, offset), dryRun, ctx, env))
  {
    PlanStep(entries, i, perHost, offset);
    assert Plan(entries[..i], perHost, offset) + [] == Plan(entries[..i], perHost, offset);
  }

  /** One iteration of the plan loop at an entry that is drained: the
      trace grows by that drain's events. */
  lemma DrainLoopStep(entries: seq<Entry>, i: nat, perHost: int, offset: int, dryRun: bool, ctx: Context,
                      env: Platform, events: seq<Event>, drained: seq<Event>)
    requires i < |entries|
    requires NoneTolerated(entries[..i], perHost, offset)
    requires OverScheduled(entries[i], perHost) && !Tolerated(entries[i], perHost, offset)
    requires Outcome(events, Completed) == Chain(DrainSteps(Plan(entries[..i], perHost, offset), dryRun, ctx, env))
    requires Outcome(drained, Completed) == DrainStep(Target(entries[i], entries[i].count - perHost), dryRun, ctx, env)
    ensures NoneTolerated(entries[..i + 1], perHost, offset)
    ensures Outcome(events + drained, Completed) ==
            Chain(DrainSteps(Plan(entries[..i + 1], perHost, offset), dryRun, ctx, env))
  {
    var done := Plan(entries[..i], perHost, offset);
    var t := Target(entries[i], entries[i].count - perHost);
    var step := DrainStep(t, dryRun, ctx, env);
    PlanStep(entries, i, perHost, offset);
    DrainStepsSplit(done, t, [], dryRun, ctx, env);
    ChainAppend(DrainSteps(done, dryRun, ctx, env), [step]);
    assert [step][1..] == [];
  }

  /** The plan around an entry to drain with no tolerated entry before it. */
  lemma PlanAround(entries: seq<Entry>, i: nat, perHost: int, offset: int)
    requires i < |entries|
    requires NoneTolerated(entries[..i], perHost, offset)
    requires OverScheduled(entries[i], perHost) && !Tolerated(entries[i], perHost, offset)
    ensures Plan(entries, perHost, offset) ==
            Plan(entries[..i], perHost, offset) +
            ([Target(entries[i], entries[i].count - perHost)] + Plan(entries[i + 1..], perHost, offset))
  {
    PlanAppend(entries[..i], entries[i..], perHost, offset);
    assert entries[..i] + entries[i..] == entries;
    assert entries[i..][0] == entries[i] && entries[i..][1..] == entries[i + 1..];
  }

  /** A failed host lookup at an entry to drain ends the plan loop, and the
      outcome of the whole plan is that failure. */
  lemma DrainLoopAbort(entries: seq<Entry>, i: nat, perHost: int, offset: int, dryRun: bool, ctx: Context,
                       env: Platform, events: seq<Event>)
    requires i < |entries|
    requires NoneTolerated(entries[..i], perHost, offset)
    requires OverScheduled(entries[i], perHost) && !Tolerated(entries[i], perHost, offset)
    requires !env.hostFound(entries[i].hostId)
    requires Outcome(events, Completed) == Chain(DrainSteps(Plan(entries[..i], perHost, offset), dryRun, ctx, env))
    ensures Outcome(events, HostLookupFailed(entries[i].hostId)) ==
            Chain(DrainSteps(Plan(entries, perHost, offset), dryRun, ctx, env))
  {
    var done := Plan(entries[..i], perHost, offset);
    var t := Target(entries[i], entries[i].count - perHost);
    var later := Plan(entries[i + 1..], perHost, offset);
    PlanAround(entries, i, perHost, offset);
    DrainStepsSplit(done, t, later, dryRun, ctx, env);
    var step := DrainStep(t, dryRun, ctx, env);
    assert step == Outcome([], HostLookupFailed(entries[i].hostId));
    ChainAppend(DrainSteps(done, dryRun, ctx, env), [step] + DrainSteps(later, dryRun, ctx, env));
  }

  /** A tolerated entry with none before it: the plan ends before it. */
  lemma DrainLoopStop(entries: seq<Entry>, i: nat, perHost: int, offset: int)
    requires i < |entries|
    requires NoneTolerated(entries[..i], perHost, offset)
    requires Tolerated(entries[i], perHost, offset)
    ensures Plan(entries, perHost, offset) == Plan(entries[..i], perHost, offset)
  {
    PlanStops(entries[..i], entries[i], entries[i + 1..], perHost, offset);
    assert entries[..i] + [entries[i]] + entries[i + 1..] == entries;
  }

  /** The plan loop over the spread entries with the drains it triggers: an
      entry at or under the share is skipped, the first tolerated entry
      stops the loop, and a failed host lookup ends everything. */
  method DrainPlan(entries: seq<Entry>, perHost: int, offset: int, dryRun: bool, ctx: Context, env: Platform)
    returns (events: seq<Event>, status: Status)
    ensures Outcome(events, status) == Chain(DrainSteps(Plan(entries, perHost, offset), dryRun, ctx, env))
  {
    events, status := [], Completed;
    var i := 0;
    while i < |entries|
      invariant 0 <= i <= |entries|
      invariant NoneTolerated(entries[..i], perHost, offset)
      invariant Outcome(events, Completed) == Chain(DrainSteps(Plan(entries[..i], perHost, offset), dryRun, ctx, env))
    {
      var m := entries[i];
      if m.count > perHost {
        var toDelete := m.count - perHost;
        if offset != 0 && toDelete == 1 {
          DrainLoopStop(entries, i, perHost, offset);
          break;
        }
        var drained, found := DrainHost(m, toDelete, dryRun, ctx, env);
        if !found {
          DrainLoopAbort(entries, i, perHost, offset, dryRun, ctx, env, events);
          return events, HostLookupFailed(m.hostId);
        }
        assert Outcome(drained, Completed) == DrainStep(Target(m, toDelete), dryRun, ctx, env);
        DrainLoopStep(entries, i, perHost, offset, dryRun, ctx, env, events, drained);
        events := events + drained;
      } else {
        DrainLoopSkip(entries, i, perHost, offset, dryRun, ctx, env, events);
      }
      i := i + 1;
    }
    if i == |entries| {
      assert entries[..i] == entries;
    }
  }

  /** The body of the main loop for one service. */
  method CheckService(s: Service, dryRun: bool, channel: string, env: Platform)
    returns (events: seq<Event>, status: Status)
    ensures Outcome(events, status) == ServicePass(s, dryRun, channel, env)
  {
    var serviceRef := s.stackName + "/" + s.name;
    var excluded, hostLabel := ScanService(s);
    var spread: seq<HostContainerCount> := [];
    if !excluded {
      spread := ComputeSpread(s.containers);
    }
    var entries := Snapshot(spread);
    assert entries == ServiceSpread(s);
    var numHosts := env.hostsWithLabel(hostLabel);
    if numHosts == 0 {
      numHosts := |spread|;
    }
    if numHosts == 0 {
      // Go's integer division by zero panics here.
      return [], DivideByZero(serviceRef);
    }
    var perHost := Quot(s.scale, numHosts);
    var offset := Rem(s.scale, numHosts);
    events, status := DrainPlan(entries, perHost, offset, dryRun, Context(channel, serviceRef, s.scale, numHosts), env);
  }

  /** The whole pass: filter the services, then check them in order. */
  method RunPass(collection: seq<Service>, filter: string, dryRun: bool, channel: string, env: Platform)
    returns (events: seq<Event>, status: Status)
    requires filter != "" ==> '=' in filter
    ensures Outcome(events, status) == PassOf(collection, filter, dryRun, channel, env)
  {
    var services := SelectByLabel(collection, filter);
    if |services| < 1 {
      return [], Completed;
    }
    events, status := [], Completed;
    var i := 0;
    while i < |services|
      invariant 0 <= i <= |services|
      invariant Outcome(events, Completed) == Chain(ServiceSteps(services[..i], dryRun, channel, env))
    {
      var serviceEvents, serviceStatus := CheckService(services[i], dryRun, channel, env);
      var step := ServicePass(services[i], dryRun, channel, env);
      ghost var done := ServiceSteps(services[..i], dryRun, channel, env);
      ServiceStepsSplit(services, i, dryRun, channel, env);
      ChainAppend(done, [step]);
      assert [step][1..] == [];
      if serviceStatus != Completed {
        ghost var later := ServiceSteps(services[i + 1..], dryRun, channel, env);
        ChainAppend(done, [step] + later);
        return events + serviceEvents, serviceStatus;
      }
      events := events + serviceEvents;
      i := i + 1;
    }
    assert services[..i] == services;
  }

  // ---------------------------------------------------------------------
  // Properties of a pass

  lemma {:induction false} ChainSilent(steps: seq<Outcome>)
    requires forall k :: 0 <= k < |steps| ==> steps[k].events == []
    ensures Chain(steps).events == []
  {
    if steps != [] {
      ChainSilent(steps[1..]);
    }
  }

  /** In dry-run mode a service produces no event at all. */
  lemma DryRunServiceSilent(s: Service, channel: string, env: Platform)
    ensures ServicePass(s, true, channel, env).events == []
  {
    var n := HostCount(s, env);
    if n != 0 {
      var plan := Plan(ServiceSpread(s), Quot(s.scale, n), Rem(s.scale, n));
      ChainSilent(DrainSteps(plan, true, Context(channel, ServiceRef(s), s.scale, n), env));
    }
  }

  /** A dry-run pass deactivates, deletes, waits for, activates and notifies
      nothing, however it ends. */
  lemma DryRunSilent(collection: seq<Service>, filter: string, channel: string, env: Platform)
    requires filter != "" ==> '=' in filter
    ensures PassOf(collection, filter, true, channel, env).events == []
  {
    var steps := ServiceSteps(Candidates(collection, filter), true, channel, env);
    forall k | 0 <= k < |steps|
      ensures steps[k].events == []
    {
      DryRunServiceSilent(Candidates(collection, filter)[k], channel, env);
    }
    ChainSilent(steps);
  }

  /** An excluded service gets no drain action; its pass completes unless
      its host count is zero. */
  lemma ExcludedUntouched(s: Service, dryRun: bool, channel: string, env: Platform)
    requires Excluded(s)
    ensures ServicePass(s, dryRun, channel, env).events == []
    ensures ServicePass(s, dryRun, channel, env).status ==
            if env.hostsWithLabel(HostLabel(s)) == 0 then DivideByZero(ServiceRef(s)) else Completed
  {
  }

  /** The first service that does not complete ends the pass: the services
      after it contribute nothing. */
  lemma PassStopsAt(ss: seq<Service>, i: nat, dryRun: bool, channel: string, env: Platform)
    requires i < |ss|
    requires ServicePass(ss[i], dryRun, channel, env).status != Completed
    ensures Chain(ServiceSteps(ss, dryRun, channel, env)) == Chain(ServiceSteps(ss[..i + 1], dryRun, channel, env))
    ensures Chain(ServiceSteps(ss, dryRun, channel, env)).status != Completed
  {
    var done := ServiceSteps(ss[..i], dryRun, channel, env);
    var step := ServicePass(ss[i], dryRun, channel, env);
    ServiceStepsSplit(ss, i, dryRun, channel, env);
    ChainAppend(done, [step]);
    ChainAppend(done, [step] + ServiceSteps(ss[i + 1..], dryRun, channel, env));
    assert [step][1..] == [];
    ChainAppend([step], ServiceSteps(ss[i + 1..], dryRun, channel, env));
  }

  /** The ids of the containers of `cs`. */
  function ContainerIds(cs: seq<Container>): set<string>
  {
    set k | 0 <= k < |cs| :: cs[k].id
  }

  lemma {:induction false} IdsOnMembers(cs: seq<Container>, h: string, id: string)
    requires id in IdsOn(cs, h)
    ensures id in ContainerIds(cs)
  {
    var init := cs[..|cs| - 1];
    if id in IdsOn(init, h) {
      IdsOnMembers(init, h, id);
      var k :| 0 <= k < |init| && init[k].id == id;
      assert cs[k].id == id;
    } else {
      assert cs[|cs| - 1].id == id;
    }
  }

  lemma {:induction false} DeletedChain(steps: seq<Outcome>, allowed: set<string>)
    requires forall k, id :: 0 <= k < |steps| && id in Deleted(steps[k].events) ==> id in allowed
    ensures forall id :: id in Deleted(Chain(steps).events) ==> id in allowed
  {
    if steps != [] && steps[0].status == Completed {
      DeletedChain(steps[1..], allowed);
      DeletedAppend(steps[0].events, Chain(steps[1..]).events);
    }
  }

  /** The rebalancer only ever deletes containers of the service it is
      checking. */
  lemma OnlyOwnContainers(s: Service, dryRun: bool, channel: string, env: Platform)
    ensures forall id :: id in Deleted(ServicePass(s, dryRun, channel, env).events) ==> id in ContainerIds(s.containers)
  {
    var n := HostCount(s, env);
    var sp := ServiceSpread(s);
    var allowed := ContainerIds(s.containers);
    if n != 0 {
      var perHost, offset := Quot(s.scale, n), Rem(s.scale, n);
      var plan := Plan(sp, perHost, offset);
      var ctx := Context(channel, ServiceRef(s), s.scale, n);
      var steps := DrainSteps(plan, dryRun, ctx, env);
      forall k, id | 0 <= k < |steps| && id in Deleted(steps[k].events)
        ensures id in allowed
      {
        var t := plan[k];
        assert t in plan;
        PlanOnlyDrains(sp, perHost, offset, t);
        var i :| 0 <= i < |sp| && sp[i] == t.entry;
        assert !Excluded(s);
        SpreadDescribes(s.containers);
        DrainQuota(t.entry, t.toDelete, ctx, env);
        var ids := t.entry.containerIds;
        assert id in ids[..Attempts(|ids|, t.toDelete)];
        assert id in IdsOn(s.containers, t.entry.hostId);
        IdsOnMembers(s.containers, t.entry.hostId, id);
      }
      DeletedChain(steps, allowed);
    }
  }

  // ---------------------------------------------------------------------
  // A zero host count

  /** As written, an excluded service whose host label matches no host has
      a host count of zero, and the division by zero ends the pass before a
      later, over-scheduled service is checked. */
  lemma ZeroHostCountEndsPass()
    ensures var old_ := Service("old", "web", "inactive", 2, map[AffinityKey := "role=none"], []);
            var api := Service("api", "web", "active", 2, map[],
                               [Container("c1", "h1", "node1"), Container("c2", "h1", "node1")]);
            var env := Platform(l => if l == "role=none" then 0 else 2, h => true, h => "node1", id => id, id => true);
            ServicePass(api, false, "ops", env).events != [] &&
            PassOf([old_, api], "", false, "ops", env) == Outcome([], DivideByZero("web/old"))
  {
    var old_ := Service("old", "web", "inactive", 2, map[AffinityKey := "role=none"], []);
    var api := Service("api", "web", "active", 2, map[],
                       [Container("c1", "h1", "node1"), Container("c2", "h1", "node1")]);
    var env := Platform(l => if l == "role=none" then 0 else 2, h => true, h => "node1", id => id, id => true);
    assert HostLabel(old_) == "role=none";
    assert HostCount(old_, env) == 0;
    assert ServiceRef(old_) == "web/old";
    var steps := ServiceSteps([old_, api], false, "ops", env);
    assert steps[0] == Outcome([], DivideByZero("web/old"));
    assert !Excluded(api) && HostLabel(api) == "";
    var cs := api.containers;
    assert cs[..1] == [cs[0]] && cs[..1][..0] == [];
    var first := [Entry("h1", "node1", 1, ["c1"])];
    assert SpreadOf(cs[..1]) == first;
    assert first[0].hostId == "h1" && HasHost(first, "h1");
    assert Bump(first, "h1", "c2")[0] == Entry("h1", "node1", 2, ["c1", "c2"]);
    assert SpreadOf(cs) == [Entry("h1", "node1", 2, ["c1", "c2"])];
    assert HostCount(api, env) == 2;
    assert Quot(2, 2) == 1 && Rem(2, 2) == 0;
    var t := Target(Entry("h1", "node1", 2, ["c1", "c2"]), 1);
    assert Plan(ServiceSpread(api), 1, 0) == [t];
    var ctx := Context("ops", "web/api", 2, 2);
    assert DrainSteps([t], false, ctx, env) == [Outcome(LiveDrain(t.entry, 1, ctx, env), Completed)];
  }

  /** The intended behaviour: a service whose host count is zero is skipped
      with an error, and the pass goes on. */
  function GuardedServicePass(s: Service, dryRun: bool, channel: string, env: Platform): Outcome
  {
    if HostCount(s, env) == 0 then Outcome([], Completed) else ServicePass(s, dryRun, channel, env)
  }

  function GuardedSteps(ss: seq<Service>, dryRun: bool, channel: string, env: Platform): seq<Outcome>
  {
    seq(|ss|, k requires 0 <= k < |ss| => GuardedServicePass(ss[k], dryRun, channel, env))
  }

  lemma ChainSkip(a: seq<Outcome>, b: seq<Outcome>)
    ensures Chain(a + [Outcome([], Completed)] + b) == Chain(a + b)
  {
    var skip := Outcome([], Completed);
    assert a + [skip] + b == a + ([skip] + b);
    ChainAppend(a, [skip] + b);
    ChainAppend(a, b);
    assert ([skip] + b)[1..] == b;
  }

  /** With the guard, a service with a zero host count changes nothing: the
      pass over the other services is the same with or without it, and no
      guarded pass ends in a division by zero. */
  lemma GuardedStepsAppend(x: seq<Service>, y: seq<Service>, dryRun: bool, channel: string, env: Platform)
    ensures GuardedSteps(x + y, dryRun, channel, env) == GuardedSteps(x, dryRun, channel, env) + GuardedSteps(y, dryRun, channel, env)
  {
    var l := GuardedSteps(x + y, dryRun, channel, env);
    var r := GuardedSteps(x, dryRun, channel, env) + GuardedSteps(y, dryRun, channel, env);
    forall k | 0 <= k < |l|
      ensures l[k] == r[k]
    {
      if k < |x| {
        assert (x + y)[k] == x[k];
      } else {
        assert (x + y)[k] == y[k - |x|];
      }
    }
  }

  lemma GuardedSkipsService(a: seq<Service>, s: Service, b: seq<Service>, dryRun: bool, channel: string, env: Platform)
    requires HostCount(s, env) == 0
    ensures Chain(GuardedSteps(a + [s] + b, dryRun, channel, env)) == Chain(GuardedSteps(a + b, dryRun, channel, env))
  {
    var skip := Outcome([], Completed);
    assert GuardedServicePass(s, dryRun, channel, env) == skip;
    assert GuardedSteps([s], dryRun, channel, env) == [skip];
    GuardedStepsAppend(a, [s], dryRun, channel, env);
    GuardedStepsAppend(a + [s], b, dryRun, channel, env);
    GuardedStepsAppend(a, b, dryRun, channel, env);
    ChainSkip(GuardedSteps(a, dryRun, channel, env), GuardedSteps(b, dryRun, channel, env));
  }

  lemma {:induction false} ChainNoDivide(steps: seq<Outcome>)
    requires forall k :: 0 <= k < |steps| ==> !steps[k].status.DivideByZero?
    ensures !Chain(steps).status.DivideByZero?
  {
    if steps != [] {
      ChainNoDivide(steps[1..]);
    }
  }

  /** The guard changes nothing for a service whose host count is positive,
      and a guarded service never ends the pass by a division by zero. */
  lemma GuardedAgrees(s: Service, dryRun: bool, channel: string, env: Platform)
    ensures HostCount(s, env) > 0 ==> GuardedServicePass(s, dryRun, channel, env) == ServicePass(s, dryRun, channel, env)
    ensures !GuardedServicePass(s, dryRun, channel, env).status.DivideByZero?
  {
    var n := HostCount(s, env);
    if n > 0 {
      var plan := Plan(ServiceSpread(s), Quot(s.scale, n), Rem(s.scale, n));
      ChainNoDivide(DrainSteps(plan, dryRun, Context(channel, ServiceRef(s), s.scale, n), env));
    }
  }
}
