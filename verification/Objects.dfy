/**
 The layer's objects together: any number of clones of the service and of futures in flight, over
 one shared `Metrics`, refine the interleaving model action by action.
 */
module Objects {
  import opened Bodies
  import opened Enforcement

  // ── The model, as the objects see it ──

  /** The requests forwarded on one instance, in order. */
  function CallsOn(flights: seq<Flight>, calls: seq<InnerCall>, instance: nat): seq<Request> {
    if |calls| == 0 then []
    else
      var n := |calls| - 1;
      var earlier := CallsOn(flights, calls[..n], instance);
      if calls[n].instance == instance && calls[n].task < |flights|
      then earlier + [flights[calls[n].task].task.request] else earlier
  }

  /** Flights go on and more join them, but they keep their requests and instances. */
  ghost predicate KeepsFlights(before: seq<Flight>, after: seq<Flight>) {
    && |before| <= |after|
    && forall i :: 0 <= i < |before| ==>
         after[i].task.request == before[i].task.request && after[i].instance == before[i].instance
  }

  lemma {:induction false} SameCallsOn(before: seq<Flight>, after: seq<Flight>, calls: seq<InnerCall>, instance: nat)
    requires KeepsFlights(before, after) && forall call <- calls :: call.task < |before|
    ensures CallsOn(after, calls, instance) == CallsOn(before, calls, instance)
  {
    if |calls| > 0 {
      SameCallsOn(before, after, calls[..|calls| - 1], instance);
    }
  }

  /** What the objects rely on: instances are told apart, and every call has its flight. */
  ghost predicate Separate(s: System) {
    Instances(s) && forall call <- s.calls :: call.task < |s.flights| && call.instance < s.next
  }

  lemma ReachedIsSeparate(config: Config, history: seq<Action>)
    ensures Separate(Run(config, START, history))
  {
    RunKeepsSafe(config, START, history);
  }

  lemma {:induction false} NoCallsOn(flights: seq<Flight>, calls: seq<InnerCall>, instance: nat)
    requires forall call <- calls :: call.instance != instance
    ensures CallsOn(flights, calls, instance) == []
  {
    if |calls| > 0 {
      NoCallsOn(flights, calls[..|calls| - 1], instance);
    }
  }

  lemma ReachedIsSound(config: Config, history: seq<Action>, i: nat)
    requires i < |Run(config, START, history).flights|
    ensures Sound(config, Run(config, START, history).flights[i].task)
  {
    RunKeepsSafe(config, START, history);
  }

  /** Whether this event allows flight `i`. */
  predicate Allows(config: Config, s: System, i: nat, event: Event)
    requires i < |s.flights|
  {
    var before := s.flights[i].task;
    before.decision == Undecided && Step(config, before, event).decision == Allowed
  }

  lemma OneMoreCall(before: seq<Flight>, after: seq<Flight>, calls: seq<InnerCall>, call: InnerCall, instance: nat)
    requires KeepsFlights(before, after) && call.task < |before| && forall c <- calls :: c.task < |before|
    ensures CallsOn(after, calls + [call], instance) ==
            CallsOn(before, calls, instance)
            + if call.instance == instance then [before[call.task].task.request] else []
  {
    SameCallsOn(before, after, calls, instance);
    assert (calls + [call])[..|calls|] == calls;
  }

  lemma EventKeepsFlights(config: Config, s: System, i: nat, event: Event)
    requires i < |s.flights|
    ensures var t := Act(config, s, OnTask(i, event));
            && KeepsFlights(s.flights, t.flights)
            && t.calls ==
                 s.calls + if Allows(config, s, i, event) then [InnerCall(i, s.flights[i].instance)] else []
  {
    assert Step(config, s.flights[i].task, event).request == s.flights[i].task.request;
  }

  lemma CallsAfterEvent(config: Config, s: System, i: nat, event: Event, instance: nat)
    requires Separate(s) && i < |s.flights|
    ensures var t := Act(config, s, OnTask(i, event));
            CallsOn(t.flights, t.calls, instance) ==
            CallsOn(s.flights, s.calls, instance)
            + if Allows(config, s, i, event) && s.flights[i].instance == instance
              then [s.flights[i].task.request] else []
  {
    var t := Act(config, s, OnTask(i, event));
    EventKeepsFlights(config, s, i, event);
    if Allows(config, s, i, event) {
      OneMoreCall(s.flights, t.flights, s.calls, InnerCall(i, s.flights[i].instance), instance);
    } else {
      SameCallsOn(s.flights, t.flights, s.calls, instance);
    }
  }

  lemma {:induction false} RunOneMore(config: Config, s: System, history: seq<Action>, action: Action)
    ensures Run(config, s, history + [action]) == Act(config, Run(config, s, history), action)
    decreases |history|
  {
    if |history| == 0 {
      assert history + [action] == [action] && [action][1..] == [];
      assert Run(config, Act(config, s, action), []) == Act(config, s, action);
    } else {
      assert (history + [action])[1..] == history[1..] + [action];
      RunOneMore(config, Act(config, s, history[0]), history[1..], action);
    }
  }

  // What each action makes of the state reached so far, without the functions that say so.

  ghost predicate SameCalls(s: System, t: System) {
    forall n :: 0 <= n < t.next ==> CallsOn(t.flights, t.calls, n) == CallsOn(s.flights, s.calls, n)
  }

  lemma AtStart(config: Config) returns (s: System)
    ensures s == Run(config, START, []) && Separate(s)
    ensures s.handles == [0] && s.flights == [] && s.next == 1 && s.ready == {}
    ensures CallsOn(s.flights, s.calls, 0) == [] && s.allowed == 0 && s.denied == 0
  {
    s := START;
  }

  lemma AfterPoll(config: Config, history: seq<Action>, handle: nat) returns (t: System)
    requires handle < |Run(config, START, history).handles|
    ensures t == Run(config, START, history + [PollReady(handle)]) && Separate(t)
    ensures var s := Run(config, START, history);
            && t.handles == s.handles && t.flights == s.flights && t.next == s.next
            && t.ready == s.ready + {s.handles[handle]}
            && t.allowed == s.allowed && t.denied == s.denied
            && SameCalls(s, t)
  {
    t := Run(config, START, history + [PollReady(handle)]);
    RunOneMore(config, START, history, PollReady(handle));
    ReachedIsSeparate(config, history + [PollReady(handle)]);
  }

  lemma AfterClone(config: Config, history: seq<Action>, handle: nat) returns (t: System)
    requires handle < |Run(config, START, history).handles|
    ensures t == Run(config, START, history + [Clone(handle)]) && Separate(t)
    ensures var s := Run(config, START, history);
            && t.handles == s.handles + [s.next] && t.flights == s.flights && t.next == s.next + 1
            && t.ready == s.ready && s.next !in t.ready
            && t.allowed == s.allowed && t.denied == s.denied
            && SameCalls(s, t) && CallsOn(t.flights, t.calls, s.next) == []
  {
    var s := Run(config, START, history);
    t := Run(config, START, history + [Clone(handle)]);
    RunOneMore(config, START, history, Clone(handle));
    ReachedIsSeparate(config, history);
    ReachedIsSeparate(config, history + [Clone(handle)]);
    NoCallsOn(t.flights, t.calls, s.next);
  }

  lemma AfterCall(config: Config, history: seq<Action>, handle: nat, request: Request) returns (t: System)
    requires handle < |Run(config, START, history).handles|
    requires Run(config, START, history).handles[handle] in Run(config, START, history).ready
    ensures t == Run(config, START, history + [Call(handle, request)]) && Separate(t)
    ensures var s := Run(config, START, history);
            && t.handles == s.handles[handle := s.next] && t.next == s.next + 1
            && t.flights == s.flights + [Flight(NewTask(request, config.limit), s.handles[handle])]
            && t.ready == s.ready && s.next !in t.ready
            && t.allowed == s.allowed && t.denied == s.denied
            && SameCalls(s, t) && CallsOn(t.flights, t.calls, s.next) == []
  {
    var s := Run(config, START, history);
    t := Run(config, START, history + [Call(handle, request)]);
    RunOneMore(config, START, history, Call(handle, request));
    ReachedIsSeparate(config, history);
    ReachedIsSeparate(config, history + [Call(handle, request)]);
    NoCallsOn(t.flights, t.calls, s.next);
    forall n | 0 <= n < t.next ensures CallsOn(t.flights, t.calls, n) == CallsOn(s.flights, s.calls, n) {
      SameCallsOn(s.flights, t.flights, s.calls, n);
    }
  }

  lemma AfterEvent(config: Config, history: seq<Action>, i: nat, event: Event) returns (t: System)
    requires i < |Run(config, START, history).flights|
    ensures t == Run(config, START, history + [OnTask(i, event)]) && Separate(t)
    ensures var s := Run(config, START, history);
            var before, after := s.flights[i].task, Step(config, s.flights[i].task, event);
            var allows := before.decision == Undecided && after.decision == Allowed;
            var denies := before.decision == Undecided && after.decision.Denied?;
            && t.handles == s.handles && t.next == s.next && t.ready == s.ready
            && t.flights == s.flights[i := Flight(after, s.flights[i].instance)]
            && t.allowed == (if allows then (s.allowed + 1) % U64 else s.allowed)
            && t.denied == (if denies then (s.denied + 1) % U64 else s.denied)
            && (forall n :: 0 <= n < t.next ==>
                  CallsOn(t.flights, t.calls, n) ==
                  CallsOn(s.flights, s.calls, n)
                  + if allows && s.flights[i].instance == n then [before.request] else [])
  {
    var s := Run(config, START, history);
    t := Run(config, START, history + [OnTask(i, event)]);
    RunOneMore(config, START, history, OnTask(i, event));
    ReachedIsSeparate(config, history);
    ReachedIsSeparate(config, history + [OnTask(i, event)]);
    forall n | 0 <= n < t.next {
      CallsAfterEvent(config, s, i, event, n);
    }
  }

  /** When only calls for flight `i` are on its instance, and at most one is, that one is all there is. */
  lemma {:induction false} CallsOfFlight(flights: seq<Flight>, calls: seq<InnerCall>, i: nat)
    requires i < |flights|
    requires forall k :: 0 <= k < |calls| ==> (calls[k].instance == flights[i].instance <==> calls[k].task == i)
    requires forall j, k :: 0 <= j < k < |calls| ==> calls[j].task != calls[k].task
    ensures CallsOn(flights, calls, flights[i].instance) ==
            if exists k :: 0 <= k < |calls| && calls[k].task == i then [flights[i].task.request] else []
  {
    if |calls| > 0 {
      var n := |calls| - 1;
      CallsOfFlight(flights, calls[..n], i);
      if calls[n].task == i {
        assert forall k :: 0 <= k < n ==> calls[..n][k].task != i;
      } else if k :| 0 <= k < |calls| && calls[k].task == i {
        assert calls[..n][k].task == i;
      }
    }
  }

  /** Each flight's instance was called with its request if it was allowed, and otherwise not at all. */
  lemma CalledIfAllowed(config: Config, history: seq<Action>, i: nat)
    requires i < |Run(config, START, history).flights|
    ensures var s := Run(config, START, history);
            CallsOn(s.flights, s.calls, s.flights[i].instance) ==
            if s.flights[i].task.decision == Allowed then [s.flights[i].task.request] else []
  {
    var s := Run(config, START, history);
    RunKeepsSafe(config, START, history);
    CallsOfFlight(s.flights, s.calls, i);
  }

  lemma DecidedRightly(config: Config, history: seq<Action>, i: nat)
    requires i < |Run(config, START, history).flights|
    ensures var task := Run(config, START, history).flights[i].task;
            && (task.decision == Allowed ==> RightlyAllowed(config, task))
            && (task.decision.Denied? ==> RightlyDenied(config, task, task.decision.error))
  {
    ReachedIsSound(config, history, i);
  }

  // ── The objects ──

  class Layer {
    const config: Config
    const metrics: Metrics
    var services: seq<SecurityService>
    var futures: seq<RequestFuture>

    /** The inner instances in the order they were made, and what was done so far. */
    ghost var instances: seq<Inner>
    ghost var history: seq<Action>

    /** The state of the model that the objects stand for. */
    ghost function State(): System
      reads this
    {
      Run(config, START, history)
    }

    ghost predicate Distinct()
      reads this
    {
      && (forall n, m :: 0 <= n < m < |instances| ==> instances[n] != instances[m])
      && (forall h, k :: 0 <= h < k < |services| ==> services[h] != services[k])
      && (forall i, j :: 0 <= i < j < |futures| ==> futures[i] != futures[j])
    }

    ghost predicate Shaped(s: System)
      reads this
    {
      && |services| == |s.handles| && |futures| == |s.flights| && |instances| == s.next
      && Distinct()
      && Separate(s)
    }

    /** A service of this layer around `inner`. */
    ghost predicate Serves(service: SecurityService, inner: Inner, ready: bool)
      reads service, inner
    {
      service.inner == inner && service.config == config && service.metrics == metrics && inner.ready == ready
    }

    /** A future of this layer on `inner`, which is still ready while the task may yet be forwarded. */
    ghost predicate Runs(future: RequestFuture, inner: Inner, task: Task)
      reads future, inner
    {
      && future.inner == inner && future.config == config && future.metrics == metrics && future.task == task
      && (task.decision == Undecided && task.phase != Closed ==> inner.ready)
    }

    ghost predicate ServiceStands(s: System, h: nat)
      requires Shaped(s) && h < |services|
      reads this, services, instances
    {
      Serves(services[h], instances[s.handles[h]], s.handles[h] in s.ready)
    }

    ghost predicate FutureStands(s: System, i: nat)
      requires Shaped(s) && i < |futures|
      reads this, futures, instances
    {
      Runs(futures[i], instances[s.flights[i].instance], s.flights[i].task)
    }

    /** The objects stand for the state: task by task, call by call, and in both counters. */
    ghost predicate Stands(s: System)
      reads this, metrics, services, futures, instances
    {
      && Shaped(s)
      && (forall h :: 0 <= h < |services| ==> ServiceStands(s, h))
      && (forall i :: 0 <= i < |futures| ==> FutureStands(s, i))
      && (forall n :: 0 <= n < |instances| ==> instances[n].calls == CallsOn(s.flights, s.calls, n))
      && metrics.allowed == s.allowed && metrics.denied == s.denied
    }

    ghost predicate Valid()
      reads this, metrics, services, futures, instances
    {
      Stands(State())
    }

    constructor (config: Config)
      ensures Valid() && history == [] && this.config == config
      ensures fresh(metrics) && fresh(services) && fresh(futures) && fresh(instances)
    {
      var metrics := new Metrics();
      var inner := new Inner();
      var service := new SecurityService(inner, config, metrics);
      this.config, this.metrics := config, metrics;
      services, futures := [service], [];
      instances, history := [inner], [];
      new;
      ghost var s := AtStart(config);
      assert ServiceStands(s, 0);
    }

    method Poll(handle: nat)
      requires Valid() && handle < |services|
      modifies this, instances
      ensures Valid() && history == old(history) + [PollReady(handle)]
      ensures services == old(services) && futures == old(futures) && instances == old(instances)
    {
      ghost var s := State();
      ghost var t := AfterPoll(config, history, handle);
      assert ServiceStands(s, handle);
      services[handle].PollReady();
      history := history + [PollReady(handle)];
      assert Shaped(t);
      forall h | 0 <= h < |services| ensures ServiceStands(t, h) {
        assert old(ServiceStands(s, h));
      }
      forall i | 0 <= i < |futures| ensures FutureStands(t, i) {
        assert old(FutureStands(s, i));
      }
    }

    /** A new clone of the service, on an inner instance of its own. */
    method AddService()
      requires Distinct()
      modifies this`services, this`instances
      ensures Distinct()
      ensures |services| == |old(services)| + 1 && services[..|old(services)|] == old(services)
      ensures |instances| == |old(instances)| + 1 && instances[..|old(instances)|] == old(instances)
      ensures var service, inner := services[|old(services)|], instances[|old(instances)|];
              && fresh(service) && fresh(inner)
              && service.inner == inner && service.config == config && service.metrics == metrics
              && !inner.ready && inner.calls == []
    {
      var inner := new Inner();
      var service := new SecurityService(inner, config, metrics);
      services := services + [service];
      instances := instances + [inner];
    }

    method CloneService(handle: nat)
      requires Valid() && handle < |services|
      modifies this
      ensures Valid() && history == old(history) + [Clone(handle)]
      ensures old(services) <= services && fresh(services[|old(services)|..])
      ensures old(instances) <= instances && fresh(instances[|old(instances)|..])
      ensures futures == old(futures)
    {
      ghost var s := State();
      ghost var t := AfterClone(config, history, handle);
      AddService();
      history := history + [Clone(handle)];
      assert Shaped(t);
      forall h | 0 <= h < |services| ensures ServiceStands(t, h) {
        if h < |services| - 1 {
          assert old(ServiceStands(s, h));
          assert services[h] == old(services)[h];
        }
      }
      forall i | 0 <= i < |futures| ensures FutureStands(t, i) {
        assert old(FutureStands(s, i));
      }
      forall n | 0 <= n < |instances| ensures instances[n].calls == CallsOn(t.flights, t.calls, n) {
        if n < s.next {
          assert instances[n] == old(instances)[n];
        }
      }
    }

    /** A call on one service: its readied instance goes to a new future. */
    method AddFuture(handle: nat, request: Request)
      requires Distinct() && handle < |services| && services[handle].inner.ready
      requires services[handle].config == config && services[handle].metrics == metrics
      modifies this`futures, this`instances, services[handle]
      ensures Distinct()
      ensures |futures| == |old(futures)| + 1 && futures[..|old(futures)|] == old(futures)
      ensures |instances| == |old(instances)| + 1 && instances[..|old(instances)|] == old(instances)
      ensures var future, inner := futures[|old(futures)|], instances[|old(instances)|];
              && fresh(future) && fresh(inner)
              && future.inner == old(services[handle].inner) && future.config == config && future.metrics == metrics
              && future.task == NewTask(request, config.limit)
              && services[handle].inner == inner && !inner.ready && inner.calls == []
    {
      var future := services[handle].Call(request);
      futures := futures + [future];
      instances := instances + [services[handle].inner];
    }

    method CallService(handle: nat, request: Request)
      requires Valid() && handle < |services| && services[handle].inner.ready
      modifies this, services
      ensures Valid() && history == old(history) + [Call(handle, request)]
      ensures services == old(services)
      ensures old(futures) <= futures && fresh(futures[|old(futures)|..])
      ensures old(instances) <= instances && fresh(instances[|old(instances)|..])
    {
      ghost var s := State();
      assert ServiceStands(s, handle);
      ghost var t := AfterCall(config, history, handle, request);
      AddFuture(handle, request);
      history := history + [Call(handle, request)];
      assert Shaped(t);
      forall h | 0 <= h < |services| ensures ServiceStands(t, h) {
        assert old(ServiceStands(s, h));
      }
      forall i | 0 <= i < |futures| ensures FutureStands(t, i) {
        if i < |futures| - 1 {
          assert old(FutureStands(s, i));
          assert futures[i] == old(futures)[i];
        }
      }
      forall n | 0 <= n < |instances| ensures instances[n].calls == CallsOn(t.flights, t.calls, n) {
        if n < s.next {
          assert instances[n] == old(instances)[n];
        }
      }
    }

    /** One resumption of one future, and the state it leads to. */
    method Wake(i: nat, event: Event) returns (ghost before: Task, ghost after: Task, ghost t: System)
      requires Valid() && i < |futures|
      modifies futures[i], metrics, futures[i].inner
      ensures before == old(futures[i].task) && after == futures[i].task
      ensures t == Run(config, START, history + [OnTask(i, event)]) && Separate(t)
      ensures futures[i].task.decision == Undecided && futures[i].task.phase != Closed ==> futures[i].inner.ready
      ensures var s := Run(config, START, history);
              var allows := before.decision == Undecided && after.decision == Allowed;
              var denies := before.decision == Undecided && after.decision.Denied?;
              && t.handles == s.handles && t.next == s.next && t.ready == s.ready
              && i < |s.flights| && t.flights == s.flights[i := Flight(after, s.flights[i].instance)]
              && futures[i].inner.calls == old(futures[i].inner.calls) + (if allows then [before.request] else [])
              && metrics.allowed == t.allowed && metrics.denied == t.denied
              && (forall n :: 0 <= n < t.next ==>
                    CallsOn(t.flights, t.calls, n) ==
                    CallsOn(s.flights, s.calls, n)
                    + if allows && s.flights[i].instance == n then [before.request] else [])
    {
      ghost var s := State();
      assert FutureStands(s, i);
      t := AfterEvent(config, history, i, event);
      ReachedIsSound(config, history, i);
      before := futures[i].task;
      futures[i].Resume(event);
      after := futures[i].task;
      StepKeepsSound(config, before, event);
    }

    method Resume(i: nat, event: Event)
      requires Valid() && i < |futures|
      modifies this, metrics, futures, instances
      ensures Valid() && history == old(history) + [OnTask(i, event)]
      ensures services == old(services) && futures == old(futures) && instances == old(instances)
    {
      ghost var s := State();
      assert FutureStands(s, i);
      ghost var before, after, t;
      before, after, t := Wake(i, event);
      history := history + [OnTask(i, event)];
      assert Shaped(t);
      forall h | 0 <= h < |services| ensures ServiceStands(t, h) {
        assert old(ServiceStands(s, h));
      }
      forall j | 0 <= j < |futures| ensures FutureStands(t, j) {
        assert old(FutureStands(s, j));
      }
    }
  }

  /** A future decided rightly, and called its own instance once if it allowed its request, otherwise not at all. */
  ghost predicate Right(future: RequestFuture)
    reads future, future.inner
  {
    var task := future.task;
    && (task.decision == Allowed ==> RightlyAllowed(future.config, task))
    && (task.decision.Denied? ==> RightlyDenied(future.config, task, task.decision.error))
    && future.inner.calls == if task.decision == Allowed then [task.request] else []
  }

  lemma FutureIsRight(layer: Layer, i: nat)
    requires layer.Valid() && i < |layer.futures|
    ensures Right(layer.futures[i])
  {
    assert layer.FutureStands(layer.State(), i);
    CalledIfAllowed(layer.config, layer.history, i);
    DecidedRightly(layer.config, layer.history, i);
  }

  /**
   Whatever was done to the objects, in whatever order, every future is right, and the shared
   counters count the futures that allowed and that refused, modulo 2^64.
   */
  lemma ObjectsAreSafe(layer: Layer)
    requires layer.Valid()
    ensures forall future <- layer.futures :: Right(future)
    ensures layer.metrics.allowed ==
            |set i | 0 <= i < |layer.futures| && layer.futures[i].task.decision == Allowed| % 0x1_0000_0000_0000_0000
    ensures layer.metrics.denied ==
            |set i | 0 <= i < |layer.futures| && layer.futures[i].task.decision.Denied?| % 0x1_0000_0000_0000_0000
  {
    var s := layer.State();
    forall i | 0 <= i < |layer.futures|
      ensures Right(layer.futures[i]) && layer.futures[i].task == s.flights[i].task
    {
      assert layer.FutureStands(s, i);
      FutureIsRight(layer, i);
    }
    EveryDecisionIsCountedOnce(layer.config, layer.history);
    assert AllowedTasks(s) == set i | 0 <= i < |layer.futures| && layer.futures[i].task.decision == Allowed;
    assert DeniedTasks(s) == set i | 0 <= i < |layer.futures| && layer.futures[i].task.decision.Denied?;
  }
}
