/**
 The enforcement layer: one request as a state machine, and any number of them interleaved
 (`SecurityService` in src/middleware.rs, `Metrics` in src/observability.rs).
 */
module Enforcement {
  import opened Results
  import opened Text
  import opened Rules
  import opened Bodies
  import CreateBody

  // ── One request ──

  datatype Request = Request(verb: string, path: string, contentLength: Option<string>)

  /** What the layer decides with: the verdict on a head, the verdict on an inspected body, the body limit. */
  datatype Config = Config(head: (string, string) -> Result<BodyRule>, body: string -> Result<()>, limit: nat)

  /** The layer around a filter; `json` reads a body as JSON. */
  function LayerOf(filter: Filter, json: string -> Option<CreateBody.Json>, limit: nat): Config {
    Config.Config(
      (verb, path) => filter.CheckHead(verb, path),
      body => Filter.CheckBody(ContainerCreate, body, json),
      limit)
  }

  datatype Decision = Undecided | Allowed | Denied(error: ProxyError)

  /** Where the future stands: not yet polled, buffering, forwarded with its body still flowing, or done. */
  datatype Phase = Waiting | Collecting | Streaming | Closed

  /**
   A request in the layer. `sent` is what the client has sent and the layer has read, `inward`
   what the inner service has been given, `allowance` what is left of the body limit.
   */
  datatype Task = Task(request: Request, phase: Phase, decision: Decision, sent: string, inward: string, allowance: nat)

  datatype Event = Start | Frame(data: string) | Finish | Break | Cancel

  function NewTask(request: Request, limit: nat): Task {
    Task(request, Waiting, Undecided, "", "", limit)
  }

  function Refuse(task: Task, error: ProxyError): Task {
    task.(phase := Closed, decision := Denied(error))
  }

  /** One event of one request. An event that its phase does not expect changes nothing. */
  function Step(config: Config, task: Task, event: Event): Task {
    match event
    case Start => if task.phase == Waiting then Decide(config, task) else task
    case Frame(data) => Read(task, data)
    case Finish =>
      if task.phase == Collecting then Inspect(config, task)
      else if task.phase == Streaming then task.(phase := Closed)
      else task
    case Break =>
      if task.phase == Collecting then Refuse(task, Internal)
      else if task.phase == Streaming then task.(phase := Closed)
      else task
    case Cancel => task.(phase := Closed)
  }

  function Decide(config: Config, task: Task): Task {
    match config.head(task.request.verb, task.request.path)
    case Err(e) => Refuse(task, e)
    case Ok(NoBody) =>
      (match OversizedDeclaration(task.request.contentLength, config.limit)
       case Some(e) => Refuse(task, e)
       case None => task.(phase := Streaming, decision := Allowed))
    case Ok(ContainerCreate) => task.(phase := Collecting)
  }

  function Read(task: Task, data: string): Task {
    if task.phase != Collecting && task.phase != Streaming then task
    else
      var read := task.(sent := task.sent + data);
      if |data| > task.allowance then
        if task.phase == Collecting then Refuse(read, TooLarge) else read.(phase := Closed)
      else if task.phase == Collecting then read.(allowance := task.allowance - |data|)
      else read.(allowance := task.allowance - |data|, inward := task.inward + data)
  }

  function Inspect(config: Config, task: Task): Task {
    match config.body(task.sent)
    case Err(e) => Refuse(task, e)
    case Ok(_) => task.(phase := Closed, decision := Allowed, inward := task.sent)
  }

  // ── What holds of every request, at every moment ──

  function Head(config: Config, task: Task): Result<BodyRule> {
    config.head(task.request.verb, task.request.path)
  }

  /**
   An allowed request passed its head and, where owed, its body; what goes inward is what was
   checked, within the limit.
   */
  predicate RightlyAllowed(config: Config, task: Task) {
    && Head(config, task).Ok?
    && |task.inward| <= config.limit
    && match Head(config, task).value
       case NoBody => task.inward <= task.sent
       case ContainerCreate =>
         task.inward == task.sent && config.body(task.inward).Ok?
  }

  /** A refused request has the error that its head, its declared length or its body gave. */
  ghost predicate RightlyDenied(config: Config, task: Task, error: ProxyError) {
    match Head(config, task)
    case Err(e) => error == e
    case Ok(NoBody) => error == TooLarge && StatesBeyond(task.request.contentLength, config.limit)
    case Ok(ContainerCreate) =>
      || (error == TooLarge && |task.sent| > config.limit)
      || (error == Internal && |task.sent| <= config.limit)
      || (|task.sent| <= config.limit && config.body(task.sent) == Err(error))
  }

  ghost predicate Sound(config: Config, task: Task) {
    && match task.decision
       case Undecided =>
         && task.inward == ""
         && task.phase != Streaming
         && (task.phase == Waiting ==> task.sent == "" && task.allowance == config.limit)
         && (task.phase == Collecting ==>
               Head(config, task) == Ok(ContainerCreate) && |task.sent| + task.allowance == config.limit)
       case Allowed =>
         && RightlyAllowed(config, task)
         && (task.phase == Streaming || task.phase == Closed)
         && (task.phase == Streaming ==>
               && Head(config, task) == Ok(NoBody)
               && task.inward == task.sent && |task.inward| + task.allowance == config.limit)
       case Denied(e) => task.phase == Closed && RightlyDenied(config, task, e)
  }

  lemma StepKeepsSound(config: Config, task: Task, event: Event)
    requires Sound(config, task)
    ensures Sound(config, Step(config, task, event))
    ensures Step(config, task, event).request == task.request
  {
    OversizedExactly(task.request.contentLength, config.limit);
  }

  /** A decision is final. */
  lemma DecisionsAreFinal(config: Config, task: Task, event: Event)
    requires Sound(config, task) && task.decision != Undecided
    ensures Step(config, task, event).decision == task.decision
  {
  }

  function RunTask(config: Config, task: Task, events: seq<Event>): Task
    decreases |events|
  {
    if |events| == 0 then task else RunTask(config, Step(config, task, events[0]), events[1..])
  }

  function Frames(frames: seq<string>): seq<Event> {
    seq(|frames|, i requires 0 <= i < |frames| => Frame(frames[i]))
  }

  function EndEvent(end: End): Event {
    if end == Complete then Finish else Break
  }

  lemma {:induction false} CollectingRun(config: Config, task: Task, frames: seq<string>, end: End)
    requires Sound(config, task) && task.phase == Collecting && task.decision == Undecided
    ensures var last := RunTask(config, task, Frames(frames) + [EndEvent(end)]);
            var body := task.sent + Concat(frames);
            last.decision ==
              if |body| > config.limit then Denied(TooLarge)
              else if end == Broken then Denied(Internal)
              else match config.body(body) case Err(e) => Denied(e) case Ok(_) => Allowed
    ensures var last := RunTask(config, task, Frames(frames) + [EndEvent(end)]);
            last.inward == if last.decision == Allowed then task.sent + Concat(frames) else ""
    decreases |frames|
  {
    var events := Frames(frames) + [EndEvent(end)];
    if |frames| == 0 {
      assert events == [EndEvent(end)];
      assert RunTask(config, Step(config, task, EndEvent(end)), []) == Step(config, task, EndEvent(end));
      assert task.sent + "" == task.sent;
    } else {
      var next := Step(config, task, Frame(frames[0]));
      assert events[1..] == Frames(frames[1..]) + [EndEvent(end)];
      assert task.sent + frames[0] + Concat(frames[1..]) == task.sent + Concat(frames);
      StepKeepsSound(config, task, Frame(frames[0]));
      if next.decision == Undecided {
        CollectingRun(config, next, frames[1..], end);
      } else {
        FinalRun(config, next, events[1..]);
        ClosedIsClosed(config, next, events[1..]);
      }
    }
  }

  lemma {:induction false} FinalRun(config: Config, task: Task, events: seq<Event>)
    requires Sound(config, task) && task.decision != Undecided
    ensures RunTask(config, task, events).decision == task.decision
    decreases |events|
  {
    if |events| > 0 {
      StepKeepsSound(config, task, events[0]);
      FinalRun(config, Step(config, task, events[0]), events[1..]);
    }
  }

  /** An uninspected body flows inward exactly as the limiter passes it on. */
  lemma {:induction false} StreamingRun(config: Config, task: Task, frames: seq<string>, end: End)
    requires Sound(config, task) && task.phase == Streaming
    ensures RunTask(config, task, Frames(frames) + [EndEvent(end)]).inward ==
            task.inward + Limited(frames, end, task.allowance).delivered
    decreases |frames|
  {
    var events := Frames(frames) + [EndEvent(end)];
    if |frames| == 0 {
      assert events == [EndEvent(end)];
      assert RunTask(config, Step(config, task, EndEvent(end)), []) == Step(config, task, EndEvent(end));
      assert task.inward + "" == task.inward;
    } else {
      var next := Step(config, task, Frame(frames[0]));
      assert events[1..] == Frames(frames[1..]) + [EndEvent(end)];
      StepKeepsSound(config, task, Frame(frames[0]));
      if next.phase == Streaming {
        StreamingRun(config, next, frames[1..], end);
        assert task.inward + frames[0] + Limited(frames[1..], end, next.allowance).delivered
            == task.inward + (frames[0] + Limited(frames[1..], end, next.allowance).delivered);
      } else {
        ClosedIsClosed(config, next, events[1..]);
        assert task.inward + "" == task.inward;
      }
    }
  }

  lemma {:induction false} ClosedIsClosed(config: Config, task: Task, events: seq<Event>)
    requires task.phase == Closed
    ensures RunTask(config, task, events) == task
    decreases |events|
  {
    if |events| > 0 {
      assert Step(config, task, events[0]) == task;
      ClosedIsClosed(config, task, events[1..]);
    }
  }

  /** Once cancelled, a request stays as it was, whatever else arrives. */
  lemma CancellingStops(config: Config, task: Task, events: seq<Event>)
    ensures RunTask(config, task, [Cancel] + events) == task.(phase := Closed)
  {
    assert ([Cancel] + events)[1..] == events;
    ClosedIsClosed(config, task.(phase := Closed), events);
  }

  /** The decision on a request that is not cancelled, by its head, its declared length and its whole body. */
  ghost function Verdict(config: Config, request: Request, body: string, end: End): Decision {
    match config.head(request.verb, request.path)
    case Err(e) => Denied(e)
    case Ok(NoBody) =>
      if StatesBeyond(request.contentLength, config.limit) then Denied(TooLarge) else Allowed
    case Ok(ContainerCreate) =>
      if |body| > config.limit then Denied(TooLarge)
      else if end == Broken then Denied(Internal)
      else match config.body(body) case Err(e) => Denied(e) case Ok(_) => Allowed
  }

  /** How the body was cut into frames makes no difference to it. */
  lemma DecidedByWholeBody(config: Config, request: Request, frames: seq<string>, end: End)
    ensures RunTask(config, NewTask(request, config.limit), [Start] + Frames(frames) + [EndEvent(end)]).decision ==
            Verdict(config, request, Concat(frames), end)
  {
    OversizedExactly(request.contentLength, config.limit);
    var task := NewTask(request, config.limit);
    var events := [Start] + Frames(frames) + [EndEvent(end)];
    assert events[1..] == Frames(frames) + [EndEvent(end)];
    var next := Step(config, task, Start);
    StepKeepsSound(config, task, Start);
    if next.decision == Undecided {
      CollectingRun(config, next, frames, end);
      assert "" + Concat(frames) == Concat(frames);
    } else {
      FinalRun(config, next, events[1..]);
    }
  }

  /**
   What such a request delivers inward: the very bytes that were inspected, or of an uninspected
   body what the limiter passes on, which is a prefix within the limit.
   */
  lemma DeliveredInward(config: Config, request: Request, frames: seq<string>, end: End)
    ensures var last := RunTask(config, NewTask(request, config.limit), [Start] + Frames(frames) + [EndEvent(end)]);
            && last.inward <= Concat(frames) && |last.inward| <= config.limit
            && (last.decision != Allowed ==> last.inward == "")
            && (last.decision == Allowed ==>
                  last.inward == if config.head(request.verb, request.path) == Ok(NoBody)
                                 then Limited(frames, end, config.limit).delivered else Concat(frames))
  {
    var task := NewTask(request, config.limit);
    var events := [Start] + Frames(frames) + [EndEvent(end)];
    assert events[1..] == Frames(frames) + [EndEvent(end)];
    var next := Step(config, task, Start);
    OversizedExactly(request.contentLength, config.limit);
    StepKeepsSound(config, task, Start);
    DecidedByWholeBody(config, request, frames, end);
    if next.phase == Streaming {
      StreamingRun(config, next, frames, end);
      LimitedDelivers(frames, end, config.limit);
      assert "" + Limited(frames, end, config.limit).delivered == Limited(frames, end, config.limit).delivered;
    } else if next.phase == Collecting {
      CollectingRun(config, next, frames, end);
      assert "" + Concat(frames) == Concat(frames);
    } else {
      ClosedIsClosed(config, next, events[1..]);
    }
  }

  /** Without a declared length, a request whose head passes and owes no inspection is allowed. */
  lemma UndeclaredIsAllowed(config: Config, request: Request, frames: seq<string>, end: End)
    requires config.head(request.verb, request.path) == Ok(NoBody) && request.contentLength == None
    ensures RunTask(config, NewTask(request, config.limit), [Start] + Frames(frames) + [EndEvent(end)]).decision ==
            Allowed
  {
    DecidedByWholeBody(config, request, frames, end);
  }

  // ── Any number of requests ──

  /** A call of the inner service: for which request, on which instance. */
  datatype InnerCall = InnerCall(task: nat, instance: nat)

  /** A request in flight, with the inner instance its future took over. */
  datatype Flight = Flight(task: Task, instance: nat)

  /**
   The layer's clones each hold one inner instance; `ready` are the instances `poll_ready` has
   readied, `next` numbers the next clone. The counters are 64-bit.
   */
  datatype System = System(
    flights: seq<Flight>, handles: seq<nat>, ready: set<nat>, next: nat,
    calls: seq<InnerCall>, refusals: seq<nat>, allowed: nat, denied: nat)

  datatype Action =
    | Clone(handle: nat)
    | PollReady(handle: nat)
    | Call(handle: nat, request: Request)
    | OnTask(task: nat, event: Event)

  const START := System([], [0], {}, 1, [], [], 0, 0)

  /** An action that is not possible, such as calling a handle that was not polled ready, changes nothing. */
  function Act(config: Config, s: System, action: Action): System {
    match action
    case Clone(handle) =>
      if handle < |s.handles| then s.(handles := s.handles + [s.next], next := s.next + 1) else s
    case PollReady(handle) =>
      if handle < |s.handles| then s.(ready := s.ready + {s.handles[handle]}) else s
    case Call(handle, request) =>
      if handle < |s.handles| && s.handles[handle] in s.ready then
        // The pending clone stays behind; the readied instance goes with the future.
        s.(flights := s.flights + [Flight(NewTask(request, config.limit), s.handles[handle])],
           handles := s.handles[handle := s.next],
           next := s.next + 1)
      else s
    case OnTask(i, event) =>
      if i < |s.flights| then Settle(s, i, Step(config, s.flights[i].task, event)) else s
  }

  /** A task moves on; when that decides it, the decision is counted and an allowed request goes inward. */
  function Settle(s: System, i: nat, after: Task): System
    requires i < |s.flights|
  {
    var before := s.flights[i].task;
    var moved := s.(flights := s.flights[i := s.flights[i].(task := after)]);
    if before.decision != Undecided || after.decision == Undecided then moved
    else if after.decision == Allowed then
      moved.(calls := s.calls + [InnerCall(i, s.flights[i].instance)], allowed := (s.allowed + 1) % U64)
    else
      moved.(refusals := s.refusals + [i], denied := (s.denied + 1) % U64)
  }

  function Run(config: Config, s: System, actions: seq<Action>): System
    decreases |actions|
  {
    if |actions| == 0 then s else Run(config, Act(config, s, actions[0]), actions[1..])
  }

  /** The events of one request among those of all of them. */
  function EventsOf(actions: seq<Action>, i: nat): seq<Event> {
    if |actions| == 0 then []
    else if Concerns(actions[0], i) then [actions[0].event] + EventsOf(actions[1..], i)
    else EventsOf(actions[1..], i)
  }

  predicate Concerns(action: Action, i: nat) {
    action.OnTask? && action.task == i
  }

  lemma ActOnOne(config: Config, s: System, action: Action, i: nat)
    requires i < |s.flights|
    ensures var next := Act(config, s, action);
            && i < |next.flights| && next.flights[i].instance == s.flights[i].instance
            && next.flights[i].task ==
                 if Concerns(action, i) then Step(config, s.flights[i].task, action.event) else s.flights[i].task
  {
  }

  /** What becomes of a request depends on its own events alone, whatever the others do in between. */
  lemma {:induction false} RequestsDoNotInterfere(config: Config, s: System, actions: seq<Action>, i: nat)
    requires i < |s.flights|
    ensures var last := Run(config, s, actions);
            && i < |last.flights|
            && last.flights[i].task == RunTask(config, s.flights[i].task, EventsOf(actions, i))
            && last.flights[i].instance == s.flights[i].instance
    decreases |actions|
  {
    if |actions| > 0 {
      ActOnOne(config, s, actions[0], i);
      RequestsDoNotInterfere(config, Act(config, s, actions[0]), actions[1..], i);
      if Concerns(actions[0], i) {
        var events := EventsOf(actions, i);
        assert events[1..] == EventsOf(actions[1..], i);
      }
    }
  }

  // ── What holds over every interleaving ──

  ghost predicate Instances(s: System) {
    && (forall h :: 0 <= h < |s.handles| ==> s.handles[h] < s.next)
    && (forall instance <- s.ready :: instance < s.next)
    && (forall i :: 0 <= i < |s.flights| ==> s.flights[i].instance < s.next && s.flights[i].instance in s.ready)
    && (forall h, k :: 0 <= h < k < |s.handles| ==> s.handles[h] != s.handles[k])
    && (forall i, j :: 0 <= i < j < |s.flights| ==> s.flights[i].instance != s.flights[j].instance)
    && (forall h, i :: 0 <= h < |s.handles| && 0 <= i < |s.flights| ==> s.handles[h] != s.flights[i].instance)
  }

  ghost predicate CallsMatch(s: System) {
    && (forall k :: 0 <= k < |s.calls| ==>
          s.calls[k].task < |s.flights| && s.calls[k].instance == s.flights[s.calls[k].task].instance)
    && (forall i :: 0 <= i < |s.flights| ==>
          (s.flights[i].task.decision == Allowed <==> exists k :: 0 <= k < |s.calls| && s.calls[k].task == i))
    && (forall j, k :: 0 <= j < k < |s.calls| ==> s.calls[j].task != s.calls[k].task)
  }

  ghost predicate RefusalsMatch(s: System) {
    && (forall k :: 0 <= k < |s.refusals| ==> s.refusals[k] < |s.flights|)
    && (forall i :: 0 <= i < |s.flights| ==> (s.flights[i].task.decision.Denied? <==> i in s.refusals))
    && (forall j, k :: 0 <= j < k < |s.refusals| ==> s.refusals[j] != s.refusals[k])
  }

  ghost predicate Counted(s: System) {
    s.allowed == |s.calls| % U64 && s.denied == |s.refusals| % U64
  }

  ghost predicate Safe(config: Config, s: System) {
    && (forall i :: 0 <= i < |s.flights| ==> Sound(config, s.flights[i].task))
    && Instances(s)
    && CallsMatch(s)
    && RefusalsMatch(s)
    && Counted(s)
  }

  /** Every flight keeps its instance and whether it was allowed, except flight `i`, which becomes allowed. */
  ghost predicate OnlyAllows(s: System, t: System, i: nat) {
    && |t.flights| == |s.flights| && i < |s.flights|
    && (forall j :: 0 <= j < |s.flights| ==> t.flights[j].instance == s.flights[j].instance)
    && (forall j :: 0 <= j < |s.flights| ==>
          (t.flights[j].task.decision == Allowed <==> j == i || s.flights[j].task.decision == Allowed))
  }

  lemma AllowingKeepsCalls(s: System, t: System, i: nat)
    requires CallsMatch(s) && OnlyAllows(s, t, i) && s.flights[i].task.decision != Allowed
    requires t.calls == s.calls + [InnerCall(i, s.flights[i].instance)]
    ensures CallsMatch(t)
  {
    assert t.calls[|s.calls|].task == i;
    forall j | 0 <= j < |t.flights|
      ensures t.flights[j].task.decision == Allowed <==> exists k :: 0 <= k < |t.calls| && t.calls[k].task == j
    {
      if j != i && s.flights[j].task.decision == Allowed {
        var k :| 0 <= k < |s.calls| && s.calls[k].task == j;
        assert t.calls[k].task == j;
      }
    }
  }

  lemma SettleKeepsCalls(s: System, i: nat, after: Task)
    requires CallsMatch(s) && i < |s.flights|
    requires s.flights[i].task.decision != Undecided ==> after.decision == s.flights[i].task.decision
    ensures CallsMatch(Settle(s, i, after))
  {
    if s.flights[i].task.decision == Undecided && after.decision == Allowed {
      AllowingKeepsCalls(s, Settle(s, i, after), i);
    }
  }

  lemma SettleKeepsRefusals(s: System, i: nat, after: Task)
    requires RefusalsMatch(s) && i < |s.flights|
    requires s.flights[i].task.decision != Undecided ==> after.decision == s.flights[i].task.decision
    ensures RefusalsMatch(Settle(s, i, after))
  {
  }

  lemma SettleCounts(s: System, i: nat, after: Task)
    requires Counted(s) && i < |s.flights|
    ensures Counted(Settle(s, i, after))
  {
  }

  lemma OnTaskKeepsSafe(config: Config, s: System, i: nat, event: Event)
    requires Safe(config, s) && i < |s.flights|
    ensures Safe(config, Settle(s, i, Step(config, s.flights[i].task, event)))
  {
    var before := s.flights[i].task;
    var after := Step(config, before, event);
    StepKeepsSound(config, before, event);
    if before.decision != Undecided {
      DecisionsAreFinal(config, before, event);
    }
    SettleKeepsCalls(s, i, after);
    SettleKeepsRefusals(s, i, after);
    SettleCounts(s, i, after);
    var t := Settle(s, i, after);
    assert forall j :: 0 <= j < |t.flights| ==> t.flights[j].instance == s.flights[j].instance;
    assert Instances(t);
  }

  lemma CallKeepsInstances(config: Config, s: System, handle: nat, request: Request)
    requires Instances(s) && handle < |s.handles| && s.handles[handle] in s.ready
    ensures Instances(Act(config, s, Call(handle, request)))
  {
  }

  lemma CallKeepsCalls(config: Config, s: System, handle: nat, request: Request)
    requires CallsMatch(s) && handle < |s.handles| && s.handles[handle] in s.ready
    ensures CallsMatch(Act(config, s, Call(handle, request)))
  {
    var t := Act(config, s, Call(handle, request));
    forall j | 0 <= j < |t.flights|
      ensures t.flights[j].task.decision == Allowed <==> exists k :: 0 <= k < |t.calls| && t.calls[k].task == j
    {
      if j < |s.flights| {
        assert t.flights[j] == s.flights[j];
      }
    }
  }

  lemma CallKeepsRefusals(config: Config, s: System, handle: nat, request: Request)
    requires RefusalsMatch(s) && handle < |s.handles| && s.handles[handle] in s.ready
    ensures RefusalsMatch(Act(config, s, Call(handle, request)))
  {
  }

  lemma CallKeepsSafe(config: Config, s: System, handle: nat, request: Request)
    requires Safe(config, s) && handle < |s.handles| && s.handles[handle] in s.ready
    ensures Safe(config, Act(config, s, Call(handle, request)))
  {
    CallKeepsInstances(config, s, handle, request);
    CallKeepsCalls(config, s, handle, request);
    CallKeepsRefusals(config, s, handle, request);
    assert Sound(config, NewTask(request, config.limit));
  }

  /**
   A polled handle's call is taken: the request is in flight on the very instance that was readied,
   and the handle is left with one that is not ready.
   */
  lemma PolledCallIsTaken(config: Config, s: System, handle: nat, request: Request)
    requires Safe(config, s) && handle < |s.handles|
    ensures var t := Act(config, Act(config, s, PollReady(handle)), Call(handle, request));
            && t.flights == s.flights + [Flight(NewTask(request, config.limit), s.handles[handle])]
            && t.handles == s.handles[handle := t.handles[handle]]
            && t.handles[handle] !in t.ready
            && t.calls == s.calls && t.allowed == s.allowed && t.denied == s.denied
  {
    var polled := Act(config, s, PollReady(handle));
    assert polled.handles == s.handles && s.handles[handle] in polled.ready;
    assert s.handles[handle] != s.next;
  }

  /** Cloning and polling touch no flight. */
  lemma HandlesKeepSafe(config: Config, s: System, action: Action)
    requires Safe(config, s) && (action.Clone? || action.PollReady?)
    ensures Safe(config, Act(config, s, action))
  {
    var t := Act(config, s, action);
    assert t.flights == s.flights && t.calls == s.calls && t.refusals == s.refusals;
    assert Instances(t);
  }

  lemma ActKeepsSafe(config: Config, s: System, action: Action)
    requires Safe(config, s)
    ensures Safe(config, Act(config, s, action))
  {
    match action
    case Clone(handle) => HandlesKeepSafe(config, s, action);
    case PollReady(handle) => HandlesKeepSafe(config, s, action);
    case Call(handle, request) =>
      if handle < |s.handles| && s.handles[handle] in s.ready {
        CallKeepsSafe(config, s, handle, request);
      }
    case OnTask(i, event) =>
      if i < |s.flights| {
        OnTaskKeepsSafe(config, s, i, event);
      }
  }

  lemma {:induction false} RunKeepsSafe(config: Config, s: System, actions: seq<Action>)
    requires Safe(config, s)
    ensures Safe(config, Run(config, s, actions))
    decreases |actions|
  {
    if |actions| > 0 {
      ActKeepsSafe(config, s, actions[0]);
      RunKeepsSafe(config, Act(config, s, actions[0]), actions[1..]);
    }
  }

  /**
   Over every interleaving of any number of requests, cancelled ones included: the inner service
   is called only for requests that were rightly allowed, once each, each on its own instance
   that was readied first; and a refused request has the error its head or body gave.
   */
  lemma EveryInterleavingIsSafe(config: Config, actions: seq<Action>)
    ensures var s := Run(config, START, actions);
            && (forall k :: 0 <= k < |s.calls| ==>
                  && s.calls[k].task < |s.flights|
                  && s.calls[k].instance in s.ready
                  && RightlyAllowed(config, s.flights[s.calls[k].task].task))
            && (forall j, k :: 0 <= j < k < |s.calls| ==>
                  s.calls[j].task != s.calls[k].task && s.calls[j].instance != s.calls[k].instance)
            && (forall i :: 0 <= i < |s.flights| && s.flights[i].task.decision.Denied? ==>
                  RightlyDenied(config, s.flights[i].task, s.flights[i].task.decision.error))
  {
    RunKeepsSafe(config, START, actions);
  }

  /**
   One request among any others: once its handle was polled and called, whatever else happens in
   between, it is decided by its own head, length and whole body. It is forwarded, on the readied
   instance, exactly when that allows it, and counted as refused exactly when that refuses it.
   */
  lemma InterleavedRequest(
    config: Config, s: System, handle: nat, request: Request, actions: seq<Action>, frames: seq<string>, end: End)
    requires Safe(config, s) && handle < |s.handles| && s.handles[handle] in s.ready
    requires EventsOf(actions, |s.flights|) == [Start] + Frames(frames) + [EndEvent(end)]
    ensures var i := |s.flights|;
            var last := Run(config, Act(config, s, Call(handle, request)), actions);
            var verdict := Verdict(config, request, Concat(frames), end);
            && i < |last.flights| && last.flights[i].task.decision == verdict
            && (verdict == Allowed <==> InnerCall(i, s.handles[handle]) in last.calls)
            && (verdict.Denied? <==> i in last.refusals)
            && (verdict != Allowed ==> forall call <- last.calls :: call.task != i)
  {
    var i := |s.flights|;
    var called := Act(config, s, Call(handle, request));
    var last := Run(config, called, actions);
    ActKeepsSafe(config, s, Call(handle, request));
    RunKeepsSafe(config, called, actions);
    RequestsDoNotInterfere(config, called, actions, i);
    DecidedByWholeBody(config, request, frames, end);
    CallsOfOne(config, last, i);
  }

  /** A flight is called for exactly when it is allowed, and then on its own instance. */
  lemma CallsOfOne(config: Config, s: System, i: nat)
    requires Safe(config, s) && i < |s.flights|
    ensures s.flights[i].task.decision == Allowed <==> InnerCall(i, s.flights[i].instance) in s.calls
    ensures s.flights[i].task.decision != Allowed ==> forall call <- s.calls :: call.task != i
  {
    if s.flights[i].task.decision == Allowed {
      var k :| 0 <= k < |s.calls| && s.calls[k].task == i;
      assert s.calls[k] == InnerCall(i, s.flights[i].instance);
    }
  }

  /** An undecided request that is cancelled stays so: it is never forwarded and counted nowhere. */
  lemma CancelledIsNeverCounted(config: Config, s: System, i: nat, actions: seq<Action>)
    requires Safe(config, s) && i < |s.flights| && s.flights[i].task.decision == Undecided
    ensures var last := Run(config, Act(config, s, OnTask(i, Cancel)), actions);
            && i < |last.flights| && last.flights[i].task == s.flights[i].task.(phase := Closed)
            && (forall call <- last.calls :: call.task != i)
            && i !in last.refusals
  {
    var cancelled := Act(config, s, OnTask(i, Cancel));
    ActKeepsSafe(config, s, OnTask(i, Cancel));
    RunKeepsSafe(config, cancelled, actions);
    ActOnOne(config, s, OnTask(i, Cancel), i);
    RequestsDoNotInterfere(config, cancelled, actions, i);
    ClosedIsClosed(config, cancelled.flights[i].task, EventsOf(actions, i));
    CallsOfOne(config, Run(config, cancelled, actions), i);
  }

  lemma CalledIsRightlyAllowed(config: Config, actions: seq<Action>, k: nat)
    requires k < |Run(config, START, actions).calls|
    ensures var s := Run(config, START, actions);
            s.calls[k].task < |s.flights| && RightlyAllowed(config, s.flights[s.calls[k].task].task)
  {
    EveryInterleavingIsSafe(config, actions);
  }

  function AllowedTasks(s: System): set<int> {
    set i | 0 <= i < |s.flights| && s.flights[i].task.decision == Allowed
  }

  function DeniedTasks(s: System): set<int> {
    set i | 0 <= i < |s.flights| && s.flights[i].task.decision.Denied?
  }

  /**
   Every decided request is counted exactly once: modulo 2^64, the allowed counter is the number
   of allowed requests, which is the number of inner calls, and the denied counter the number of
   refused ones. A request cancelled before its decision is counted nowhere.
   */
  lemma EveryDecisionIsCountedOnce(config: Config, actions: seq<Action>)
    ensures var s := Run(config, START, actions);
            && |s.calls| == |AllowedTasks(s)| && s.allowed == |AllowedTasks(s)| % 0x1_0000_0000_0000_0000
            && s.denied == |DeniedTasks(s)| % 0x1_0000_0000_0000_0000
  {
    RunKeepsSafe(config, START, actions);
    var s := Run(config, START, actions);
    var called := seq(|s.calls|, k requires 0 <= k < |s.calls| => s.calls[k].task);
    CalledAreAllowed(s, called);
    CountDistinct(called, AllowedTasks(s));
    CountDistinct(s.refusals, DeniedTasks(s));
  }

  lemma CalledAreAllowed(s: System, called: seq<int>)
    requires CallsMatch(s) && |called| == |s.calls| && forall k :: 0 <= k < |called| ==> called[k] == s.calls[k].task
    ensures forall i :: i in AllowedTasks(s) <==> i in called
  {
    forall i | i in AllowedTasks(s) ensures i in called {
      var k :| 0 <= k < |s.calls| && s.calls[k].task == i;
      assert called[k] == i;
    }
  }

  /** A list without repetitions is as long as the set of its members is large. */
  lemma {:induction false} CountDistinct(list: seq<int>, members: set<int>)
    requires forall j, k :: 0 <= j < k < |list| ==> list[j] != list[k]
    requires forall i :: i in members <==> i in list
    ensures |list| == |members|
  {
    if |list| == 0 {
      assert forall i :: i !in members;
      assert members == {};
    } else {
      var n := |list| - 1;
      assert list == list[..n] + [list[n]];
      assert list[n] !in list[..n];
      forall i ensures i in members - {list[n]} <==> i in list[..n] {
      }
      CountDistinct(list[..n], members - {list[n]});
      assert list[n] in members;
    }
  }

  /** Around a filter, a request that went inward is one the filter accepts with the body that went inward. */
  lemma AllowedPassesTheFilter(filter: Filter, json: string -> Option<CreateBody.Json>, limit: nat, task: Task)
    requires RightlyAllowed(LayerOf(filter, json, limit), task)
    ensures filter.CheckRequest(task.request.verb, task.request.path, task.inward, json).Ok?
    ensures |task.inward| <= limit && task.inward <= task.sent
  {
  }

  // ── The layer's objects ──

  class Metrics {
    var allowed: nat
    var denied: nat

    constructor ()
      ensures allowed == 0 && denied == 0
    {
      allowed, denied := 0, 0;
    }

    method RecordAllowed()
      modifies this
      ensures allowed == (old(allowed) + 1) % U64 && denied == old(denied)
    {
      allowed := (allowed + 1) % U64;
    }

    method RecordDenied()
      modifies this
      ensures denied == (old(denied) + 1) % U64 && allowed == old(allowed)
    {
      denied := (denied + 1) % U64;
    }
  }

  /** The inner service: an instance must be readied before it is called, and a call uses that up. */
  class Inner {
    var ready: bool
    var calls: seq<Request>

    constructor ()
      ensures !ready && calls == []
    {
      ready, calls := false, [];
    }

    method PollReady()
      modifies this
      ensures ready && calls == old(calls)
    {
      ready := true;
    }

    method Call(request: Request)
      requires ready
      modifies this
      ensures !ready && calls == old(calls) + [request]
    {
      calls := calls + [request];
      ready := false;
    }
  }

  /** The future of one request, with the instance it took over. */
  class RequestFuture {
    const config: Config
    const metrics: Metrics
    const inner: Inner
    var task: Task

    ghost predicate Valid()
      reads this, inner
    {
      && Sound(config, task)
      && (task.decision == Undecided && task.phase != Closed ==> inner.ready)
    }

    constructor (config: Config, metrics: Metrics, inner: Inner, request: Request)
      requires inner.ready
      ensures Valid() && this.config == config && this.metrics == metrics && this.inner == inner
      ensures task == NewTask(request, config.limit)
    {
      this.config, this.metrics, this.inner := config, metrics, inner;
      this.task := NewTask(request, config.limit);
    }

    method Deny(error: ProxyError)
      modifies this, metrics
      ensures task == Refuse(old(task), error)
      ensures metrics.denied == (old(metrics.denied) + 1) % U64 && metrics.allowed == old(metrics.allowed)
    {
      metrics.RecordDenied();
      task := task.(phase := Closed, decision := Denied(error));
    }

    method Forward(phase: Phase, inward: string)
      requires inner.ready
      modifies this, metrics, inner
      ensures task == old(task).(phase := phase, decision := Allowed, inward := inward)
      ensures metrics.allowed == (old(metrics.allowed) + 1) % U64 && metrics.denied == old(metrics.denied)
      ensures inner.calls == old(inner.calls) + [task.request]
    {
      metrics.RecordAllowed();
      inner.Call(task.request);
      task := task.(phase := phase, decision := Allowed, inward := inward);
    }

    /**
     One resumption of the future. The inner service is called, and the allowed counter raised,
     exactly when this event allows the request; the denied counter exactly when it refuses it.
     */
    method Resume(event: Event)
      requires Valid()
      modifies this, metrics, inner
      ensures Valid()
      ensures task == Step(config, old(task), event)
      ensures var allows := old(task).decision == Undecided && task.decision == Allowed;
              && inner.calls == old(inner.calls) + (if allows then [task.request] else [])
              && metrics.allowed == if allows then (old(metrics.allowed) + 1) % U64 else old(metrics.allowed)
      ensures var denies := old(task).decision == Undecided && task.decision.Denied?;
              metrics.denied == if denies then (old(metrics.denied) + 1) % U64 else old(metrics.denied)
    {
      StepKeepsSound(config, task, event);
      match event {
        case Start =>
          if task.phase == Waiting {
            var head := config.head(task.request.verb, task.request.path);
            if head.Err? {
              Deny(head.error);
            } else if head.value == NoBody {
              var oversized := OversizedDeclaration(task.request.contentLength, config.limit);
              if oversized.Some? {
                Deny(oversized.value);
              } else {
                Forward(Streaming, task.inward);
              }
            } else {
              task := task.(phase := Collecting);
            }
          }
        case Frame(data) =>
          if task.phase == Collecting || task.phase == Streaming {
            task := task.(sent := task.sent + data);
            if |data| > task.allowance {
              if task.phase == Collecting {
                Deny(TooLarge);
              } else {
                task := task.(phase := Closed);
              }
            } else {
              task := task.(allowance := task.allowance - |data|);
              if task.phase == Streaming {
                task := task.(inward := task.inward + data);
              }
            }
          }
        case Finish =>
          if task.phase == Collecting {
            var verdict := config.body(task.sent);
            if verdict.Err? {
              Deny(verdict.error);
            } else {
              Forward(Closed, task.sent);
            }
          } else if task.phase == Streaming {
            task := task.(phase := Closed);
          }
        case Break =>
          if task.phase == Collecting {
            Deny(Internal);
          } else if task.phase == Streaming {
            task := task.(phase := Closed);
          }
        case Cancel =>
          task := task.(phase := Closed);
      }
      assert inner.calls + [] == inner.calls;
    }
  }

  class SecurityService {
    var inner: Inner
    const config: Config
    const metrics: Metrics

    constructor (inner: Inner, config: Config, metrics: Metrics)
      ensures this.inner == inner && this.config == config && this.metrics == metrics
    {
      this.inner, this.config, this.metrics := inner, config, metrics;
    }

    method PollReady()
      modifies inner
      ensures inner.ready && inner.calls == old(inner.calls)
    {
      inner.PollReady();
    }

    /** The future takes the readied instance; the service keeps a clone, which is not ready. */
    method Call(request: Request) returns (future: RequestFuture)
      requires inner.ready
      modifies this
      ensures fresh(future) && future.Valid()
      ensures future.inner == old(inner) && future.metrics == metrics && future.config == config
      ensures future.task == NewTask(request, config.limit)
      ensures fresh(inner) && !inner.ready && inner.calls == []
    {
      var pending := new Inner();
      var readyInner := inner;
      inner := pending;
      future := new RequestFuture(config, metrics, readyInner, request);
    }
  }
}
