/**
 What the whole proxy guarantees: policy, normaliser, body inspection and enforcement together.
 */
module Guarantees {
  import opened Results
  import opened Rules
  import opened Bodies
  import opened Filters
  import opened Enforcement
  import opened Paths
  import opened ProfileTables
  import CreateBody
  import Normalize

  /** The request behind the k-th call of the inner service. */
  function Forwarded(s: System, k: nat): Task
    requires k < |s.calls| && s.calls[k].task < |s.flights|
  {
    s.flights[s.calls[k].task].task
  }

  /**
   A request that may go inward: its path has a normal form, which some allowance covers, no
   denial or exclusion covers and the profile promised no refusal of; and a container-create
   goes with the very body that was inspected, an acceptable one.
   */
  predicate Legitimate(profile: Profile, pushes: seq<Push>, json: string -> Option<CreateBody.Json>, task: Task) {
    var verb, normal := task.request.verb, Normalize.Normal(task.request.path);
    && normal.Ok?
    && (AnyMatches(ProfileFilter(profile).allow, verb, normal.value) || Covered(pushes, Allow, verb, normal.value))
    && !Covered(pushes, Deny, verb, normal.value)
    && !Covered(pushes, Exclude, verb, normal.value)
    && !Refuses(profile, verb, Segments(normal.value))
    && (verb == "POST" && normal.value == "/containers/create" ==>
          && task.inward == task.sent
          && var parsed := json(task.inward);
             parsed.Some? && parsed.value.Object? && CreateBody.Acceptable(parsed.value.members))
  }

  lemma AllowedIsLegitimate(
    profile: Profile, pushes: seq<Push>, json: string -> Option<CreateBody.Json>, limit: nat, config: Config,
    task: Task)
    requires config == LayerOf(AfterAll(ProfileFilter(profile), pushes), json, limit) && RightlyAllowed(config, task)
    ensures Legitimate(profile, pushes, json, task)
  {
    var filter := AfterAll(ProfileFilter(profile), pushes);
    var verb, path := task.request.verb, task.request.path;
    assert filter.CheckHead(verb, path).Ok?;
    var normal := Normalize.Normal(path).value;
    DecisionAlgebra(ProfileFilter(profile), pushes, verb, normal);
    ProfileDenies(profile, verb, normal);
    Normalize.NormalIsNormalised(path);
    PromisedExactly(profile, verb, normal);
    if verb == "POST" && normal == "/containers/create" {
      CreateBody.CreateBodyExactly(json(task.inward));
    }
  }

  /** The k-th call of the inner service was for a legitimate request, with a body within the limit. */
  predicate CallIsLegitimate(
    profile: Profile, pushes: seq<Push>, json: string -> Option<CreateBody.Json>, limit: nat, s: System, k: nat)
    requires k < |s.calls|
  {
    && s.calls[k].task < |s.flights|
    && Legitimate(profile, pushes, json, Forwarded(s, k))
    && |Forwarded(s, k).inward| <= limit
  }

  lemma CalledIsLegitimate(
    profile: Profile, pushes: seq<Push>, json: string -> Option<CreateBody.Json>, limit: nat, config: Config,
    actions: seq<Action>, k: nat)
    requires config == LayerOf(AfterAll(ProfileFilter(profile), pushes), json, limit)
    requires k < |Run(config, START, actions).calls|
    ensures CallIsLegitimate(profile, pushes, json, limit, Run(config, START, actions), k)
  {
    CalledIsRightlyAllowed(config, actions, k);
    AllowedIsLegitimate(profile, pushes, json, limit, config, Forwarded(Run(config, START, actions), k));
  }

  /**
   Whatever a policy pushes on top of a profile, and however any number of requests interleave,
   the inner service is called only for legitimate requests, with bodies within the limit.
   */
  lemma OnlyLegitimateRequestsPass(
    profile: Profile, pushes: seq<Push>, json: string -> Option<CreateBody.Json>, limit: nat, actions: seq<Action>)
    ensures var s := Run(LayerOf(AfterAll(ProfileFilter(profile), pushes), json, limit), START, actions);
            forall k :: 0 <= k < |s.calls| ==> CallIsLegitimate(profile, pushes, json, limit, s, k)
  {
    var config := LayerOf(AfterAll(ProfileFilter(profile), pushes), json, limit);
    var s := Run(config, START, actions);
    forall k | 0 <= k < |s.calls| ensures CallIsLegitimate(profile, pushes, json, limit, s, k) {
      CalledIsLegitimate(profile, pushes, json, limit, config, actions, k);
    }
  }

  /** The method and the normal form of a path are allowed: by some allowance, and by no denial or exclusion. */
  predicate Permitted(profile: Profile, pushes: seq<Push>, verb: string, normal: string) {
    && (Grants(profile, verb, Segments(normal)) || Covered(pushes, Allow, verb, normal))
    && !Refuses(profile, verb, Segments(normal))
    && !Covered(pushes, Deny, verb, normal)
    && !Covered(pushes, Exclude, verb, normal)
  }

  predicate AcceptableBody(json: string -> Option<CreateBody.Json>, body: string) {
    var parsed := json(body);
    parsed.Some? && parsed.value.Object? && CreateBody.Acceptable(parsed.value.members)
  }

  /** What becomes of a request that is not cancelled, written out. */
  ghost function Expected(
    profile: Profile, pushes: seq<Push>, json: string -> Option<CreateBody.Json>, limit: nat,
    request: Request, body: string, end: End): Decision
  {
    match Normalize.Normal(request.path)
    case Err(e) => Denied(e)
    case Ok(normal) =>
      if !Permitted(profile, pushes, request.verb, normal) then Denied(Forbidden)
      else if request.verb == "POST" && normal == "/containers/create" then
        if |body| > limit then Denied(TooLarge)
        else if end == Broken then Denied(Internal)
        else if AcceptableBody(json, body) then Allowed
        else Denied(Forbidden)
      else if StatesBeyond(request.contentLength, limit) then Denied(TooLarge)
      else Allowed
  }

  lemma PermittedExactly(profile: Profile, pushes: seq<Push>, verb: string, normal: string)
    requires Normalised(normal)
    ensures AfterAll(ProfileFilter(profile), pushes).Check(verb, normal) ==
            if Permitted(profile, pushes, verb, normal) then Ok(()) else Err(Forbidden)
  {
    DecisionAlgebra(ProfileFilter(profile), pushes, verb, normal);
    ProfileDenies(profile, verb, normal);
    PromisedExactly(profile, verb, normal);
    ProfileExactly(profile, verb, normal);
    ProfileExcludesNothing(profile, verb, normal);
    AllowedOrForbidden(AfterAll(ProfileFilter(profile), pushes), verb, normal);
  }

  lemma ProfileExcludesNothing(profile: Profile, verb: string, path: string)
    ensures !AnyMatches(ProfileFilter(profile).exclude, verb, path)
  {
  }

  lemma AllowedOrForbidden(filter: Filter, verb: string, path: string)
    ensures filter.Check(verb, path) == if Allows(filter, verb, path) then Ok(()) else Err(Forbidden)
  {
  }

  lemma VerdictOfLayer(
    filter: Filter, json: string -> Option<CreateBody.Json>, limit: nat, request: Request, body: string, end: End)
    ensures Verdict(LayerOf(filter, json, limit), request, body, end) ==
            match filter.CheckHead(request.verb, request.path)
            case Err(e) => Denied(e)
            case Ok(NoBody) => if StatesBeyond(request.contentLength, limit) then Denied(TooLarge) else Allowed
            case Ok(ContainerCreate) =>
              if |body| > limit then Denied(TooLarge)
              else if end == Broken then Denied(Internal)
              else match CreateBody.CheckCreateBody(json(body)) case Err(e) => Denied(e) case Ok(_) => Allowed
  {
  }

  /**
   Every request that is not cancelled is decided exactly as expected, for every profile, every
   policy on top of it, every body and every way of sending it.
   */
  lemma DecidedAsExpected(
    profile: Profile, pushes: seq<Push>, json: string -> Option<CreateBody.Json>, limit: nat,
    request: Request, body: string, end: End)
    ensures Verdict(LayerOf(AfterAll(ProfileFilter(profile), pushes), json, limit), request, body, end) ==
            Expected(profile, pushes, json, limit, request, body, end)
  {
    VerdictOfLayer(AfterAll(ProfileFilter(profile), pushes), json, limit, request, body, end);
    if Normalize.Normal(request.path).Ok? {
      var normal := Normalize.Normal(request.path).value;
      Normalize.NormalIsNormalised(request.path);
      PermittedExactly(profile, pushes, request.verb, normal);
      CreateBody.CreateBodyExactly(json(body));
    }
  }
}
