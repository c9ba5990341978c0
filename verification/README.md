# docker-socket-proxy: a verification model

A Dafny model of the policy decision and enforcement of docker-socket-proxy, a default-deny proxy in
front of the Docker daemon's socket, with proofs of what it promises. `dafny verify dfyconfig.toml`
checks everything.

A request passes through these parts, each modelled in the file of the same name:

| file | what it models |
|---|---|
| `PercentCoding`, `Paths`, `Normalize` | The path normaliser: percent-decoding, dot segments, API version |
| `Utf8`, `Text`, `Stripping`, `Trimming` | UTF-8 validity, splitting and joining, trimming and lower-casing |
| `Rfc3986` | The buffer algorithm of section 5.2.4 of RFC 3986, as a reference for `Paths` |
| `Respelling` | The ways one resource can be written, and that none of them matters |
| `Patterns` | Endpoint patterns, and the check for patterns that match nothing |
| `Rules`, `Filters` | Rules, rule lists, deny-overrides, the built-in profiles |
| `PatternTables`, `ProfileTables` | The profiles' endpoint tables, and what each says of a path in segments |
| `CreateBody` | Inspection of container-create bodies |
| `Policy` | Section variables, documents and `DOCKER_PROXY_*` modifiers compiled into filters |
| `Bodies`, `Enforcement` | The body limit, and the enforcement layer over all interleavings of requests |
| `Objects` | Services, futures and the shared `Metrics` together, refining those interleavings |
| `Guarantees` | What all of these give together |
| `Headers`, `Drain` | Relaying headers across the hop, and draining upgraded connections |

Text is a sequence of bytes: each character of a `string` stands for one byte of the source's `&str`,
so that UTF-8 validity is a property to be proved and not a given. Of errors only the kind is kept.
Code that loops over bytes, segments, endpoints, frames, headers or handles is a method with that loop,
proved equal to a function; `RuleSet`, `RuleList`, `SecurityFilter`, `Metrics`, the service, its future
and the list of upgrade tasks are classes. Reading a body as JSON is a parameter.

## What the proofs found

- `percent_decode` accepts a sign in an escape, so `%+f` decodes to byte 15 (src/security.rs:384), and
  lets a raw backslash through. Section 2.1 of RFC 3986 has no signs. For
  escapes that is the only departure: those of a decodable path keep to that grammar exactly when it has no
  `%+` (`PercentCoding.SignsAreTheDeparture`).
- `normalize_path` is not idempotent: `/v1/v2/info` loses one version each time
  (`Normalize.BehindTwoVersions`), and a decoded escape can leave another one behind. `Normalize.NormalTwice`
  says exactly when a second pass changes nothing.
- The check for patterns that match no known path compares non-empty segments, so it passes patterns that
  can match nothing: `info`, with the slash in front forgotten, and `/containers/..`
  (`Patterns.KnownCheckAcceptsTooMuch`, `Patterns.DotSegment`). Without a trailing slash it is exact on
  patterns that are written with single slashes or hold a `*` and have no dot segment, and on all others it
  can only be too lax (`Patterns.KnownExactly`). With a trailing slash it errs both ways, and `Patterns.PrefixCheckErrs`
  says exactly when.
- Section variables that grant nothing while `POST` is off compile to a rule whose endpoint side is empty,
  which `RuleSet::matches` reads as a wildcard (src/policy.rs:185-192, src/security.rs:46-48). The comment
  at src/policy.rs:131-137 says that `POST=0` restricts what is granted. `Policy.CompatMeansSections`
  has the exact condition and `Policy.NothingGrantedReadsEverything` the case that fails.
- The comment on `drain_upgrades` (src/proxy.rs:344-345) says that sessions outstaying the drain are aborted
  and the drain is bounded. The code stops awaiting them, and allows five seconds for each: with n sessions
  that never end it takes exactly 5n seconds (`Drain.BoundIsReached`). It keeps to one window of five seconds
  exactly when at most one session outlasts it and all before
  that one had ended when the drain began (`Drain.OneWindow`).
- README.md:232 says section variables are not supported; the code and README.md:171 support them, and so
  does the model.

## Model

| member | source | states |
|---|---|---|
| PercentCoding.PercentDecode | src/security.rs:368-398 | The index loop over bytes computes `Decode`, errors included |
| PercentCoding.DecodeSucceedsExactly | src/security.rs:368-398 | Decoding gives `out` exactly on the paths that spell `out` in plain bytes and sound escapes, when `out` is valid UTF-8 |
| PercentCoding.DecodeFailsExactly | src/security.rs:380-397 | On failure the leftmost faulty escape decides the kind, `Forbidden` for a separator and `BadRequest` otherwise; the UTF-8 check speaks last |
| PercentCoding.SignedEscapeDecodes | src/security.rs:374-391 | The witness: `%+f` decodes, and so does a raw backslash |
| PercentCoding.SignsAreTheDeparture | src/security.rs:380-385 | For every decodable path, each `%` is followed by two hex digits if and only if no `%` is followed by `+` |
| PercentCoding.HexDigitsExactly | src/security.rs:384 | The digits of an escape and their values, character by character |
| PercentCoding.EscapesExactly | src/security.rs:380-391 | Which escapes are malformed, which are refused as separators and which are accepted, character by character |
| Utf8.ValidExactly | src/security.rs:397 | What passes the UTF-8 check is exactly the encodings of Unicode scalar values by the table of RFC 3629 |
| PercentCoding.DecodeInvertsEncode | src/security.rs:363-398 | Decoding inverts every encoding of valid UTF-8 that escapes `%` and never a separator, whatever else it escapes and in either hex case |
| PercentCoding.DecodeBySegment | src/security.rs:363-398 | A path decodes exactly when each segment does, UTF-8 included, and decoding then commutes with splitting |
| Paths.RemoveDotSegments | src/security.rs:401-423 | The push/pop loop and the writing loop compute `DotFree` |
| Paths.DotFreeIsCanonical | src/security.rs:401-423 | Every output is `/` or clean segments behind slashes, and splitting it returns the stack it was written from |
| Paths.FixedPointsAreCanonical | src/security.rs:401-423 | The paths left as they are are exactly the canonical ones |
| Paths.DotFreeIdempotent | src/security.rs:401-423 | Removing dot segments twice is removing them once |
| Paths.RenderInjective | src/security.rs:413-422 | Different segment stacks are written as different paths |
| Rfc3986.StackRefinesBuffers | src/security.rs:400-423 | On every absolute path the stack returns what the input/output buffers of section 5.2.4 of RFC 3986 return on the slash-collapsed path, less a trailing slash |
| Normalize.NormalizePath | src/security.rs:358-361 | Decoding, dot removal and version stripping in sequence compute `Normal` |
| Normalize.StripBySegment | src/security.rs:427-442 | On canonical paths the string slice drops the first segment exactly when it is a version |
| Normalize.IsVersionExactly | src/security.rs:431-435 | A version number is exactly one or more non-empty numbers with dots between them |
| Normalize.DottedVersionIsStripped | src/security.rs:425-438 | `/v1.55` and every dotted version is stripped from in front of any path without escapes |
| Normalize.UnversionedIsKept | src/security.rs:427-441 | Such a path is kept if and only if its first segment is not `v` and a version number |
| Normalize.NamesAreKept | src/security.rs:427-441 | `/volumes`, `/version` and `/v1./info` keep their first segment, whatever follows |
| Normalize.NormalBySegment | src/security.rs:358-442 | Normalising decodes segment by segment, resolves, and drops at most one leading version; it fails exactly when a segment does not decode |
| Normalize.NormalSegments | src/security.rs:358-442 | The segments of the normal form are those resolved segments |
| Normalize.NormalFormsAreCanonical | src/security.rs:352-442 | A normal form is canonical, or empty exactly when only a version was left |
| Normalize.NormalTwice | src/security.rs:358-361 | A normal form is its own normal form if and only if it is non-empty, holds no `%` and does not begin with a version |
| Normalize.BehindTwoVersions | src/security.rs:425-442 | Paths like `/v1/v2/info` change each time they are normalised |
| Normalize.NormalIsUtf8 | src/security.rs:397-442 | Whatever is sliced off, a normal form is valid UTF-8 |
| Respelling.StepKeepsNormal | src/security.rs:352-361 | Escaping text, inserting an idle segment, inserting `x/..` and prefixing a version each keep the normal form |
| Respelling.RespellingKeepsNormal | src/security.rs:352-361 | Every finite chain of respellings of a decodable path keeps its normal form |
| Respelling.RespellingKeepsVerdict | src/security.rs:305-332 | Hence every filter gives the same verdict and the same body rule, for every method and body |
| Patterns.MatchesFits | src/security.rs:536-560 | Every pattern without a trailing slash matches a canonical path if and only if it has as many segments, each `*` or equal, and holds a `*` or is written with single slashes |
| Patterns.CleanMatchesFits | src/security.rs:536-560 | Hence for clean patterns the exact and the wildcard branch agree with one relation on segments |
| Patterns.MatchesBelow | src/security.rs:541-543 | Every pattern with a trailing slash matches if and only if it is written with single slashes and its literal segments are a strict prefix, or both are the root |
| Patterns.NothingMatchesEmpty | src/security.rs:536-560 | The empty normal form is matched by the empty pattern alone |
| Patterns.KnownExactly | src/docker_api.rs:136-149 | For any known paths and every pattern without a trailing slash, some concrete path is served and matched if and only if the check passes, no segment is a dot segment, and the pattern holds a `*` or is written with single slashes |
| Patterns.CleanKnownExactly | src/docker_api.rs:136-149 | On clean patterns the check is exact satisfiability |
| Patterns.KnownCheckAcceptsTooMuch | src/docker_api.rs:141-147 | The witness: `info` passes and can match nothing |
| Patterns.DotSegment | src/docker_api.rs:141-147 | So do patterns like `/containers/..` |
| Patterns.KnownPrefixes | src/docker_api.rs:138-140 | What the trailing-slash branch of the check asks of every such pattern, in segments |
| Patterns.PrefixReaches | src/docker_api.rs:131-140 | What every trailing-slash pattern really reaches, in segments |
| Patterns.PrefixCheckErrs | src/docker_api.rs:131-140 | That branch passes a dead pattern if and only if it is a whole known path nothing goes on below, and reports a live one if and only if known paths go on below it through wildcards only |
| Patterns.PrefixCheckAcceptsTooMuch | src/docker_api.rs:138-140 | A witness of the first: `/info/` passes and can match nothing |
| Patterns.PrefixCheckRefusesTooMuch | src/docker_api.rs:138-140 | A witness of the second: `/exec/x/` is reported and matches a served path |
| Rules.RuleSet.Extend | src/security.rs:59-66 | Merging is union on both sides; endpoints keep their order and are never repeated |
| Rules.RuleSet.Add | src/security.rs:51-56 | Adding is merging |
| Rules.RuleSet.Withdraw | src/security.rs:225-238 | Retaining removes exactly the withdrawn endpoints |
| Rules.RuleList.PushRule | src/security.rs:82-86 | A rule goes to the end unless it is inert |
| Rules.RuleList.Push | src/security.rs:89-93 | A push adds one rule of its methods and endpoints, or nothing when both are empty |
| Rules.RuleList.Add | src/security.rs:97-99 | The same, for built-in rules |
| Rules.NewRuleCovers | src/security.rs:42-49 | A pushed rule matches exactly the product of its sides, an empty side being a wildcard and an empty rule inert |
| Rules.PushesAccumulate | src/security.rs:75-99 | After any pushes each list matches what it did before and what was pushed to it |
| Rules.DecisionAlgebra | src/security.rs:286-303 | After any pushes the allowed requests are the union of the allow products minus the union of the deny and exclude products |
| Rules.PushOrderIsIrrelevant | src/security.rs:75-99 | Neither order nor repetition of pushes changes a decision |
| Rules.PushesAreMonotone | src/security.rs:286-303 | More allow pushes allow no less, more deny and exclude pushes no more |
| Rules.MergingRules | src/security.rs:58-75 | Merging full rules covers both and more; merging a methods-only with an endpoints-only rule covers only their intersection |
| CreateBody.CreateBodyExactly | src/security.rs:450-513 | A body is accepted exactly when it is an object with an image, at both levels each of the eight restricted fields is absent or unset and `NetworkMode` is not `host`, and its labels are complete; otherwise `Forbidden` |
| CreateBody.UnsettingIsHarmless | src/security.rs:467-527 | Unsetting an inspected field (null, false, an empty list or text), at either level, never turns acceptance into refusal |
| CreateBody.OtherMembersAreIrrelevant | src/security.rs:450-513 | No other member, at either level, affects the verdict |
| CreateBody.SettingOthersIsHarmless | src/security.rs:467-498 | Setting any other member to anything, at either level, changes no verdict |
| Filters.SecurityFilter.DenyAll | src/security.rs:188-195 | A filter with no rules |
| Filters.SecurityFilter.ForProfile | src/security.rs:198-249 | The rules of each profile |
| Filters.DenyWrites | src/security.rs:222-239 | What `retain` leaves of the write denial, by name |
| Filters.ProfileDenies | src/security.rs:198-249 | A profile's deny rules match exactly what it promises to refuse |
| Filters.PromisesSurvive | src/security.rs:202-264 | After any pushes `ReadOnly` refuses every write, `Default` writes to mutating endpoints and `ContainerRuntime` writes to what it still denies |
| Filters.DenialsSpareGrants | src/security.rs:222-239 | The deny list left by `retain` overlaps no runtime grant, on any path a normaliser leaves |
| Filters.RuntimeGrantsExactly | src/security.rs:214-240 | On every canonical path and the empty one `ContainerRuntime` allows exactly the reads, writes and the one exec read it lists |
| Filters.RuntimeRequests | src/security.rs:214-319 | For request paths as they arrive: the head passes if and only if the path decodes and its normal form is granted |
| Filters.ReadProfilesGrantExactly | src/security.rs:204-213 | `Default` and `ReadOnly` allow exactly the reads they list |
| ProfileTables.ReadableExactly | src/security.rs:105-118 | What the readable endpoints match on any normal form, written out in segments |
| ProfileTables.MutatingExactly | src/security.rs:120-139 | The same for the mutating endpoints |
| ProfileTables.RuntimeExactly | src/security.rs:141-159 | The same for the runtime endpoints |
| ProfileTables.RuntimeDeniedExactly | src/security.rs:222-239 | The same for what `ContainerRuntime` still denies |
| Filters.ProfileExactly | src/security.rs:198-249 | What each profile grants, method and segments written out, on every normal form |
| Filters.PromisedExactly | src/security.rs:198-249 | What each profile refuses for good, written out in the same way |
| Trimming.SplitListOfJoin | src/policy.rs:309-315 | A list of trimmed, comma-free values is read back as written |
| Trimming.SplitListOfPieces | src/policy.rs:309-315 | Any list is read as its pieces between commas, without the spaces around them, in order, without the empty ones |
| Trimming.SplitListExactly | src/policy.rs:309-315 | A value is in the list if and only if it stands between two commas, spaces aside |
| Trimming.TrimExactly | src/policy.rs:312 | Trimming leaves exactly what is between the spaces before and behind |
| Trimming.SpaceExactly | src/policy.rs:312 | Spaces are exactly the encodings of the White_Space code points |
| Trimming.LowerExactly | src/proxy.rs:76 | Lower-casing changes the capital letters to the small ones and nothing else |
| Policy.SectionEndpoints | src/policy.rs:167-177 | Each granted section gives its exact and its prefix pattern |
| Policy.OperationEndpoints | src/policy.rs:178-182 | Each granted operation gives its patterns |
| Policy.CompatibilityFilter | src/policy.rs:139-194 | No filter when no variable is set, `Config` beside another profile, else one allow rule of the gate and the granted patterns |
| Policy.CompatIsWellFormed | src/policy.rs:83-123 | The section and operation tables meet what the theorems about them ask |
| Policy.IsEnabledExactly | src/policy.rs:198-203 | Exactly `1`, `true`, `yes` and `on` enable, in any casing and between any spaces |
| Policy.GrantedExactly | src/policy.rs:125-165 | A variable that is not set grants `EVENTS`, `PING` and `VERSION` only |
| Policy.SectionsExactly | src/policy.rs:83-107 | Which variable grants which section, written out |
| Policy.OperationsExactly | src/policy.rs:110-123 | Which variable grants which operation on a container, written out in segments |
| Policy.VariablesExactly | src/policy.rs:143-153 | Which variables make a policy of their own |
| Policy.SectionPair | src/policy.rs:170-175 | The two patterns of a section together match exactly the paths whose first segment it is |
| Policy.CompatAllows | src/policy.rs:128-194 | What the compiled filter allows on every canonical path and the empty one, in every case |
| Policy.CompatRequests | src/policy.rs:128-194 | The same for request paths as they arrive |
| Policy.CompatMeansSections | src/policy.rs:128-194 | The variables mean their sections behind the method gate if and only if something is granted or `POST` is on |
| Policy.CompatExactly | src/policy.rs:83-194 | With something granted, exactly the granted sections and operations are allowed behind the gate, for the source's own tables written out |
| Policy.NothingGrantedReadsEverything | src/policy.rs:185-192 | With `EVENTS`, `PING` and `VERSION` off and nothing else set, every read passes |
| Policy.ApplyDocument | src/policy.rs:236-251 | A document is its pushes, in order |
| Policy.ApplyEnvironment | src/policy.rs:286-307 | The modifiers are four pushes |
| Policy.Load | src/policy.rs:57-76 | The loaded filter is the profile's or the compiled one with both applied; it fails only for section variables beside a profile |
| Policy.LoadedMeaning | src/policy.rs:57-76 | A loaded policy means what every source says: its tables, and the `_METHODS` and `_ENDPOINTS` variables read as trimmed lists; exclusions and denials win |
| Policy.PromisesSurviveLoading | src/policy.rs:73-75 | No document or modifier reopens what a profile refuses |
| Bodies.Collect | src/middleware.rs:125-130 | Collecting under the limit gives the body, `TooLarge` exactly when it is longer, or `Internal` when it breaks |
| Bodies.LimitedDelivers | src/middleware.rs:120-122 | A limited body delivers a prefix within its allowance, and is cut exactly when the whole is longer, however it is framed |
| Bodies.LimitedCuts | src/middleware.rs:120-122 | What is cut is cut before the first frame that goes beyond the allowance |
| Bodies.LengthIsRead | src/middleware.rs:155-159 | Reading a declared length inverts writing it, up to 64 bits |
| Bodies.ParseU64Exactly | src/middleware.rs:155-159 | What is read as a length: exactly the decimal digits of a number below 2^64, behind any zeros and perhaps a `+` |
| Bodies.OversizedExactly | src/middleware.rs:154-164 | A declaration is refused if and only if it is there and states a length beyond the limit |
| Bodies.TruthfulDeclaration | src/middleware.rs:154-164 | A truthful `Content-Length`, in any spelling, is refused exactly when the limiter would have cut the body |
| Enforcement.StepKeepsSound | src/middleware.rs:83-147 | In every phase of a request, what it was decided on and what went inward fit together |
| Enforcement.DecidedByWholeBody | src/middleware.rs:114-142 | A request that is not cancelled is decided by its head, the length it states and its whole body; frame boundaries make no difference |
| Enforcement.UndeclaredIsAllowed | src/middleware.rs:119-123 | Without a declared length, a request that owes no inspection and whose head passes is allowed |
| Enforcement.DeliveredInward | src/middleware.rs:119-145 | Inward go the very bytes inspected, or of an uninspected body what the limiter passes on, never more than the limit |
| Enforcement.CancellingStops | src/middleware.rs:92-146 | A dropped future stays as it was, whatever else arrives |
| Enforcement.CancelledIsNeverCounted | src/middleware.rs:92-146 | In every interleaving, an undecided request that is cancelled is never forwarded and counted nowhere |
| Enforcement.PolledCallIsTaken | src/middleware.rs:79-90 | Polling and calling a clone puts the request in flight on the readied instance and leaves one that is not ready |
| Enforcement.RequestsDoNotInterfere | src/middleware.rs:83-147 | What becomes of a request depends on its own events alone, in every interleaving |
| Enforcement.EveryInterleavingIsSafe | src/middleware.rs:79-147 | In every interleaving, cancellations included, each inner call is for a rightly allowed request, once, on its own readied instance, and each refusal has its cause |
| Enforcement.EveryDecisionIsCountedOnce | src/observability.rs:33-40 | Modulo 2^64, the counters are the number of allowed, that is forwarded, and of refused requests |
| Enforcement.InterleavedRequest | src/middleware.rs:79-147 | Any request among any others is decided by its own head, declared length and whole body, forwarded on its readied instance exactly when that allows it, and recorded as refused exactly when that refuses it |
| Enforcement.AllowedPassesTheFilter | src/middleware.rs:114-145 | What went inward passes `check_request` with the body that went inward |
| Enforcement.Metrics.RecordAllowed | src/observability.rs:34-36 | The allowed counter wraps at 2^64; the other stays |
| Enforcement.Metrics.RecordDenied | src/observability.rs:38-40 | The denied counter wraps at 2^64; the other stays |
| Enforcement.RequestFuture.Resume | src/middleware.rs:92-146 | Each resumption is one step of the state machine, calling inward and counting exactly when it decides |
| Enforcement.SecurityService.PollReady | src/middleware.rs:79-81 | The instance the service holds becomes ready |
| Enforcement.SecurityService.Call | src/middleware.rs:83-90 | The future takes the readied instance; the clone stays behind, not ready |
| Objects.Layer.constructor | src/middleware.rs:39-60 | One service on one fresh instance stands for the start state |
| Objects.Layer.Poll | src/middleware.rs:79-81 | Polling one service is one action of the interleaving model |
| Objects.Layer.CloneService | src/middleware.rs:62-68 | Cloning one service is one action, and the clone has an instance of its own |
| Objects.Layer.CallService | src/middleware.rs:83-90 | Calling one readied service is one action: its future joins those in flight |
| Objects.Layer.Resume | src/middleware.rs:92-146 | Resuming one future is one action, whatever the others did, with its inner call and its count |
| Objects.ObjectsAreSafe | src/middleware.rs:79-147 | Whatever was done to the objects, each future decided rightly and called its own instance once if it allowed its request and not at all otherwise, and the shared counters count the futures that allowed and refused |
| Guarantees.OnlyLegitimateRequestsPass | src/middleware.rs:83-147 | Whatever is pushed on a profile and however requests interleave, only requests whose normal form is allowed, not denied or excluded and not promised away go inward, and container-creates only with the acceptable body that was inspected |
| Guarantees.PermittedExactly | src/security.rs:286-303 | On any normal form, a profile with any pushes allows exactly what it or an allow push covers, it does not refuse and no deny or exclude push covers; otherwise `Forbidden` |
| Guarantees.DecidedAsExpected | src/middleware.rs:114-145 | Every request that is not cancelled, decided from path to body and written out: which are refused and how, which owe inspection, which pass |
| Headers.RelayRequest | src/proxy.rs:199-217 | The header loop and the regenerated offer compute `RelayedRequest` |
| Headers.RelayResponse | src/proxy.rs:240-246 | The response loop and the answer to a 101 compute `RelayedResponse` |
| Headers.ConnectionSpecificExactly | src/proxy.rs:70-79 | A name is connection-specific if and only if some readable `Connection` value has it between two commas, in any casing and between blanks |
| Headers.RequestedUpgradeExactly | src/proxy.rs:289-297 | The offer, in the same terms |
| Headers.UpgradeInAnyCase | src/proxy.rs:70-79 | Every casing of `upgrade`, alone or among other tokens, is an offer |
| Headers.HopByHopExactly | src/proxy.rs:48-85 | A name is dropped as hop-by-hop if and only if it is one of the eight, written out, or connection-specific |
| Headers.RequestValues | src/proxy.rs:46-85 | Upstream sees no hop-by-hop or `Connection`-named field but one upgrade pair, present exactly when offered, no `Host`, and every other field's values in order |
| Headers.ResponseValues | src/proxy.rs:248-320 | The same for the client, the pair in a 101 only; a 101 to a client that cannot upgrade is a `Docker` error |
| Headers.OfferSurvives | src/proxy.rs:289-297 | The upstream is offered what the client offered |
| Headers.RelayingTwice | src/proxy.rs:199-217 | Relaying again changes nothing, the order of fields included |
| Headers.RelayIgnoresNameOrder | src/proxy.rs:201-207 | The order in which a header map lists its names makes no difference |
| Drain.UpgradeTasks.Track | src/proxy.rs:337 | An accepted upgrade leaves its handle |
| Drain.UpgradeTasks.DrainUpgrades | src/proxy.rs:346-359 | The loop takes the handles, says which were awaited to their end, and ends when the last turn does |
| Drain.DrainIsBounded | src/proxy.rs:346-359 | The drain is over within five seconds per session, and by the latest end if all end |
| Drain.BoundIsReached | src/proxy.rs:354-358 | With sessions that never end the first bound is exact |
| Drain.OneWindow | src/proxy.rs:344-358 | The drain keeps to one five-second window if and only if every session that outlasts it follows only sessions already ended and precedes only sessions ending within it |
| Drain.ShortSessionsComplete | src/proxy.rs:354-358 | A session ending within five seconds of the start is awaited to its end, wherever it stands in the list |

## Left out

- TOML, YAML and JSON text, command-line configuration and file reading: parsed documents, environment maps and JSON readings are inputs.
- Sockets, the hyper client, `copy_bidirectional`, signals, the request timeout, `/healthz` and `/metrics`: foreign calls without decision logic.
- Logging, error texts and rendering of metrics: display only. `report_unknown` only warns; the check it uses is modelled.
- The contents of `PATHS` (src/docker_api.rs:24-126): the theorems hold for any list of known paths.
- `HeaderMap` internals: a header map is the list of its fields; its capacity limits are not modelled.
- Tokio scheduling and timers: steps are abstract and atomic, time is real-valued and exact.
- Trailer frames, which do not count towards the body limit, and `is_length_limit_error`, which only reads an error's causes.
- Failures of the inner service, in `poll_ready` and after a call, and its answer: the layer passes them on.
- JSON member order and repetition, and the value of numbers: an object is a map and a number only present.
- Rules.RuleList.PushRule: a pushed rule is held by value, because the source moves it into the list; the order of its endpoints is dropped there, because no decision reads it.
- Policy.CompatibilityFilter: takes its two tables as an argument, because the theorems hold for all well-formed tables; `CompatIsWellFormed` covers the source's.
- Policy.NothingGrantedReadsEverything: one environment of the family, whose exact condition is in `CompatMeansSections`.
- Objects.Layer.CloneService: a cloned inner service is a new instance that is not ready, as Tower asks of callers to assume; what else an inner service copies is not modelled.
- Drain.UpgradeTasks.DrainUpgrades: does not say what becomes of sessions that are no longer awaited.
