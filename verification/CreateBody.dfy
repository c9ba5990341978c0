/**
 Inspection of container-create bodies (`check_create_body` and `meaningfully_set` in src/security.rs).
 */
module CreateBody {
  import opened Results

  /** A parsed JSON value. Of numbers only their presence matters. */
  datatype Json =
    | Null
    | Bool(b: bool)
    | Number
    | Text(text: string)
    | Array(items: seq<Json>)
    | Object(members: map<string, Json>)

  type Members = map<string, Json>

  const RESTRICTED: seq<string> := [
    "Privileged", "CapAdd", "SecurityOpt", "Devices",
    "DeviceRequests", "PidMode", "IpcMode", "UsernsMode"
  ]

  const DAGSTER_LABELS: seq<string> := ["dagster/run_id", "dagster/job_name"]

  /** Whether a value amounts to a request, rather than an explicit unset. */
  predicate MeaningfullySet(value: Json) {
    match value
    case Null => false
    case Bool(b) => b
    case Array(items) => items != []
    case Text(text) => text != ""
    case _ => true
  }

  // ── The inspection, check by check ──

  /** The first restricted key that is set decides. */
  function CheckKeys(members: Members, keys: seq<string>): Result<()> {
    if |keys| == 0 then Ok(())
    else if keys[0] in members && MeaningfullySet(members[keys[0]]) then Err(Forbidden)
    else CheckKeys(members, keys[1..])
  }

  function CheckLevels(levels: seq<Members>): Result<()> {
    if |levels| == 0 then Ok(())
    else match CheckKeys(levels[0], RESTRICTED)
      case Err(e) => Err(e)
      case Ok(_) =>
        if "NetworkMode" in levels[0] && levels[0]["NetworkMode"] == Text("host") then Err(Forbidden)
        else CheckLevels(levels[1..])
  }

  function CheckLabels(labels: Members, required: seq<string>): Result<()> {
    if |required| == 0 then Ok(())
    else
      var dagster := exists key <- labels.Keys :: "dagster/" <= key;
      if dagster && required[0] !in labels then Err(Forbidden)
      else CheckLabels(labels, required[1..])
  }

  function Member(members: Members, key: string): Option<Members> {
    if key in members && members[key].Object? then Some(members[key].members) else None
  }

  /** `parsed` is the body read as JSON, if it is JSON. */
  function CheckCreateBody(parsed: Option<Json>): Result<()> {
    match parsed
    case None => Err(Forbidden)
    case Some(value) =>
      if !value.Object? then Err(Forbidden)
      else
        var top := value.members;
        if !("Image" in top && top["Image"].Text?) || top["Image"] == Text("") then Err(Forbidden)
        else
          var levels := [top] + match Member(top, "HostConfig") case Some(host) => [host] case None => [];
          match CheckLevels(levels)
          case Err(e) => Err(e)
          case Ok(_) =>
            match Member(top, "Labels")
            case None => Ok(())
            case Some(labels) => CheckLabels(labels, DAGSTER_LABELS)
  }

  // ── What it accepts ──

  /** The four ways to say that a field is left alone. */
  predicate Unset(value: Json) {
    value == Null || value == Bool(false) || value == Array([]) || value == Text("")
  }

  predicate Left(members: Members, key: string) {
    key !in members || Unset(members[key])
  }

  /** A level asks for nothing that would reach outside the container. */
  predicate Contained(members: Members) {
    && Left(members, "Privileged") && Left(members, "CapAdd") && Left(members, "SecurityOpt")
    && Left(members, "Devices") && Left(members, "DeviceRequests")
    && Left(members, "PidMode") && Left(members, "IpcMode") && Left(members, "UsernsMode")
    && ("NetworkMode" in members ==> members["NetworkMode"] != Text("host"))
  }

  /** Labels of a Dagster caller name its run and its job. */
  predicate Labelled(labels: Members) {
    (exists key <- labels.Keys :: "dagster/" <= key) ==> "dagster/run_id" in labels && "dagster/job_name" in labels
  }

  predicate Acceptable(top: Members) {
    && "Image" in top && top["Image"].Text? && top["Image"].text != ""
    && Contained(top)
    && (Member(top, "HostConfig").Some? ==> Contained(Member(top, "HostConfig").value))
    && (Member(top, "Labels").Some? ==> Labelled(Member(top, "Labels").value))
  }

  lemma SetOrLeft(members: Members, key: string)
    ensures Left(members, key) <==> !(key in members && MeaningfullySet(members[key]))
  {
  }

  lemma {:induction false} CheckKeysExactly(members: Members, keys: seq<string>)
    ensures CheckKeys(members, keys) == if forall key <- keys :: Left(members, key) then Ok(()) else Err(Forbidden)
  {
    if |keys| > 0 {
      SetOrLeft(members, keys[0]);
      CheckKeysExactly(members, keys[1..]);
      assert keys[0] in keys && keys == [keys[0]] + keys[1..];
      assert forall key :: key in keys <==> key == keys[0] || key in keys[1..];
    }
  }

  lemma EightKeys(
    members: Members, k0: string, k1: string, k2: string, k3: string, k4: string, k5: string, k6: string, k7: string)
    ensures (forall key <- [k0, k1, k2, k3, k4, k5, k6, k7] :: Left(members, key)) <==>
            && Left(members, k0) && Left(members, k1) && Left(members, k2) && Left(members, k3)
            && Left(members, k4) && Left(members, k5) && Left(members, k6) && Left(members, k7)
  {
    var r := [k0, k1, k2, k3, k4, k5, k6, k7];
    assert r[0] in r && r[1] in r && r[2] in r && r[3] in r && r[4] in r && r[5] in r && r[6] in r && r[7] in r;
  }

  /** The list that the inspection goes through names the eight keys. */
  lemma RestrictedKeys(members: Members)
    ensures Contained(members) <==>
            && (forall key <- RESTRICTED :: Left(members, key))
            && ("NetworkMode" in members ==> members["NetworkMode"] != Text("host"))
  {
    EightKeys(members, "Privileged", "CapAdd", "SecurityOpt", "Devices",
              "DeviceRequests", "PidMode", "IpcMode", "UsernsMode");
  }

  lemma {:induction false} CheckLevelsExactly(levels: seq<Members>)
    ensures CheckLevels(levels) == if forall level <- levels :: Contained(level) then Ok(()) else Err(Forbidden)
  {
    if |levels| > 0 {
      CheckKeysExactly(levels[0], RESTRICTED);
      RestrictedKeys(levels[0]);
      CheckLevelsExactly(levels[1..]);
      assert levels == [levels[0]] + levels[1..];
      assert (forall level <- levels :: Contained(level)) <==>
             Contained(levels[0]) && forall level <- levels[1..] :: Contained(level);
    }
  }

  lemma CheckLabelsExactly(labels: Members)
    ensures CheckLabels(labels, DAGSTER_LABELS) == if Labelled(labels) then Ok(()) else Err(Forbidden)
  {
    assert DAGSTER_LABELS[1..] == ["dagster/job_name"] && ["dagster/job_name"][1..] == [];
    assert CheckLabels(labels, []) == Ok(());
  }

  /** The inspection accepts exactly the objects that are acceptable at both levels. */
  lemma CreateBodyExactly(parsed: Option<Json>)
    ensures CheckCreateBody(parsed) ==
            if parsed.Some? && parsed.value.Object? && Acceptable(parsed.value.members) then Ok(()) else Err(Forbidden)
  {
    if parsed.Some? && parsed.value.Object? {
      var top := parsed.value.members;
      var levels := [top] + match Member(top, "HostConfig") case Some(host) => [host] case None => [];
      CheckLevelsExactly(levels);
      assert levels[0] == top;
      if Member(top, "HostConfig").Some? {
        assert levels[1] == Member(top, "HostConfig").value;
      }
      if Member(top, "Labels").Some? {
        CheckLabelsExactly(Member(top, "Labels").value);
      }
    }
  }

  // ── Consequences ──

  predicate Verdict(top: Members) {
    CheckCreateBody(Some(Object(top))) == Ok(())
  }

  predicate Inspected(key: string) {
    || key == "Privileged" || key == "CapAdd" || key == "SecurityOpt" || key == "Devices"
    || key == "DeviceRequests" || key == "PidMode" || key == "IpcMode" || key == "UsernsMode"
    || key == "NetworkMode"
  }

  lemma UnsettingKeepsContained(members: Members, key: string, unset: Json)
    requires Contained(members) && Unset(unset)
    ensures Contained(members[key := unset])
  {
  }

  lemma UnsettingKeepsAcceptable(top: Members, key: string, unset: Json)
    requires Acceptable(top) && Inspected(key) && Unset(unset)
    ensures Acceptable(top[key := unset])
  {
    UnsettingKeepsContained(top, key, unset);
    InspectedNames(key);
  }

  lemma UnsettingBelowKeepsAcceptable(top: Members, key: string, unset: Json)
    requires Acceptable(top) && Inspected(key) && Unset(unset) && Member(top, "HostConfig").Some?
    ensures Acceptable(top["HostConfig" := Object(Member(top, "HostConfig").value[key := unset])])
  {
    UnsettingKeepsContained(Member(top, "HostConfig").value, key, unset);
  }

  /** Unsetting an inspected field, at the top or under `HostConfig`, never turns acceptance into refusal. */
  lemma UnsettingIsHarmless(top: Members, key: string, unset: Json)
    requires Verdict(top) && Inspected(key) && Unset(unset)
    ensures Verdict(top[key := unset])
    ensures Member(top, "HostConfig").Some? ==>
              Verdict(top["HostConfig" := Object(Member(top, "HostConfig").value[key := unset])])
  {
    CreateBodyExactly(Some(Object(top)));
    UnsettingKeepsAcceptable(top, key, unset);
    CreateBodyExactly(Some(Object(top[key := unset])));
    if Member(top, "HostConfig").Some? {
      UnsettingBelowKeepsAcceptable(top, key, unset);
      CreateBodyExactly(Some(Object(top["HostConfig" := Object(Member(top, "HostConfig").value[key := unset])])));
    }
  }

  lemma InspectedNames(key: string)
    requires Inspected(key)
    ensures key != "Image" && key != "HostConfig" && key != "Labels"
  {
  }

  predicate Relevant(key: string) {
    Inspected(key) || key == "Image" || key == "HostConfig" || key == "Labels"
  }

  /** What of a body can matter: the relevant members, and under `HostConfig` the inspected ones. */
  function Essence(top: Members): Members {
    map key <- top.Keys | Relevant(key) ::
      if key == "HostConfig" && top[key].Object?
      then Object(map k <- top[key].members.Keys | Inspected(k) :: top[key].members[k])
      else top[key]
  }

  lemma ContainedDependsOnInspected(a: Members, b: Members)
    requires forall key :: Inspected(key) ==> (key in a <==> key in b) && (key in a ==> a[key] == b[key])
    ensures Contained(a) <==> Contained(b)
  {
    assert Inspected("Privileged") && Inspected("CapAdd") && Inspected("SecurityOpt") && Inspected("Devices");
    assert Inspected("DeviceRequests") && Inspected("PidMode") && Inspected("IpcMode") && Inspected("UsernsMode");
    assert Inspected("NetworkMode");
  }

  /** No other member, at either level, ever affects the verdict. */
  lemma OtherMembersAreIrrelevant(a: Members, b: Members)
    requires Essence(a) == Essence(b)
    ensures Verdict(a) <==> Verdict(b)
  {
    EssenceDecides(a);
    EssenceDecides(b);
  }

  lemma EssenceDecides(top: Members)
    ensures Verdict(top) <==> Verdict(Essence(top))
  {
    CreateBodyExactly(Some(Object(top)));
    CreateBodyExactly(Some(Object(Essence(top))));
    EssenceIsAcceptable(top);
  }

  lemma EssenceIsAcceptable(top: Members)
    ensures Acceptable(top) <==> Acceptable(Essence(top))
  {
    var essence := Essence(top);
    forall key | Inspected(key) ensures (key in top <==> key in essence) && (key in top ==> top[key] == essence[key]) {
      InspectedNames(key);
    }
    ContainedDependsOnInspected(top, essence);
    if Member(top, "HostConfig").Some? {
      ContainedDependsOnInspected(Member(top, "HostConfig").value, Member(essence, "HostConfig").value);
    }
    assert Member(top, "Labels") == Member(essence, "Labels");
  }

  /** In particular, setting any member that is not named here changes nothing, and so below `HostConfig`. */
  lemma SettingOthersIsHarmless(top: Members, key: string, value: Json)
    ensures !Relevant(key) ==> (Verdict(top[key := value]) <==> Verdict(top))
    ensures !Inspected(key) && Member(top, "HostConfig").Some? ==>
              (Verdict(top["HostConfig" := Object(Member(top, "HostConfig").value[key := value])]) <==> Verdict(top))
  {
    if !Relevant(key) {
      assert Essence(top[key := value]) == Essence(top);
      OtherMembersAreIrrelevant(top[key := value], top);
    }
    if !Inspected(key) && Member(top, "HostConfig").Some? {
      SettingBelowKeepsEssence(top, key, value);
      OtherMembersAreIrrelevant(top["HostConfig" := Object(Member(top, "HostConfig").value[key := value])], top);
    }
  }

  lemma SettingBelowKeepsEssence(top: Members, key: string, value: Json)
    requires !Inspected(key) && Member(top, "HostConfig").Some?
    ensures Essence(top["HostConfig" := Object(Member(top, "HostConfig").value[key := value])]) == Essence(top)
  {
    var below := Member(top, "HostConfig").value;
    assert (map k <- below[key := value].Keys | Inspected(k) :: below[key := value][k]) ==
           (map k <- below.Keys | Inspected(k) :: below[k]);
  }
}
