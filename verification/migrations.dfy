/** The versioned launch documents, and the three migrations that carry them from version 1 to version 4 and back. */
module LaunchMigrations {
  import opened Wrappers

  /** JSON data. */
  datatype Value = Null | Truth(b: bool) | Number(n: int) | Text(s: string) | List(items: seq<Value>) | Dict(fields: map<string, Value>)

  type Document = map<string, Value>
  type TaskId = nat

  const ROLES: set<string> := {"default", "smol", "slow", "plan"}
  const JUDGE := "judge"

  /** What a stored document holds as evidence of the upgrade to version 3. */
  datatype Evidence =
    | LegacyInputs(task: TaskId, document: Document)
    | RetiredAuxiliary(task: TaskId, consumer: string, binding: Value)

  function Get(d: Document, key: string): Value {
    if key in d then d[key] else Null
  }

  predicate Falsy(v: Value) {
    match v
    case Null => true
    case Truth(b) => !b
    case Number(n) => n == 0
    case Text(s) => s == ""
    case List(items) => items == []
    case Dict(fields) => fields == map[]
  }

  /** `document.get(key) or {}` */
  function OrEmpty(v: Value): Value {
    if Falsy(v) then Dict(map[]) else v
  }

  predicate HasVersion(d: Document, version: int) {
    Get(d, "version") == Number(version)
  }

  // ----- 0014: a binding for every consumer -----

  /** `_binding`, for `roles` that have all four roles. */
  function Binding(profileName: Value, profileSource: Value, roles: map<string, Value>, role: Value): Value
    requires ROLES <= roles.Keys
  {
    Dict(map["profile_name" := profileName, "profile_source" := profileSource, "role" := role, "role_source" := Text("workflow"),
             "roles" := Dict(map name | name in ROLES :: roles[name])])
  }

  function JudgeRole(d: Document): Value {
    if "judge_role" in d then d["judge_role"] else Text("slow")
  }

  function ProfileSource(d: Document): Value {
    if "model_profile_source" in d then d["model_profile_source"] else Text("task")
  }

  /** A version-1 document the upgrade can read; the others make it raise. */
  predicate Readable1(d: Document) {
    && "roles" in d && d["roles"].Dict? && ROLES <= d["roles"].fields.Keys
    && OrEmpty(Get(d, "step_roles")).Dict?
  }

  function StepBindings(d: Document): map<string, Value>
    requires Readable1(d)
  {
    var steps := OrEmpty(Get(d, "step_roles")).fields;
    map step | step in steps :: Binding(Get(d, "model_profile_name"), ProfileSource(d), d["roles"].fields, steps[step])
  }

  /** `upgrade` of 0014, for one document; none when it raises. */
  function Upgrade14(d: Document): Option<Document> {
    if !HasVersion(d, 1) then Some(d)
    else if !Readable1(d) then None
    else
      var judge := Binding(Get(d, "model_profile_name"), ProfileSource(d), d["roles"].fields, JudgeRole(d));
      var bound := d["step_bindings" := Dict(StepBindings(d))]["auxiliary_bindings" := Dict(map[JUDGE := judge])];
      Some((bound - {"roles", "step_roles", "judge_role"})["version" := Number(2)])
  }

  /** A version-2 binding, field by field: the task's profile and where it came from, the consumer's role, as the workflow chose it, and the four roles. */
  ghost predicate Binds(d: Document, binding: Value, role: Value) {
    && "roles" in d && d["roles"].Dict? && {"default", "smol", "slow", "plan"} <= d["roles"].fields.Keys
    && binding == Dict(map[
         "profile_name" := if "model_profile_name" in d then d["model_profile_name"] else Null,
         "profile_source" := if "model_profile_source" in d then d["model_profile_source"] else Text("task"),
         "role" := role,
         "role_source" := Text("workflow"),
         "roles" := Dict(map name | name in {"default", "smol", "slow", "plan"} :: d["roles"].fields[name])])
  }

  lemma BindingBinds(d: Document, role: Value)
    requires Readable1(d)
    ensures Binds(d, Binding(Get(d, "model_profile_name"), ProfileSource(d), d["roles"].fields, role), role)
  {
    var roles := d["roles"].fields;
    assert (map name | name in ROLES :: roles[name]) == map name | name in {"default", "smol", "slow", "plan"} :: roles[name];
  }

  /** The roles the steps are given: none if they are missing, or empty in any of the ways JSON has. */
  ghost function RolesOfSteps(d: Document): Value {
    if "step_roles" !in d || d["step_roles"] in {Null, Truth(false), Number(0), Text(""), List([]), Dict(map[])} then Dict(map[]) else d["step_roles"]
  }

  lemma KeysWritten(d: Document, e: Document)
    requires HasVersion(d, 1) && Upgrade14(d) == Some(e)
    ensures e.Keys == d.Keys - {"roles", "step_roles", "judge_role"} + {"step_bindings", "auxiliary_bindings", "version"}
    ensures forall key :: key in e && key !in {"step_bindings", "auxiliary_bindings", "version"} ==> e[key] == d[key]
    ensures e["version"] == Number(2) && e["step_bindings"] == Dict(StepBindings(d))
    ensures e["auxiliary_bindings"] == Dict(map["judge" := Binding(Get(d, "model_profile_name"), ProfileSource(d), d["roles"].fields, JudgeRole(d))])
  {
    hide Binding, StepBindings;
  }

  lemma StepsWritten(d: Document)
    requires Readable1(d)
    ensures RolesOfSteps(d).Dict? && StepBindings(d).Keys == RolesOfSteps(d).fields.Keys
    ensures forall step <- RolesOfSteps(d).fields :: Binds(d, StepBindings(d)[step], RolesOfSteps(d).fields[step])
  {
    assert OrEmpty(Get(d, "step_roles")) == RolesOfSteps(d);
    hide Binds, Binding, OrEmpty, RolesOfSteps;
    forall step <- RolesOfSteps(d).fields
      ensures Binds(d, StepBindings(d)[step], RolesOfSteps(d).fields[step])
    {
      BindingBinds(d, RolesOfSteps(d).fields[step]);
    }
  }

  /** What the first upgrade writes: a binding for every step that had a role and one for the judge, the new version, and nothing else but what was there. */
  lemma BindingsWritten(d: Document, e: Document)
    requires HasVersion(d, 1) && Upgrade14(d) == Some(e)
    ensures e.Keys == d.Keys - {"roles", "step_roles", "judge_role"} + {"step_bindings", "auxiliary_bindings", "version"}
    ensures forall key :: key in e && key !in {"step_bindings", "auxiliary_bindings", "version"} ==> e[key] == d[key]
    ensures e["version"] == Number(2) && e["auxiliary_bindings"].Dict? && e["auxiliary_bindings"].fields.Keys == {"judge"}
    ensures Binds(d, e["auxiliary_bindings"].fields["judge"], if "judge_role" in d then d["judge_role"] else Text("slow"))
    ensures RolesOfSteps(d).Dict? && e["step_bindings"].Dict? && e["step_bindings"].fields.Keys == RolesOfSteps(d).fields.Keys
    ensures forall step <- RolesOfSteps(d).fields :: Binds(d, e["step_bindings"].fields[step], RolesOfSteps(d).fields[step])
  {
    KeysWritten(d, e);
    StepsWritten(d);
    BindingBinds(d, JudgeRole(d));
    hide Binds, Binding, StepBindings, RolesOfSteps, Upgrade14;
  }

  // ----- 0014: what each session continues under -----

  /** What is recorded of a session: its policy, the profile it came from, and the role that was made the active one. */
  datatype Applied = Applied(active: Value, smol: Value, slow: Value, plan: Value, profileName: Value, role: Value)

  /** The role a session continues under: the judge's own, and the default one for every other session. */
  function ActiveRole(d: Document, session: string): Value {
    if session == JUDGE then JudgeRole(d) else Text("default")
  }

  /** What the upgrade records of a session; none when looking its role up raises. */
  function AppliedTo(d: Document, session: string): Option<Applied>
    requires Readable1(d)
  {
    var roles, role := d["roles"].fields, ActiveRole(d, session);
    if role.Text? && role.s in roles
    then Some(Applied(roles[role.s], roles["smol"], roles["slow"], roles["plan"], Get(d, "model_profile_name"), role))
    else None
  }

  /** The judge's role, for a task whose judge session is resumed, must be one of the role map. */
  predicate Backfills(d: Document, sessions: set<string>)
    requires Readable1(d)
  {
    JUDGE in sessions ==> JudgeRole(d).Text? && JudgeRole(d).s in d["roles"].fields
  }

  /** That is exactly what recording all the sessions needs. */
  lemma BackfillsExact(d: Document, sessions: set<string>)
    requires Readable1(d)
    ensures Backfills(d, sessions) <==> forall session <- sessions :: AppliedTo(d, session).Some?
  {
    assert "default" in ROLES;
  }

  /** A resumed session continues under the policy that its consumer is bound to: the judge under its binding's role and role map, if that role is one of the four that a binding keeps. */
  lemma JudgeContinues(d: Document)
    requires HasVersion(d, 1) && Readable1(d) && JudgeRole(d).Text? && JudgeRole(d).s in ROLES
    ensures var binding := AuxiliaryIn(Upgrade14(d).value).fields[JUDGE].fields;
            var roles, applied := binding["roles"].fields, AppliedTo(d, JUDGE).value;
            && applied.role == binding["role"] && applied.profileName == binding["profile_name"] && applied.active == roles[JudgeRole(d).s]
            && applied.smol == roles["smol"] && applied.slow == roles["slow"] && applied.plan == roles["plan"]
  {
    var judge := Binding(Get(d, "model_profile_name"), ProfileSource(d), d["roles"].fields, JudgeRole(d));
    assert AuxiliaryIn(Upgrade14(d).value) == Dict(map[JUDGE := judge]);
  }

  /** Every other session continues under the default role, with the auxiliary roles of the same map. */
  lemma OthersContinue(d: Document, session: string)
    requires HasVersion(d, 1) && Readable1(d) && session != "judge"
    ensures var roles := d["roles"].fields;
            {"default", "smol", "slow", "plan"} <= roles.Keys && AppliedTo(d, session) ==
              Some(Applied(roles["default"], roles["smol"], roles["slow"], roles["plan"], Get(d, "model_profile_name"), Text("default")))
  {
    assert "default" in ROLES && "smol" in ROLES;
  }

  /** A judge role outside the role map stops the migration, but only for a task whose judge session is resumed. */
  lemma StrayJudgeRole()
    ensures var d: Document := map["version" := Number(1), "roles" := Dict(map["default" := Null, "smol" := Null, "slow" := Null, "plan" := Null]),
                                   "judge_role" := Text("fast")];
            HasVersion(d, 1) && Readable1(d) && Upgrade14(d).Some? && !Backfills(d, {JUDGE}) && Backfills(d, {"main"})
  {
  }

  predicate HasField(v: Value, key: string) {
    v.Dict? && key in v.fields
  }

  predicate AllHave(bindings: map<string, Value>, key: string) {
    forall name <- bindings :: HasField(bindings[name], key)
  }

  ghost predicate SameRoles(bindings: map<string, Value>, roles: Value) {
    forall name <- bindings :: HasField(bindings[name], "roles") && bindings[name].fields["roles"] == roles
  }

  /** The different role maps of some bindings. */
  function Snapshots(bindings: map<string, Value>): set<Value> {
    set name | name in bindings && HasField(bindings[name], "roles") :: bindings[name].fields["roles"]
  }

  /** The one role map among several; none of them stands out when they differ. */
  function OneOf(values: set<Value>): Value {
    if exists v :: v in values && values == {v} then (var v :| v in values && values == {v}; v) else Null
  }

  /** A document at version 1 again, from bindings that agree on their role map. */
  function Reverted(e: Document, steps: map<string, Value>, roles: Value, judgeRole: Value): Document {
    var stepRoles := map step | step in steps && HasField(steps[step], "role") :: steps[step].fields["role"];
    (e["roles" := roles]["step_roles" := Dict(stepRoles)]["judge_role" := judgeRole] - {"step_bindings", "auxiliary_bindings"})["version" := Number(1)]
  }

  /** `downgrade` of 0014, for one document; none when it raises. Documents whose consumers disagree stay as they are. */
  function Downgrade14(d: Document): Option<Document> {
    if !HasVersion(d, 2) then Some(d)
    else
      var steps, auxiliary := OrEmpty(Get(d, "step_bindings")), OrEmpty(Get(d, "auxiliary_bindings"));
      if !steps.Dict? || !auxiliary.Dict? then None
      else if steps.fields == map[] && auxiliary.fields == map[] then Some(d)
      else if !AllHave(steps.fields, "roles") || !AllHave(auxiliary.fields, "roles") then None
      else
        var snapshots := Snapshots(steps.fields) + Snapshots(auxiliary.fields);
        if |snapshots| > 1 then Some(d)
        else
          var judge := Get(auxiliary.fields, JUDGE);
          if !AllHave(steps.fields, "role") || (!Falsy(judge) && !HasField(judge, "role")) then None
          else Some(Reverted(d, steps.fields, OneOf(snapshots), if Falsy(judge) then Text("slow") else judge.fields["role"]))
  }

  // ----- 0015: no auxiliary consumer -----

  function AuxiliaryIn(d: Document): Value {
    OrEmpty(Get(d, "auxiliary_bindings"))
  }

  function Upgrade15(d: Document): Option<Document> {
    if !HasVersion(d, 2) then Some(d)
    else if !AuxiliaryIn(d).Dict? then None
    else Some((d - {"auxiliary_bindings"})["workflow_binding" := Null]["version" := Number(3)])
  }

  /** The retired bindings recorded for a task, the latest of each consumer. */
  function Retired(evidence: seq<Evidence>, task: TaskId): map<string, Value> {
    if evidence == [] then map[]
    else
      var before, last := Retired(evidence[..|evidence| - 1], task), evidence[|evidence| - 1];
      if last.RetiredAuxiliary? && last.task == task then before[last.consumer := last.binding] else before
  }

  /** `downgrade` of 0015, for one document. */
  function Downgrade15(d: Document, retired: map<string, Value>): Document {
    if !HasVersion(d, 3) || JUDGE !in retired then d
    else (d["auxiliary_bindings" := Dict(retired)] - {"workflow_binding"})["version" := Number(2)]
  }

  lemma {:induction false} RetiredSplit(a: seq<Evidence>, b: seq<Evidence>, task: TaskId)
    ensures Retired(a + b, task) == Retired(a, task) + Retired(b, task)
  {
    if b == [] {
      assert a + b == a;
    } else {
      assert (a + b)[..|a + b| - 1] == a + b[..|b| - 1];
      RetiredSplit(a, b[..|b| - 1], task);
    }
  }

  // ----- 0021: attachments -----

  const ADDED: set<string> := {"result_attachments", "source_commit", "base_comparisons", "acknowledged_base_difference"}

  function Upgrade21(d: Document): Document {
    if !HasVersion(d, 3) then d
    else d["version" := Number(4)]["result_attachments" := List([])]["source_commit" := Null]["base_comparisons" := List([])]
          ["acknowledged_base_difference" := Truth(false)]
  }

  /** A task of version 4 that was upgraded has no attachments, no commit they came from, and nothing to acknowledge. */
  lemma NothingAttached(d: Document)
    requires HasVersion(d, 3)
    ensures var e := Upgrade21(d);
            && e.Keys == d.Keys + {"version", "result_attachments", "source_commit", "base_comparisons", "acknowledged_base_difference"}
            && HasVersion(e, 4) && e["result_attachments"] == List([]) && e["base_comparisons"] == List([])
            && e["source_commit"] == Null && e["acknowledged_base_difference"] == Truth(false)
  {
  }

  function Downgrade21(d: Document): Document {
    if !HasVersion(d, 4) then d else d["version" := Number(3)] - ADDED
  }

  // ----- What a document says of its consumers -----

  /** One consumer's effective role and role map. */
  datatype Policy = Policy(role: Value, roles: Value)

  /** The policies of all steps, whichever version says so. */
  function StepPolicies(d: Document): map<string, Policy> {
    if HasVersion(d, 1) then
      if Readable1(d) then
        var steps := OrEmpty(Get(d, "step_roles")).fields;
        map step | step in steps :: Policy(steps[step], Dict(map name | name in ROLES :: d["roles"].fields[name]))
      else map[]
    else
      var steps := OrEmpty(Get(d, "step_bindings"));
      if steps.Dict? then map step | step in steps.fields && steps.fields[step].Dict? :: Policy(Get(steps.fields[step].fields, "role"), Get(steps.fields[step].fields, "roles"))
      else map[]
  }

  /** The judge's policy: in the document up to version 2, in the evidence from version 3 on. */
  function JudgePolicy(d: Document, retired: map<string, Value>): Option<Policy> {
    if HasVersion(d, 1) then
      if Readable1(d) then Some(Policy(JudgeRole(d), Dict(map name | name in ROLES :: d["roles"].fields[name]))) else None
    else
      var auxiliary := if HasVersion(d, 2) && AuxiliaryIn(d).Dict? then AuxiliaryIn(d).fields else retired;
      if JUDGE in auxiliary && auxiliary[JUDGE].Dict? then Some(Policy(Get(auxiliary[JUDGE].fields, "role"), Get(auxiliary[JUDGE].fields, "roles"))) else None
  }

  lemma Upgrade14Keeps(d: Document, retired: map<string, Value>)
    requires HasVersion(d, 1) && Readable1(d)
    ensures var e := Upgrade14(d).value;
            HasVersion(e, 2) && AuxiliaryIn(e).Dict? && JUDGE in AuxiliaryIn(e).fields
            && StepPolicies(e) == StepPolicies(d) && JudgePolicy(e, retired) == JudgePolicy(d, retired)
  {
    Upgrade14KeepsJudge(d, retired);
    hide JudgePolicy;
    var e := Upgrade14(d).value;
    var bindings := StepBindings(d);
    if bindings == map[] {
      assert StepPolicies(d) == map[];
    } else {
      assert OrEmpty(Get(e, "step_bindings")) == Dict(bindings);
    }
    assert StepPolicies(e) == StepPolicies(d);
  }

  lemma Upgrade14KeepsJudge(d: Document, retired: map<string, Value>)
    requires HasVersion(d, 1) && Readable1(d)
    ensures var e := Upgrade14(d).value;
            HasVersion(e, 2) && AuxiliaryIn(e).Dict? && JUDGE in AuxiliaryIn(e).fields && JudgePolicy(e, retired) == JudgePolicy(d, retired)
  {
    hide StepBindings;
    var e := Upgrade14(d).value;
    assert e["auxiliary_bindings"].fields.Keys == {JUDGE};
  }

  lemma Upgrade15Keeps(d: Document, before: map<string, Value>, after: map<string, Value>)
    requires HasVersion(d, 2) && AuxiliaryIn(d).Dict? && after == before + AuxiliaryIn(d).fields && JUDGE in AuxiliaryIn(d).fields
    ensures var e := Upgrade15(d).value;
            HasVersion(e, 3) && StepPolicies(e) == StepPolicies(d) && JudgePolicy(e, after) == JudgePolicy(d, before)
  {
  }

  lemma Upgrade21Keeps(d: Document, retired: map<string, Value>)
    requires HasVersion(d, 3)
    ensures var e := Upgrade21(d);
            HasVersion(e, 4) && StepPolicies(e) == StepPolicies(d) && JudgePolicy(e, retired) == JudgePolicy(d, retired)
  {
  }

  /** From version 1 to version 4 every step and the judge keep their effective role and role map. */
  lemma UpgradesKeepPolicies(d: Document, before: map<string, Value>)
    requires HasVersion(d, 1) && Readable1(d)
    ensures var e := Upgrade14(d).value;
            var after := before + AuxiliaryIn(e).fields;
            var f := Upgrade21(Upgrade15(e).value);
            HasVersion(f, 4) && StepPolicies(f) == StepPolicies(d) && JudgePolicy(f, after) == JudgePolicy(d, before)
  {
    Upgrade14Keeps(d, before);
    hide Upgrade14, Readable1, StepPolicies, JudgePolicy;
    var e := Upgrade14(d).value;
    Upgrade15Keeps(e, before, before + AuxiliaryIn(e).fields);
    hide Upgrade15;
    Upgrade21Keeps(Upgrade15(e).value, before + AuxiliaryIn(e).fields);
  }

  // ----- Round trip -----

  /** A version-1 document in normal form: exactly the four roles, explicit step roles and judge role, and no key of a later version. */
  predicate Normal1(d: Document) {
    && HasVersion(d, 1)
    && "roles" in d && d["roles"].Dict? && d["roles"].fields.Keys == ROLES
    && "step_roles" in d && d["step_roles"].Dict? && "judge_role" in d
    && d.Keys !! ({"step_bindings", "auxiliary_bindings", "workflow_binding"} + ADDED)
  }

  lemma Version2(d: Document)
    requires Normal1(d)
    ensures var e := Upgrade14(d).value;
            && Upgrade14(d).Some? && HasVersion(e, 2) && e["auxiliary_bindings"].Dict? && e["auxiliary_bindings"].fields.Keys == {JUDGE}
            && AuxiliaryIn(e) == e["auxiliary_bindings"]
            && e.Keys == d.Keys - {"roles", "step_roles", "judge_role"} + {"step_bindings", "auxiliary_bindings", "version"}
            && (forall k <- d :: k !in {"roles", "step_roles", "judge_role", "version"} ==> e[k] == d[k])
            && e["step_bindings"] == Dict(StepBindings(d))
            && e["auxiliary_bindings"].fields[JUDGE] == Binding(Get(d, "model_profile_name"), ProfileSource(d), d["roles"].fields, d["judge_role"])
  {
    var e := Upgrade14(d).value;
    assert OrEmpty(d["step_roles"]) == Dict(d["step_roles"].fields);
    assert JUDGE in e["auxiliary_bindings"].fields;
  }

  /** Up to version 4 and down to version 2 again, with the judge's binding back from the evidence. */
  lemma ThereAndBackTo2(e: Document, retired: map<string, Value>)
    requires HasVersion(e, 2) && "auxiliary_bindings" in e && e["auxiliary_bindings"] == Dict(retired) && JUDGE in retired
    requires e.Keys !! ({"workflow_binding"} + ADDED)
    ensures Upgrade15(e).Some? && Downgrade15(Downgrade21(Upgrade21(Upgrade15(e).value)), retired) == e
  {
    var f := Upgrade15(e).value;
    assert HasVersion(f, 3);
    var back := Downgrade21(Upgrade21(f));
    assert back == f by {
      assert HasVersion(Upgrade21(f), 4);
      assert back.Keys == f.Keys;
      assert forall k <- f :: back[k] == f[k];
    }
    var g := Downgrade15(f, retired);
    assert g.Keys == e.Keys;
    assert forall k <- e :: g[k] == e[k];
  }

  lemma DowngradeShared(e: Document, steps: map<string, Value>, auxiliary: map<string, Value>, roles: Value)
    requires HasVersion(e, 2) && OrEmpty(Get(e, "step_bindings")) == Dict(steps) && OrEmpty(Get(e, "auxiliary_bindings")) == Dict(auxiliary)
    requires SameRoles(steps, roles) && SameRoles(auxiliary, roles) && JUDGE in auxiliary && HasField(auxiliary[JUDGE], "role")
    requires AllHave(steps, "role")
    ensures Downgrade14(e) == Some(Reverted(e, steps, roles, auxiliary[JUDGE].fields["role"]))
  {
    OneSnapshot(steps, auxiliary, roles);
    assert !Falsy(auxiliary[JUDGE]);
    hide AllHave, SameRoles, Snapshots, OneOf, Reverted, OrEmpty;
    assert |{roles}| == 1;
  }

  lemma BackTo1(d: Document)
    requires Normal1(d)
    ensures Upgrade14(d).Some? && Downgrade14(Upgrade14(d).value) == Some(d)
  {
    Version2(d);
    hide Upgrade14, Downgrade14, Binding, StepBindings, Readable1;
    var e := Upgrade14(d).value;
    var steps, auxiliary := StepBindings(d), e["auxiliary_bindings"].fields;
    DowngradeShared(e, steps, auxiliary, d["roles"]);
    RevertedIs(d, e, steps);
  }

  lemma RevertedIs(d: Document, e: Document, steps: map<string, Value>)
    requires Normal1(d) && steps.Keys == d["step_roles"].fields.Keys
    requires forall step <- steps :: HasField(steps[step], "role") && steps[step].fields["role"] == d["step_roles"].fields[step]
    requires e.Keys == d.Keys - {"roles", "step_roles", "judge_role"} + {"step_bindings", "auxiliary_bindings", "version"}
    requires forall k <- d :: k !in {"roles", "step_roles", "judge_role", "version"} ==> e[k] == d[k]
    ensures Reverted(e, steps, d["roles"], d["judge_role"]) == d
  {
    var back := Reverted(e, steps, d["roles"], d["judge_role"]);
    assert (map step | step in steps && HasField(steps[step], "role") :: steps[step].fields["role"]) == d["step_roles"].fields;
    assert back.Keys == d.Keys;
    assert forall k <- d :: back[k] == d[k];
  }

  lemma OneSnapshot(steps: map<string, Value>, auxiliary: map<string, Value>, roles: Value)
    requires SameRoles(steps, roles) && SameRoles(auxiliary, roles) && auxiliary != map[]
    ensures Snapshots(steps) + Snapshots(auxiliary) == {roles} && OneOf({roles}) == roles
  {
    var name :| name in auxiliary;
    assert auxiliary[name].fields["roles"] in Snapshots(auxiliary);
    assert roles in {roles};
  }

  lemma Version2Ready(d: Document, before: map<string, Value>)
    requires Normal1(d) && before.Keys <= {JUDGE}
    ensures var e := Upgrade14(d).value;
            && Upgrade14(d).Some? && HasVersion(e, 2) && AuxiliaryIn(e).Dict? && JUDGE in before + AuxiliaryIn(e).fields
            && "auxiliary_bindings" in e && e["auxiliary_bindings"] == Dict(before + AuxiliaryIn(e).fields)
            && e.Keys !! ({"workflow_binding"} + ADDED)
  {
    Version2(d);
    hide Upgrade14, Binding, StepBindings;
    var e := Upgrade14(d).value;
    assert before + AuxiliaryIn(e).fields == AuxiliaryIn(e).fields;
  }

  /** All the upgrades and then all the downgrades give a version-1 document in normal form back. */
  lemma RoundTrip(d: Document, before: map<string, Value>)
    requires Normal1(d) && before.Keys <= {JUDGE}
    ensures var e := Upgrade14(d).value;
            var retired := before + AuxiliaryIn(e).fields;
            Upgrade14(d).Some? && AuxiliaryIn(e).Dict? && Upgrade15(e).Some?
            && Downgrade14(Downgrade15(Downgrade21(Upgrade21(Upgrade15(e).value)), retired)) == Some(d)
  {
    BackTo1(d);
    Version2Ready(d, before);
    hide Upgrade14, Downgrade14, Upgrade15, Downgrade15, Upgrade21, Downgrade21, Normal1, AuxiliaryIn;
    ThereAndBackTo2(Upgrade14(d).value, before + AuxiliaryIn(Upgrade14(d).value).fields);
  }

  /** Each migration leaves documents of other versions alone. */
  lemma OthersUntouched(d: Document, retired: map<string, Value>)
    ensures !HasVersion(d, 1) ==> Upgrade14(d) == Some(d)
    ensures !HasVersion(d, 2) ==> Downgrade14(d) == Some(d) && Upgrade15(d) == Some(d)
    ensures !HasVersion(d, 3) ==> Downgrade15(d, retired) == d && Upgrade21(d) == d
    ensures !HasVersion(d, 4) ==> Downgrade21(d) == d
  {
  }

  // ----- Which documents go through -----

  /** What `downgrade` of 0014 must find in a version-2 document: dictionaries, empty or with a role map in every binding, and, unless the role maps differ, a role in every step's binding and the judge's. */
  ghost predicate Reads2(steps: Value, auxiliary: map<string, Value>) {
    && steps.Dict?
    && ((steps.fields == map[] && auxiliary == map[])
        || (&& AllHave(steps.fields, "roles") && AllHave(auxiliary, "roles")
            && (|Snapshots(steps.fields) + Snapshots(auxiliary)| > 1
                || (AllHave(steps.fields, "role") && (Falsy(Get(auxiliary, JUDGE)) || HasField(Get(auxiliary, JUDGE), "role"))))))
  }

  /** A document that every migration takes, up to version 4 and down again, given the sessions of its task that are resumed and the bindings already retired for it. */
  ghost predicate Convertible(d: Document, sessions: set<string>, retired: map<string, Value>) {
    if HasVersion(d, 1) then Readable1(d) && Backfills(d, sessions) && AllHave(retired - {JUDGE}, "roles")
    else if HasVersion(d, 2) then
      AuxiliaryIn(d).Dict?
      && var known := retired + AuxiliaryIn(d).fields; JUDGE in known ==> Reads2(OrEmpty(Get(d, "step_bindings")), known)
    else
      (HasVersion(d, 3) || HasVersion(d, 4)) && JUDGE in retired ==> Reads2(OrEmpty(Get(d, "step_bindings")), retired)
  }

  /** The first two upgrades, the last one and its downgrade, and the next downgrade. */
  ghost predicate Climbs(d: Document) {
    Upgrade14(d).Some? && Upgrade15(Upgrade14(d).value).Some?
  }

  function ToVersion2(d: Document, retired: map<string, Value>): Document
    requires Climbs(d)
  {
    var e := Upgrade14(d).value;
    Downgrade15(Downgrade21(Upgrade21(Upgrade15(e).value)), retired + RetiredBy(e))
  }

  lemma DowngradeReads(d: Document)
    requires HasVersion(d, 2) && AuxiliaryIn(d).Dict?
    ensures Downgrade14(d).Some? <==> Reads2(OrEmpty(Get(d, "step_bindings")), AuxiliaryIn(d).fields)
  {
    hide AllHave, Snapshots, OneOf, Reverted;
  }

  /** What is left of a version-3 document after the last migration and its reverse. */
  lemma UpAndDown21(d: Document)
    requires HasVersion(d, 3) || HasVersion(d, 4)
    ensures var e := Downgrade21(Upgrade21(d)); HasVersion(e, 3) && Get(e, "step_bindings") == Get(d, "step_bindings")
  {
    assert HasVersion(Upgrade21(d), 4);
  }

  lemma DowngradesFrom3(d: Document, retired: map<string, Value>)
    requires HasVersion(d, 3)
    ensures Downgrade14(Downgrade15(d, retired)).Some? <==> (JUDGE in retired ==> Reads2(OrEmpty(Get(d, "step_bindings")), retired))
  {
    hide Reads2, Downgrade14;
    var e := Downgrade15(d, retired);
    if JUDGE in retired {
      assert HasVersion(e, 2) && Get(e, "step_bindings") == Get(d, "step_bindings") && AuxiliaryIn(e) == Dict(retired);
      DowngradeReads(e);
    } else {
      OthersUntouched(e, retired);
    }
  }

  lemma UpgradedReads(d: Document, before: map<string, Value>)
    requires HasVersion(d, 1) && Readable1(d)
    ensures var e := Upgrade14(d).value;
            var known := before + AuxiliaryIn(e).fields;
            AuxiliaryIn(e).Dict? && JUDGE in known && (Reads2(OrEmpty(Get(e, "step_bindings")), known) <==> AllHave(before - {JUDGE}, "roles"))
  {
    var e := Upgrade14(d).value;
    var judge := Binding(Get(d, "model_profile_name"), ProfileSource(d), d["roles"].fields, JudgeRole(d));
    assert JUDGE in map[JUDGE := judge];
    assert AuxiliaryIn(e) == Dict(map[JUDGE := judge]);
    var known := before + map[JUDGE := judge];
    assert OrEmpty(Get(e, "step_bindings")) == Dict(StepBindings(d));
    assert HasField(judge, "roles") && HasField(judge, "role");
    assert AllHave(StepBindings(d), "roles") && AllHave(StepBindings(d), "role");
    HaveApart(before, judge, "roles");
    hide AllHave, StepBindings, Binding, Upgrade14, Readable1;
  }

  lemma HaveApart(before: map<string, Value>, judge: Value, key: string)
    requires HasField(judge, key)
    ensures AllHave(before + map[JUDGE := judge], key) <==> AllHave(before - {JUDGE}, key)
  {
    var known, others := before + map[JUDGE := judge], before - {JUDGE};
    if AllHave(known, key) {
      forall name <- others
        ensures HasField(others[name], key)
      {
        assert name in known && known[name] == others[name];
      }
    }
    if AllHave(others, key) {
      forall name <- known
        ensures HasField(known[name], key)
      {
        assert name != JUDGE ==> name in others && others[name] == known[name];
      }
    }
  }

  lemma ClimbsTo3(d: Document)
    requires Climbs(d) && (HasVersion(d, 1) || HasVersion(d, 2))
    ensures var e := Upgrade14(d).value;
            HasVersion(e, 2) && AuxiliaryIn(e).Dict? && HasVersion(Upgrade15(e).value, 3)
            && Get(Upgrade15(e).value, "step_bindings") == Get(e, "step_bindings") && RetiredBy(e) == AuxiliaryIn(e).fields
  {
  }

  lemma ClimbsExact(d: Document)
    ensures Climbs(d) <==> (HasVersion(d, 1) ==> Readable1(d)) && (HasVersion(d, 2) ==> AuxiliaryIn(d).Dict?)
    ensures !HasVersion(d, 1) && !HasVersion(d, 2) ==> Upgrade14(d) == Some(d) && Upgrade15(d) == Some(d) && RetiredBy(d) == map[]
  {
    if HasVersion(d, 1) && Readable1(d) {
      UpgradedReads(d, map[]);
    }
  }

  /** Nothing raises in the first migration. */
  predicate Upgrades14(d: Document, sessions: set<string>) {
    HasVersion(d, 1) ==> Readable1(d) && Backfills(d, sessions)
  }

  lemma ConvertibleExact(d: Document, sessions: set<string>, retired: map<string, Value>)
    ensures Upgrades14(d, sessions) && Climbs(d) && Downgrade14(ToVersion2(d, retired)).Some? <==> Convertible(d, sessions, retired)
  {
    hide Backfills, Reads2, Downgrade14, Downgrade15, Downgrade21, Upgrade21, Upgrade14, Upgrade15, Readable1, AllHave, AuxiliaryIn;
    ClimbsExact(d);
    OthersUntouched(d, retired);
    if Climbs(d) {
      var e := Upgrade14(d).value;
      var f, known := Upgrade15(e).value, retired + RetiredBy(e);
      if HasVersion(d, 1) || HasVersion(d, 2) {
        ClimbsTo3(d);
      }
      if HasVersion(d, 1) {
        UpgradedReads(d, retired);
      }
      assert !HasVersion(d, 1) && !HasVersion(d, 2) ==> f == d && known == retired;
      if HasVersion(f, 3) || HasVersion(f, 4) {
        UpAndDown21(f);
        DowngradesFrom3(Downgrade21(Upgrade21(f)), known);
      }
    }
  }

  // ----- The tables -----

  /** The evidence rows of one task's auxiliary bindings: one for each consumer. */
  ghost predicate RowsFor(rows: seq<Evidence>, task: TaskId, auxiliary: map<string, Value>) {
    && (forall r <- rows :: r.RetiredAuxiliary? && r.task == task && r.consumer in auxiliary && r.binding == auxiliary[r.consumer])
    && forall consumer <- auxiliary :: exists r <- rows :: r.RetiredAuxiliary? && r.consumer == consumer
  }

  lemma {:induction false} RetiredRows(rows: seq<Evidence>, task: TaskId, other: TaskId, auxiliary: map<string, Value>)
    requires forall r <- rows :: r.RetiredAuxiliary? && r.task == task && r.consumer in auxiliary && r.binding == auxiliary[r.consumer]
    ensures other != task ==> Retired(rows, other) == map[]
    ensures forall c <- Retired(rows, task) :: c in auxiliary && Retired(rows, task)[c] == auxiliary[c]
    ensures forall r <- rows :: r.consumer in Retired(rows, task)
  {
    if rows != [] {
      RetiredRows(rows[..|rows| - 1], task, other, auxiliary);
      assert rows[|rows| - 1] in rows;
      assert forall r <- rows :: r in rows[..|rows| - 1] || r == rows[|rows| - 1];
      assert forall r <- rows[..|rows| - 1] :: r in rows;
    }
  }

  lemma RowsRetire(rows: seq<Evidence>, task: TaskId, other: TaskId, auxiliary: map<string, Value>)
    requires RowsFor(rows, task, auxiliary)
    ensures Retired(rows, task) == auxiliary
    ensures other != task ==> Retired(rows, other) == map[]
  {
    RetiredRows(rows, task, other, auxiliary);
    forall consumer <- auxiliary
      ensures consumer in Retired(rows, task)
    {
      var r :| r in rows && r.RetiredAuxiliary? && r.consumer == consumer;
    }
  }

  /** What the evidence says of a task after `document`, which is at version 2, was upgraded. */
  function RetiredBy(d: Document): map<string, Value> {
    if HasVersion(d, 2) && AuxiliaryIn(d).Dict? then AuxiliaryIn(d).fields else map[]
  }

  class Database {
    var tasks: map<TaskId, Document>
    var evidence: seq<Evidence>
    /** The sessions of each task that have a native session to resume. */
    const sessions: map<TaskId, set<string>>
    var applied: map<(TaskId, string), Applied>

    constructor (tasks: map<TaskId, Document>, evidence: seq<Evidence>, sessions: map<TaskId, set<string>>)
      ensures this.tasks == tasks && this.evidence == evidence && this.sessions == sessions && applied == map[]
    {
      this.tasks, this.evidence, this.sessions, applied := tasks, evidence, sessions, map[];
    }

    function SessionsOf(id: TaskId): (names: set<string>)
      ensures forall session :: session in names <==> id in sessions && session in sessions[id]
    {
      if id in sessions then sessions[id] else {}
    }

    /** Exactly the resumed sessions of the version-1 tasks outside `rows` have their policy recorded. */
    ghost predicate Recorded(tasks: map<TaskId, Document>, rows: set<TaskId>, applied: map<(TaskId, string), Applied>) {
      && (forall id, session :: (id, session) in applied ==>
            && id in tasks && id !in rows && HasVersion(tasks[id], 1) && Readable1(tasks[id]) && id in sessions && session in sessions[id]
            && AppliedTo(tasks[id], session) == Some(applied[(id, session)]))
      && (forall id <- tasks :: id !in rows && HasVersion(tasks[id], 1) && id in sessions ==> forall session <- sessions[id] :: (id, session) in applied)
    }

    /** `upgrade` of 0014: every document, and the policy of every resumed session of a version-1 task, or nothing when one makes it raise. */
    method Upgrade0014() returns (ok: bool)
      modifies `tasks, `applied
      ensures ok <==> forall id <- old(tasks) :: Upgrades14(old(tasks)[id], SessionsOf(id))
      ensures tasks.Keys == old(tasks).Keys
      ensures ok ==> forall id <- tasks :: Upgrade14(old(tasks)[id]) == Some(tasks[id])
      ensures if ok then Recorded(old(tasks), {}, applied) else tasks == old(tasks) && applied == old(applied)
    {
      hide Upgrade14, AppliedTo, Backfills, Recorded;
      var rows, written := tasks.Keys, tasks;
      var recorded: map<(TaskId, string), Applied> := map[];
      NothingRecorded(tasks, rows);
      while rows != {}
        invariant rows <= tasks.Keys == written.Keys && tasks == old(tasks) && applied == old(applied)
        invariant forall id <- tasks :: if id in rows then written[id] == tasks[id] else Upgrade14(tasks[id]) == Some(written[id])
        invariant forall id <- tasks :: id !in rows ==> Upgrades14(tasks[id], SessionsOf(id))
        invariant Recorded(tasks, rows, recorded)
        decreases |rows|
      {
        var id :| id in rows;
        Upgrades14Means(tasks[id]);
        match Upgrade14(tasks[id])
        case None =>
          return false;
        case Some(document) =>
          ghost var before := recorded;
          if HasVersion(tasks[id], 1) {
            ok, recorded := Backfill(id, rows, recorded);
            if !ok {
              return;
            }
          } else {
            NotRecorded(tasks, rows, recorded, id);
          }
          written := written[id := document];
          rows := rows - {id};
      }
      tasks, applied, ok := written, recorded, true;
    }

    /** The sessions of one task. */
    method Backfill(id: TaskId, ghost rows: set<TaskId>, recorded0: map<(TaskId, string), Applied>)
      returns (ok: bool, recorded: map<(TaskId, string), Applied>)
      requires id in tasks && id in rows && HasVersion(tasks[id], 1) && Readable1(tasks[id]) && Recorded(tasks, rows, recorded0)
      ensures ok <==> Backfills(tasks[id], SessionsOf(id))
      ensures ok ==> Recorded(tasks, rows - {id}, recorded)
    {
      BackfillsExact(tasks[id], SessionsOf(id));
      hide AppliedTo, Backfills, Readable1;
      recorded := recorded0;
      var names := SessionsOf(id);
      while names != {}
        invariant names <= SessionsOf(id)
        invariant forall session <- SessionsOf(id) :: session in names || (AppliedTo(tasks[id], session).Some? && (id, session) in recorded)
        invariant forall other, session :: (other, session) in recorded ==>
                    if other == id then session in SessionsOf(id) && AppliedTo(tasks[id], session) == Some(recorded[(other, session)])
                    else (other, session) in recorded0 && recorded[(other, session)] == recorded0[(other, session)]
        invariant forall key <- recorded0 :: key in recorded
        decreases |names|
      {
        var name :| name in names;
        match AppliedTo(tasks[id], name)
        case None =>
          return false, recorded;
        case Some(policy) =>
          recorded := recorded[(id, name) := policy];
          names := names - {name};
      }
      ok := true;
    }

    lemma NothingRecorded(tasks: map<TaskId, Document>, rows: set<TaskId>)
      requires rows == tasks.Keys
      ensures Recorded(tasks, rows, map[])
    {
    }

    lemma NotRecorded(tasks: map<TaskId, Document>, rows: set<TaskId>, recorded: map<(TaskId, string), Applied>, id: TaskId)
      requires Recorded(tasks, rows, recorded) && id in tasks && !HasVersion(tasks[id], 1)
      ensures Recorded(tasks, rows - {id}, recorded)
    {
    }

    /** `downgrade` of 0014; the column of applied policies goes. */
    method Downgrade0014() returns (ok: bool)
      modifies `tasks, `applied
      ensures applied == if ok then map[] else old(applied)
      ensures ok <==> forall id <- old(tasks) :: Downgrade14(old(tasks)[id]).Some?
      ensures tasks.Keys == old(tasks).Keys
      ensures forall id <- tasks :: tasks[id] == if ok then Downgrade14(old(tasks)[id]).value else old(tasks)[id]
    {
      hide Downgrade14;
      var rows, written := tasks.Keys, tasks;
      while rows != {}
        invariant rows <= tasks.Keys == written.Keys && tasks == old(tasks) && applied == old(applied)
        invariant forall id <- tasks :: if id in rows then written[id] == tasks[id] else Downgrade14(tasks[id]) == Some(written[id])
        decreases |rows|
      {
        var id :| id in rows;
        match Downgrade14(tasks[id])
        case None =>
          return false;
        case Some(document) =>
          written := written[id := document];
          rows := rows - {id};
      }
      tasks, applied, ok := written, map[], true;
    }

    /** One evidence row for each auxiliary binding of a document. */
    method AuxiliaryRows(task: TaskId, auxiliary: map<string, Value>) returns (rows: seq<Evidence>)
      ensures RowsFor(rows, task, auxiliary)
    {
      rows := [];
      var names := auxiliary.Keys;
      while names != {}
        invariant names <= auxiliary.Keys
        invariant forall r <- rows :: r.RetiredAuxiliary? && r.task == task && r.consumer in auxiliary && r.binding == auxiliary[r.consumer]
        invariant forall consumer <- auxiliary :: consumer in names || exists r <- rows :: r.RetiredAuxiliary? && r.consumer == consumer
        decreases |names|
      {
        var name :| name in names;
        ghost var before := rows;
        rows := rows + [RetiredAuxiliary(task, name, auxiliary[name])];
        assert rows[|before|] in rows && forall r <- before :: r in rows;
        names := names - {name};
      }
    }

    /** `upgrade` of 0015: the auxiliary bindings of every version-2 document go into the evidence. */
    method Upgrade0015() returns (ok: bool)
      modifies `tasks, `evidence
      ensures ok <==> forall id <- old(tasks) :: Upgrade15(old(tasks)[id]).Some?
      ensures tasks.Keys == old(tasks).Keys
      ensures forall id <- tasks :: tasks[id] == if ok then Upgrade15(old(tasks)[id]).value else old(tasks)[id]
      ensures ok ==> forall id <- tasks :: Retired(evidence, id) == Retired(old(evidence), id) + RetiredBy(old(tasks)[id])
      ensures !ok ==> evidence == old(evidence)
    {
      hide Upgrade15, Retired, RetiredBy, RowsFor;
      var rows, written, recorded := tasks.Keys, tasks, evidence;
      while rows != {}
        invariant rows <= tasks.Keys == written.Keys && tasks == old(tasks) && evidence == old(evidence)
        invariant forall id <- tasks :: if id in rows then written[id] == tasks[id] else Upgrade15(tasks[id]) == Some(written[id])
        invariant forall id <- tasks :: Retired(recorded, id) == if id in rows then Retired(evidence, id) else Retired(evidence, id) + RetiredBy(tasks[id])
        decreases |rows|
      {
        var id :| id in rows;
        match Upgrade15(tasks[id])
        case None =>
          return false;
        case Some(document) =>
          ghost var before := recorded;
          recorded := RecordRetired(id, tasks[id], recorded);
          written := written[id := document];
          rows := rows - {id};
      }
      tasks, evidence, ok := written, recorded, true;
    }

    /** The evidence one document leaves. */
    method RecordRetired(id: TaskId, document: Document, recorded: seq<Evidence>) returns (more: seq<Evidence>)
      requires Upgrade15(document).Some?
      ensures Retired(more, id) == Retired(recorded, id) + RetiredBy(document)
      ensures forall other: TaskId :: other != id ==> Retired(more, other) == Retired(recorded, other)
    {
      if !HasVersion(document, 2) {
        more := recorded;
        return;
      }
      var auxiliary := AuxiliaryIn(document).fields;
      var rows := AuxiliaryRows(id, auxiliary);
      more := recorded + [LegacyInputs(id, document)] + rows;
      forall other: TaskId
        ensures Retired(more, other) == Retired(recorded, other) + if other == id then auxiliary else map[]
      {
        RowsRetire(rows, id, other, auxiliary);
        RetiredSplit(recorded + [LegacyInputs(id, document)], rows, other);
        RetiredSplit(recorded, [LegacyInputs(id, document)], other);
        assert [LegacyInputs(id, document)][..0] == [];
        assert Retired([LegacyInputs(id, document)], other) == map[];
      }
    }

    method Downgrade0015()
      modifies `tasks
      ensures tasks.Keys == old(tasks).Keys
      ensures forall id <- tasks :: tasks[id] == Downgrade15(old(tasks)[id], Retired(evidence, id))
    {
      hide Downgrade15, Retired;
      var rows := tasks.Keys;
      while rows != {}
        invariant rows <= tasks.Keys == old(tasks).Keys
        invariant forall id <- tasks :: tasks[id] == if id in rows then old(tasks)[id] else Downgrade15(old(tasks)[id], Retired(evidence, id))
        decreases |rows|
      {
        var id :| id in rows;
        tasks := tasks[id := Downgrade15(tasks[id], Retired(evidence, id))];
        rows := rows - {id};
      }
    }

    method Upgrade0021()
      modifies `tasks
      ensures tasks.Keys == old(tasks).Keys
      ensures forall id <- tasks :: tasks[id] == Upgrade21(old(tasks)[id])
    {
      hide Upgrade21;
      var rows := tasks.Keys;
      while rows != {}
        invariant rows <= tasks.Keys == old(tasks).Keys
        invariant forall id <- tasks :: tasks[id] == if id in rows then old(tasks)[id] else Upgrade21(old(tasks)[id])
        decreases |rows|
      {
        var id :| id in rows;
        tasks := tasks[id := Upgrade21(tasks[id])];
        rows := rows - {id};
      }
    }

    method Downgrade0021()
      modifies `tasks
      ensures tasks.Keys == old(tasks).Keys
      ensures forall id <- tasks :: tasks[id] == Downgrade21(old(tasks)[id])
    {
      hide Downgrade21;
      var rows := tasks.Keys;
      while rows != {}
        invariant rows <= tasks.Keys == old(tasks).Keys
        invariant forall id <- tasks :: tasks[id] == if id in rows then old(tasks)[id] else Downgrade21(old(tasks)[id])
        decreases |rows|
      {
        var id :| id in rows;
        tasks := tasks[id := Downgrade21(tasks[id])];
        rows := rows - {id};
      }
    }

    /** All upgrades and then all downgrades: none of them raises exactly if every document can be taken through, and then every version-1 document in normal form is itself again. */
    method ThereAndBack() returns (ok: bool)
      modifies this
      ensures ok <==> forall id <- old(tasks) :: Convertible(old(tasks)[id], SessionsOf(id), Retired(old(evidence), id))
      ensures ok ==> forall id <- old(tasks) ::
                Normal1(old(tasks)[id]) && Retired(old(evidence), id).Keys <= {JUDGE} ==> id in tasks && tasks[id] == old(tasks)[id]
    {
      hide Upgrade14, Downgrade14, Upgrade15, Downgrade15, Upgrade21, Downgrade21, Retired, Normal1, RetiredBy, Convertible, Recorded, Upgrades14;
      ghost var start, known := tasks, evidence;
      ok := Upgrade0014();
      if !ok {
        ghost var id :| id in start && !Upgrades14(start[id], SessionsOf(id));
        ConvertibleExact(start[id], SessionsOf(id), Retired(known, id));
        return;
      }
      ok := Upgrade0015();
      if !ok {
        ghost var id :| id in tasks && Upgrade15(tasks[id]).None?;
        assert !Climbs(start[id]);
        ConvertibleExact(start[id], SessionsOf(id), Retired(known, id));
        return;
      }
      assert forall id <- start :: Climbs(start[id]);
      Upgrade0021();
      Downgrade0021();
      Downgrade0015();
      forall id | id in start && Normal1(start[id]) && Retired(known, id).Keys <= {JUDGE}
        ensures Downgrade14(tasks[id]) == Some(start[id])
      {
        RoundTrip(start[id], Retired(known, id));
        Version2Retires(start[id]);
      }
      forall id <- start
        ensures Downgrade14(tasks[id]).Some? <==> Convertible(start[id], SessionsOf(id), Retired(known, id))
      {
        assert tasks[id] == ToVersion2(start[id], Retired(known, id));
        ConvertibleExact(start[id], SessionsOf(id), Retired(known, id));
      }
      ok := Downgrade0014();
    }
  }

  lemma Upgrades14Means(d: Document)
    ensures Upgrade14(d).Some? <==> HasVersion(d, 1) ==> Readable1(d)
  {
  }

  lemma Version2Retires(d: Document)
    requires Normal1(d)
    ensures Upgrade14(d).Some? && RetiredBy(Upgrade14(d).value) == AuxiliaryIn(Upgrade14(d).value).fields
  {
    Version2(d);
  }
}
