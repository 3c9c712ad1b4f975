/** Compiling a composition: shared definitions, stages, freezing, and verification of what was frozen. */
module Composition {
  import opened StepTemplates
  import opened Wrappers
  import Paths

  const MAX_STEPS := 256
  const MAX_PARAMETERS := 32
  const MAX_DEFINITIONS := 64
  const RESERVED_NAMES: set<string> := {"judge"}

  datatype Parameter = Parameter(kind: Kind, fallback: Option<Json>)

  /** One snapshot of a shared definition. */
  datatype Shared = Shared(name: string, title: string, description: string, parameters: map<string, Parameter>, steps: seq<Json>, revision: string)

  datatype SourceStep =
    | Plain(name: string, document: Json)
    | Use(name: string, use: string, bindings: map<string, Json>)

  datatype Stage = Stage(name: string, title: string, description: string, steps: seq<string>)

  /** A parsed execution step. */
  datatype Step = Step(name: string, content: Json)

  /** An authored document has no execution steps of its own; a retained one lists them, and its stages. */
  datatype Document = Document(header: Json, steps: Option<seq<Json>>, source: seq<SourceStep>, definitions: map<string, Shared>, stages: Option<seq<Stage>>)

  datatype Definition = Definition(header: Json, steps: seq<Step>, source: seq<SourceStep>, definitions: map<string, Shared>, stages: seq<Stage>)

  /** The parts of the document grammar that live elsewhere: how one step is read and written, what a whole definition must satisfy, the size bounds, the content digest, and what a slug is. */
  datatype Grammar = Grammar(
    parseStep: Json -> Option<Step>,
    document: Step -> Json,
    wellFormed: (Json, seq<Step>) -> bool,
    fits: Document -> bool,
    fitsShared: Shared -> bool,
    digest: Shared -> string,
    slug: string -> bool)

  /** The value of an object's field. */
  function FieldOf(fields: Fields, key: string): Option<Json> {
    match fields
    case Empty => None
    case Field(k, v, rest) => if k == key then Some(v) else FieldOf(rest, key)
  }

  /** The text under a key of a step, if there is one. */
  function TextOf(step: Json, key: string): string {
    if step.Object? && FieldOf(step.fields, key).Some? && FieldOf(step.fields, key).value.Text? then FieldOf(step.fields, key).value.text else ""
  }

  function NameOf(step: Json): string {
    TextOf(step, "name")
  }

  /** `value` stands under `key`, where the key comes first. */
  ghost predicate StandsUnder(fields: Fields, key: string, value: Json) {
    fields.Field? && if fields.key == key then fields.value == value else StandsUnder(fields.rest, key, value)
  }

  lemma {:induction false} FieldExact(fields: Fields, key: string, value: Json)
    ensures FieldOf(fields, key) == Some(value) <==> StandsUnder(fields, key, value)
  {
    if fields.Field? && fields.key != key {
      FieldExact(fields.rest, key, value);
    }
  }

  ghost predicate Named(step: Json, name: string) {
    step.Object? && StandsUnder(step.fields, "name", Text(name))
  }

  lemma NamedExact(step: Json, name: string)
    requires Named(step, name)
    ensures NameOf(step) == name
  {
    FieldExact(step.fields, "name", Text(name));
  }

  /** Reading what was written gives the step back, and a step keeps its name. */
  ghost predicate Normalises(g: Grammar) {
    && (forall x: Json :: g.parseStep(x).Some? ==> g.parseStep(g.document(g.parseStep(x).value)) == g.parseStep(x))
    && (forall x: Json :: g.parseStep(x).Some? ==> Named(x, g.parseStep(x).value.name))
  }

  predicate Blank(s: string) {
    forall c <- s :: Paths.IsSpace(c)
  }

  function Kinds(parameters: map<string, Parameter>): map<string, Kind> {
    map k | k in parameters :: parameters[k].kind
  }

  const STEP_KINDS: set<string> := {"agent", "command", "decision", "gate", "review", "delivery", "capture"}

  /** An ordinary primitive step, whose placeholders are all declared. */
  predicate OrdinaryTemplate(step: Json, parameters: map<string, Kind>) {
    step.Object? && FieldOf(step.fields, "use").None? && TextOf(step, "kind") in STEP_KINDS && Template(step, parameters, false)
  }

  /** What `normalize_shared_definition` accepts; its result is the same snapshot. */
  predicate ValidShared(g: Grammar, s: Shared) {
    && g.fitsShared(s) && g.slug(s.name) && !Blank(s.title)
    && |s.parameters| <= MAX_PARAMETERS && "" !in s.parameters
    && (forall k <- s.parameters :: s.parameters[k].fallback.Some? ==> Matches(s.parameters[k].fallback.value, s.parameters[k].kind))
    && 0 < |s.steps| <= MAX_STEPS
    && (forall step <- s.steps :: OrdinaryTemplate(step, Kinds(s.parameters)))
    && s.revision == g.digest(s.(revision := ""))
  }

  /** A primitive step: it uses no shared definition, its kind is one of the seven, and its placeholders are proper. */
  ghost predicate Primitive(step: Json, parameters: map<string, Kind>) {
    && step.Object? && (forall v: Json :: !StandsUnder(step.fields, "use", v))
    && (exists kind :: kind in {"agent", "command", "decision", "gate", "review", "delivery", "capture"} && StandsUnder(step.fields, "kind", Text(kind)))
    && forall x, direct :: Within(x, direct, step, false) ==> Proper(x, direct, parameters)
  }

  /** A shared definition by itself: named parameters, defaults of their types, and primitive steps. */
  ghost predicate Sound(s: Shared) {
    && |s.parameters| <= 32 && 0 < |s.steps| <= 256
    && (forall k :: k in s.parameters ==> k != "" && (s.parameters[k].fallback.Some? ==> Matches(s.parameters[k].fallback.value, s.parameters[k].kind)))
    && forall i: nat :: i < |s.steps| ==> Primitive(s.steps[i], Kinds(s.parameters))
  }

  lemma PrimitiveExact(step: Json, parameters: map<string, Kind>)
    ensures OrdinaryTemplate(step, parameters) <==> Primitive(step, parameters)
  {
    TemplateExact(step, parameters, false);
    hide Template, Within, Proper;
    if step.Object? {
      forall v: Json
        ensures FieldOf(step.fields, "use") == Some(v) <==> StandsUnder(step.fields, "use", v)
        ensures FieldOf(step.fields, "kind") == Some(v) <==> StandsUnder(step.fields, "kind", v)
      {
        FieldExact(step.fields, "use", v);
        FieldExact(step.fields, "kind", v);
      }
      assert StandsUnder(step.fields, "kind", Text(TextOf(step, "kind"))) <==> FieldOf(step.fields, "kind") == Some(Text(TextOf(step, "kind")));
      hide FieldOf, StandsUnder;
      if TextOf(step, "kind") in STEP_KINDS {
        assert FieldOf(step.fields, "kind") == Some(Text(TextOf(step, "kind")));
      }
    }
  }

  /** A snapshot is accepted exactly if it is sound, within its bounds, has a usable name and title, and is the content its revision names. */
  lemma SharedExact(g: Grammar, s: Shared)
    ensures ValidShared(g, s) <==> g.fitsShared(s) && g.slug(s.name) && !Blank(s.title) && s.revision == g.digest(s.(revision := "")) && Sound(s)
  {
    hide OrdinaryTemplate, Primitive, Blank, Matches, Kinds;
    forall i: nat | i < |s.steps|
      ensures OrdinaryTemplate(s.steps[i], Kinds(s.parameters)) <==> Primitive(s.steps[i], Kinds(s.parameters))
    {
      PrimitiveExact(s.steps[i], Kinds(s.parameters));
    }
    assert forall i: nat :: i < |s.steps| ==> s.steps[i] in s.steps;
  }

  // ----- Stages -----

  ghost predicate DistinctNames(names: seq<string>) {
    forall i: nat, j: nat :: i < j < |names| ==> names[i] != names[j]
  }

  /** Where a step stands among the execution steps. */
  function Position(names: seq<string>, name: string): (p: nat)
    ensures name in names ==> p < |names| && names[p] == name
  {
    if names == [] || names[0] == name then 0 else 1 + Position(names[1..], name)
  }

  /** A stage by itself: usable name and title, and members of the execution steps in declaration order. */
  predicate StageOk(g: Grammar, stage: Stage, names: seq<string>) {
    && g.slug(stage.name) && stage.name !in RESERVED_NAMES && !Blank(stage.title) && stage.steps != []
    && (forall s <- stage.steps :: s in names)
    && forall a: nat, b: nat :: a < b < |stage.steps| ==> Position(names, stage.steps[a]) < Position(names, stage.steps[b])
  }

  predicate Member(stages: seq<Stage>, i: nat, name: string) {
    i < |stages| && name in stages[i].steps
  }

  /** Stages with distinct names, each in declaration order, every execution step in exactly one of them, and ordered by their first steps. */
  ghost predicate StagesOk(g: Grammar, stages: seq<Stage>, names: seq<string>) {
    && stages != []
    && (forall i: nat :: i < |stages| ==> StageOk(g, stages[i], names))
    && (forall i: nat, j: nat :: i < j < |stages| ==> stages[i].name != stages[j].name)
    && (forall i: nat, j: nat, name: string {:trigger Member(stages, i, name), Member(stages, j, name)} ::
          Member(stages, i, name) && Member(stages, j, name) ==> i == j)
    && (forall name <- names :: exists i: nat :: Member(stages, i, name))
    && forall i: nat, j: nat :: i < j < |stages| ==> Position(names, stages[i].steps[0]) < Position(names, stages[j].steps[0])
  }

  /** Every execution step is in one stage, and in one only. */
  lemma StagesPartition(g: Grammar, stages: seq<Stage>, names: seq<string>, name: string)
    requires StagesOk(g, stages, names) && name in names
    ensures exists i: nat :: Member(stages, i, name) && forall j: nat :: Member(stages, j, name) ==> j == i
  {
    var i: nat :| Member(stages, i, name);
  }

  /** The steps of all stages, one stage after the other. */
  function Flat(stages: seq<Stage>): seq<string> {
    if stages == [] then [] else Flat(stages[..|stages| - 1]) + stages[|stages| - 1].steps
  }

  /** Where the steps of stage `i` start among those of all stages. */
  function Start(stages: seq<Stage>, i: nat): nat
    requires i <= |stages|
  {
    |Flat(stages[..i])|
  }

  lemma {:induction false} FlatAt(stages: seq<Stage>, i: nat, a: nat)
    requires i < |stages| && a < |stages[i].steps|
    ensures Start(stages, i) + a < |Flat(stages)| && Flat(stages)[Start(stages, i) + a] == stages[i].steps[a]
    decreases |stages|
  {
    var front := stages[..|stages| - 1];
    if i == |stages| - 1 {
    } else {
      assert front[..i] == stages[..i];
      FlatAt(front, i, a);
    }
  }

  lemma {:induction false} FlatGrows(stages: seq<Stage>, i: nat, j: nat)
    requires i < j <= |stages|
    ensures Start(stages, i) + |stages[i].steps| <= Start(stages, j)
    decreases j
  {
    assert stages[..j][..j - 1] == stages[..j - 1];
    if i < j - 1 {
      FlatGrows(stages, i, j - 1);
    }
  }

  lemma {:induction false} FlatCovers(stages: seq<Stage>, k: nat) returns (i: nat, a: nat)
    requires k < |Flat(stages)|
    ensures i < |stages| && a < |stages[i].steps| && Start(stages, i) + a == k
    decreases |stages|
  {
    var front := stages[..|stages| - 1];
    if k < |Flat(front)| {
      i, a := FlatCovers(front, k);
      assert front[..i] == stages[..i];
    } else {
      i, a := |stages| - 1, k - |Flat(front)|;
    }
  }

  /** The default stages' members, in terms of the execution steps. */
  lemma DefaultAt(defaults: seq<Stage>, names: seq<string>, i: nat, a: nat)
    requires Flat(defaults) == names && DistinctNames(names) && i < |defaults| && a < |defaults[i].steps|
    ensures defaults[i].steps[a] in names && Position(names, defaults[i].steps[a]) == Start(defaults, i) + a
  {
    FlatAt(defaults, i, a);
  }

  lemma DefaultMembersApart(defaults: seq<Stage>, names: seq<string>, i: nat, j: nat, name: string)
    requires Flat(defaults) == names && DistinctNames(names) && i < |defaults| && j < |defaults|
    requires Member(defaults, i, name) && Member(defaults, j, name)
    ensures i == j
  {
    hide Flat, Start, DistinctNames, Position;
    var a: nat :| a < |defaults[i].steps| && defaults[i].steps[a] == name;
    var b: nat :| b < |defaults[j].steps| && defaults[j].steps[b] == name;
    DefaultAt(defaults, names, i, a);
    DefaultAt(defaults, names, j, b);
    if i < j {
      FlatGrows(defaults, i, j);
    } else if j < i {
      FlatGrows(defaults, j, i);
    }
  }

  lemma DefaultStageOk(g: Grammar, defaults: seq<Stage>, names: seq<string>, i: nat)
    requires Flat(defaults) == names && DistinctNames(names) && i < |defaults|
    requires g.slug(defaults[i].name) && defaults[i].name !in RESERVED_NAMES && !Blank(defaults[i].title) && defaults[i].steps != []
    ensures StageOk(g, defaults[i], names)
  {
    hide Flat, Start, DistinctNames, Position, Blank;
    forall a: nat | a < |defaults[i].steps|
      ensures defaults[i].steps[a] in names && Position(names, defaults[i].steps[a]) == Start(defaults, i) + a
    {
      DefaultAt(defaults, names, i, a);
    }
  }

  lemma DefaultStartsOrdered(defaults: seq<Stage>, names: seq<string>, i: nat, j: nat)
    requires Flat(defaults) == names && DistinctNames(names) && i < j < |defaults|
    requires defaults[i].steps != [] && defaults[j].steps != []
    ensures Position(names, defaults[i].steps[0]) < Position(names, defaults[j].steps[0])
  {
    hide Flat, Start, DistinctNames, Position;
    DefaultAt(defaults, names, i, 0);
    DefaultAt(defaults, names, j, 0);
    FlatGrows(defaults, i, j);
  }

  lemma DefaultCovered(defaults: seq<Stage>, names: seq<string>, name: string)
    requires Flat(defaults) == names && name in names
    ensures exists i: nat :: Member(defaults, i, name)
  {
    hide Flat, Start;
    var k: nat :| k < |names| && names[k] == name;
    var i, a := FlatCovers(defaults, k);
    FlatAt(defaults, i, a);
    assert Member(defaults, i, name);
  }

  /** One stage for each source step, holding what it expands to, is always accepted. */
  lemma DefaultsAccepted(g: Grammar, defaults: seq<Stage>, names: seq<string>)
    requires defaults != [] && Flat(defaults) == names && DistinctNames(names)
    requires forall i: nat :: i < |defaults| ==>
               g.slug(defaults[i].name) && defaults[i].name !in RESERVED_NAMES && !Blank(defaults[i].title) && defaults[i].steps != []
    requires forall i: nat, j: nat :: i < j < |defaults| ==> defaults[i].name != defaults[j].name
    ensures StagesOk(g, defaults, names)
  {
    hide Flat, DistinctNames, Position, Blank, StageOk, Member;
    forall i: nat | i < |defaults|
      ensures StageOk(g, defaults[i], names)
    {
      DefaultStageOk(g, defaults, names, i);
    }
    forall i: nat, j: nat | i < j < |defaults|
      ensures Position(names, defaults[i].steps[0]) < Position(names, defaults[j].steps[0])
    {
      DefaultStartsOrdered(defaults, names, i, j);
    }
    forall i: nat, j: nat, name: string | Member(defaults, i, name) && Member(defaults, j, name)
      ensures i == j
    {
      MemberBound(defaults, i, name);
      MemberBound(defaults, j, name);
      DefaultMembersApart(defaults, names, i, j, name);
    }
    forall name <- names
      ensures exists i: nat :: Member(defaults, i, name)
    {
      DefaultCovered(defaults, names, name);
    }
  }

  lemma MemberBound(stages: seq<Stage>, i: nat, name: string)
    requires Member(stages, i, name)
    ensures i < |stages|
  {
  }

  /** One stage of `_stages`: its members are execution steps in declaration order that no stage has claimed. */
  method CheckStage(g: Grammar, stage: Stage, names: seq<string>, membership0: set<string>) returns (ok: bool, membership: set<string>)
    ensures ok <==> StageOk(g, stage, names) && forall s <- stage.steps :: s !in membership0
    ensures ok ==> membership == membership0 + set s | s in stage.steps
  {
    hide Position, Blank;
    membership := membership0;
    if !g.slug(stage.name) || stage.name in RESERVED_NAMES || Blank(stage.title) || stage.steps == [] {
      return false, membership;
    }
    var a := 0;
    while a < |stage.steps|
      invariant 0 <= a <= |stage.steps|
      invariant membership == membership0 + set s | s in stage.steps[..a]
      invariant forall s <- stage.steps[..a] :: s in names && s !in membership0
      invariant forall b: nat, c: nat :: b < c < a ==> stage.steps[b] != stage.steps[c]
    {
      var step := stage.steps[a];
      assert step in stage.steps;
      if step !in names || step in membership {
        if step in names && step !in membership0 {
          var b: nat :| b < a && stage.steps[b] == step;
          assert Position(names, stage.steps[b]) == Position(names, stage.steps[a]);
        }
        return false, membership;
      }
      assert stage.steps[..a + 1] == stage.steps[..a] + [step];
      membership := membership + {step};
      a := a + 1;
    }
    assert stage.steps[..|stage.steps|] == stage.steps;
    ok := CheckOrder(names, stage.steps);
  }

  /** The steps stand in declaration order. */
  method CheckOrder(names: seq<string>, steps: seq<string>) returns (ok: bool)
    ensures ok <==> forall a: nat, b: nat :: a < b < |steps| ==> Position(names, steps[a]) < Position(names, steps[b])
  {
    hide Position;
    var a := 1;
    while a < |steps|
      invariant 1 <= a && (a <= |steps| || steps == [])
      invariant forall b: nat, c: nat :: b < c < a && c < |steps| ==> Position(names, steps[b]) < Position(names, steps[c])
    {
      if Position(names, steps[a - 1]) >= Position(names, steps[a]) {
        return false;
      }
      a := a + 1;
    }
    ok := true;
  }

  /** The members of the first `i` stages. */
  ghost predicate Claimed(stages: seq<Stage>, i: nat, membership: set<string>) {
    && i <= |stages|
    && (forall name :: name in membership <==> exists j: nat :: j < i && Member(stages, j, name))
    && (forall j: nat, k: nat, name: string {:trigger Member(stages, j, name), Member(stages, k, name)} ::
          j < i && k < i && Member(stages, j, name) && Member(stages, k, name) ==> j == k)
  }

  lemma ClaimedNext(stages: seq<Stage>, i: nat, before: set<string>, after: set<string>)
    requires Claimed(stages, i, before) && i < |stages|
    requires forall s <- stages[i].steps :: s !in before
    requires after == before + set s | s in stages[i].steps
    ensures Claimed(stages, i + 1, after)
  {
    forall name
      ensures name in after <==> exists j: nat :: j < i + 1 && Member(stages, j, name)
    {
      if name in before {
        var j: nat :| j < i && Member(stages, j, name);
      } else if name in after {
        assert Member(stages, i, name);
      }
    }
  }

  lemma ClaimedTwice(g: Grammar, stages: seq<Stage>, i: nat, before: set<string>, names: seq<string>, s: string)
    requires Claimed(stages, i, before) && i < |stages| && s in stages[i].steps && s in before
    ensures !StagesOk(g, stages, names)
  {
    var j: nat :| j < i && Member(stages, j, s);
    assert Member(stages, i, s);
  }

  /** `_stages`: accepts exactly the ordered partitions of the execution steps. */
  method CheckStages(g: Grammar, stages: seq<Stage>, names: seq<string>) returns (ok: bool)
    ensures ok <==> StagesOk(g, stages, names)
  {
    hide Position, StageOk;
    if stages == [] {
      return false;
    }
    var seen: set<string>, membership: set<string> := {}, {};
    var i := 0;
    while i < |stages|
      invariant 0 <= i <= |stages| && Claimed(stages, i, membership)
      invariant forall j: nat :: j < i ==> StageOk(g, stages[j], names)
      invariant forall name :: name in seen <==> exists j: nat :: j < i && stages[j].name == name
      invariant forall j: nat, k: nat :: j < k < i ==> stages[j].name != stages[k].name
    {
      if stages[i].name in seen {
        return false;
      }
      seen := seen + {stages[i].name};
      ghost var before := membership;
      ok, membership := CheckStage(g, stages[i], names, membership);
      if !ok {
        if s :| s in stages[i].steps && s in before {
          ClaimedTwice(g, stages, i, before, names, s);
        }
        return false;
      }
      ClaimedNext(stages, i, before, membership);
      i := i + 1;
    }
    if exists name <- names :: name !in membership {
      var name :| name in names && name !in membership;
      assert !exists j: nat :: Member(stages, j, name);
      return false;
    }
    assert forall name <- names :: exists j: nat :: Member(stages, j, name);
    FirstSteps(g, stages, names);
    ok := CheckStarts(stages, names);
  }

  /** The stages start in the order of the steps. */
  method CheckStarts(stages: seq<Stage>, names: seq<string>) returns (ok: bool)
    requires stages != [] && forall j: nat :: j < |stages| ==> stages[j].steps != []
    ensures ok <==> forall j: nat, k: nat :: j < k < |stages| ==> Position(names, stages[j].steps[0]) < Position(names, stages[k].steps[0])
  {
    hide Position;
    var i := 1;
    while i < |stages|
      invariant 1 <= i <= |stages|
      invariant forall j: nat, k: nat :: j < k < i ==> Position(names, stages[j].steps[0]) < Position(names, stages[k].steps[0])
    {
      if Position(names, stages[i - 1].steps[0]) >= Position(names, stages[i].steps[0]) {
        return false;
      }
      i := i + 1;
    }
    ok := true;
  }

  lemma FirstSteps(g: Grammar, stages: seq<Stage>, names: seq<string>)
    requires forall j: nat :: j < |stages| ==> StageOk(g, stages[j], names)
    ensures forall j: nat :: j < |stages| ==> stages[j].steps != []
  {
  }

  // ----- Compiling -----

  /** The complete bindings of one use: what was given, and the defaults; every one of its declared type. */
  function Complete(shared: Shared, bindings: map<string, Json>): Option<map<string, Json>> {
    if !(bindings.Keys <= shared.parameters.Keys) then None
    else if exists k <- shared.parameters :: k !in bindings && shared.parameters[k].fallback.None? then None
    else
      var bound := map k | k in shared.parameters :: if k in bindings then bindings[k] else shared.parameters[k].fallback.value;
      if forall k <- shared.parameters :: Matches(bound[k], shared.parameters[k].kind) then Some(bound) else None
  }

  /** `bound` has a value for every parameter: the one given, or else the declared default; each of its declared type. */
  ghost predicate Filled(shared: Shared, given: map<string, Json>, bound: map<string, Json>) {
    && given.Keys <= shared.parameters.Keys && bound.Keys == shared.parameters.Keys
    && (forall k :: k in given ==> bound[k] == given[k])
    && (forall k :: k in bound && k !in given ==> shared.parameters[k].fallback == Some(bound[k]))
    && (forall k :: k in bound ==> Matches(bound[k], shared.parameters[k].kind))
  }

  /** No value for `k` will do: it is no parameter, or what was given, or the default where nothing was, is missing or of another type. */
  ghost predicate Unfit(shared: Shared, given: map<string, Json>, k: string) {
    if k !in shared.parameters then k in given
    else if k in given then !Matches(given[k], shared.parameters[k].kind)
    else shared.parameters[k].fallback.None? || !Matches(shared.parameters[k].fallback.value, shared.parameters[k].kind)
  }

  /** Bindings are completed by the declared defaults, which never take the place of what was given, and refused exactly if some key is unfit. */
  lemma CompleteExact(shared: Shared, given: map<string, Json>, bound: map<string, Json>)
    ensures Complete(shared, given) == Some(bound) <==> Filled(shared, given, bound)
    ensures Complete(shared, given).None? <==> exists k :: Unfit(shared, given, k)
  {
    hide Matches;
    var r := Complete(shared, given);
    if k :| Unfit(shared, given, k) {
      UnfitRefused(shared, given, k);
    } else {
      assert forall k :: !Unfit(shared, given, k);
      FitAccepted(shared, given);
      assert Filled(shared, given, r.value);
    }
    if Filled(shared, given, bound) {
      FilledIs(shared, given, bound);
    }
  }

  lemma UnfitRefused(shared: Shared, given: map<string, Json>, k: string)
    requires Unfit(shared, given, k)
    ensures Complete(shared, given).None?
  {
    hide Matches;
  }

  lemma FitAccepted(shared: Shared, given: map<string, Json>)
    requires forall k :: !Unfit(shared, given, k)
    ensures Complete(shared, given).Some? && Filled(shared, given, Complete(shared, given).value)
  {
    hide Matches;
    forall k | k in given
      ensures k in shared.parameters
    {
      assert !Unfit(shared, given, k);
    }
    forall k <- shared.parameters
      ensures if k in given then Matches(given[k], shared.parameters[k].kind)
              else shared.parameters[k].fallback.Some? && Matches(shared.parameters[k].fallback.value, shared.parameters[k].kind)
    {
      assert !Unfit(shared, given, k);
    }
  }

  lemma FilledIs(shared: Shared, given: map<string, Json>, bound: map<string, Json>)
    requires Filled(shared, given, bound)
    ensures Complete(shared, given) == Some(bound)
  {
    hide Matches;
    forall k
      ensures !Unfit(shared, given, k)
    {
    }
    FitAccepted(shared, given);
    var r := Complete(shared, given).value;
    assert forall k :: k in r ==> r[k] == bound[k];
    assert r == bound;
  }

  /** Complete bindings are complete: binding them again changes nothing. */
  lemma CompleteAgain(shared: Shared, bindings: map<string, Json>)
    requires Complete(shared, bindings).Some?
    ensures var bound := Complete(shared, bindings).value;
            bound.Keys == shared.parameters.Keys && Complete(shared, bound) == Some(bound) && Typed(Kinds(shared.parameters), bound)
  {
    var bound := Complete(shared, bindings).value;
    assert bound.Keys == shared.parameters.Keys;
    assert Complete(shared, bound).Some?;
    assert Complete(shared, bound).value == bound;
  }

  function ExpandedSteps(steps: seq<Json>, bindings: map<string, Json>): (r: seq<Json>)
    ensures |r| == |steps|
  {
    seq(|steps|, i requires 0 <= i < |steps| => Substituted(steps[i], bindings))
  }

  /** The counters of expanding several steps one after the other. */
  function ChargeSteps(steps: seq<Json>, bindings: map<string, Json>, c: Counter): Charged
    decreases |steps|
  {
    if steps == [] then Charged(c)
    else match ChargeSteps(steps[..|steps| - 1], bindings, c)
      case Charged(next) => Charge(steps[|steps| - 1], 0, Some(bindings), next)
      case failed => failed
  }

  /** What the source loop has gathered. `starts` says where each source step's execution steps begin. */
  datatype Gathered = Gathered(
    names: set<string>,
    definitions: map<string, Shared>,
    used: map<string, Shared>,
    expanded: seq<Json>,
    source: seq<SourceStep>,
    starts: seq<nat>,
    defaults: seq<Stage>,
    counter: Counter)

  function NamesOf(steps: seq<Json>): seq<string> {
    seq(|steps|, i requires 0 <= i < |steps| => NameOf(steps[i]))
  }

  /** The shared definition a use refers to: an embedded one, or outside frozen documents one of the catalog. */
  function Resolve(g: Grammar, catalog: map<string, Shared>, frozen: bool, definitions: map<string, Shared>, use: string): Option<Shared> {
    if use in definitions then Some(definitions[use])
    else if frozen || use !in catalog || !ValidShared(g, catalog[use]) then None
    else Some(catalog[use])
  }

  function AddPlain(acc: Gathered, name: string, document: Json, counter: Counter): Gathered {
    acc.(names := acc.names + {name}, expanded := acc.expanded + [document], source := acc.source + [Plain(name, document)],
         starts := acc.starts + [|acc.expanded|],
         defaults := acc.defaults + [Stage(name, name, TextOf(document, "kind"), [NameOf(document)])], counter := counter)
  }

  function AddUse(acc: Gathered, name: string, use: string, shared: Shared, bound: map<string, Json>, counter: Counter): Gathered {
    var added := ExpandedSteps(shared.steps, bound);
    acc.(names := acc.names + {name}, definitions := acc.definitions[use := shared], used := acc.used[use := shared],
         expanded := acc.expanded + added, source := acc.source + [Use(name, use, bound)], starts := acc.starts + [|acc.expanded|],
         defaults := acc.defaults + [Stage(name, shared.title, shared.description, NamesOf(added))], counter := counter)
  }

  /** One turn of the source loop. */
  function GatherStep(g: Grammar, catalog: map<string, Shared>, frozen: bool, raw: SourceStep, acc: Gathered): Option<Gathered> {
    if !g.slug(raw.name) || raw.name in acc.names || raw.name in RESERVED_NAMES then None
    else match raw
      case Plain(name, document) =>
        (match Charge(document, 0, None, acc.counter)
         case Charged(c) => if |acc.expanded| + 1 > MAX_STEPS then None else Some(AddPlain(acc, name, document, c))
         case _ => None)
      case Use(name, use, bindings) =>
        var shared := Resolve(g, catalog, frozen, acc.definitions, use);
        if shared.None? || |acc.used.Keys + {use}| > MAX_DEFINITIONS then None
        else
          var bound := Complete(shared.value, bindings);
          if bound.None? || |acc.expanded| + |shared.value.steps| > MAX_STEPS then None
          else match ChargeSteps(shared.value.steps, bound.value, acc.counter)
            case Charged(c) => Some(AddUse(acc, name, use, shared.value, bound.value, c))
            case _ => None
  }

  /** The definition a use may refer to: one at hand, or else a valid one of the catalog, unless the document is frozen. */
  ghost predicate Available(g: Grammar, catalog: map<string, Shared>, frozen: bool, definitions: map<string, Shared>, use: string, shared: Shared) {
    if use in definitions then shared == definitions[use]
    else !frozen && use in catalog && shared == catalog[use] && ValidShared(g, shared)
  }

  /** A source step to accept: named by a slug that is new and not reserved, with room and budget left for what it expands to; a use needs an available definition and values for all of its parameters. */
  ghost predicate Takes(g: Grammar, catalog: map<string, Shared>, frozen: bool, raw: SourceStep, acc: Gathered) {
    && g.slug(raw.name) && raw.name !in acc.names && raw.name != "judge"
    && match raw
       case Plain(_, document) => Charge(document, 0, None, acc.counter).Charged? && |acc.expanded| < 256
       case Use(_, use, given) =>
         && |acc.used.Keys + {use}| <= 64
         && exists shared, bound ::
              && Available(g, catalog, frozen, acc.definitions, use, shared) && Filled(shared, given, bound)
              && |acc.expanded| + |shared.steps| <= 256 && ChargeSteps(shared.steps, bound, acc.counter).Charged?
  }

  lemma ResolveExact(g: Grammar, catalog: map<string, Shared>, frozen: bool, definitions: map<string, Shared>, use: string, shared: Shared)
    ensures Resolve(g, catalog, frozen, definitions, use) == Some(shared) <==> Available(g, catalog, frozen, definitions, use, shared)
  {
    hide ValidShared;
  }

  /** Exactly such steps are accepted. */
  lemma StepTaken(g: Grammar, catalog: map<string, Shared>, frozen: bool, raw: SourceStep, acc: Gathered)
    ensures GatherStep(g, catalog, frozen, raw, acc).Some? <==> Takes(g, catalog, frozen, raw, acc)
  {
    hide Charge, ChargeSteps, Resolve, Available, Complete, Filled, AddPlain, AddUse;
    if raw.Use? {
      forall shared
        ensures Resolve(g, catalog, frozen, acc.definitions, raw.use) == Some(shared) <==> Available(g, catalog, frozen, acc.definitions, raw.use, shared)
      {
        ResolveExact(g, catalog, frozen, acc.definitions, raw.use, shared);
      }
      forall shared, bound
        ensures Complete(shared, raw.bindings) == Some(bound) <==> Filled(shared, raw.bindings, bound)
      {
        CompleteExact(shared, raw.bindings, bound);
      }
    }
  }

  function Nothing(definitions: map<string, Shared>): Gathered {
    Gathered({}, definitions, map[], [], [], [], [], Counter(0, 0))
  }

  /** The source loop up to step `k`. */
  function Gather(g: Grammar, catalog: map<string, Shared>, frozen: bool, definitions: map<string, Shared>, source: seq<SourceStep>, k: nat): Option<Gathered>
    requires k <= |source|
  {
    if k == 0 then Some(Nothing(definitions))
    else match Gather(g, catalog, frozen, definitions, source, k - 1)
      case None => None
      case Some(acc) => GatherStep(g, catalog, frozen, source[k - 1], acc)
  }

  predicate AllParse(g: Grammar, steps: seq<Json>) {
    forall i | 0 <= i < |steps| :: g.parseStep(steps[i]).Some?
  }

  function Parsed(g: Grammar, steps: seq<Json>): (r: seq<Step>)
    requires AllParse(g, steps)
    ensures |r| == |steps|
  {
    seq(|steps|, i requires 0 <= i < |steps| => g.parseStep(steps[i]).value)
  }

  function StepNames(steps: seq<Step>): seq<string> {
    seq(|steps|, i requires 0 <= i < |steps| => steps[i].name)
  }

  function Documents(g: Grammar, steps: seq<Step>): (r: seq<Json>)
    ensures |r| == |steps|
  {
    seq(|steps|, i requires 0 <= i < |steps| => g.document(steps[i]))
  }

  /** The source as it is retained: ordinary steps in their canonical form, uses with complete bindings. */
  function Normalized(g: Grammar, acc: Gathered, steps: seq<Step>): (r: seq<SourceStep>)
    requires |acc.starts| == |acc.source|
    ensures |r| == |acc.source|
  {
    seq(|acc.source|, i requires 0 <= i < |acc.source| =>
          if acc.source[i].Plain? && acc.starts[i] < |steps| then Plain(acc.source[i].name, g.document(steps[acc.starts[i]])) else acc.source[i])
  }

  ghost predicate DefinitionsOk(g: Grammar, definitions: map<string, Shared>) {
    forall name :: name in definitions ==> ValidShared(g, definitions[name]) && definitions[name].name == name
  }

  /** The document of a definition, as it is retained. */
  function Retained(g: Grammar, d: Definition): Document {
    Document(d.header, Some(Documents(g, d.steps)), d.source, d.definitions, Some(d.stages))
  }

  /** What the gathered source compiles to. */
  ghost function Assemble(g: Grammar, document: Document, acc: Gathered): Option<Definition>
    requires |acc.starts| == |acc.source|
  {
    if !AllParse(g, acc.expanded) then None
    else
      var steps := Parsed(g, acc.expanded);
      var names := StepNames(steps);
      if !DistinctNames(names) || !g.wellFormed(document.header, steps) then None
      else
        var stages := if document.stages.Some? then document.stages.value else acc.defaults;
        if !StagesOk(g, stages, names) then None
        else if document.steps.Some? && (document.definitions.Keys != acc.used.Keys || document.steps.value != Documents(g, steps)) then None
        else
          var d := Definition(document.header, steps, Normalized(g, acc, steps), acc.used, stages);
          if g.fits(Retained(g, d)) then Some(d) else None
  }

  lemma {:induction false} GatherLengths(g: Grammar, catalog: map<string, Shared>, frozen: bool, definitions: map<string, Shared>, source: seq<SourceStep>, k: nat)
    requires k <= |source| && Gather(g, catalog, frozen, definitions, source, k).Some?
    ensures var acc := Gather(g, catalog, frozen, definitions, source, k).value;
            |acc.starts| == |acc.source| == |acc.defaults| == k
  {
    if k > 0 {
      GatherLengths(g, catalog, frozen, definitions, source, k - 1);
    }
  }

  /** `composition_definition`: compiling an authored document, or verifying a retained one. */
  ghost function Compile(g: Grammar, catalog: map<string, Shared>, document: Document): Option<Definition> {
    var frozen := document.steps.Some?;
    if !g.fits(document) || (frozen && document.stages.None?) then None
    else if document.source == [] || |document.source| > MAX_STEPS || |document.definitions| > MAX_DEFINITIONS then None
    else if !DefinitionsOk(g, document.definitions) then None
    else
      var gathered := Gather(g, catalog, frozen, document.definitions, document.source, |document.source|);
      if gathered.None? then None
      else
        GatherLengths(g, catalog, frozen, document.definitions, document.source, |document.source|);
        Assemble(g, document, gathered.value)
  }

  // ----- What the source loop keeps -----

  /** Catalogued definitions stand under their own names. */
  ghost predicate NamedCatalog(catalog: map<string, Shared>) {
    forall name :: name in catalog ==> catalog[name].name == name
  }

  ghost predicate Tidy(g: Grammar, acc: Gathered) {
    && DefinitionsOk(g, acc.definitions)
    && (forall u :: u in acc.used ==> u in acc.definitions && acc.used[u] == acc.definitions[u])
    && |acc.starts| == |acc.source| == |acc.defaults| && |acc.used| <= MAX_DEFINITIONS
  }

  /** What one turn of the loop adds to what was there. */
  ghost predicate Extends(a: Gathered, b: Gathered) {
    && a.expanded <= b.expanded && a.source <= b.source && a.starts <= b.starts && a.defaults <= b.defaults
    && (forall u :: u in a.used ==> u in b.used && b.used[u] == a.used[u])
    && (forall u :: u in a.definitions ==> u in b.definitions && b.definitions[u] == a.definitions[u])
  }

  lemma PlainExtends(g: Grammar, acc: Gathered, name: string, document: Json, c: Counter)
    requires Tidy(g, acc)
    ensures var next := AddPlain(acc, name, document, c);
            Tidy(g, next) && Extends(acc, next) && next.starts == acc.starts + [|acc.expanded|] && |next.source| == |acc.source| + 1
  {
    hide NameOf, TextOf, ValidShared;
  }

  lemma UseExtends(g: Grammar, acc: Gathered, name: string, use: string, shared: Shared, bound: map<string, Json>, c: Counter)
    requires Tidy(g, acc) && ValidShared(g, shared) && shared.name == use && |acc.used.Keys + {use}| <= MAX_DEFINITIONS
    requires use in acc.definitions ==> acc.definitions[use] == shared
    ensures var next := AddUse(acc, name, use, shared, bound, c);
            Tidy(g, next) && Extends(acc, next) && next.starts == acc.starts + [|acc.expanded|] && |next.source| == |acc.source| + 1
  {
    var next := AddUse(acc, name, use, shared, bound, c);
    hide ExpandedSteps, NamesOf, ValidShared, DefinitionsOk, Extends;
    assert Extends(acc, next) by {
      hide DefinitionsOk;
      assert use in acc.used ==> acc.used[use] == shared;
      UseOnlyAdds(acc, name, use, shared, bound, c);
    }
    UseTidy(g, acc, name, use, shared, bound, c);
  }

  lemma UseTidy(g: Grammar, acc: Gathered, name: string, use: string, shared: Shared, bound: map<string, Json>, c: Counter)
    requires Tidy(g, acc) && ValidShared(g, shared) && shared.name == use && |acc.used.Keys + {use}| <= MAX_DEFINITIONS
    requires use in acc.definitions ==> acc.definitions[use] == shared
    ensures var next := AddUse(acc, name, use, shared, bound, c);
            Tidy(g, next) && next.starts == acc.starts + [|acc.expanded|] && |next.source| == |acc.source| + 1
  {
    hide ExpandedSteps, NamesOf, ValidShared;
    UseCounts(acc.used, use, shared);
    UseFollows(acc.used, acc.definitions, use, shared);
    UseValid(g, acc.definitions, use, shared);
    hide DefinitionsOk;
  }

  lemma UseFollows(used: map<string, Shared>, definitions: map<string, Shared>, use: string, shared: Shared)
    requires forall u :: u in used ==> u in definitions && used[u] == definitions[u]
    ensures var more, all := used[use := shared], definitions[use := shared];
            forall u :: u in more ==> u in all && more[u] == all[u]
  {
  }

  lemma UseValid(g: Grammar, definitions: map<string, Shared>, use: string, shared: Shared)
    requires DefinitionsOk(g, definitions) && ValidShared(g, shared) && shared.name == use
    ensures DefinitionsOk(g, definitions[use := shared])
  {
    hide ValidShared;
  }

  lemma UseOnlyAdds(acc: Gathered, name: string, use: string, shared: Shared, bound: map<string, Json>, c: Counter)
    requires use in acc.used ==> acc.used[use] == shared
    requires use in acc.definitions ==> acc.definitions[use] == shared
    ensures Extends(acc, AddUse(acc, name, use, shared, bound, c))
  {
    hide ExpandedSteps, NamesOf;
  }

  lemma UseCounts(used: map<string, Shared>, use: string, shared: Shared)
    ensures |used[use := shared]| == |used.Keys + {use}|
  {
    assert used[use := shared].Keys == used.Keys + {use};
    assert |used[use := shared]| == |used[use := shared].Keys|;
  }

  lemma StepExtends(g: Grammar, catalog: map<string, Shared>, frozen: bool, raw: SourceStep, acc: Gathered)
    requires NamedCatalog(catalog) && Tidy(g, acc) && GatherStep(g, catalog, frozen, raw, acc).Some?
    ensures var next := GatherStep(g, catalog, frozen, raw, acc).value;
            && Tidy(g, next) && Extends(acc, next)
            && next.starts == acc.starts + [|acc.expanded|] && |next.source| == |acc.source| + 1
  {
    hide Charge, ChargeSteps, ValidShared, Complete, AddPlain, AddUse, Extends;
    if raw.Plain? {
      PlainExtends(g, acc, raw.name, raw.document, Charge(raw.document, 0, None, acc.counter).counter);
    } else {
      var shared := Resolve(g, catalog, frozen, acc.definitions, raw.use).value;
      var bound := Complete(shared, raw.bindings).value;
      UseExtends(g, acc, raw.name, raw.use, shared, bound, ChargeSteps(shared.steps, bound, acc.counter).counter);
    }
  }

  lemma {:induction false} GatherTidy(g: Grammar, catalog: map<string, Shared>, frozen: bool, definitions: map<string, Shared>, source: seq<SourceStep>, k: nat)
    requires k <= |source| && NamedCatalog(catalog) && DefinitionsOk(g, definitions)
    requires Gather(g, catalog, frozen, definitions, source, k).Some?
    ensures Tidy(g, Gather(g, catalog, frozen, definitions, source, k).value)
  {
    hide GatherStep, DefinitionsOk;
    if k > 0 {
      GatherTidy(g, catalog, frozen, definitions, source, k - 1);
      StepExtends(g, catalog, frozen, source[k - 1], Gather(g, catalog, frozen, definitions, source, k - 1).value);
    }
  }

  lemma {:induction false} GatherExtends(g: Grammar, catalog: map<string, Shared>, frozen: bool, definitions: map<string, Shared>, source: seq<SourceStep>, k: nat, n: nat)
    requires k <= n <= |source| && NamedCatalog(catalog) && DefinitionsOk(g, definitions)
    requires Gather(g, catalog, frozen, definitions, source, n).Some?
    ensures Gather(g, catalog, frozen, definitions, source, k).Some?
    ensures Extends(Gather(g, catalog, frozen, definitions, source, k).value, Gather(g, catalog, frozen, definitions, source, n).value)
    decreases n
  {
    hide GatherStep, DefinitionsOk, Tidy;
    if k < n {
      GatherExtends(g, catalog, frozen, definitions, source, k, n - 1);
      GatherTidy(g, catalog, frozen, definitions, source, n - 1);
      StepExtends(g, catalog, frozen, source[n - 1], Gather(g, catalog, frozen, definitions, source, n - 1).value);
    }
  }

  // ----- Frozen snapshots alone -----

  /** Both lists parse to the same steps. */
  ghost predicate SameSteps(g: Grammar, a: seq<Json>, b: seq<Json>) {
    |a| == |b| && forall i :: 0 <= i < |a| ==> g.parseStep(a[i]) == g.parseStep(b[i])
  }

  /** What verifying the first `k` retained source steps has gathered, when compiling them first had gathered `first`. */
  ghost predicate Follows(g: Grammar, first: Gathered, again: Gathered, d: Definition, k: nat) {
    && k <= |d.source|
    && again.names == first.names && again.used == first.used && again.definitions == d.definitions
    && SameSteps(g, first.expanded, again.expanded) && again.starts == first.starts && again.source == d.source[..k]
  }

  /** The counters of expanding the first `k` retained source steps. */
  function ChargeSource(source: seq<SourceStep>, definitions: map<string, Shared>, k: nat): Charged
    requires k <= |source|
  {
    if k == 0 then Charged(Counter(0, 0))
    else match ChargeSource(source, definitions, k - 1)
      case Charged(c) => ChargeOne(source[k - 1], definitions, c)
      case failed => failed
  }

  function ChargeOne(step: SourceStep, definitions: map<string, Shared>, c: Counter): Charged {
    match step
    case Plain(_, document) => Charge(document, 0, None, c)
    case Use(_, use, bindings) => if use in definitions then ChargeSteps(definitions[use].steps, bindings, c) else Unbound
  }

  /** One turn over a retained ordinary step follows the turn over the authored one. */
  lemma PlainAgain(g: Grammar, catalog: map<string, Shared>, frozen: bool, raw: SourceStep, retained: SourceStep,
                   first: Gathered, again: Gathered, d: Definition, k: nat)
    requires Normalises(g) && Follows(g, first, again, d, k) && k < |d.source| && d.source[k] == retained
    requires raw.Plain? && GatherStep(g, catalog, frozen, raw, first).Some?
    requires g.parseStep(raw.document).Some? && retained == Plain(raw.name, g.document(g.parseStep(raw.document).value))
    ensures match Charge(retained.document, 0, None, again.counter)
            case Charged(c) =>
              var next := GatherStep(g, map[], true, retained, again);
              next.Some? && next.value.counter == c && Follows(g, GatherStep(g, catalog, frozen, raw, first).value, next.value, d, k + 1)
            case _ => GatherStep(g, map[], true, retained, again).None?
  {
    hide Charge, ChargeSteps, ValidShared, Complete, ExpandedSteps, NamesOf, NameOf, TextOf;
    assert d.source[..k + 1] == d.source[..k] + [retained];
  }

  lemma UseAgain(g: Grammar, catalog: map<string, Shared>, frozen: bool, raw: SourceStep, retained: SourceStep,
                 first: Gathered, again: Gathered, d: Definition, k: nat)
    requires Follows(g, first, again, d, k) && k < |d.source| && d.source[k] == retained
    requires raw.Use? && GatherStep(g, catalog, frozen, raw, first).Some?
    requires var next := GatherStep(g, catalog, frozen, raw, first).value;
             retained == next.source[|next.source| - 1] && raw.use in d.definitions && next.used[raw.use] == d.definitions[raw.use]
    ensures match ChargeSteps(d.definitions[raw.use].steps, retained.bindings, again.counter)
            case Charged(c) =>
              var next := GatherStep(g, map[], true, retained, again);
              next.Some? && next.value.counter == c && Follows(g, GatherStep(g, catalog, frozen, raw, first).value, next.value, d, k + 1)
            case _ => GatherStep(g, map[], true, retained, again).None?
  {
    hide Charge, ChargeSteps, ValidShared, Complete, NamesOf, Kinds, SameSteps, ExpandedSteps;
    var shared := Resolve(g, catalog, frozen, first.definitions, raw.use).value;
    var bound := Complete(shared, raw.bindings).value;
    CompleteAgain(shared, raw.bindings);
    SameLength(g, first.expanded, again.expanded);
    assert retained == Use(raw.name, raw.use, bound) && d.definitions[raw.use] == shared;
    forall c1: Counter, c2: Counter
      ensures Follows(g, AddUse(first, raw.name, raw.use, shared, bound, c1), AddUse(again, raw.name, raw.use, shared, bound, c2), d, k + 1)
    {
      FollowsUse(g, first, again, d, k, raw.name, raw.use, shared, bound, c1, c2);
    }
    hide Follows, AddUse;
  }

  lemma SameLength(g: Grammar, a: seq<Json>, b: seq<Json>)
    requires SameSteps(g, a, b)
    ensures |a| == |b|
  {
  }

  lemma FollowsUse(g: Grammar, first: Gathered, again: Gathered, d: Definition, k: nat,
                   name: string, use: string, shared: Shared, bound: map<string, Json>, c1: Counter, c2: Counter)
    requires Follows(g, first, again, d, k) && k < |d.source| && d.source[k] == Use(name, use, bound)
    requires use in d.definitions && d.definitions[use] == shared
    ensures Follows(g, AddUse(first, name, use, shared, bound, c1), AddUse(again, name, use, shared, bound, c2), d, k + 1)
  {
    hide NamesOf, ExpandedSteps;
    assert d.source[..k + 1] == d.source[..k] + [Use(name, use, bound)];
    assert again.definitions[use := shared] == again.definitions;
  }

  /** What compiling `document` gathers up to step `k`. */
  function FirstPass(g: Grammar, catalog: map<string, Shared>, document: Document, k: nat): Option<Gathered>
    requires k <= |document.source|
  {
    Gather(g, catalog, document.steps.Some?, document.definitions, document.source, k)
  }

  /** What an accepted document was compiled from. */
  lemma CompiledFrom(g: Grammar, catalog: map<string, Shared>, document: Document, d: Definition)
    requires Compile(g, catalog, document) == Some(d)
    ensures DefinitionsOk(g, document.definitions) && FirstPass(g, catalog, document, |document.source|).Some?
    ensures var last := FirstPass(g, catalog, document, |document.source|).value;
            && |last.starts| == |last.source| == |document.source| && AllParse(g, last.expanded)
            && d.steps == Parsed(g, last.expanded) && d.source == Normalized(g, last, d.steps) && d.definitions == last.used
            && d.stages == (if document.stages.Some? then document.stages.value else last.defaults) && |last.defaults| == |document.source|
            && d.header == document.header && DistinctNames(StepNames(d.steps)) && g.wellFormed(d.header, d.steps)
            && StagesOk(g, d.stages, StepNames(d.steps)) && g.fits(Retained(g, d))
  {
    GatherLengths(g, catalog, document.steps.Some?, document.definitions, document.source, |document.source|);
    hide Gather, Normalized, DistinctNames, StagesOk, DefinitionsOk, AllParse, Parsed;
  }

  /** One step of the passes that led to an accepted document. */
  lemma PassNext(g: Grammar, catalog: map<string, Shared>, document: Document, k: nat)
    requires NamedCatalog(catalog) && DefinitionsOk(g, document.definitions)
    requires k < |document.source| && FirstPass(g, catalog, document, |document.source|).Some?
    ensures FirstPass(g, catalog, document, k).Some? && FirstPass(g, catalog, document, k + 1).Some?
    ensures var acc, next, last := FirstPass(g, catalog, document, k).value, FirstPass(g, catalog, document, k + 1).value,
                                   FirstPass(g, catalog, document, |document.source|).value;
            && GatherStep(g, catalog, document.steps.Some?, document.source[k], acc) == Some(next)
            && Extends(next, last) && |acc.source| == |acc.starts| == |acc.defaults| == k
  {
    hide GatherStep, Extends;
    var n, frozen := |document.source|, document.steps.Some?;
    GatherExtends(g, catalog, frozen, document.definitions, document.source, k, n);
    GatherExtends(g, catalog, frozen, document.definitions, document.source, k + 1, n);
    GatherLengths(g, catalog, frozen, document.definitions, document.source, k);
  }

  /** Where the retained source steps come from. */
  lemma RetainedStep(g: Grammar, catalog: map<string, Shared>, document: Document, d: Definition, k: nat)
    requires NamedCatalog(catalog) && Compile(g, catalog, document) == Some(d) && k < |document.source|
    ensures |d.source| == |document.source| && FirstPass(g, catalog, document, k).Some? && FirstPass(g, catalog, document, k + 1).Some?
    ensures FirstPass(g, catalog, document, k + 1) == GatherStep(g, catalog, document.steps.Some?, document.source[k], FirstPass(g, catalog, document, k).value)
    ensures var raw, next := document.source[k], FirstPass(g, catalog, document, k + 1).value;
            match raw
            case Plain(name, text) => g.parseStep(text).Some? && d.source[k] == Plain(name, g.document(g.parseStep(text).value))
            case Use(_, use, _) =>
              d.source[k] == next.source[|next.source| - 1] && d.source[k].Use? && d.source[k].use == use
              && use in d.definitions && use in next.used && next.used[use] == d.definitions[use]
  {
    hide *;
    CompiledFrom(g, catalog, document, d);
    PassNext(g, catalog, document, k);
    RetainedFrom(g, catalog, document.steps.Some?, document.source[k], FirstPass(g, catalog, document, k).value,
                 FirstPass(g, catalog, document, k + 1).value, FirstPass(g, catalog, document, |document.source|).value, d, k);
  }

  lemma RetainedFrom(g: Grammar, catalog: map<string, Shared>, frozen: bool, raw: SourceStep, acc: Gathered, next: Gathered, last: Gathered, d: Definition, k: nat)
    requires GatherStep(g, catalog, frozen, raw, acc) == Some(next) && Extends(next, last) && |acc.source| == |acc.starts| == k
    requires |last.starts| == |last.source| && AllParse(g, last.expanded)
    requires d.source == Normalized(g, last, Parsed(g, last.expanded)) && d.definitions == last.used
    ensures k < |d.source|
    ensures match raw
            case Plain(name, text) => g.parseStep(text).Some? && d.source[k] == Plain(name, g.document(g.parseStep(text).value))
            case Use(_, use, _) =>
              d.source[k] == next.source[|next.source| - 1] && d.source[k].Use? && d.source[k].use == use
              && use in d.definitions && use in next.used && next.used[use] == d.definitions[use]
  {
    hide Charge, ChargeSteps, ValidShared, Complete, ExpandedSteps, NamesOf, NameOf, TextOf;
    assert next.source[k] == last.source[k] && next.starts[k] == last.starts[k];
    if raw.Plain? {
      assert next.expanded[|acc.expanded|] == last.expanded[|acc.expanded|] == raw.document;
    }
  }

  /** A definition as it stands in the document, or else in the catalog, which a frozen document may not use. */
  ghost predicate FromSources(catalog: map<string, Shared>, document: Document, use: string, shared: Shared) {
    if use in document.definitions then shared == document.definitions[use]
    else document.steps.None? && use in catalog && shared == catalog[use]
  }

  ghost predicate AllFromSources(catalog: map<string, Shared>, document: Document, definitions: map<string, Shared>) {
    && (forall use :: use in document.definitions ==> use in definitions)
    && forall use :: use in definitions ==> FromSources(catalog, document, use, definitions[use])
  }

  lemma StepFromSources(g: Grammar, catalog: map<string, Shared>, document: Document, raw: SourceStep, acc: Gathered)
    requires AllFromSources(catalog, document, acc.definitions) && GatherStep(g, catalog, document.steps.Some?, raw, acc).Some?
    ensures AllFromSources(catalog, document, GatherStep(g, catalog, document.steps.Some?, raw, acc).value.definitions)
  {
    hide Charge, ChargeSteps, ValidShared, Complete, ExpandedSteps, NamesOf, NameOf, TextOf;
  }

  lemma {:induction false} GatheredFromSources(g: Grammar, catalog: map<string, Shared>, document: Document, k: nat)
    requires k <= |document.source| && FirstPass(g, catalog, document, k).Some?
    ensures AllFromSources(catalog, document, FirstPass(g, catalog, document, k).value.definitions)
  {
    hide GatherStep, AllFromSources;
    if k > 0 {
      GatheredFromSources(g, catalog, document, k - 1);
      StepFromSources(g, catalog, document, document.source[k - 1], FirstPass(g, catalog, document, k - 1).value);
    } else {
      AsGiven(catalog, document);
    }
  }

  lemma AsGiven(catalog: map<string, Shared>, document: Document)
    ensures AllFromSources(catalog, document, document.definitions)
  {
  }

  /** What becomes of an authored source step: an ordinary step is written canonically, a use keeps the author's bindings and gains the defaults of what was left out. */
  ghost predicate Kept(g: Grammar, catalog: map<string, Shared>, document: Document, d: Definition, k: nat) {
    && k < |document.source| && k < |d.source|
    && match document.source[k]
       case Plain(name, text) => g.parseStep(text).Some? && d.source[k] == Plain(name, g.document(g.parseStep(text).value))
       case Use(name, use, given) =>
         && d.source[k].Use? && d.source[k].name == name && d.source[k].use == use && use in d.definitions
         && FromSources(catalog, document, use, d.definitions[use]) && Sound(d.definitions[use]) && Filled(d.definitions[use], given, d.source[k].bindings)
  }

  lemma SourceKept(g: Grammar, catalog: map<string, Shared>, document: Document, d: Definition, k: nat)
    requires NamedCatalog(catalog) && Compile(g, catalog, document) == Some(d) && k < |document.source|
    ensures Kept(g, catalog, document, d, k)
  {
    hide Compile, GatherStep, NamedCatalog, Complete, Filled, Sound, ExpandedSteps, FirstPass, Normalises;
    RetainedStep(g, catalog, document, d, k);
    if document.source[k].Use? {
      var raw, use := document.source[k], document.source[k].use;
      StepAdds(g, catalog, document.steps.Some?, raw, FirstPass(g, catalog, document, k).value);
      CompleteExact(d.definitions[use], raw.bindings, Complete(d.definitions[use], raw.bindings).value);
      UsedFromSources(g, catalog, document, d, use);
      UsedIsSound(g, catalog, document, d, use);
    }
  }

  /** The stages are the document's own, or else one for each source step, named and described by it, or by its shared definition. */
  ghost predicate Staged(document: Document, d: Definition, k: nat) {
    && k < |document.source| && k < |d.source|
    && if document.stages.Some? then d.stages == document.stages.value
       else
         && |d.stages| == |document.source|
         && match document.source[k]
            case Plain(name, text) => d.stages[k] == Stage(name, name, TextOf(text, "kind"), [NameOf(text)])
            case Use(name, use, _) =>
              && d.source[k].Use? && use in d.definitions
              && var shared := d.definitions[use];
                 d.stages[k] == Stage(name, shared.title, shared.description, NamesOf(ExpandedSteps(shared.steps, d.source[k].bindings)))
  }

  lemma SourceStaged(g: Grammar, catalog: map<string, Shared>, document: Document, d: Definition, k: nat)
    requires NamedCatalog(catalog) && Compile(g, catalog, document) == Some(d) && k < |document.source|
    ensures Staged(document, d, k)
  {
    RetainedStep(g, catalog, document, d, k);
    CompiledFrom(g, catalog, document, d);
    PassNext(g, catalog, document, k);
    hide Compile, GatherStep, NamedCatalog, Complete, ExpandedSteps, FirstPass, NamesOf, TextOf, NameOf, StagesOk, DistinctNames, AllParse, Parsed, Normalized, DefinitionsOk;
    var raw, acc, next := document.source[k], FirstPass(g, catalog, document, k).value, FirstPass(g, catalog, document, k + 1).value;
    StepStaged(g, catalog, document.steps.Some?, raw, acc);
    StepAdds(g, catalog, document.steps.Some?, raw, acc);
    var last := FirstPass(g, catalog, document, |document.source|).value;
    assert last.defaults[k] == next.defaults[k];
  }

  lemma StepStaged(g: Grammar, catalog: map<string, Shared>, frozen: bool, raw: SourceStep, acc: Gathered)
    requires GatherStep(g, catalog, frozen, raw, acc).Some?
    ensures var next := GatherStep(g, catalog, frozen, raw, acc).value;
            match raw
            case Plain(name, document) => next.defaults == acc.defaults + [Stage(name, name, TextOf(document, "kind"), [NameOf(document)])]
            case Use(name, use, given) =>
              && use in next.used
              && var shared := next.used[use];
                 Complete(shared, given).Some? && next.defaults ==
                   acc.defaults + [Stage(name, shared.title, shared.description, NamesOf(ExpandedSteps(shared.steps, Complete(shared, given).value)))]
  {
    hide Charge, ChargeSteps, ValidShared, Complete, NamesOf, NameOf, TextOf, ExpandedSteps;
  }

  lemma UsedIsSound(g: Grammar, catalog: map<string, Shared>, document: Document, d: Definition, use: string)
    requires NamedCatalog(catalog) && Compile(g, catalog, document) == Some(d) && use in d.definitions
    ensures Sound(d.definitions[use])
  {
    FrozenDefinitions(g, catalog, document, d);
    hide Compile, ValidShared, Sound, NamedCatalog;
    SharedExact(g, d.definitions[use]);
  }

  lemma UsedFromSources(g: Grammar, catalog: map<string, Shared>, document: Document, d: Definition, use: string)
    requires NamedCatalog(catalog) && Compile(g, catalog, document) == Some(d) && use in d.definitions
    ensures FromSources(catalog, document, use, d.definitions[use])
  {
    CompiledFrom(g, catalog, document, d);
    GatheredFromSources(g, catalog, document, |document.source|);
    GatherTidy(g, catalog, document.steps.Some?, document.definitions, document.source, |document.source|);
    hide Compile, Gather, DefinitionsOk, FromSources;
  }

  /** What verifying the retained document gathers up to step `k`. */
  function SecondPass(g: Grammar, d: Definition, k: nat): Option<Gathered>
    requires k <= |d.source|
  {
    Gather(g, map[], true, d.definitions, d.source, k)
  }

  function SecondStep(g: Grammar, raw: SourceStep, acc: Gathered): Option<Gathered> {
    GatherStep(g, map[], true, raw, acc)
  }

  lemma SecondPassNext(g: Grammar, d: Definition, k: nat)
    requires k < |d.source|
    ensures SecondPass(g, d, k + 1) == match SecondPass(g, d, k)
                                       case None => None
                                       case Some(acc) => SecondStep(g, d.source[k], acc)
  {
    hide GatherStep;
  }

  /** The situation of the theorem: `d` was compiled from `document`. */
  ghost predicate CompiledTo(g: Grammar, catalog: map<string, Shared>, document: Document, d: Definition) {
    Normalises(g) && NamedCatalog(catalog) && Compile(g, catalog, document) == Some(d) && |document.source| == |d.source|
  }

  /** One retained source step, verified after the ones before it. */
  lemma StepAgain(g: Grammar, catalog: map<string, Shared>, document: Document, d: Definition, k: nat, again: Gathered)
    requires CompiledTo(g, catalog, document, d) && k < |document.source| == |d.source|
    requires FirstPass(g, catalog, document, k).Some? && Follows(g, FirstPass(g, catalog, document, k).value, again, d, k)
    ensures FirstPass(g, catalog, document, k + 1).Some?
    ensures match ChargeOne(d.source[k], d.definitions, again.counter)
            case Charged(c) =>
              var next := SecondStep(g, d.source[k], again);
              next.Some? && next.value.counter == c && Follows(g, FirstPass(g, catalog, document, k + 1).value, next.value, d, k + 1)
            case _ => SecondStep(g, d.source[k], again).None?
  {
    RetainedStep(g, catalog, document, d, k);
    hide GatherStep, Compile, Charge, ChargeSteps, Follows, Normalises, FirstPass, NamedCatalog;
    var raw, first := document.source[k], FirstPass(g, catalog, document, k).value;
    if raw.Plain? {
      PlainAgain(g, catalog, document.steps.Some?, raw, d.source[k], first, again, d, k);
    } else {
      UseAgain(g, catalog, document.steps.Some?, raw, d.source[k], first, again, d, k);
    }
  }

  /** Both passes have gathered the same up to step `k`, or verifying has stopped where the expansion budget ran out. */
  ghost predicate InStep(g: Grammar, catalog: map<string, Shared>, document: Document, d: Definition, k: nat)
    requires k <= |document.source| && k <= |d.source|
  {
    && FirstPass(g, catalog, document, k).Some?
    && match ChargeSource(d.source, d.definitions, k)
       case Charged(c) =>
         var again := SecondPass(g, d, k);
         again.Some? && again.value.counter == c && Follows(g, FirstPass(g, catalog, document, k).value, again.value, d, k)
       case _ => SecondPass(g, d, k).None?
  }

  lemma ChargeSourceNext(source: seq<SourceStep>, definitions: map<string, Shared>, k: nat)
    requires k < |source|
    ensures ChargeSource(source, definitions, k + 1) == match ChargeSource(source, definitions, k)
                                                         case Charged(c) => ChargeOne(source[k], definitions, c)
                                                         case failed => failed
  {
    hide ChargeOne;
  }

  lemma InStepNext(g: Grammar, catalog: map<string, Shared>, document: Document, d: Definition, k: nat)
    requires CompiledTo(g, catalog, document, d) && k < |document.source| == |d.source| && InStep(g, catalog, document, d, k)
    ensures InStep(g, catalog, document, d, k + 1)
  {
    hide SecondStep, SecondPass, CompiledTo, ChargeOne, ChargeSource, Follows, FirstPass;
    SecondPassNext(g, d, k);
    ChargeSourceNext(d.source, d.definitions, k);
    NextPass(g, catalog, document, d, k);
    var again := SecondPass(g, d, k);
    if again.Some? {
      StepAgain(g, catalog, document, d, k, again.value);
    }
  }

  lemma InStepStart(g: Grammar, catalog: map<string, Shared>, document: Document, d: Definition)
    ensures InStep(g, catalog, document, d, 0)
  {
    hide GatherStep, ChargeOne, SameSteps;
    assert d.source[..0] == [];
    assert FirstPass(g, catalog, document, 0) == Some(Nothing(document.definitions));
    assert SecondPass(g, d, 0) == Some(Nothing(d.definitions));
    NoSteps(g);
    assert Follows(g, Nothing(document.definitions), Nothing(d.definitions), d, 0);
  }

  lemma NoSteps(g: Grammar)
    ensures SameSteps(g, [], [])
  {
  }

  /** Verifying the retained source gathers what compiling gathered, as far as the expansion stays within its bounds. */
  lemma {:induction false} GatherAgain(g: Grammar, catalog: map<string, Shared>, document: Document, d: Definition, k: nat)
    requires CompiledTo(g, catalog, document, d) && k <= |document.source| == |d.source|
    ensures InStep(g, catalog, document, d, k)
  {
    hide InStep, CompiledTo;
    if k == 0 {
      InStepStart(g, catalog, document, d);
    } else {
      GatherAgain(g, catalog, document, d, k - 1);
      InStepNext(g, catalog, document, d, k - 1);
    }
  }

  lemma NextPass(g: Grammar, catalog: map<string, Shared>, document: Document, d: Definition, k: nat)
    requires CompiledTo(g, catalog, document, d) && k < |document.source|
    ensures FirstPass(g, catalog, document, k + 1).Some?
  {
    RetainedStep(g, catalog, document, d, k);
  }

  /** The source of a definition has a step for each step of the document. */
  lemma SourceLength(g: Grammar, catalog: map<string, Shared>, document: Document, d: Definition)
    requires Compile(g, catalog, document) == Some(d)
    ensures |d.source| == |document.source|
  {
    CompiledFrom(g, catalog, document, d);
    hide Compile, FirstPass;
  }

  /** Verifying a retained document succeeds, with the same result, as far as the expansion stays within its budget. */
  lemma FrozenWithinBudget(g: Grammar, catalog: map<string, Shared>, document: Document, d: Definition)
    requires Normalises(g) && NamedCatalog(catalog) && Compile(g, catalog, document) == Some(d)
    ensures Compile(g, map[], Retained(g, d)) == if ChargeSource(d.source, d.definitions, |d.source|).Charged? then Some(d) else None
  {
    hide Compile, Gather, GatherStep, Normalized, DistinctNames, StagesOk, AllParse, Parsed, ChargeSource, Follows, Assemble, Normalises, NamedCatalog;
    var n := |document.source|;
    SourceLength(g, catalog, document, d);
    GatherAgain(g, catalog, document, d, n);
    CompiledFrom(g, catalog, document, d);
    FrozenDefinitions(g, catalog, document, d);
    DocumentBounds(g, catalog, document, d);
    var again := SecondPass(g, d, n);
    if again.Some? {
      GatherLengths(g, map[], true, d.definitions, d.source, n);
      AssembledAgain(g, FirstPass(g, catalog, document, n).value, again.value, d);
    }
    CompileAgain(g, d);
  }

  /** Verifying a retained document within its bounds is gathering and assembling it. */
  lemma CompileAgain(g: Grammar, d: Definition)
    requires g.fits(Retained(g, d)) && 0 < |d.source| <= MAX_STEPS && |d.definitions| <= MAX_DEFINITIONS && DefinitionsOk(g, d.definitions)
    ensures var again := SecondPass(g, d, |d.source|);
            && (again.None? ==> Compile(g, map[], Retained(g, d)) == None)
            && (again.Some? ==> |again.value.starts| == |again.value.source|
                                && Compile(g, map[], Retained(g, d)) == Assemble(g, Retained(g, d), again.value))
  {
    hide Gather, Assemble, DefinitionsOk;
    if SecondPass(g, d, |d.source|).Some? {
      GatherLengths(g, map[], true, d.definitions, d.source, |d.source|);
    }
  }

  // ----- The budget of the second expansion -----

  function NodesOf(steps: seq<Json>): nat {
    if steps == [] then 0 else NodesOf(steps[..|steps| - 1]) + Nodes(steps[|steps| - 1])
  }

  function BytesOf(steps: seq<Json>): nat {
    if steps == [] then 0 else BytesOf(steps[..|steps| - 1]) + Bytes(steps[|steps| - 1])
  }

  /** Bytes the steps of a document take at least in its JSON text, each with a separator. */
  function TextOfSteps(steps: seq<Json>): nat {
    if steps == [] then 0 else TextOfSteps(steps[..|steps| - 1]) + TextBytes(steps[|steps| - 1]) + 1
  }

  /** What fitting says of the steps a document lists: their nodes and their text are within the bounds of the whole document, and they stand two levels below its root. */
  ghost predicate FitsMeans(g: Grammar) {
    forall document: Document :: g.fits(document) && document.steps.Some? ==>
      && NodesOf(document.steps.value) <= MAX_NODES && TextOfSteps(document.steps.value) <= MAX_DOCUMENT_BYTES
      && forall step <- document.steps.value :: Depth(step) + 2 <= MAX_DEPTH
  }

  /** `b` has at least the nodes, bytes and levels of `a`. */
  predicate NoLarger(a: Json, b: Json) {
    Nodes(a) <= Nodes(b) && Bytes(a) <= Bytes(b) && Depth(a) <= Depth(b)
  }

  /** Writing a step makes every default explicit and drops nothing that was read. */
  ghost predicate KeepsAll(g: Grammar) {
    forall x: Json :: g.parseStep(x).Some? ==> NoLarger(x, g.document(g.parseStep(x).value))
  }

  lemma {:induction false} TextCoversSteps(steps: seq<Json>)
    ensures BytesOf(steps) <= TextOfSteps(steps)
  {
    if steps != [] {
      TextCoversSteps(steps[..|steps| - 1]);
      TextCovers(steps[|steps| - 1]);
    }
  }

  lemma {:induction false} SumsOfPrefix(a: seq<Json>, b: seq<Json>)
    ensures NodesOf(a + b) == NodesOf(a) + NodesOf(b) && BytesOf(a + b) == BytesOf(a) + BytesOf(b)
    decreases |b|
  {
    if b == [] {
      assert a + b == a;
    } else {
      assert (a + b)[..|a + b| - 1] == a + b[..|b| - 1];
      SumsOfPrefix(a, b[..|b| - 1]);
    }
  }

  lemma {:induction false} SmallerSums(a: seq<Json>, b: seq<Json>)
    requires |a| == |b| && forall i :: 0 <= i < |a| ==> NoLarger(a[i], b[i])
    ensures NodesOf(a) <= NodesOf(b) && BytesOf(a) <= BytesOf(b)
  {
    if a != [] {
      SmallerSums(a[..|a| - 1], b[..|b| - 1]);
    }
  }

  /** The steps the first `k` retained source steps expand to. */
  function ReExpanded(source: seq<SourceStep>, definitions: map<string, Shared>, k: nat): seq<Json>
    requires k <= |source|
  {
    if k == 0 then [] else ReExpanded(source, definitions, k - 1) + OneReExpanded(source[k - 1], definitions)
  }

  function OneReExpanded(step: SourceStep, definitions: map<string, Shared>): seq<Json> {
    match step
    case Plain(_, document) => [document]
    case Use(_, use, bindings) => if use in definitions then ExpandedSteps(definitions[use].steps, bindings) else []
  }

  ghost predicate WithinLimits(steps: seq<Json>) {
    NodesOf(steps) <= MAX_NODES && BytesOf(steps) <= MAX_DOCUMENT_BYTES && forall step <- steps :: Depth(step) <= MAX_DEPTH
  }

  /** A use that has complete arguments of the declared types. */
  ghost predicate Answered(g: Grammar, step: SourceStep, definitions: map<string, Shared>) {
    step.Use? ==> step.use in definitions && ValidShared(g, definitions[step.use]) && Typed(Kinds(definitions[step.use].parameters), step.bindings)
  }

  lemma {:induction false} StepsCharged(g: Grammar, shared: Shared, steps: seq<Json>, bound: map<string, Json>, before: seq<Json>)
    requires Typed(Kinds(shared.parameters), bound) && forall step <- steps :: OrdinaryTemplate(step, Kinds(shared.parameters))
    requires WithinLimits(before + ExpandedSteps(steps, bound))
    ensures var all := before + ExpandedSteps(steps, bound);
            ChargeSteps(steps, bound, Counter(NodesOf(before), BytesOf(before))) == Charged(Counter(NodesOf(all), BytesOf(all)))
    decreases |steps|
  {
    hide Typed, OrdinaryTemplate, Charge, Substituted, Nodes, Bytes, Depth;
    var c := Counter(NodesOf(before), BytesOf(before));
    if steps == [] {
      assert before + ExpandedSteps(steps, bound) == before;
    } else {
      var front, last := steps[..|steps| - 1], steps[|steps| - 1];
      var upTo := before + ExpandedSteps(front, bound);
      var all := before + ExpandedSteps(steps, bound);
      assert all == upTo + [Substituted(last, bound)] && all[..|all| - 1] == upTo;
      assert last in steps && forall step <- front :: step in steps;
      assert Substituted(last, bound) in all && forall step <- upTo :: step in all;
      StepsCharged(g, shared, front, bound, before);
      StepsNeverUnbound(g, shared, steps, bound, c);
      ChargeExact(last, 0, Some(bound), Counter(NodesOf(upTo), BytesOf(upTo)));
    }
  }

  lemma OneCharged(g: Grammar, step: SourceStep, definitions: map<string, Shared>, before: seq<Json>)
    requires Answered(g, step, definitions) && WithinLimits(before + OneReExpanded(step, definitions))
    ensures var all := before + OneReExpanded(step, definitions);
            ChargeOne(step, definitions, Counter(NodesOf(before), BytesOf(before))) == Charged(Counter(NodesOf(all), BytesOf(all)))
  {
    hide Typed, OrdinaryTemplate, Charge, Substituted, Nodes, Bytes, Depth, ChargeSteps;
    match step
    case Plain(_, document) =>
      var all := before + [document];
      assert all[..|all| - 1] == before && document in all;
      ChargeExact(document, 0, None, Counter(NodesOf(before), BytesOf(before)));
      NeverUnbound(document, 0, None, Counter(NodesOf(before), BytesOf(before)), map[], false);
    case Use(_, use, bindings) =>
      TemplatesOf(g, definitions[use]);
      StepsCharged(g, definitions[use], definitions[use].steps, bindings, before);
  }

  lemma {:induction false} SourceCharged(g: Grammar, source: seq<SourceStep>, definitions: map<string, Shared>, k: nat)
    requires k <= |source| && (forall i: nat :: i < k ==> Answered(g, source[i], definitions))
    requires WithinLimits(ReExpanded(source, definitions, k))
    ensures var all := ReExpanded(source, definitions, k);
            ChargeSource(source, definitions, k) == Charged(Counter(NodesOf(all), BytesOf(all)))
  {
    hide Answered, ChargeOne, OneReExpanded, Nodes, Bytes, Depth;
    if k > 0 {
      var front, more := ReExpanded(source, definitions, k - 1), OneReExpanded(source[k - 1], definitions);
      assert ReExpanded(source, definitions, k) == front + more;
      hide ReExpanded, NodesOf, BytesOf;
      SumsOfPrefix(front, more);
      assert forall step <- front :: step in front + more;
      SourceCharged(g, source, definitions, k - 1);
      OneCharged(g, source[k - 1], definitions, front);
    }
  }

  /** The retained source expands to steps that parse as the ones that were compiled, and its uses are complete. */
  lemma {:induction false} SameReExpanded(g: Grammar, catalog: map<string, Shared>, document: Document, d: Definition, k: nat)
    requires CompiledTo(g, catalog, document, d) && k <= |document.source|
    ensures FirstPass(g, catalog, document, k).Some?
    ensures SameSteps(g, ReExpanded(d.source, d.definitions, k), FirstPass(g, catalog, document, k).value.expanded)
    ensures forall i: nat :: i < k ==> Answered(g, d.source[i], d.definitions)
  {
    hide Compile, GatherStep, Normalises, NamedCatalog, DefinitionsOk, SameSteps, Answered, ReExpanded, FirstPass, ValidShared;
    if k == 0 {
      NothingReExpanded(g, catalog, document, d);
    } else {
      SameReExpanded(g, catalog, document, d, k - 1);
      RetainedStep(g, catalog, document, d, k - 1);
      FrozenDefinitions(g, catalog, document, d);
      StepReExpanded(g, catalog, document, d, k - 1, FirstPass(g, catalog, document, k - 1).value);
    }
  }

  lemma NothingReExpanded(g: Grammar, catalog: map<string, Shared>, document: Document, d: Definition)
    ensures FirstPass(g, catalog, document, 0).Some?
    ensures SameSteps(g, ReExpanded(d.source, d.definitions, 0), FirstPass(g, catalog, document, 0).value.expanded)
  {
    hide GatherStep;
    NoSteps(g);
  }

  lemma SameStepsMore(g: Grammar, a: seq<Json>, b: seq<Json>, more: seq<Json>, others: seq<Json>)
    requires SameSteps(g, a, b) && SameSteps(g, more, others)
    ensures SameSteps(g, a + more, b + others)
  {
  }

  /** What one turn adds to the execution steps. */
  lemma StepAdds(g: Grammar, catalog: map<string, Shared>, frozen: bool, raw: SourceStep, acc: Gathered)
    requires GatherStep(g, catalog, frozen, raw, acc).Some?
    ensures var next := GatherStep(g, catalog, frozen, raw, acc).value;
            match raw
            case Plain(_, document) => next.expanded == acc.expanded + [document]
            case Use(name, use, _) =>
              && use in next.used
              && Complete(next.used[use], raw.bindings).Some?
              && next.expanded == acc.expanded + ExpandedSteps(next.used[use].steps, Complete(next.used[use], raw.bindings).value)
              && |next.source| > 0 && next.source[|next.source| - 1] == Use(name, use, Complete(next.used[use], raw.bindings).value)
  {
    hide Charge, ChargeSteps, ValidShared, Complete, NamesOf, NameOf, TextOf, ExpandedSteps;
  }

  lemma StepReExpanded(g: Grammar, catalog: map<string, Shared>, document: Document, d: Definition, k: nat, acc: Gathered)
    requires Normalises(g) && k < |document.source| && k < |d.source| && DefinitionsOk(g, d.definitions)
    requires GatherStep(g, catalog, document.steps.Some?, document.source[k], acc).Some?
    requires var raw, next := document.source[k], GatherStep(g, catalog, document.steps.Some?, document.source[k], acc).value;
             match raw
             case Plain(name, text) => g.parseStep(text).Some? && d.source[k] == Plain(name, g.document(g.parseStep(text).value))
             case Use(_, use, _) =>
               d.source[k] == next.source[|next.source| - 1] && d.source[k].Use? && d.source[k].use == use
               && use in d.definitions && use in next.used && next.used[use] == d.definitions[use]
    requires SameSteps(g, ReExpanded(d.source, d.definitions, k), acc.expanded)
    ensures SameSteps(g, ReExpanded(d.source, d.definitions, k + 1), GatherStep(g, catalog, document.steps.Some?, document.source[k], acc).value.expanded)
    ensures Answered(g, d.source[k], d.definitions)
  {
    hide GatherStep, ValidShared, Complete, Kinds, Typed, ExpandedSteps, SameSteps;
    var raw := document.source[k];
    var before := ReExpanded(d.source, d.definitions, k);
    StepAdds(g, catalog, document.steps.Some?, raw, acc);
    if raw.Plain? {
      var canonical := g.document(g.parseStep(raw.document).value);
      assert SameSteps(g, [canonical], [raw.document]) by {
        OneSame(g, raw.document);
      }
      SameStepsMore(g, before, acc.expanded, [canonical], [raw.document]);
    } else {
      var shared := d.definitions[raw.use];
      CompleteAgain(shared, raw.bindings);
      var added := ExpandedSteps(shared.steps, Complete(shared, raw.bindings).value);
      SameStepsMore(g, before, acc.expanded, added, added);
    }
  }

  lemma OneSame(g: Grammar, document: Json)
    requires Normalises(g) && g.parseStep(document).Some?
    ensures SameSteps(g, [g.document(g.parseStep(document).value)], [document])
  {
  }

  /** The execution steps are what the source steps expand to, one after the other. */
  ghost predicate ExpandsTo(g: Grammar, source: seq<SourceStep>, definitions: map<string, Shared>, steps: seq<Step>) {
    var expanded := ReExpanded(source, definitions, |source|);
    |steps| == |expanded| && forall i: nat :: i < |steps| ==> g.parseStep(expanded[i]) == Some(steps[i])
  }

  lemma StepsExpand(g: Grammar, catalog: map<string, Shared>, document: Document, d: Definition)
    requires Normalises(g) && NamedCatalog(catalog) && Compile(g, catalog, document) == Some(d)
    ensures ExpandsTo(g, d.source, d.definitions, d.steps)
  {
    SourceLength(g, catalog, document, d);
    SameReExpanded(g, catalog, document, d, |d.source|);
    CompiledFrom(g, catalog, document, d);
    hide Compile, FirstPass, ReExpanded, Normalises, NamedCatalog, Answered;
  }

  /** Steps no larger than those of a document that fits are within the limits. */
  lemma AgainWithinLimits(again: seq<Json>, canonical: seq<Json>)
    requires |again| == |canonical| && forall i :: 0 <= i < |again| ==> NoLarger(again[i], canonical[i])
    requires NodesOf(canonical) <= MAX_NODES && TextOfSteps(canonical) <= MAX_DOCUMENT_BYTES
    requires forall step <- canonical :: Depth(step) + 2 <= MAX_DEPTH
    ensures WithinLimits(again)
  {
    SmallerSums(again, canonical);
    TextCoversSteps(canonical);
    hide NodesOf, BytesOf, TextOfSteps, Nodes, Bytes, Depth;
    forall step <- again
      ensures Depth(step) <= MAX_DEPTH
    {
      var i :| 0 <= i < |again| && again[i] == step;
      assert canonical[i] in canonical && NoLarger(step, canonical[i]);
    }
  }

  /** The retained document's own bounds keep its second expansion within the budget. */
  lemma BudgetSuffices(g: Grammar, catalog: map<string, Shared>, document: Document, d: Definition)
    requires CompiledTo(g, catalog, document, d) && FitsMeans(g) && KeepsAll(g)
    ensures ChargeSource(d.source, d.definitions, |d.source|).Charged?
  {
    var n := |d.source|;
    CompiledFrom(g, catalog, document, d);
    SameReExpanded(g, catalog, document, d, n);
    var again, canonical := ReExpanded(d.source, d.definitions, n), Documents(g, d.steps);
    var first := FirstPass(g, catalog, document, n).value.expanded;
    hide Compile, FirstPass, NoLarger, Nodes, Bytes, Depth, ReExpanded, ChargeSource, CompiledTo, Answered;
    assert g.fits(Retained(g, d)) && Retained(g, d).steps == Some(canonical);
    forall i | 0 <= i < |again|
      ensures NoLarger(again[i], canonical[i])
    {
      assert g.parseStep(again[i]) == g.parseStep(first[i]) == Some(d.steps[i]);
    }
    AgainWithinLimits(again, canonical);
    hide Retained, Documents, WithinLimits;
    SourceCharged(g, d.source, d.definitions, n);
  }

  /** A definition that was compiled, and whose retained document fits its bounds, is accepted again from its frozen snapshots alone, without the catalog, and gives the same steps, bindings, definitions and stages. */
  lemma FrozenIsEnough(g: Grammar, catalog: map<string, Shared>, document: Document, d: Definition)
    requires Normalises(g) && KeepsAll(g) && FitsMeans(g) && NamedCatalog(catalog)
    requires Compile(g, catalog, document) == Some(d)
    ensures Compile(g, map[], Retained(g, d)) == Some(d)
  {
    SourceLength(g, catalog, document, d);
    FrozenWithinBudget(g, catalog, document, d);
    BudgetSuffices(g, catalog, document, d);
  }

  lemma DocumentBounds(g: Grammar, catalog: map<string, Shared>, document: Document, d: Definition)
    requires Compile(g, catalog, document) == Some(d)
    ensures 0 < |document.source| <= MAX_STEPS
  {
  }

  lemma FrozenDefinitions(g: Grammar, catalog: map<string, Shared>, document: Document, d: Definition)
    requires NamedCatalog(catalog) && Compile(g, catalog, document) == Some(d)
    ensures DefinitionsOk(g, d.definitions) && |d.definitions| <= MAX_DEFINITIONS
  {
    CompiledFrom(g, catalog, document, d);
    GatherTidy(g, catalog, document.steps.Some?, document.definitions, document.source, |document.source|);
    hide Compile, Gather, ValidShared, StagesOk, DistinctNames, AllParse, Parsed, Normalized, StepNames;
  }

  lemma AssembledAgain(g: Grammar, first: Gathered, again: Gathered, d: Definition)
    requires Normalises(g) && Follows(g, first, again, d, |d.source|) && |again.starts| == |again.source| && |first.starts| == |first.source|
    requires AllParse(g, first.expanded) && d.steps == Parsed(g, first.expanded) && d.source == Normalized(g, first, d.steps)
    requires d.definitions == first.used && DistinctNames(StepNames(d.steps)) && g.wellFormed(d.header, d.steps)
    requires StagesOk(g, d.stages, StepNames(d.steps)) && g.fits(Retained(g, d))
    ensures Assemble(g, Retained(g, d), again) == Some(d)
  {
    hide DistinctNames, StagesOk;
    assert AllParse(g, again.expanded);
    assert Parsed(g, again.expanded) == d.steps;
    assert d.source[..|d.source|] == d.source;
    assert Normalized(g, again, d.steps) == d.source;
  }

  // ----- Default stages are always accepted -----

  /** A slug is never blank. */
  ghost predicate SlugsShow(g: Grammar) {
    forall s: string :: g.slug(s) ==> !Blank(s)
  }

  /** The default stages gathered so far: usable, distinctly named, and holding exactly the gathered steps. */
  ghost predicate DefaultsFit(g: Grammar, acc: Gathered) {
    && Flat(acc.defaults) == NamesOf(acc.expanded)
    && (forall i: nat :: i < |acc.defaults| ==>
          && g.slug(acc.defaults[i].name) && acc.defaults[i].name !in RESERVED_NAMES && acc.defaults[i].name in acc.names
          && !Blank(acc.defaults[i].title) && acc.defaults[i].steps != [])
    && forall i: nat, j: nat :: i < j < |acc.defaults| ==> acc.defaults[i].name != acc.defaults[j].name
  }

  lemma DefaultAdded(g: Grammar, acc: Gathered, next: Gathered, stage: Stage, added: seq<Json>)
    requires DefaultsFit(g, acc) && stage.name !in acc.names && g.slug(stage.name) && stage.name !in RESERVED_NAMES
    requires !Blank(stage.title) && stage.steps == NamesOf(added) && added != []
    requires next.defaults == acc.defaults + [stage] && next.expanded == acc.expanded + added && next.names == acc.names + {stage.name}
    ensures DefaultsFit(g, next)
  {
    hide NameOf, Blank;
    assert next.defaults[..|next.defaults| - 1] == acc.defaults;
    assert NamesOf(acc.expanded + added) == NamesOf(acc.expanded) + NamesOf(added);
  }

  lemma DefaultStep(g: Grammar, catalog: map<string, Shared>, frozen: bool, raw: SourceStep, acc: Gathered)
    requires SlugsShow(g) && DefaultsFit(g, acc) && Tidy(g, acc) && GatherStep(g, catalog, frozen, raw, acc).Some?
    ensures DefaultsFit(g, GatherStep(g, catalog, frozen, raw, acc).value)
  {
    hide Charge, ChargeSteps, Complete, NameOf, TextOf, DefaultsFit, NamesOf, Blank;
    var next := GatherStep(g, catalog, frozen, raw, acc).value;
    match raw
    case Plain(name, document) =>
      assert NamesOf([document]) == [NameOf(document)] by {
        OneName(document);
      }
      DefaultAdded(g, acc, next, Stage(name, name, TextOf(document, "kind"), [NameOf(document)]), [document]);
    case Use(name, use, bindings) =>
      var shared := Resolve(g, catalog, frozen, acc.definitions, use).value;
      var added := ExpandedSteps(shared.steps, Complete(shared, bindings).value);
      assert ValidShared(g, shared);
      DefaultAdded(g, acc, next, Stage(name, shared.title, shared.description, NamesOf(added)), added);
  }

  lemma OneName(document: Json)
    ensures NamesOf([document]) == [NameOf(document)]
  {
  }

  lemma {:induction false} GatherDefaults(g: Grammar, catalog: map<string, Shared>, frozen: bool, definitions: map<string, Shared>, source: seq<SourceStep>, k: nat)
    requires k <= |source| && SlugsShow(g) && NamedCatalog(catalog) && DefinitionsOk(g, definitions)
    requires Gather(g, catalog, frozen, definitions, source, k).Some?
    ensures DefaultsFit(g, Gather(g, catalog, frozen, definitions, source, k).value)
  {
    hide GatherStep, DefinitionsOk, SlugsShow, Tidy;
    if k > 0 {
      GatherDefaults(g, catalog, frozen, definitions, source, k - 1);
      GatherTidy(g, catalog, frozen, definitions, source, k - 1);
      DefaultStep(g, catalog, frozen, source[k - 1], Gather(g, catalog, frozen, definitions, source, k - 1).value);
    }
  }

  lemma ParsedNames(g: Grammar, steps: seq<Json>)
    requires Normalises(g) && AllParse(g, steps)
    ensures StepNames(Parsed(g, steps)) == NamesOf(steps)
  {
    hide NameOf, Named;
    forall i | 0 <= i < |steps|
      ensures StepNames(Parsed(g, steps))[i] == NamesOf(steps)[i]
    {
      NamedExact(steps[i], g.parseStep(steps[i]).value.name);
    }
  }

  /** An authored document without stages of its own is never refused for its stages. */
  lemma DefaultStagesAccepted(g: Grammar, catalog: map<string, Shared>, document: Document, acc: Gathered)
    requires Normalises(g) && SlugsShow(g) && NamedCatalog(catalog) && DefinitionsOk(g, document.definitions) && document.source != []
    requires FirstPass(g, catalog, document, |document.source|) == Some(acc)
    requires AllParse(g, acc.expanded) && DistinctNames(StepNames(Parsed(g, acc.expanded)))
    ensures StagesOk(g, acc.defaults, StepNames(Parsed(g, acc.expanded)))
  {
    GatherDefaults(g, catalog, document.steps.Some?, document.definitions, document.source, |document.source|);
    GatherLengths(g, catalog, document.steps.Some?, document.definitions, document.source, |document.source|);
    ParsedNames(g, acc.expanded);
    hide Gather, StagesOk, DistinctNames, NamesOf, Flat, Parsed, AllParse, Blank, DefinitionsOk;
    DefaultsAccepted(g, acc.defaults, NamesOf(acc.expanded));
  }

  // ----- The compiler -----

  lemma {:induction false} StepsNeverUnbound(g: Grammar, shared: Shared, steps: seq<Json>, bound: map<string, Json>, c: Counter)
    requires Typed(Kinds(shared.parameters), bound) && forall step <- steps :: OrdinaryTemplate(step, Kinds(shared.parameters))
    ensures ChargeSteps(steps, bound, c) != Unbound
  {
    hide TextOf, FieldOf, Typed;
    if steps != [] {
      var front, last := steps[..|steps| - 1], steps[|steps| - 1];
      StepsNeverUnbound(g, shared, front, bound, c);
      assert last in steps;
      var before := ChargeSteps(front, bound, c);
      if before.Charged? {
        assert Spread(last).Some? ==> !Template(last, Kinds(shared.parameters), false);
        NeverUnbound(last, 0, Some(bound), before.counter, Kinds(shared.parameters), false);
      }
    }
  }

  /** The steps of one use, expanded one after the other; no placeholder lacks its argument. */
  method ExpandUse(g: Grammar, budget: Expansion, shared: Shared, bound: map<string, Json>) returns (added: Option<seq<Json>>)
    requires ValidShared(g, shared) && Typed(Kinds(shared.parameters), bound)
    modifies budget
    ensures match ChargeSteps(shared.steps, bound, old(budget.Now()))
            case Charged(c) => added == Some(ExpandedSteps(shared.steps, bound)) && budget.Now() == c
            case _ => added == None
  {
    hide Charge, Substituted, ValidShared, Typed, OrdinaryTemplate;
    var done: seq<Json> := [];
    assert forall step <- shared.steps :: OrdinaryTemplate(step, Kinds(shared.parameters)) by {
      TemplatesOf(g, shared);
    }
    assert shared.steps[..0] == [] && ExpandedSteps([], bound) == [];
    while |done| < |shared.steps|
      invariant |done| <= |shared.steps|
      invariant ChargeSteps(shared.steps[..|done|], bound, old(budget.Now())) == Charged(budget.Now())
      invariant done == ExpandedSteps(shared.steps[..|done|], bound)
    {
      ghost var upTo := shared.steps[..|done| + 1];
      assert upTo[..|done|] == shared.steps[..|done|];
      StepsNeverUnbound(g, shared, upTo, bound, old(budget.Now()));
      var one := budget.Copy(shared.steps[|done|], 0, Some(bound));
      match one {
        case Copied(value) =>
          done := done + [value];
        case Refused =>
          ChargeStops(shared.steps, bound, old(budget.Now()), |done| + 1);
          return None;
        case MissingArgument =>
          assert false;
      }
    }
    assert shared.steps[..|shared.steps|] == shared.steps;
    added := Some(done);
  }

  lemma TemplatesOf(g: Grammar, shared: Shared)
    requires ValidShared(g, shared)
    ensures forall step <- shared.steps :: OrdinaryTemplate(step, Kinds(shared.parameters))
  {
  }

  lemma {:induction false} ChargeStops(steps: seq<Json>, bound: map<string, Json>, c: Counter, k: nat)
    requires k <= |steps| && !ChargeSteps(steps[..k], bound, c).Charged?
    ensures !ChargeSteps(steps, bound, c).Charged?
    decreases |steps|
  {
    hide Charge;
    if k == |steps| {
      assert steps[..k] == steps;
    } else {
      assert steps[..|steps| - 1][..k] == steps[..k];
      ChargeStops(steps[..|steps| - 1], bound, c, k);
    }
  }

  /** One turn of the source loop. */
  method GatherOne(g: Grammar, catalog: map<string, Shared>, frozen: bool, budget: Expansion, raw: SourceStep, acc: Gathered) returns (next: Option<Gathered>)
    requires Tidy(g, acc) && budget.Now() == acc.counter
    modifies budget
    ensures next == GatherStep(g, catalog, frozen, raw, acc) && (next.Some? ==> budget.Now() == next.value.counter)
  {
    hide Charge, ChargeSteps, Complete, AddPlain, AddUse, Tidy, ValidShared, Typed;
    if !g.slug(raw.name) || raw.name in acc.names || raw.name in RESERVED_NAMES {
      return None;
    }
    match raw
    case Plain(name, document) =>
      NeverUnbound(document, 0, None, budget.Now(), map[], false);
      var copied := budget.Copy(document, 0, None);
      if !copied.Copied? || |acc.expanded| + 1 > MAX_STEPS {
        return None;
      }
      next := Some(AddPlain(acc, name, copied.value, Counter(budget.nodes, budget.bytes)));
      PlainCounter(acc, name, copied.value, Counter(budget.nodes, budget.bytes));
    case Use(name, use, bindings) =>
      var shared := Resolve(g, catalog, frozen, acc.definitions, use);
      if shared.None? || |acc.used.Keys + {use}| > MAX_DEFINITIONS {
        return None;
      }
      var bound := Complete(shared.value, bindings);
      if bound.None? || |acc.expanded| + |shared.value.steps| > MAX_STEPS {
        return None;
      }
      CompleteAgain(shared.value, bindings);
      ResolvedValid(g, catalog, frozen, acc, use);
      var added := ExpandUse(g, budget, shared.value, bound.value);
      if added.None? {
        return None;
      }
      next := Some(AddUse(acc, name, use, shared.value, bound.value, Counter(budget.nodes, budget.bytes)));
      UseCounter(acc, name, use, shared.value, bound.value, Counter(budget.nodes, budget.bytes));
  }

  lemma PlainCounter(acc: Gathered, name: string, document: Json, c: Counter)
    ensures AddPlain(acc, name, document, c).counter == c
  {
  }

  lemma UseCounter(acc: Gathered, name: string, use: string, shared: Shared, bound: map<string, Json>, c: Counter)
    ensures AddUse(acc, name, use, shared, bound, c).counter == c
  {
  }

  lemma ResolvedValid(g: Grammar, catalog: map<string, Shared>, frozen: bool, acc: Gathered, use: string)
    requires Tidy(g, acc) && Resolve(g, catalog, frozen, acc.definitions, use).Some?
    ensures ValidShared(g, Resolve(g, catalog, frozen, acc.definitions, use).value)
  {
  }

  /** The end of `composition_definition`: parsing, stages, and for a retained document the comparison with what it lists. */
  method AssembleDefinition(g: Grammar, document: Document, acc: Gathered) returns (r: Option<Definition>)
    requires |acc.starts| == |acc.source|
    ensures r == Assemble(g, document, acc)
  {
    hide StagesOk;
    if exists i | 0 <= i < |acc.expanded| :: g.parseStep(acc.expanded[i]).None? {
      return None;
    }
    var steps := Parsed(g, acc.expanded);
    var names := StepNames(steps);
    if (exists i | 0 <= i < |names| :: exists j | i < j < |names| :: names[i] == names[j]) || !g.wellFormed(document.header, steps) {
      return None;
    }
    var stages := if document.stages.Some? then document.stages.value else acc.defaults;
    var ok := CheckStages(g, stages, names);
    if !ok {
      return None;
    }
    if document.steps.Some? && (document.definitions.Keys != acc.used.Keys || document.steps.value != Documents(g, steps)) {
      return None;
    }
    var d := Definition(document.header, steps, Normalized(g, acc, steps), acc.used, stages);
    r := if g.fits(Retained(g, d)) then Some(d) else None;
  }

  /** `composition_definition` */
  method CompileDefinition(g: Grammar, catalog: map<string, Shared>, document: Document) returns (r: Option<Definition>)
    requires NamedCatalog(catalog)
    ensures r == Compile(g, catalog, document)
    ensures r.Some? ==> |r.value.source| == |document.source| && forall k: nat :: k < |document.source| ==>
                           Kept(g, catalog, document, r.value, k) && Staged(document, r.value, k)
    ensures r.Some? && Normalises(g) ==> ExpandsTo(g, r.value.source, r.value.definitions, r.value.steps)
  {
    r := CompileSource(g, catalog, document);
    if r.Some? {
      hide Compile, Kept, Staged, ExpandsTo;
      SourceLength(g, catalog, document, r.value);
      forall k: nat | k < |document.source|
        ensures Kept(g, catalog, document, r.value, k) && Staged(document, r.value, k)
      {
        SourceStaged(g, catalog, document, r.value, k);
        SourceKept(g, catalog, document, r.value, k);
      }
      if Normalises(g) {
        StepsExpand(g, catalog, document, r.value);
      }
    }
  }

  method CompileSource(g: Grammar, catalog: map<string, Shared>, document: Document) returns (r: Option<Definition>)
    requires NamedCatalog(catalog)
    ensures r == Compile(g, catalog, document)
  {
    hide GatherStep, ValidShared, Tidy, Assemble;
    var frozen := document.steps.Some?;
    if !g.fits(document) || (frozen && document.stages.None?) {
      return None;
    }
    if document.source == [] || |document.source| > MAX_STEPS || |document.definitions| > MAX_DEFINITIONS {
      return None;
    }
    if exists name <- document.definitions :: !(ValidShared(g, document.definitions[name]) && document.definitions[name].name == name) {
      return None;
    }
    var budget := new Expansion();
    var acc := Nothing(document.definitions);
    var k := 0;
    while k < |document.source|
      invariant 0 <= k <= |document.source| && fresh(budget)
      invariant Gather(g, catalog, frozen, document.definitions, document.source, k) == Some(acc) && budget.Now() == acc.counter
    {
      GatherTidy(g, catalog, frozen, document.definitions, document.source, k);
      var next := GatherOne(g, catalog, frozen, budget, document.source[k], acc);
      if next.None? {
        GatherStops(g, catalog, frozen, document.definitions, document.source, k + 1, |document.source|);
        return None;
      }
      acc := next.value;
      k := k + 1;
    }
    GatherLengths(g, catalog, frozen, document.definitions, document.source, |document.source|);
    r := AssembleDefinition(g, document, acc);
  }

  lemma {:induction false} GatherStops(g: Grammar, catalog: map<string, Shared>, frozen: bool, definitions: map<string, Shared>, source: seq<SourceStep>, k: nat, n: nat)
    requires k <= n <= |source| && Gather(g, catalog, frozen, definitions, source, k).None?
    ensures Gather(g, catalog, frozen, definitions, source, n).None?
    decreases n
  {
    hide GatherStep;
    if k < n {
      GatherStops(g, catalog, frozen, definitions, source, k, n - 1);
    }
  }
}
