// Checking a planner's plan, and why an accepted plan can be executed.
module PlanCheck {
  import opened Wrappers
  import opened Seqs
  import opened Maps
  import opened Workflows
  import opened Graphs
  import opened Untrusted
  import opened Utf8
  import Templates
  import Prompts
  import Scheduler

  datatype InlineStep = InlineStep(id: string, agent: string, prompt: string, inputs: seq<Input>, dependsOn: seq<string>)

  datatype Limits = Limits(maxInlineSteps: nat, maxPromptBytes: nat, eligible: set<string>)

  const GOAL: string := "goal"
  const GOAL_SOURCE: string := "vars.goal"

  // What the plan schema lets through: distinct input names, and sources that are the goal or
  // some step's output.
  ghost predicate IsParsed(steps: seq<InlineStep>) {
    forall s :: s in steps ==>
      DistinctNames(s.inputs) && forall x :: x in s.inputs ==> x.source == GOAL || IsStepSource(x.source)
  }

  predicate IsPlanSource(source: string) {
    source == GOAL || (IsStepSource(source) && Split(source, '.')[3] == "text")
  }

  predicate IsLetter(c: char) {
    'a' <= c <= 'z' || 'A' <= c <= 'Z'
  }

  // The identifier shape of step ids; a final line break is tolerated, as the pattern does.
  predicate IsSafeKey(name: string) {
    var body := if name != "" && Last(name) == '\n' then name[..|name| - 1] else name;
    && 0 < |body| <= 64 && IsLetter(body[0])
    && forall c :: c in body ==> IsLetter(c) || '0' <= c <= '9' || c == '_' || c == '-'
  }

  // A letter, at most 63 letters, digits, underscores or hyphens, and perhaps a line break.
  ghost predicate KeySpelled(name: string, first: char, rest: string, end: string) {
    && name == [first] + rest + end && (end == "" || end == "\n")
    && IsLetter(first) && |rest| <= 63 && forall c :: c in rest ==> IsLetter(c) || '0' <= c <= '9' || c == '_' || c == '-'
  }

  lemma IsSafeKeyIff(name: string)
    ensures IsSafeKey(name) <==> exists first, rest, end :: KeySpelled(name, first, rest, end)
  {
    if IsSafeKey(name) {
      SpellKey(name);
    }
    if first, rest, end :| KeySpelled(name, first, rest, end) {
      SpelledIsSafe(name, first, rest, end);
    }
  }

  lemma SpellKey(name: string)
    requires IsSafeKey(name)
    ensures exists first, rest, end :: KeySpelled(name, first, rest, end)
  {
    var body := if Last(name) == '\n' then name[..|name| - 1] else name;
    var end := if Last(name) == '\n' then "\n" else "";
    assert name == [body[0]] + body[1..] + end;
    assert KeySpelled(name, body[0], body[1..], end);
  }

  lemma SpelledIsSafe(name: string, first: char, rest: string, end: string)
    requires KeySpelled(name, first, rest, end)
    ensures IsSafeKey(name)
  {
    var body := [first] + rest;
    assert Last(body) in body && Last(body) != '\n';
    if end == "" {
      assert name == body;
    } else {
      assert Last(name) == '\n' && name[..|name| - 1] == body;
    }
  }

  lemma IsPlanSourceIff(source: string)
    ensures IsPlanSource(source) <==>
      source == "goal" || exists d :: '.' !in d && source == "steps" + "." + (d + "." + ("outputs" + "." + "text"))
  {
    var parts := Split(source, '.');
    JoinSplit(source, '.');
    if source != GOAL && IsPlanSource(source) {
      assert parts == ["steps", parts[1], "outputs", "text"] && parts[1] in parts;
      JoinFour("steps", parts[1], "outputs", "text");
    }
    if d :| '.' !in d && source == "steps" + "." + (d + "." + ("outputs" + "." + "text")) {
      JoinFour("steps", d, "outputs", "text");
      SplitJoin(["steps", d, "outputs", "text"], '.');
    }
  }

  // ---------------------------------------------------------------- sizes

  // How often the template refers to the input.
  function Occurrences(ms: seq<Templates.Match>, name: string): nat {
    if ms == [] then 0
    else (if ms[0].r == Templates.Ref(Templates.Inputs, name) then 1 else 0) + Occurrences(ms[1..], name)
  }

  function Overhead(name: string): nat {
    Bytes(Enclose(OpenMarker(name, GOAL, ""), "", CloseMarker(name, "")))
  }

  // What wrapping adds to a text taken for the goal, with no nonce given.
  lemma OverheadIsWrapping(name: string, text: string)
    ensures WrapUntrusted(name, "goal", text, "").Some?
    ensures Bytes(WrapUntrusted(name, "goal", text, "").value) == Overhead(name) + Bytes(Neutralize(text))
  {
    hide Bytes, OpenMarker, CloseMarker, Neutralize;
    EncloseBytes(OpenMarker(name, GOAL, ""), Neutralize(text), CloseMarker(name, ""));
  }

  // What the references to goal inputs may expand to.
  function Expansion(inputs: seq<Input>, ms: seq<Templates.Match>, goalBytes: nat): nat {
    if inputs == [] then 0
    else
      var x := Last(inputs);
      Expansion(inputs[..|inputs| - 1], ms, goalBytes)
      + (if x.source == GOAL then Occurrences(ms, x.name) * (goalBytes + Overhead(x.name)) else 0)
  }

  function Estimate(s: InlineStep, goal: string): nat {
    Bytes(s.prompt) + Expansion(s.inputs, Templates.FindAll(s.prompt), Bytes(goal))
  }

  // The same sum by references: each to an input drawn from the goal adds the goal and the
  // wrapper, every other nothing.
  function PerReference(inputs: seq<Input>, ms: seq<Templates.Match>, goalBytes: nat): nat {
    if ms == [] then 0
    else
      (if ms[0].r.ns == Templates.Inputs && Input(ms[0].r.name, "goal") in inputs then goalBytes + Overhead(ms[0].r.name) else 0)
      + PerReference(inputs, ms[1..], goalBytes)
  }

  lemma {:induction false} ExpansionPerReference(inputs: seq<Input>, ms: seq<Templates.Match>, goalBytes: nat)
    requires DistinctNames(inputs)
    ensures Expansion(inputs, ms, goalBytes) == PerReference(inputs, ms, goalBytes)
    decreases |ms|
  {
    hide Overhead;
    if ms == [] {
      NothingExpands(inputs, goalBytes);
    } else {
      ExpansionPerReference(inputs, ms[1..], goalBytes);
      OneMoreReference(inputs, ms, goalBytes);
    }
  }

  lemma {:induction false} NothingExpands(inputs: seq<Input>, goalBytes: nat)
    ensures Expansion(inputs, [], goalBytes) == 0
    decreases |inputs|
  {
    hide Overhead;
    if inputs != [] {
      NothingExpands(inputs[..|inputs| - 1], goalBytes);
    }
  }

  lemma {:induction false} OneMoreReference(inputs: seq<Input>, ms: seq<Templates.Match>, goalBytes: nat)
    requires DistinctNames(inputs) && ms != []
    ensures Expansion(inputs, ms, goalBytes) == Expansion(inputs, ms[1..], goalBytes)
      + (if ms[0].r.ns == Templates.Inputs && Input(ms[0].r.name, "goal") in inputs then goalBytes + Overhead(ms[0].r.name) else 0)
    decreases |inputs|
  {
    hide Overhead;
    if inputs != [] {
      var front, x := inputs[..|inputs| - 1], Last(inputs);
      OneMoreReference(front, ms, goalBytes);
      SplitLast(inputs);
      var here := Input(ms[0].r.name, "goal");
      assert here in inputs <==> here in front || here == x;
      var n, one := Occurrences(ms[1..], x.name), goalBytes + Overhead(x.name);
      assert (n + 1) * one == n * one + one;
      if ms[0].r == Templates.Ref(Templates.Inputs, x.name) {
        NotBefore(inputs, here);
      }
    }
  }

  lemma NotBefore(inputs: seq<Input>, x: Input)
    requires DistinctNames(inputs) && inputs != [] && x.name == Last(inputs).name
    ensures x !in inputs[..|inputs| - 1]
  {}

  // ---------------------------------------------------------------- faults

  datatype Fault =
    | ReservedId
    | DuplicateId(first: nat)
    | IneligibleAgent
    | EmptyPrompt
    | VarsToken
    | UndeclaredInput(name: string)
    | UnsupportedSyntax
    | BadInputNames
    | BadSource(name: string)
    | TooLarge(bytes: nat)

  datatype PlanError =
    | TooManySteps(count: nat)
    | StepFault(at: nat, fault: Fault)
    | Unordered(error: Scheduler.OrderError)

  ghost predicate IsTemplateFault(prompt: string, inputs: seq<Input>, f: Fault) {
    match f
    case VarsToken => exists r :: r in Templates.Refs(prompt) && r.ns == Templates.Vars
    case UndeclaredInput(name) => Templates.Ref(Templates.Inputs, name) in Templates.Refs(prompt) && name !in Prompts.Names(inputs)
    case UnsupportedSyntax => exists at: nat :: Templates.SuspectAt(prompt, at)
    case _ => false
  }

  // Position `at` declares the id first.
  ghost predicate IsFirst(steps: seq<InlineStep>, id: string, at: nat) {
    at < |steps| && steps[at].id == id && forall k :: 0 <= k < at ==> steps[k].id != id
  }

  ghost predicate IsFault(steps: seq<InlineStep>, limits: Limits, goal: string, i: nat, f: Fault)
    requires i < |steps|
  {
    var s := steps[i];
    match f
    case ReservedId => s.id == "plan"
    case DuplicateId(first) => first < i && IsFirst(steps, s.id, first)
    case IneligibleAgent => s.agent !in limits.eligible
    case EmptyPrompt => Templates.IsBlank(s.prompt)
    case BadInputNames => exists x :: x in s.inputs && !IsSafeKey(x.name)
    case BadSource(name) => exists x :: x in s.inputs && x.name == name && !IsPlanSource(x.source)
    case TooLarge(bytes) => bytes == Estimate(s, goal) && bytes > limits.maxPromptBytes
    case _ => IsTemplateFault(s.prompt, s.inputs, f)
  }

  // ---------------------------------------------------------------- the checks

  // Template faults of one prompt, and how often it refers to each input declared as the goal.
  method TemplateErrors(prompt: string, inputs: seq<Input>) returns (errors: seq<Fault>, occurrences: map<string, nat>)
    requires DistinctNames(inputs)
    ensures forall f :: f in errors <==> IsTemplateFault(prompt, inputs, f)
    ensures forall x :: x in inputs && x.source == GOAL ==>
      Get(occurrences, x.name) == Occurrences(Templates.FindAll(prompt), x.name)
  {
    hide Templates.FindAll, Templates.Refs, Templates.SuspectAt, Templates.Scrubbed, Occurrences, Source;
    var remainder, problems := Templates.Scrub(prompt, {}, Prompts.Names(inputs));
    Templates.ScrubShows(prompt, remainder);
    errors := [];
    for k := 0 to |problems|
      invariant forall f :: f in errors <==> exists p :: p in problems[..k] && p.Undeclared? && f == FaultFor(p.r)
    {
      assert problems[k] in problems;
      assert problems[..k + 1] == problems[..k] + [problems[k]];
      errors := errors + [FaultFor(problems[k].r)];
    }
    assert problems[..|problems|] == problems;
    occurrences := CountGoals(Templates.FindAll(prompt), inputs);
    var suspect := FindSuspect(remainder);
    if suspect.Some? {
      assert Templates.SuspectAt(prompt, suspect.value);
      errors := errors + [UnsupportedSyntax];
    }
    if suspect.None? {
      forall at: nat
        ensures !Templates.SuspectAt(prompt, at)
      {
        assert at < |remainder| - 1 ==> !Templates.IsSuspect(remainder[at], remainder[at + 1]);
      }
    }
    forall f
      ensures f in errors <==> IsTemplateFault(prompt, inputs, f)
    {
      SameFaults(prompt, inputs, problems, f);
    }
  }

  function FaultFor(r: Templates.Ref): Fault {
    match r.ns
    case Vars => VarsToken
    case Inputs => UndeclaredInput(r.name)
  }

  lemma SameFaults(prompt: string, inputs: seq<Input>, problems: seq<Templates.Problem>, f: Fault)
    requires forall p :: p in problems <==>
      p.Undeclared? && p.r in Templates.Refs(prompt) && !Templates.IsDeclared(p.r, {}, Prompts.Names(inputs))
    ensures (exists p :: p in problems && p.Undeclared? && f == FaultFor(p.r)) <==>
      f != UnsupportedSyntax && IsTemplateFault(prompt, inputs, f)
  {
    hide Templates.Refs, Prompts.Names;
    match f {
      case VarsToken =>
        if IsTemplateFault(prompt, inputs, f) {
          var r :| r in Templates.Refs(prompt) && r.ns == Templates.Vars;
          assert Templates.Undeclared(r) in problems;
        }
      case UndeclaredInput(name) =>
        if IsTemplateFault(prompt, inputs, f) {
          assert Templates.Undeclared(Templates.Ref(Templates.Inputs, name)) in problems;
        }
      case _ =>
    }
  }

  method FindSuspect(text: string) returns (r: Option<nat>)
    ensures r.Some? ==> r.value < |text| - 1 && Templates.IsSuspect(text[r.value], text[r.value + 1])
    ensures r.None? ==> forall i :: 0 <= i < |text| - 1 ==> !Templates.IsSuspect(text[i], text[i + 1])
  {
    var i := 0;
    while i < |text| - 1
      invariant 0 <= i
      invariant forall k :: 0 <= k < i && k < |text| - 1 ==> !Templates.IsSuspect(text[k], text[k + 1])
    {
      if Templates.IsSuspect(text[i], text[i + 1]) {
        return Some(i);
      }
      i := i + 1;
    }
    r := None;
  }

  method CountGoals(ms: seq<Templates.Match>, inputs: seq<Input>) returns (occurrences: map<string, nat>)
    requires DistinctNames(inputs)
    ensures forall x :: x in inputs && x.source == GOAL ==> Get(occurrences, x.name) == Occurrences(ms, x.name)
  {
    hide Source;
    occurrences := map[];
    for k := 0 to |ms|
      invariant forall x :: x in inputs && x.source == GOAL ==> Get(occurrences, x.name) == Occurrences(ms[..k], x.name)
    {
      OccurrencesSnoc(ms, k);
      var r := ms[k].r;
      var source := Source(inputs, r.name);
      if r.ns == Templates.Inputs && source == Some(GOAL) {
        occurrences := occurrences[r.name := Get(occurrences, r.name) + 1];
      } else {
        SourceOfGoal(inputs, r.name);
      }
    }
    assert ms[..|ms|] == ms;
  }

  lemma SourceOfGoal(inputs: seq<Input>, name: string)
    requires DistinctNames(inputs)
    ensures Source(inputs, name) == Some(GOAL) <==> Input(name, GOAL) in inputs
  {}

  lemma {:induction false} OccurrencesSnoc(ms: seq<Templates.Match>, k: nat)
    requires k < |ms|
    ensures forall name ::
      Occurrences(ms[..k + 1], name)
      == Occurrences(ms[..k], name) + (if ms[k].r == Templates.Ref(Templates.Inputs, name) then 1 else 0)
    decreases |ms|
  {
    if k > 0 {
      OccurrencesSnoc(ms[1..], k - 1);
      assert ms[..k + 1][1..] == ms[1..][..k] && ms[..k][1..] == ms[1..][..k - 1];
    }
  }

  lemma NoInputs(ms: seq<Templates.Match>, goalBytes: nat)
    ensures Expansion([], ms, goalBytes) == 0
  {}

  lemma ExpansionNext(inputs: seq<Input>, k: nat, ms: seq<Templates.Match>, goalBytes: nat)
    requires k < |inputs|
    ensures Expansion(inputs[..k + 1], ms, goalBytes) == Expansion(inputs[..k], ms, goalBytes)
      + (if inputs[k].source == GOAL then Occurrences(ms, inputs[k].name) * (goalBytes + Overhead(inputs[k].name)) else 0)
  {
    hide Occurrences, Overhead;
    assert inputs[..k + 1][..k] == inputs[..k];
  }

  // The worst-case size of the composed prompt.
  method EstimateBytes(s: InlineStep, occurrences: map<string, nat>, goalBytes: nat) returns (estimated: nat)
    requires forall x :: x in s.inputs && x.source == GOAL ==>
      Get(occurrences, x.name) == Occurrences(Templates.FindAll(s.prompt), x.name)
    ensures estimated == Bytes(s.prompt) + Expansion(s.inputs, Templates.FindAll(s.prompt), goalBytes)
  {
    hide Templates.FindAll, Occurrences, Overhead, Expansion, Bytes;
    NoInputs(Templates.FindAll(s.prompt), goalBytes);
    estimated := Bytes(s.prompt);
    for k := 0 to |s.inputs|
      invariant estimated == Bytes(s.prompt) + Expansion(s.inputs[..k], Templates.FindAll(s.prompt), goalBytes)
    {
      var x := s.inputs[k];
      ExpansionNext(s.inputs, k, Templates.FindAll(s.prompt), goalBytes);
      if x.source == GOAL {
        estimated := estimated + Get(occurrences, x.name) * (goalBytes + Overhead(x.name));
      }
    }
    assert s.inputs[..|s.inputs|] == s.inputs;
  }

  // The step's inputs as the executor will declare them.
  function MapSource(source: string): string {
    if source == GOAL then GOAL_SOURCE else source
  }

  function MapInputs(inputs: seq<Input>): seq<Input> {
    seq(|inputs|, i requires 0 <= i < |inputs| => Input(inputs[i].name, MapSource(inputs[i].source)))
  }

  function Ids(steps: seq<InlineStep>): seq<string> {
    seq(|steps|, i requires 0 <= i < |steps| => steps[i].id)
  }

  function IndexOf(steps: seq<InlineStep>, id: string): (r: nat)
    requires id in Ids(steps)
    ensures r < |steps| && steps[r].id == id
  {
    if steps[0].id == id then 0
    else
      assert Ids(steps) == [steps[0].id] + Ids(steps[1..]);
      1 + IndexOf(steps[1..], id)
  }

  function StepOf(s: InlineStep, prompt: string): StepDef {
    StepDef(s.agent, prompt, MapInputs(s.inputs), s.dependsOn)
  }

  // The plan's graph for the scheduler: prompts are replaced by a placeholder.
  function SyntheticWorkflow(steps: seq<InlineStep>): WorkflowDef {
    WorkflowDef(map[], Ids(steps), map id | id in Ids(steps) :: StepOf(steps[IndexOf(steps, id)], "-"))
  }

  // The graph that is executed: the goal is its one variable.
  function InlineWorkflow(steps: seq<InlineStep>): WorkflowDef {
    WorkflowDef(
      map[GOAL := VariableDef(STRING, false, None, false, DEFAULT_VAR_MAX_BYTES)], Ids(steps),
      map id | id in Ids(steps) :: StepOf(steps[IndexOf(steps, id)], steps[IndexOf(steps, id)].prompt))
  }

  ghost predicate IsOrderError(wf: WorkflowDef, e: Scheduler.OrderError)
    requires wf.Valid()
  {
    var problems := Scheduler.Problems(wf, wf.declared);
    if problems != [] then e == Scheduler.BadReferences(problems)
    else
      var edges := Scheduler.EdgesOf(wf);
      && HasCycle(edges, wf.declared)
      && e == Scheduler.Cycle(Scheduler.Keep(wf.declared, Scheduler.OnCycles(wf.declared, edges)))
  }

  lemma GraphsAreValid(steps: seq<InlineStep>)
    requires IsParsed(steps) && Distinct(Ids(steps))
    ensures SyntheticWorkflow(steps).Valid() && InlineWorkflow(steps).Valid()
  {
    forall s | s in steps
      ensures DistinctNames(MapInputs(s.inputs))
    {}
  }

  // A step of one of the graphs has what the plan's step has; the goal is a variable there.
  ghost predicate Mirrors(s: InlineStep, step: StepDef) {
    && step.agent == s.agent && step.dependsOn == s.dependsOn && |step.inputs| == |s.inputs|
    && forall k :: 0 <= k < |s.inputs| ==>
         && step.inputs[k].name == s.inputs[k].name
         && step.inputs[k].source == if s.inputs[k].source == "goal" then "vars.goal" else s.inputs[k].source
  }

  // The step waits for d, or draws on d's output.
  ghost predicate DrawsOn(s: InlineStep, d: string) {
    d in s.dependsOn || exists x :: x in s.inputs && NamesOutputOf(x.source, d)
  }

  // Both graphs have the plan's steps, in order, with the plan's references; the executed one has
  // its prompts too.
  lemma GraphsMirrorPlan(steps: seq<InlineStep>, i: nat)
    requires Distinct(Ids(steps)) && i < |steps|
    ensures forall wf :: wf in [SyntheticWorkflow(steps), InlineWorkflow(steps)] ==>
      && |wf.declared| == |steps| && wf.declared[i] == steps[i].id && steps[i].id in wf.steps
      && Mirrors(steps[i], wf.steps[steps[i].id])
      && forall d :: Scheduler.RefersTo(wf.steps[steps[i].id], d) <==> DrawsOn(steps[i], d)
    ensures InlineWorkflow(steps).steps[steps[i].id].prompt == steps[i].prompt
  {
    hide NamesOutputOf;
    var s := steps[i];
    assert Ids(steps)[i] == s.id && Ids(steps)[IndexOf(steps, s.id)] == s.id;
    assert IndexOf(steps, s.id) == i;
    forall prompt
      ensures Mirrors(s, StepOf(s, prompt)) && forall d :: Scheduler.RefersTo(StepOf(s, prompt), d) <==> DrawsOn(s, d)
    {
      MappedStep(s, prompt);
    }
  }

  lemma MappedStep(s: InlineStep, prompt: string)
    ensures Mirrors(s, StepOf(s, prompt)) && forall d :: Scheduler.RefersTo(StepOf(s, prompt), d) <==> DrawsOn(s, d)
  {
    hide NamesOutputOf;
    var inputs := MapInputs(s.inputs);
    forall d
      ensures Scheduler.RefersTo(StepOf(s, prompt), d) <==> DrawsOn(s, d)
    {
      GoalNamesNoStep(d);
      if x :| x in s.inputs && NamesOutputOf(x.source, d) {
        var k :| 0 <= k < |s.inputs| && s.inputs[k] == x;
        assert inputs[k].source == x.source && inputs[k] in inputs;
      }
      if x :| x in inputs && NamesOutputOf(x.source, d) {
        var k :| 0 <= k < |inputs| && inputs[k] == x;
        assert s.inputs[k].source == x.source && s.inputs[k] in s.inputs;
      }
    }
  }

  lemma GoalNamesNoStep(d: string)
    ensures !NamesOutputOf("goal", d) && !NamesOutputOf("vars.goal", d)
  {
    forall name
      ensures "goal" != "steps" + "." + (d + "." + ("outputs" + "." + name))
      ensures "vars.goal" != "steps" + "." + (d + "." + ("outputs" + "." + name))
    {
      assert ("steps" + "." + (d + "." + ("outputs" + "." + name)))[0] == 's';
    }
  }

  // Everything wrong with a plan.
  ghost predicate IsPlanError(steps: seq<InlineStep>, limits: Limits, goal: string, e: PlanError)
    requires IsParsed(steps)
  {
    match e
    case TooManySteps(count) => count == |steps| > limits.maxInlineSteps
    case StepFault(i, f) => i < |steps| && IsFault(steps, limits, goal, i, f)
    case Unordered(error) =>
      Distinct(Ids(steps)) && (GraphsAreValid(steps); IsOrderError(SyntheticWorkflow(steps), error))
  }

  ghost predicate Seen(steps: seq<InlineStep>, n: nat, seen: map<string, nat>) {
    && n <= |steps|
    && (forall id :: id in seen ==> seen[id] < n && IsFirst(steps, id, seen[id]))
    && forall k :: 0 <= k < n ==> steps[k].id in seen
  }

  method IdErrors(steps: seq<InlineStep>, i: nat, seen: map<string, nat>) returns (errors: seq<Fault>, now: map<string, nat>)
    requires i < |steps| && Seen(steps, i, seen)
    ensures Seen(steps, i + 1, now)
    ensures forall f :: f in errors <==>
      || (f == ReservedId && steps[i].id == "plan")
      || (f.DuplicateId? && f.first < i && IsFirst(steps, steps[i].id, f.first))
  {
    errors, now := [], seen;
    var id := steps[i].id;
    if id == "plan" {
      errors := errors + [ReservedId];
    }
    if id in seen {
      errors := errors + [DuplicateId(seen[id])];
    } else {
      now := now[id := i];
    }
  }

  method InputErrors(inputs: seq<Input>) returns (errors: seq<Fault>)
    ensures forall f :: f in errors <==>
      || (f == BadInputNames && exists x :: x in inputs && !IsSafeKey(x.name))
      || (f.BadSource? && exists x :: x in inputs && x.name == f.name && !IsPlanSource(x.source))
  {
    hide IsSafeKey, IsPlanSource;
    errors := [];
    if exists x :: x in inputs && !IsSafeKey(x.name) {
      errors := [BadInputNames];
    }
    ghost var names := errors;
    for k := 0 to |inputs|
      invariant forall f :: f in errors <==>
        f in names || (f.BadSource? && exists x :: x in inputs[..k] && x.name == f.name && !IsPlanSource(x.source))
    {
      assert inputs[..k + 1] == inputs[..k] + [inputs[k]];
      if !IsPlanSource(inputs[k].source) {
        errors := errors + [BadSource(inputs[k].name)];
      }
    }
    assert inputs[..|inputs|] == inputs;
  }

  method CheckStep(steps: seq<InlineStep>, limits: Limits, goal: string, i: nat, seen: map<string, nat>)
    returns (errors: seq<Fault>, now: map<string, nat>)
    requires i < |steps| && Seen(steps, i, seen) && DistinctNames(steps[i].inputs)
    ensures Seen(steps, i + 1, now)
    ensures forall f :: f in errors <==> IsFault(steps, limits, goal, i, f)
  {
    hide Seen, IsFirst, IsSafeKey, IsPlanSource, Expansion, Bytes, Templates.Refs, Templates.SuspectAt, Templates.IsBlank;
    var s := steps[i];
    errors, now := IdErrors(steps, i, seen);
    if s.agent !in limits.eligible {
      errors := errors + [IneligibleAgent];
    }
    if Templates.IsBlank(s.prompt) {
      errors := errors + [EmptyPrompt];
    }
    var templateErrors, occurrences := TemplateErrors(s.prompt, s.inputs);
    var inputErrors := InputErrors(s.inputs);
    errors := errors + templateErrors + inputErrors;
    var estimated := EstimateBytes(s, occurrences, Bytes(goal));
    if estimated > limits.maxPromptBytes {
      errors := errors + [TooLarge(estimated)];
    }
  }

  ghost predicate IsStepError(steps: seq<InlineStep>, limits: Limits, goal: string, n: nat, e: PlanError) {
    e.StepFault? && e.at < n && e.at < |steps| && IsFault(steps, limits, goal, e.at, e.fault)
  }

  // Every step's faults, and whether two steps share an id.
  method StepErrors(steps: seq<InlineStep>, limits: Limits, goal: string) returns (errors: seq<PlanError>, duplicates: bool)
    requires IsParsed(steps)
    ensures forall e :: e in errors <==> IsStepError(steps, limits, goal, |steps|, e)
    ensures duplicates <==> !Distinct(Ids(steps))
  {
    hide IsFault, Seen, Distinct;
    errors, duplicates := [], false;
    var seen: map<string, nat> := map[];
    NothingSeen(steps);
    for i := 0 to |steps|
      invariant Seen(steps, i, seen)
      invariant forall e :: e in errors <==> IsStepError(steps, limits, goal, i, e)
      invariant duplicates <==> !Distinct(Ids(steps)[..i])
    {
      assert steps[i] in steps;
      SeenMeans(steps, i, seen);
      var faults;
      if steps[i].id in seen {
        duplicates := true;
      }
      faults, seen := CheckStep(steps, limits, goal, i, seen);
      var found := seq(|faults|, k requires 0 <= k < |faults| => StepFault(i, faults[k]));
      Tagged(i, faults, found);
      errors := errors + found;
    }
    assert Ids(steps)[..|steps|] == Ids(steps);
  }

  lemma NothingSeen(steps: seq<InlineStep>)
    ensures Seen(steps, 0, map[]) && Distinct(Ids(steps)[..0])
  {}

  lemma Tagged(i: nat, faults: seq<Fault>, found: seq<PlanError>)
    requires |found| == |faults| && forall k :: 0 <= k < |faults| ==> found[k] == StepFault(i, faults[k])
    ensures forall e: PlanError :: e in found <==> e.StepFault? && e.at == i && e.fault in faults
  {}

  lemma SeenMeans(steps: seq<InlineStep>, i: nat, seen: map<string, nat>)
    requires i < |steps| && Seen(steps, i, seen)
    ensures Distinct(Ids(steps)[..i + 1]) <==> Distinct(Ids(steps)[..i]) && steps[i].id !in seen
  {
    var ids := Ids(steps);
    var shorter, longer := ids[..i], ids[..i + 1];
    assert longer == shorter + [steps[i].id];
    if steps[i].id in seen {
      assert longer[seen[steps[i].id]] == longer[i];
    }
    if Distinct(longer) {
      forall a, b | 0 <= a < b < |shorter|
        ensures shorter[a] != shorter[b]
      {
        assert longer[a] != longer[b];
      }
    }
    if Distinct(shorter) && steps[i].id !in seen {
      forall a, b | 0 <= a < b < |longer|
        ensures longer[a] != longer[b]
      {
        assert b < i ==> shorter[a] != shorter[b];
        assert steps[a].id in seen;
      }
    }
  }

  // Every error of the plan, and no other.
  method ValidateInline(steps: seq<InlineStep>, limits: Limits, goal: string) returns (errors: seq<PlanError>)
    requires IsParsed(steps)
    ensures forall e :: e in errors <==> IsPlanError(steps, limits, goal, e)
  {
    hide IsFault, IsOrderError, Scheduler.Problems, Scheduler.LeastSchedule, HasCycle, Scheduler.EdgesOf, Scheduler.OnCycles, Distinct, Ids;
    errors := [];
    if |steps| > limits.maxInlineSteps {
      errors := [TooManySteps(|steps|)];
    }
    var stepErrors, duplicates := StepErrors(steps, limits, goal);
    errors := errors + stepErrors;
    if !duplicates {
      var found := OrderErrors(steps);
      errors := errors + found;
    }
  }

  method OrderErrors(steps: seq<InlineStep>) returns (errors: seq<PlanError>)
    requires IsParsed(steps) && Distinct(Ids(steps)) && SyntheticWorkflow(steps).Valid()
    ensures forall e :: e in errors <==> e.Unordered? && IsOrderError(SyntheticWorkflow(steps), e.error)
  {
    hide IsOrderError, Scheduler.Problems, Scheduler.LeastSchedule, HasCycle, Distinct, Ids;
    var order := Scheduler.TopoOrder(SyntheticWorkflow(steps));
    OrderErrorIs(SyntheticWorkflow(steps), order);
    errors := if order.Err? then [Unordered(order.error)] else [];
  }

  lemma OrderErrorIs(wf: WorkflowDef, r: Result<seq<string>, Scheduler.OrderError>)
    requires wf.Valid()
    requires Scheduler.Problems(wf, wf.declared) != [] ==> r == Err(Scheduler.BadReferences(Scheduler.Problems(wf, wf.declared)))
    requires Scheduler.Problems(wf, wf.declared) == [] ==>
      var nodes, edges := wf.declared, Scheduler.EdgesOf(wf);
      if HasCycle(edges, nodes)
      then r == Err(Scheduler.Cycle(Scheduler.Keep(nodes, Scheduler.OnCycles(nodes, edges))))
      else r.Ok?
    ensures forall e :: (r.Err? && r.error == e) <==> IsOrderError(wf, e)
  {}

  // ---------------------------------------------------------------- an accepted plan is executable

  ghost predicate IsAccepted(steps: seq<InlineStep>, limits: Limits, goal: string) {
    IsParsed(steps) && forall e :: !IsPlanError(steps, limits, goal, e)
  }

  lemma AcceptedIds(steps: seq<InlineStep>, limits: Limits, goal: string)
    requires IsAccepted(steps, limits, goal)
    ensures Distinct(Ids(steps))
  {
    hide IsOrderError;
    var ids := Ids(steps);
    forall i, j | 0 <= i < j < |ids|
      ensures ids[i] != ids[j]
    {
      var k := FirstAt(steps, i);
      NoFault(steps, limits, goal, j, DuplicateId(k));
    }
  }

  lemma {:induction false} FirstAt(steps: seq<InlineStep>, i: nat) returns (k: nat)
    requires i < |steps|
    ensures k <= i && IsFirst(steps, steps[i].id, k)
    decreases i
  {
    k := IndexOfFirst(steps, steps[i].id, 0, i);
  }

  lemma {:induction false} IndexOfFirst(steps: seq<InlineStep>, id: string, from: nat, i: nat) returns (k: nat)
    requires from <= i < |steps| && steps[i].id == id && forall j :: 0 <= j < from ==> steps[j].id != id
    ensures k <= i && IsFirst(steps, id, k)
    decreases i - from
  {
    if steps[from].id == id {
      k := from;
    } else {
      k := IndexOfFirst(steps, id, from + 1, i);
    }
  }

  lemma NoFault(steps: seq<InlineStep>, limits: Limits, goal: string, i: nat, f: Fault)
    requires IsAccepted(steps, limits, goal) && i < |steps|
    ensures !IsFault(steps, limits, goal, i, f)
  {
    hide IsFault, IsOrderError;
    assert !IsPlanError(steps, limits, goal, StepFault(i, f));
  }

  lemma StepSource(source: string)
    requires IsStepSource(source)
    ensures InputSourceStep(source).Some? && Prompts.VarOf(source).None? && source != GOAL
  {
    var first := Split(source, '.')[0];
    assert first == "steps" && source != "" && source[0] != '.';
    assert first == [source[0]] + Split(source[1..], '.')[0];
    assert source[0] == first[0] == 's';
  }

  lemma GoalSource()
    ensures Prompts.VarOf(GOAL_SOURCE) == Some(GOAL) && InputSourceStep(GOAL_SOURCE).None?
  {}

  lemma MappedSource(source: string)
    requires source == GOAL || IsStepSource(source)
    ensures source == GOAL ==> Prompts.VarOf(MapSource(source)) == Some(GOAL) && InputSourceStep(MapSource(source)).None?
    ensures source != GOAL ==> Prompts.VarOf(MapSource(source)).None? && InputSourceStep(MapSource(source)).Some?
  {
    hide IsStepSource, Prompts.VarOf;
    GoalSource();
    if source != GOAL {
      StepSource(source);
    }
  }

  lemma SameNames(inputs: seq<Input>)
    ensures Prompts.Names(MapInputs(inputs)) == Prompts.Names(inputs)
  {
    var mapped := MapInputs(inputs);
    forall name
      ensures name in Prompts.Names(mapped) <==> name in Prompts.Names(inputs)
    {
      if name in Prompts.Names(mapped) {
        var i :| 0 <= i < |mapped| && mapped[i].name == name;
        assert inputs[i] in inputs;
      }
      if name in Prompts.Names(inputs) {
        var i :| 0 <= i < |inputs| && inputs[i].name == name;
        assert mapped[i] in mapped;
      }
    }
  }

  // The mapped sources are variables or step outputs, and the only variable is the goal.
  lemma MappedInputs(inputs: seq<Input>)
    requires forall x :: x in inputs ==> x.source == GOAL || IsStepSource(x.source)
    ensures Prompts.SourcesKnown(MapInputs(inputs))
    ensures forall x :: x in MapInputs(inputs) && Prompts.VarOf(x.source).Some? ==> Prompts.VarOf(x.source).value == GOAL
  {
    hide IsStepSource, Prompts.VarOf, MapSource;
    var mapped := MapInputs(inputs);
    forall x | x in mapped
      ensures Prompts.VarOf(x.source).Some? || InputSourceStep(x.source).Some?
      ensures Prompts.VarOf(x.source).Some? ==> Prompts.VarOf(x.source).value == GOAL
    {
      var i :| 0 <= i < |mapped| && mapped[i] == x;
      assert inputs[i] in inputs;
      MappedSource(inputs[i].source);
    }
  }

  // An accepted prompt is an acceptable template once the goal is declared.
  lemma AcceptedTemplate(steps: seq<InlineStep>, limits: Limits, goal: string, i: nat)
    requires IsAccepted(steps, limits, goal) && i < |steps|
    ensures Templates.IsAcceptable(steps[i].prompt, {GOAL}, Prompts.Names(MapInputs(steps[i].inputs)))
  {
    hide IsPlanError, Templates.Refs, Templates.SuspectAt, Prompts.Names, MapInputs;
    var s := steps[i];
    SameNames(s.inputs);
    forall r | r in Templates.Refs(s.prompt)
      ensures Templates.IsDeclared(r, {GOAL}, Prompts.Names(s.inputs))
    {
      NoFault(steps, limits, goal, i, VarsToken);
      NoFault(steps, limits, goal, i, UndeclaredInput(r.name));
    }
    NoFault(steps, limits, goal, i, UnsupportedSyntax);
  }

  lemma SameGraph(steps: seq<InlineStep>)
    requires Distinct(Ids(steps))
    ensures var a, b := SyntheticWorkflow(steps), InlineWorkflow(steps);
      && Scheduler.EdgesOf(a) == Scheduler.EdgesOf(b)
      && Scheduler.Problems(a, a.declared) == Scheduler.Problems(b, b.declared)
  {
    hide Scheduler.Problems;
    SameProblems(SyntheticWorkflow(steps), InlineWorkflow(steps), Ids(steps));
  }

  lemma {:induction false} SameProblems(a: WorkflowDef, b: WorkflowDef, ids: seq<string>)
    requires a.steps.Keys == b.steps.Keys && forall id :: id in ids ==> id in a.steps
    requires forall id :: id in a.steps ==> Scheduler.Refs(a.steps[id]) == Scheduler.Refs(b.steps[id])
    ensures forall id :: id in ids ==> id in b.steps
    ensures Scheduler.Problems(a, ids) == Scheduler.Problems(b, ids)
    decreases |ids|
  {
    hide Scheduler.Refs, Scheduler.RefProblems;
    assert forall id :: id in ids ==> id in b.steps.Keys;
    if ids != [] {
      assert Last(ids) in ids;
      SameProblems(a, b, ids[..|ids| - 1]);
    }
  }

  // The executor maps an accepted plan to a graph that passes template validation and orders
  // without error.
  lemma AcceptedPlanPrepares(steps: seq<InlineStep>, limits: Limits, goal: string)
    requires IsAccepted(steps, limits, goal)
    ensures var wf := InlineWorkflow(steps);
      && wf.Valid()
      && (forall id :: id in wf.steps ==> Prompts.IsAcceptableStep(wf, wf.steps[id]))
      && Scheduler.Problems(wf, wf.declared) == [] && !HasCycle(Scheduler.EdgesOf(wf), wf.declared)
  {
    hide IsFault, Templates.IsAcceptable, Scheduler.Problems, Scheduler.EdgesOf, HasCycle, Prompts.VarOf, MapInputs, Scheduler.OnCycles;
    AcceptedIds(steps, limits, goal);
    GraphsAreValid(steps);
    var wf := InlineWorkflow(steps);
    forall id | id in wf.steps
      ensures Prompts.IsAcceptableStep(wf, wf.steps[id])
    {
      var i := IndexOf(steps, id);
      assert steps[i] in steps;
      AcceptedTemplate(steps, limits, goal, i);
      MappedInputs(steps[i].inputs);
      assert wf.variables.Keys == {GOAL};
    }
    SameGraph(steps);
    NoOrderError(steps, limits, goal);
  }

  lemma NoOrderError(steps: seq<InlineStep>, limits: Limits, goal: string)
    requires IsAccepted(steps, limits, goal) && Distinct(Ids(steps)) && SyntheticWorkflow(steps).Valid()
    ensures var wf := SyntheticWorkflow(steps);
      Scheduler.Problems(wf, wf.declared) == [] && !HasCycle(Scheduler.EdgesOf(wf), wf.declared)
  {
    hide Scheduler.Problems, Scheduler.EdgesOf, HasCycle, Scheduler.OnCycles, IsFault, SyntheticWorkflow;
    var wf := SyntheticWorkflow(steps);
    var problems, edges := Scheduler.Problems(wf, wf.declared), Scheduler.EdgesOf(wf);
    var e := if problems != [] then Scheduler.BadReferences(problems)
             else Scheduler.Cycle(Scheduler.Keep(wf.declared, Scheduler.OnCycles(wf.declared, edges)));
    assert !IsPlanError(steps, limits, goal, Unordered(e));
    assert !IsOrderError(wf, e);
  }

  // Whatever the upstream steps produced, every step of an accepted plan gets its prompt.
  lemma AcceptedPlanNeverStuck(steps: seq<InlineStep>, limits: Limits, goal: string, id: string, outputs: map<string, string>)
    requires IsAccepted(steps, limits, goal) && id in InlineWorkflow(steps).steps
    ensures var step := InlineWorkflow(steps).steps[id];
      Prompts.Prompt(step, map[GOAL := goal], Prompts.UpstreamInputs(step.inputs, outputs), "").Ok?
  {
    hide IsPlanError, Prompts.Prompt, Prompts.IsAcceptableStep, Scheduler.Problems, HasCycle, MapInputs;
    var wf := InlineWorkflow(steps);
    AcceptedPlanPrepares(steps, limits, goal);
    var i := IndexOf(steps, id);
    assert steps[i] in steps;
    MappedInputs(steps[i].inputs);
    Prompts.AcceptedStepRenders(wf, wf.steps[id], map[GOAL := goal], outputs);
  }

  // ---------------------------------------------------------------- and fits its size limit

  lemma AddOne(k: nat, w: nat)
    ensures (k + 1) * w == k * w + w
  {}

  // What the wrapper around a step's output takes by itself.
  function WrapperBytes(x: Input): nat {
    Bytes(Enclose(OpenMarker(x.name, x.source, ""), "", CloseMarker(x.name, "")))
  }

  // The most one reference to the input puts into the prompt, given what the steps produced.
  function InputBytes(x: Input, goal: string, outputs: map<string, string>): nat {
    if x.source == GOAL then Bytes(goal) + Overhead(x.name)
    else
      match InputSourceStep(x.source)
      case None => 0
      case Some(id) => Bytes(Neutralize(Prompts.OutputOf(outputs, id))) + WrapperBytes(x)
  }

  // What all references to one input put into the prompt.
  function AllReferences(ms: seq<Templates.Match>, x: Input, goal: string, outputs: map<string, string>): nat {
    Occurrences(ms, x.name) * InputBytes(x, goal, outputs)
  }

  // What all references together put into the prompt.
  function Growth(inputs: seq<Input>, ms: seq<Templates.Match>, goal: string, outputs: map<string, string>): nat {
    if inputs == [] then 0
    else
      var x := Last(inputs);
      Growth(inputs[..|inputs| - 1], ms, goal, outputs) + AllReferences(ms, x, goal, outputs)
  }

  // The part of it that comes from steps: per reference, the neutralised output and its wrapper.
  function StepGrowth(inputs: seq<Input>, ms: seq<Templates.Match>, outputs: map<string, string>): nat {
    if inputs == [] then 0
    else
      var x := Last(inputs);
      StepGrowth(inputs[..|inputs| - 1], ms, outputs)
      + (if x.source == GOAL then 0 else Occurrences(ms, x.name) * InputBytes(x, "", outputs))
  }

  lemma {:induction false} GrowthIsBoth(inputs: seq<Input>, ms: seq<Templates.Match>, goal: string, outputs: map<string, string>)
    ensures Growth(inputs, ms, goal, outputs) == Expansion(inputs, ms, Bytes(goal)) + StepGrowth(inputs, ms, outputs)
    decreases |inputs|
  {
    hide Occurrences, Overhead, WrapperBytes, Bytes, InputSourceStep;
    if inputs != [] {
      GrowthIsBoth(inputs[..|inputs| - 1], ms, goal, outputs);
    }
  }

  // One more reference adds at least what its input may put into the prompt.
  lemma {:induction false} GrowthGrows(inputs: seq<Input>, x: Input, m: Templates.Match, ms: seq<Templates.Match>, goal: string, outputs: map<string, string>)
    requires m.r.ns == Templates.Inputs && m.r.name == x.name
    ensures Growth(inputs, [m] + ms, goal, outputs) >=
      Growth(inputs, ms, goal, outputs) + (if x in inputs then InputBytes(x, goal, outputs) else 0)
    decreases |inputs|
  {
    hide InputBytes;
    if inputs != [] {
      var y := Last(inputs);
      SplitLast(inputs);
      GrowthGrows(inputs[..|inputs| - 1], x, m, ms, goal, outputs);
      assert ([m] + ms)[1..] == ms;
      AddOne(Occurrences(ms, y.name), InputBytes(y, goal, outputs));
    }
  }

  // The text an input gives a reference is within what the input may put into the prompt.
  ghost predicate TextFits(inputs: seq<Input>, r: Templates.Ref, texts: map<string, string>, goal: string, outputs: map<string, string>) {
    && r.ns == Templates.Inputs && r.name in texts
    && exists x :: x in inputs && x.name == r.name && Bytes(texts[r.name]) <= InputBytes(x, goal, outputs)
  }

  lemma {:induction false} RenderedBytes(
    pieces: seq<Templates.Piece>, at: nat, inputs: seq<Input>, goal: string, outputs: map<string, string>,
    vars: map<string, string>, texts: map<string, string>)
    requires forall r :: Prompts.Refers(pieces, r) ==> TextFits(inputs, r, texts, goal, outputs)
    requires Prompts.Substitute(pieces, vars, texts).Ok?
    ensures Bytes(Prompts.Substitute(pieces, vars, texts).value) <=
      Bytes(Templates.SourceText(pieces)) + Growth(inputs, Templates.Located(pieces, at), goal, outputs)
    decreases |pieces|
  {
    hide Growth, Bytes, InputBytes;
    if pieces == [] {
      NoBytes();
    } else {
      forall r
        ensures Prompts.Refers(pieces, r) <==> (pieces[0].Reference? && pieces[0].r == r) || Prompts.Refers(pieces[1..], r)
      {
        Prompts.RefersHead(pieces, r);
      }
      BytesConcat(Templates.PieceText(pieces[0]), Templates.SourceText(pieces[1..]));
      match pieces[0] {
        case Literal(c) =>
          RenderedBytes(pieces[1..], at + 1, inputs, goal, outputs, vars, texts);
          BytesConcat([c], Prompts.Substitute(pieces[1..], vars, texts).value);
        case Reference(raw, r) =>
          assert Prompts.Refers(pieces, r);
          RenderedBytes(pieces[1..], at + |raw|, inputs, goal, outputs, vars, texts);
          BytesConcat(texts[r.name], Prompts.Substitute(pieces[1..], vars, texts).value);
          var x :| x in inputs && x.name == r.name && Bytes(texts[r.name]) <= InputBytes(x, goal, outputs);
          GrowthGrows(inputs, x, Templates.Match(at, at + |raw|, r), Templates.Located(pieces[1..], at + |raw|), goal, outputs);
      }
    }
  }

  lemma NoBytes()
    ensures Bytes("") == 0
  {}

  // Whatever the upstream steps produced, an accepted step's composed prompt takes at most the
  // checker's estimate and, for each reference to a step's output, the neutralised output and its
  // wrapper.
  lemma AcceptedPromptBytes(steps: seq<InlineStep>, limits: Limits, goal: string, i: nat, outputs: map<string, string>)
    requires IsAccepted(steps, limits, goal) && i < |steps|
    ensures var s := steps[i];
      var step := StepOf(s, s.prompt);
      var prompt := Prompts.Prompt(step, map[GOAL := goal], Prompts.UpstreamInputs(step.inputs, outputs), "");
      && prompt.Ok?
      && Bytes(prompt.value) <= Estimate(s, goal) + StepGrowth(s.inputs, Templates.FindAll(s.prompt), outputs)
      && Estimate(s, goal) <= limits.maxPromptBytes
  {
    hide IsAccepted, Bytes, Growth, Expansion, StepGrowth, Templates.Refs, Prompts.InputTexts, Prompts.UpstreamInputs, MapInputs, TextFits, IsFault;
    var s := steps[i];
    var step := StepOf(s, s.prompt);
    var upstream := Prompts.UpstreamInputs(step.inputs, outputs);
    StepRenders(steps, limits, goal, i, outputs);
    var texts := Prompts.InputTexts(step.inputs, map[GOAL := goal], upstream, "").value;
    forall r | Prompts.Refers(Templates.Tokenize(s.prompt), r)
      ensures TextFits(s.inputs, r, texts, goal, outputs)
    {
      ReferenceFits(steps, limits, goal, i, outputs, r);
    }
    RenderedBytes(Templates.Tokenize(s.prompt), 0, s.inputs, goal, outputs, map[GOAL := goal], texts);
    Templates.TokenizeIsLossless(s.prompt);
    GrowthIsBoth(s.inputs, Templates.FindAll(s.prompt), goal, outputs);
    WithinLimit(steps, limits, goal, i);
  }

  lemma WithinLimit(steps: seq<InlineStep>, limits: Limits, goal: string, i: nat)
    requires IsAccepted(steps, limits, goal) && i < |steps|
    ensures Estimate(steps[i], goal) <= limits.maxPromptBytes
  {
    hide IsAccepted, Estimate;
    NoFault(steps, limits, goal, i, TooLarge(Estimate(steps[i], goal)));
  }

  lemma StepRenders(steps: seq<InlineStep>, limits: Limits, goal: string, i: nat, outputs: map<string, string>)
    requires IsAccepted(steps, limits, goal) && i < |steps|
    ensures var step := StepOf(steps[i], steps[i].prompt);
      Prompts.Prompt(step, map[GOAL := goal], Prompts.UpstreamInputs(step.inputs, outputs), "").Ok?
  {
    hide IsPlanError, Templates.IsAcceptable, Prompts.VarOf, Prompts.Prompt, MapSource;
    var s := steps[i];
    assert s in steps;
    AcceptedTemplate(steps, limits, goal, i);
    MappedInputs(s.inputs);
    var wf := InlineWorkflow(steps);
    assert wf.variables.Keys == {GOAL};
    Prompts.AcceptedStepRenders(wf, StepOf(s, s.prompt), map[GOAL := goal], outputs);
  }

  // An accepted prompt refers to declared inputs only.
  lemma ReferredInput(steps: seq<InlineStep>, limits: Limits, goal: string, i: nat, r: Templates.Ref) returns (x: Input)
    requires IsAccepted(steps, limits, goal) && i < |steps|
    requires Prompts.Refers(Templates.Tokenize(steps[i].prompt), r)
    ensures r.ns == Templates.Inputs && x in steps[i].inputs && x.name == r.name
  {
    hide IsPlanError, Templates.Refs, Prompts.Refers, Templates.Tokenize;
    Prompts.RefsAreReferences(steps[i].prompt, r);
    NoFault(steps, limits, goal, i, VarsToken);
    NoFault(steps, limits, goal, i, UndeclaredInput(r.name));
    x :| x in steps[i].inputs && x.name == r.name;
  }

  lemma ReferenceFits(steps: seq<InlineStep>, limits: Limits, goal: string, i: nat, outputs: map<string, string>, r: Templates.Ref)
    requires IsAccepted(steps, limits, goal) && i < |steps|
    requires Prompts.Refers(Templates.Tokenize(steps[i].prompt), r)
    requires var step := StepOf(steps[i], steps[i].prompt);
      Prompts.Prompt(step, map[GOAL := goal], Prompts.UpstreamInputs(step.inputs, outputs), "").Ok?
    ensures var inputs := MapInputs(steps[i].inputs);
      var texts := Prompts.InputTexts(inputs, map[GOAL := goal], Prompts.UpstreamInputs(inputs, outputs), "").value;
      TextFits(steps[i].inputs, r, texts, goal, outputs)
  {
    hide IsPlanError, Prompts.InputTexts, Prompts.UpstreamInputs, Prompts.InputText, Prompts.Refers, Prompts.Render, Templates.Tokenize, InputBytes;
    var s := steps[i];
    assert s in steps;
    var x := ReferredInput(steps, limits, goal, i, r);
    var k :| 0 <= k < |s.inputs| && s.inputs[k] == x;
    var inputs := MapInputs(s.inputs);
    var upstream := Prompts.UpstreamInputs(inputs, outputs);
    assert inputs[k] == Input(x.name, MapSource(x.source));
    Prompts.InputTextsOf(inputs, map[GOAL := goal], upstream, "", k);
    InputFits(s.inputs, k, goal, outputs);
  }

  // The text of one declared input, in bytes.
  lemma InputFits(inputs: seq<Input>, k: nat, goal: string, outputs: map<string, string>)
    requires DistinctNames(inputs) && k < |inputs|
    requires inputs[k].source == GOAL || IsStepSource(inputs[k].source)
    ensures var mapped := MapInputs(inputs);
      var text := Prompts.InputText(mapped[k], map[GOAL := goal], Prompts.UpstreamInputs(mapped, outputs), "");
      text.Ok? ==> Bytes(text.value) <= InputBytes(inputs[k], goal, outputs)
  {
    hide Bytes, Prompts.UpstreamInputs, IsStepSource, Neutralize, OpenMarker, CloseMarker, Enclose;
    var x, mapped := inputs[k], MapInputs(inputs);
    MappedSource(x.source);
    if x.source != GOAL {
      assert mapped[k] == x;
      Prompts.UpstreamValue(mapped, outputs, k);
      EncloseBytes(OpenMarker(x.name, x.source, ""), Neutralize(Prompts.OutputOf(outputs, InputSourceStep(x.source).value)), CloseMarker(x.name, ""));
    }
  }

  lemma EncloseBytes(open: string, body: string, close: string)
    ensures Bytes(Enclose(open, body, close)) == Bytes(body) + Bytes(Enclose(open, "", close))
  {
    var nl := "\n";
    BytesConcat(open + nl + body + nl, close);
    BytesConcat(open + nl + body, nl);
    BytesConcat(open + nl, body);
    BytesConcat(open + nl + "" + nl, close);
    BytesConcat(open + nl + "", nl);
    assert open + nl + "" == open + nl;
  }

  // When a step draws only on the goal, its composed prompt is no longer than the checker's
  // estimate, hence within the limit.
  lemma AcceptedGoalPromptFits(steps: seq<InlineStep>, limits: Limits, goal: string, i: nat)
    requires IsAccepted(steps, limits, goal) && i < |steps|
    requires forall x :: x in steps[i].inputs ==> x.source == GOAL
    ensures var prompt := Prompts.Prompt(StepOf(steps[i], steps[i].prompt), map[GOAL := goal], map[], "");
      prompt.Ok? && Bytes(prompt.value) <= Estimate(steps[i], goal) <= limits.maxPromptBytes
  {
    hide IsAccepted, Bytes, Estimate, Prompts.Prompt, Prompts.UpstreamInputs, MapInputs, StepGrowth;
    AcceptedPromptBytes(steps, limits, goal, i, map[]);
    NoUpstream(MapInputs(steps[i].inputs), steps[i].inputs);
    NoStepGrowth(steps[i].inputs, Templates.FindAll(steps[i].prompt), map[]);
  }

  lemma {:induction false} NoStepGrowth(inputs: seq<Input>, ms: seq<Templates.Match>, outputs: map<string, string>)
    requires forall x :: x in inputs ==> x.source == GOAL
    ensures StepGrowth(inputs, ms, outputs) == 0
    decreases |inputs|
  {
    hide Occurrences, InputBytes;
    if inputs != [] {
      assert Last(inputs) in inputs;
      NoStepGrowth(inputs[..|inputs| - 1], ms, outputs);
    }
  }

  lemma {:induction false} NoUpstream(mapped: seq<Input>, inputs: seq<Input>)
    requires mapped == MapInputs(inputs) && forall x :: x in inputs ==> x.source == GOAL
    ensures Prompts.UpstreamInputs(mapped, map[]) == map[]
    decreases |mapped|
  {
    hide InputSourceStep;
    if mapped != [] {
      assert mapped[..|mapped| - 1] == MapInputs(inputs[..|inputs| - 1]);
      NoUpstream(mapped[..|mapped| - 1], inputs[..|inputs| - 1]);
      assert Last(inputs) in inputs;
      GoalSource();
    }
  }

  // ---------------------------------------------------------------- single-agent plans

  ghost predicate NoBraceSyntax(text: string) {
    forall i :: 0 <= i < |text| - 1 ==> !Templates.IsSuspect(text[i], text[i + 1])
  }

  method ValidateSingleAgent(agent: string, prompt: string, limits: Limits) returns (errors: seq<Fault>)
    ensures forall f :: f in errors <==>
      || (f == IneligibleAgent && agent !in limits.eligible)
      || (f == EmptyPrompt && Templates.IsBlank(prompt))
      || (f == UnsupportedSyntax && !NoBraceSyntax(prompt))
      || (f == TooLarge(Bytes(prompt)) && Bytes(prompt) > limits.maxPromptBytes)
  {
    hide Bytes, Templates.IsBlank;
    errors := [];
    if agent !in limits.eligible {
      errors := errors + [IneligibleAgent];
    }
    if Templates.IsBlank(prompt) {
      errors := errors + [EmptyPrompt];
    }
    var suspect := FindSuspect(prompt);
    if suspect.Some? {
      errors := errors + [UnsupportedSyntax];
    }
    if Bytes(prompt) > limits.maxPromptBytes {
      errors := errors + [TooLarge(Bytes(prompt))];
    }
  }

  lemma NoBracesNoTokens(text: string, vars: map<string, string>, texts: map<string, string>)
    requires NoBraceSyntax(text)
    ensures Templates.FindAll(text) == []
    ensures Prompts.Substitute(Templates.Tokenize(text), vars, texts) == Ok(text)
  {
    AllLiterals(text);
    LiteralsStand(text, 0, vars, texts);
  }

  function Literals(text: string): seq<Templates.Piece> {
    seq(|text|, i requires 0 <= i < |text| => Templates.Literal(text[i]))
  }

  lemma {:induction false} AllLiterals(text: string)
    requires NoBraceSyntax(text)
    ensures Templates.Tokenize(text) == Literals(text)
    decreases |text|
  {
    hide Templates.TokenAt, NoBraceSyntax;
    if text != "" {
      NoTokenHere(text);
      AllLiterals(text[1..]);
      assert Literals(text) == [Templates.Literal(text[0])] + Literals(text[1..]);
    }
  }

  lemma {:induction false} LiteralsStand(text: string, at: nat, vars: map<string, string>, texts: map<string, string>)
    ensures Templates.Located(Literals(text), at) == []
    ensures Prompts.Substitute(Literals(text), vars, texts) == Ok(text)
    decreases |text|
  {
    if text != "" {
      LiteralsStand(text[1..], at + 1, vars, texts);
      assert Literals(text)[1..] == Literals(text[1..]) && text == [text[0]] + text[1..];
    }
  }

  lemma {:induction false} NoTokenHere(text: string)
    requires NoBraceSyntax(text) && text != ""
    ensures Templates.TokenAt(text).None? && NoBraceSyntax(text[1..])
  {
    hide Templates.NameAt;
    if |text| >= 2 {
      assert text[0..2][0] == text[0] && text[0..2][1] == text[1];
    }
    forall i | 0 <= i < |text[1..]| - 1
      ensures !Templates.IsSuspect(text[1..][i], text[1..][i + 1])
    {
      assert text[1..][i] == text[i + 1] && text[1..][i + 1] == text[i + 2];
    }
  }

  // A prompt accepted for a single agent is sent exactly as it stands.
  lemma SingleAgentPromptIsVerbatim(agent: string, prompt: string, vars: map<string, string>)
    requires NoBraceSyntax(prompt)
    ensures Templates.IsAcceptable(prompt, {}, {})
    ensures Prompts.Prompt(StepDef(agent, prompt, [], []), vars, map[], "") == Ok(prompt)
  {
    NoBracesNoTokens(prompt, vars, map[]);
  }
}
