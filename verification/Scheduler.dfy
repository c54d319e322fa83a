// Serial scheduling: dependency edges, the declaration-order topological sort with its exact
// cycle report, and what a failure leaves for the steps not yet run.
module Scheduler {
  import opened Wrappers
  import opened Seqs
  import opened Workflows
  import opened Graphs

  datatype Field = DependsOn | InputField(name: string)

  datatype Ref = Ref(field: Field, id: string)

  datatype Problem = UnknownStep(step: string, ref: Ref) | SelfDependency(step: string, ref: Ref)

  datatype OrderError = BadReferences(problems: seq<Problem>) | Cycle(members: seq<string>)

  // ---------------------------------------------------------------- edges

  // Every step a step refers to, in the order the checks see them.
  function Refs(step: StepDef): seq<Ref> {
    OrderRefs(step.dependsOn) + InputRefs(step.inputs)
  }

  function OrderRefs(ids: seq<string>): seq<Ref> {
    if ids == [] then [] else OrderRefs(ids[..|ids| - 1]) + [Ref(DependsOn, Last(ids))]
  }

  function InputRefs(inputs: seq<Input>): seq<Ref> {
    if inputs == [] then []
    else
      var front, last := InputRefs(inputs[..|inputs| - 1]), Last(inputs);
      var src := InputSourceStep(last.source);
      if src.Some? then front + [Ref(InputField(last.name), src.value)] else front
  }

  function ProblemOf(step: string, ref: Ref, known: set<string>): Option<Problem> {
    if ref.id !in known then Some(UnknownStep(step, ref))
    else if ref.id == step then Some(SelfDependency(step, ref))
    else None
  }

  function RefProblems(step: string, refs: seq<Ref>, known: set<string>): seq<Problem> {
    if refs == [] then []
    else
      var front, p := RefProblems(step, refs[..|refs| - 1], known), ProblemOf(step, Last(refs), known);
      if p.Some? then front + [p.value] else front
  }

  // The dependencies the usable references contribute, first mention first.
  function RefDeps(step: string, refs: seq<Ref>, known: set<string>): seq<string> {
    if refs == [] then []
    else
      var front, last := RefDeps(step, refs[..|refs| - 1], known), Last(refs);
      if ProblemOf(step, last, known).None? && last.id !in front then front + [last.id] else front
  }

  function Problems(wf: WorkflowDef, ids: seq<string>): seq<Problem>
    requires forall id :: id in ids ==> id in wf.steps
  {
    if ids == [] then []
    else
      assert Last(ids) in ids;
      Problems(wf, ids[..|ids| - 1]) + RefProblems(Last(ids), Refs(wf.steps[Last(ids)]), wf.steps.Keys)
  }

  function EdgesOf(wf: WorkflowDef): Edges {
    map id | id in wf.steps :: RefDeps(id, Refs(wf.steps[id]), wf.steps.Keys)
  }

  lemma {:induction false} DepsMeaning(step: string, refs: seq<Ref>, known: set<string>)
    ensures Distinct(RefDeps(step, refs, known))
    ensures forall d :: d in RefDeps(step, refs, known) <==> d in known && d != step && exists r :: r in refs && r.id == d
    decreases |refs|
  {
    if refs != [] {
      DepsMeaning(step, refs[..|refs| - 1], known);
      SplitLast(refs);
    }
  }

  lemma {:induction false} NoRefProblems(step: string, refs: seq<Ref>, known: set<string>)
    ensures RefProblems(step, refs, known) == [] <==> forall r :: r in refs ==> r.id in known && r.id != step
    decreases |refs|
  {
    if refs != [] {
      NoRefProblems(step, refs[..|refs| - 1], known);
      SplitLast(refs);
    }
  }

  lemma {:induction false} NoProblems(wf: WorkflowDef, ids: seq<string>)
    requires forall id :: id in ids ==> id in wf.steps
    ensures Problems(wf, ids) == [] <==>
            forall id, r :: id in ids && r in Refs(wf.steps[id]) ==> r.id in wf.steps && r.id != id
    decreases |ids|
  {
    if ids != [] {
      var last := Last(ids);
      assert last in ids;
      NoProblems(wf, ids[..|ids| - 1]);
      NoRefProblems(last, Refs(wf.steps[last]), wf.steps.Keys);
      SplitLast(ids);
    }
  }

  // ---- references as the workflow writes them

  // The step names d among the steps it waits for, or takes an input from d's output.
  ghost predicate RefersTo(step: StepDef, d: string) {
    d in step.dependsOn || exists x :: x in step.inputs && NamesOutputOf(x.source, d)
  }

  // The reference stands in the step, where its field says.
  ghost predicate StandsIn(step: StepDef, r: Ref) {
    match r.field
    case DependsOn => r.id in step.dependsOn
    case InputField(name) => exists x :: x in step.inputs && x.name == name && NamesOutputOf(x.source, r.id)
  }

  lemma {:induction false} OrderRefsMeaning(ids: seq<string>, r: Ref)
    ensures r in OrderRefs(ids) <==> r.field.DependsOn? && r.id in ids
    decreases |ids|
  {
    if ids != [] {
      OrderRefsMeaning(ids[..|ids| - 1], r);
      SplitLast(ids);
    }
  }

  lemma {:induction false} InputRefsMeaning(inputs: seq<Input>, r: Ref)
    ensures r in InputRefs(inputs) <==>
      r.field.InputField? && exists x :: x in inputs && x.name == r.field.name && NamesOutputOf(x.source, r.id)
    decreases |inputs|
  {
    hide InputSourceStep, NamesOutputOf;
    if inputs != [] {
      var front, last := inputs[..|inputs| - 1], Last(inputs);
      InputRefsMeaning(front, r);
      SplitLast(inputs);
      InputSourceStepIff(last.source, r.id);
      assert forall x :: x in inputs <==> x in front || x == last;
    }
  }

  // Every reference of a step is seen, and nothing else.
  lemma RefsMeaning(step: StepDef, r: Ref)
    ensures r in Refs(step) <==> StandsIn(step, r)
  {
    hide NamesOutputOf, OrderRefs, InputRefs;
    OrderRefsMeaning(step.dependsOn, r);
    InputRefsMeaning(step.inputs, r);
  }

  lemma RefersByRefs(step: StepDef, d: string)
    ensures RefersTo(step, d) <==> exists r :: r in Refs(step) && r.id == d
  {
    hide NamesOutputOf, Refs;
    forall r
      ensures r in Refs(step) <==> StandsIn(step, r)
    {
      RefsMeaning(step, r);
    }
    if d in step.dependsOn {
      assert StandsIn(step, Ref(DependsOn, d));
    }
    forall x | x in step.inputs && NamesOutputOf(x.source, d)
      ensures StandsIn(step, Ref(InputField(x.name), d))
    {}
  }

  ghost predicate WaitsFor(wf: WorkflowDef, id: string, d: string)
    requires id in wf.steps
  {
    d in wf.steps && d != id && RefersTo(wf.steps[id], d)
  }

  // A step's dependencies are the other steps it waits for or draws on, each once.
  lemma EdgesMeaning(wf: WorkflowDef, id: string, d: string)
    requires id in wf.steps
    ensures d in Deps(EdgesOf(wf), id) <==> WaitsFor(wf, id, d)
    ensures Distinct(Deps(EdgesOf(wf), id))
  {
    hide Refs, RefDeps, RefersTo;
    DepsMeaning(id, Refs(wf.steps[id]), wf.steps.Keys);
    RefersByRefs(wf.steps[id], d);
  }

  // Nothing is wrong exactly when every step waits for and draws on other, declared steps.
  lemma SoundReferences(wf: WorkflowDef)
    requires wf.Valid()
    ensures Problems(wf, wf.declared) == [] <==>
            forall id, d :: id in wf.steps && RefersTo(wf.steps[id], d) ==> d in wf.steps && d != id
  {
    hide Refs, Problems, RefersTo;
    NoProblems(wf, wf.declared);
    forall id, d | id in wf.steps
      ensures RefersTo(wf.steps[id], d) <==> exists r :: r in Refs(wf.steps[id]) && r.id == d
    {
      RefersByRefs(wf.steps[id], d);
    }
  }

  ghost predicate IsProblem(wf: WorkflowDef, p: Problem) {
    && p.step in wf.steps && StandsIn(wf.steps[p.step], p.ref)
    && if p.UnknownStep? then p.ref.id !in wf.steps else p.ref.id == p.step
  }

  lemma {:induction false} RefProblemsMeaning(step: string, refs: seq<Ref>, known: set<string>, p: Problem)
    requires step in known
    ensures p in RefProblems(step, refs, known) <==>
      && p.step == step && p.ref in refs
      && if p.UnknownStep? then p.ref.id !in known else p.ref.id == step
    decreases |refs|
  {
    if refs != [] {
      RefProblemsMeaning(step, refs[..|refs| - 1], known, p);
      SplitLast(refs);
    }
  }

  // The report holds exactly the references to unknown steps and the self-references.
  lemma {:induction false} ProblemsMeaning(wf: WorkflowDef, ids: seq<string>, p: Problem)
    requires forall id :: id in ids ==> id in wf.steps
    ensures p in Problems(wf, ids) <==> p.step in ids && IsProblem(wf, p)
    decreases |ids|
  {
    hide Refs, RefProblems, StandsIn;
    if ids != [] {
      var last := Last(ids);
      SplitLast(ids);
      assert last in ids;
      ProblemsMeaning(wf, ids[..|ids| - 1], p);
      RefProblemsMeaning(last, Refs(wf.steps[last]), wf.steps.Keys, p);
      RefsMeaning(wf.steps[last], p.ref);
    }
  }

  // Within a step, what it waits for comes before what it draws on.
  ghost predicate FieldsInOrder(refs: seq<Ref>) {
    forall i, j :: 0 <= i < j < |refs| && refs[i].field.InputField? ==> refs[j].field.InputField?
  }

  ghost predicate NoLater(ids: seq<string>, p: Problem, q: Problem) {
    || DeclaredBefore(ids, p.step, q.step)
    || (p.step == q.step && (p.ref.field.InputField? ==> q.ref.field.InputField?))
  }

  ghost predicate InOrder(ids: seq<string>, ps: seq<Problem>) {
    forall i, j :: 0 <= i < j < |ps| ==> NoLater(ids, ps[i], ps[j])
  }

  lemma RefsInOrder(step: StepDef)
    ensures FieldsInOrder(Refs(step))
  {
    hide OrderRefs, InputRefs;
    forall r
      ensures r in OrderRefs(step.dependsOn) ==> r.field.DependsOn?
      ensures r in InputRefs(step.inputs) ==> r.field.InputField?
    {
      OrderRefsMeaning(step.dependsOn, r);
      InputRefsMeaning(step.inputs, r);
    }
  }

  lemma {:induction false} RefProblemsInOrder(step: string, refs: seq<Ref>, known: set<string>, ids: seq<string>)
    requires step in known && FieldsInOrder(refs)
    ensures InOrder(ids, RefProblems(step, refs, known))
    decreases |refs|
  {
    if refs != [] {
      var front := refs[..|refs| - 1];
      RefProblemsInOrder(step, front, known, ids);
      forall p | p in RefProblems(step, front, known)
        ensures p.step == step && (p.ref.field.InputField? ==> Last(refs).field.InputField?)
      {
        RefProblemsMeaning(step, front, known, p);
        var k :| 0 <= k < |front| && front[k] == p.ref;
        assert refs[k] == p.ref;
      }
      var before, now := RefProblems(step, front, known), RefProblems(step, refs, known);
      forall i, j | 0 <= i < j < |now|
        ensures NoLater(ids, now[i], now[j])
      {
        assert now[i] == before[i];
        if j < |before| {
          assert now[j] == before[j];
        } else {
          assert before[i] in before;
          assert now[j].ref == Last(refs) && now[j].step == step;
        }
      }
    }
  }

  // The report follows the declaration, and within a step the order of its fields.
  lemma {:induction false} ProblemsInOrder(wf: WorkflowDef, ids: seq<string>)
    requires forall id :: id in ids ==> id in wf.steps
    ensures InOrder(ids, Problems(wf, ids))
    decreases |ids|
  {
    hide Refs, RefProblems, FieldsInOrder, IsProblem, NoLater;
    if ids != [] {
      var front, last := ids[..|ids| - 1], Last(ids);
      assert last in ids;
      var here := RefProblems(last, Refs(wf.steps[last]), wf.steps.Keys);
      ProblemsInOrder(wf, front);
      RefsInOrder(wf.steps[last]);
      RefProblemsInOrder(last, Refs(wf.steps[last]), wf.steps.Keys, ids);
      var ps := Problems(wf, ids);
      assert ps == Problems(wf, front) + here;
      forall i, j | 0 <= i < j < |ps|
        ensures NoLater(ids, ps[i], ps[j])
      {
        var n := |ps| - |here|;
        if j < n {
          assert ps[i] == Problems(wf, front)[i] && ps[j] == Problems(wf, front)[j];
          StillNoLater(ids, ps[i], ps[j]);
        } else if n <= i {
          assert ps[i] == here[i - n] && ps[j] == here[j - n];
        } else {
          assert ps[i] == Problems(wf, front)[i] && ps[j] == here[j - n];
          assert ps[j] in here;
          ProblemsMeaning(wf, front, ps[i]);
          RefProblemsMeaning(last, Refs(wf.steps[last]), wf.steps.Keys, ps[j]);
          BeforeTheLast(ids, ps[i], ps[j]);
        }
      }
    }
  }

  lemma StillNoLater(ids: seq<string>, p: Problem, q: Problem)
    requires ids != [] && NoLater(ids[..|ids| - 1], p, q)
    ensures NoLater(ids, p, q)
  {
    var front := ids[..|ids| - 1];
    if i, j :| 0 <= i < j < |front| && front[i] == p.step && front[j] == q.step {
      assert ids[i] == p.step && ids[j] == q.step;
    }
  }

  lemma BeforeTheLast(ids: seq<string>, p: Problem, q: Problem)
    requires ids != [] && p.step in ids[..|ids| - 1] && q.step == Last(ids)
    ensures NoLater(ids, p, q)
  {
    var i :| 0 <= i < |ids| - 1 && ids[i] == p.step;
  }

  // One step's pass over its references.
  method CollectDeps(wf: WorkflowDef, stepId: string, found: seq<Problem>)
    returns (problems: seq<Problem>, deps: seq<string>)
    requires stepId in wf.steps
    ensures problems == found + RefProblems(stepId, Refs(wf.steps[stepId]), wf.steps.Keys)
    ensures deps == RefDeps(stepId, Refs(wf.steps[stepId]), wf.steps.Keys)
  {
    hide InputSourceStep, RefProblems, RefDeps, OrderRefs, InputRefs;
    NoRefs(stepId, wf.steps.Keys);
    problems := found;
    deps := [];
    var step := wf.steps[stepId];
    for i := 0 to |step.dependsOn|
      invariant problems == found + RefProblems(stepId, OrderRefs(step.dependsOn[..i]), wf.steps.Keys)
      invariant deps == RefDeps(stepId, OrderRefs(step.dependsOn[..i]), wf.steps.Keys)
    {
      var ref := step.dependsOn[i];
      OrderRefsGrow(step.dependsOn, i);
      RefStep(stepId, OrderRefs(step.dependsOn[..i]), Ref(DependsOn, ref), wf.steps.Keys);
      if ref !in wf.steps {
        problems := problems + [UnknownStep(stepId, Ref(DependsOn, ref))];
      } else if ref == stepId {
        problems := problems + [SelfDependency(stepId, Ref(DependsOn, ref))];
      } else if ref !in deps {
        deps := deps + [ref];
      }
    }
    assert step.dependsOn[..|step.dependsOn|] == step.dependsOn;
    ghost var ordering := OrderRefs(step.dependsOn);
    assert step.inputs[..0] == [] && ordering + [] == ordering;
    for i := 0 to |step.inputs|
      invariant problems == found + RefProblems(stepId, ordering + InputRefs(step.inputs[..i]), wf.steps.Keys)
      invariant deps == RefDeps(stepId, ordering + InputRefs(step.inputs[..i]), wf.steps.Keys)
    {
      var input := step.inputs[i];
      InputRefsGrow(step.inputs, ordering, i);
      var src := InputSourceStep(input.source);
      if src.Some? {
        var ref := Ref(InputField(input.name), src.value);
        RefStep(stepId, ordering + InputRefs(step.inputs[..i]), ref, wf.steps.Keys);
        if src.value !in wf.steps {
          problems := problems + [UnknownStep(stepId, ref)];
        } else if src.value == stepId {
          problems := problems + [SelfDependency(stepId, ref)];
        } else if src.value !in deps {
          deps := deps + [src.value];
        }
      }
    }
    assert step.inputs[..|step.inputs|] == step.inputs;
  }

  // Exactly what is wrong, in order.
  ghost predicate IsReport(wf: WorkflowDef, ps: seq<Problem>) {
    (forall p :: p in ps <==> IsProblem(wf, p)) && InOrder(wf.declared, ps)
  }

  // For each step, the other steps it waits for or draws on.
  ghost predicate AreEdges(wf: WorkflowDef, edges: Edges) {
    && edges.Keys == wf.steps.Keys
    && forall id, d :: id in wf.steps ==> (d in Deps(edges, id) <==> WaitsFor(wf, id, d))
  }

  method StepEdges(wf: WorkflowDef) returns (r: Result<Edges, seq<Problem>>)
    requires wf.Valid()
    ensures r.Err? <==> Problems(wf, wf.declared) != []
    ensures r.Err? ==> r.error == Problems(wf, wf.declared)
    ensures r.Err? ==> IsReport(wf, r.error)
    ensures r.Ok? ==> r.value == EdgesOf(wf) && AreEdges(wf, r.value)
  {
    hide Refs, RefProblems, RefDeps, Problems, EdgesOf, IsReport, AreEdges;
    NoSteps(wf);
    var problems: seq<Problem> := [];
    var edges: Edges := map[];
    for s := 0 to |wf.declared|
      invariant problems == Problems(wf, wf.declared[..s])
      invariant forall id :: id in edges <==> id in wf.declared[..s]
      invariant forall id :: id in edges ==> id in wf.steps && edges[id] == RefDeps(id, Refs(wf.steps[id]), wf.steps.Keys)
    {
      var stepId := wf.declared[s];
      var deps;
      problems, deps := CollectDeps(wf, stepId, problems);
      ProblemsGrow(wf, s);
      edges := edges[stepId := deps];
    }
    assert wf.declared[..|wf.declared|] == wf.declared;
    ReportAsWritten(wf);
    EdgesAsWritten(wf);
    SameEdges(wf, edges);
    r := if problems != [] then Err(problems) else Ok(edges);
  }

  lemma SameEdges(wf: WorkflowDef, edges: Edges)
    requires wf.Valid()
    requires forall id :: id in edges <==> id in wf.declared
    requires forall id :: id in edges ==> id in wf.steps && edges[id] == RefDeps(id, Refs(wf.steps[id]), wf.steps.Keys)
    ensures edges == EdgesOf(wf)
  {
    hide Refs, RefDeps;
    assert edges.Keys == wf.steps.Keys == EdgesOf(wf).Keys by {
      assert forall id :: id in edges.Keys <==> id in wf.steps.Keys;
    }
  }

  lemma EdgeKeys(wf: WorkflowDef)
    ensures EdgesOf(wf).Keys == wf.steps.Keys
  {}

  lemma ReportAsWritten(wf: WorkflowDef)
    requires wf.Valid()
    ensures IsReport(wf, Problems(wf, wf.declared))
  {
    hide Problems, IsProblem, InOrder;
    ProblemsInOrder(wf, wf.declared);
    forall p
      ensures p in Problems(wf, wf.declared) <==> IsProblem(wf, p)
    {
      ProblemsMeaning(wf, wf.declared, p);
      if IsProblem(wf, p) {
        StepsKnown(wf, p);
      }
    }
  }

  lemma StepsKnown(wf: WorkflowDef, p: Problem)
    requires wf.Valid() && IsProblem(wf, p)
    ensures p.step in wf.declared
  {}

  lemma EdgesAsWritten(wf: WorkflowDef)
    requires wf.Valid()
    ensures AreEdges(wf, EdgesOf(wf))
  {
    hide WaitsFor, Deps, EdgesOf;
    EdgeKeys(wf);
    forall id, d | id in wf.steps
      ensures d in Deps(EdgesOf(wf), id) <==> WaitsFor(wf, id, d)
    {
      EdgesMeaning(wf, id, d);
    }
  }

  lemma NoSteps(wf: WorkflowDef)
    ensures Problems(wf, []) == []
  {}

  lemma ProblemsGrow(wf: WorkflowDef, s: nat)
    requires s < |wf.declared| && forall id :: id in wf.declared ==> id in wf.steps
    ensures var id := wf.declared[s];
      Problems(wf, wf.declared[..s + 1]) == Problems(wf, wf.declared[..s]) + RefProblems(id, Refs(wf.steps[id]), wf.steps.Keys)
    ensures wf.declared[..s + 1] == wf.declared[..s] + [wf.declared[s]]
  {
    assert wf.declared[..s + 1][..s] == wf.declared[..s];
  }

  lemma NoRefs(step: string, known: set<string>)
    ensures RefProblems(step, [], known) == [] && RefDeps(step, [], known) == []
    ensures OrderRefs([]) == [] && InputRefs([]) == []
  {}

  lemma RefStep(step: string, refs: seq<Ref>, ref: Ref, known: set<string>)
    ensures var p := ProblemOf(step, ref, known);
      var front := RefProblems(step, refs, known);
      RefProblems(step, refs + [ref], known) == if p.Some? then front + [p.value] else front
    ensures var front := RefDeps(step, refs, known);
      RefDeps(step, refs + [ref], known) ==
      if ProblemOf(step, ref, known).None? && ref.id !in front then front + [ref.id] else front
  {}

  lemma OrderRefsGrow(ids: seq<string>, i: nat)
    requires i < |ids|
    ensures OrderRefs(ids[..i + 1]) == OrderRefs(ids[..i]) + [Ref(DependsOn, ids[i])]
  {
    assert ids[..i + 1][..i] == ids[..i];
  }

  lemma InputRefsGrow(inputs: seq<Input>, front: seq<Ref>, i: nat)
    requires i < |inputs|
    ensures var src := InputSourceStep(inputs[i].source);
      var less, more := front + InputRefs(inputs[..i]), front + InputRefs(inputs[..i + 1]);
      more == if src.Some? then less + [Ref(InputField(inputs[i].name), src.value)] else less
  {
    assert inputs[..i + 1][..i] == inputs[..i];
  }

  // ---------------------------------------------------------------- topological order

  ghost predicate Ready(edges: Edges, done: seq<string>, s: string) {
    s !in done && forall d :: d in Deps(edges, s) ==> d in done
  }

  // Each step comes after its dependencies.
  ghost predicate DepsFirst(edges: Edges, order: seq<string>) {
    forall i :: 0 <= i < |order| ==> forall d :: d in Deps(edges, order[i]) ==> d in order[..i]
  }

  // s is the first step of the declaration that is ready once `done` has run.
  ghost predicate FirstReady(nodes: seq<string>, edges: Edges, done: seq<string>, s: string) {
    exists k :: 0 <= k < |nodes| && nodes[k] == s && Ready(edges, done, s)
                && forall j :: 0 <= j < k ==> !Ready(edges, done, nodes[j])
  }

  // All steps, each once, dependencies first.
  ghost predicate IsSchedule(nodes: seq<string>, edges: Edges, order: seq<string>) {
    Distinct(order) && |order| == |nodes| && (forall s :: s in order <==> s in nodes) && DepsFirst(edges, order)
  }

  // At the first difference, `a` runs the step declared earlier.
  ghost predicate LexBefore(nodes: seq<string>, a: seq<string>, b: seq<string>) {
    exists k :: 0 <= k < |a| && k < |b| && a[..k] == b[..k] && DeclaredBefore(nodes, a[k], b[k])
  }

  // Among all schedules, the first in the order of declaration.
  ghost predicate LeastSchedule(nodes: seq<string>, edges: Edges, order: seq<string>) {
    IsSchedule(nodes, edges, order)
    && forall other :: IsSchedule(nodes, edges, other) ==> other == order || LexBefore(nodes, order, other)
  }

  // The steps lying on a cycle, in declaration order.
  ghost function OnCycles(nodes: seq<string>, edges: Edges): set<string> {
    set s | s in nodes && Reaches(edges, s, s)
  }

  // ---------------------------------------------------------------- cycle search

  // What the search knows: everything it has seen is reachable, and it has missed nothing.
  ghost predicate Searching(edges: Edges, within: set<string>, start: string, visited: set<string>, stack: seq<string>) {
    && visited <= within && start !in visited
    && (forall x :: x in stack ==> x in within && ReachesIn(edges, within, start, x))
    && (forall x :: x in visited ==> ReachesIn(edges, within, start, x))
    && (forall d :: d in DepsWithin(edges, within, start) ==> d in visited || d in stack)
    && (forall x, d :: x in visited && d in DepsWithin(edges, within, x) ==> d in visited || d in stack)
  }

  lemma SearchStarts(edges: Edges, within: set<string>, start: string)
    ensures Searching(edges, within, start, {}, DepsWithin(edges, within, start))
  {
    hide ReachesIn;
    forall d | d in DepsWithin(edges, within, start)
      ensures ReachesIn(edges, within, start, d)
    {
      ReachesInDep(edges, within, start, d);
    }
  }

  lemma SearchPops(
    edges: Edges, within: set<string>, start: string, visited: set<string>, stack: seq<string>, rest: seq<string>, node: string)
    requires Searching(edges, within, start, visited, stack) && stack == rest + [node]
    ensures node in within && ReachesIn(edges, within, start, node)
    ensures node in visited ==> Searching(edges, within, start, visited, rest)
    ensures node !in visited && node != start ==>
      Searching(edges, within, start, visited + {node}, rest + DepsWithin(edges, within, node))
  {
    hide ReachesIn, DepsWithin;
    forall d | d in DepsWithin(edges, within, node)
      ensures ReachesIn(edges, within, start, d)
    {
      ReachesInSnoc(edges, within, start, node, d);
    }
  }

  lemma SearchEnds(edges: Edges, within: set<string>, start: string, visited: set<string>)
    requires Searching(edges, within, start, visited, [])
    ensures !ReachesIn(edges, within, start, start)
  {
    hide ReachesIn;
    forall x, d | x in visited && d in Deps(edges, x) && d in within
      ensures d in visited
    {
      assert d in DepsWithin(edges, within, x);
    }
    forall d | d in Deps(edges, start) && d in within
      ensures d in visited
    {
      assert d in DepsWithin(edges, within, start);
    }
    ClosedAvoids(edges, within, visited, start, start);
  }

  // Depth-first search for a way back to `start` inside `within`.
  method ReachesItself(edges: Edges, within: set<string>, start: string) returns (found: bool)
    ensures found <==> ReachesIn(edges, within, start, start)
  {
    hide ReachesIn, Searching, DepsWithin;
    var stack := DepsWithin(edges, within, start);
    var visited: set<string> := {};
    SearchStarts(edges, within, start);
    while stack != []
      invariant Searching(edges, within, start, visited, stack)
      decreases within - visited, |stack|
    {
      var node := stack[|stack| - 1];
      SplitLast(stack);
      SearchPops(edges, within, start, visited, stack, stack[..|stack| - 1], node);
      stack := stack[..|stack| - 1];
      if node == start {
        return true;
      }
      if node !in visited {
        visited := visited + {node};
        stack := stack + DepsWithin(edges, within, node);
      }
    }
    SearchEnds(edges, within, start, visited);
    found := false;
  }

  function DepsWithin(edges: Edges, within: set<string>, s: string): (r: seq<string>)
    ensures forall d :: d in r <==> d in Deps(edges, s) && d in within
  {
    Keep(Deps(edges, s), within)
  }

  function Keep(s: seq<string>, within: set<string>): (r: seq<string>)
    ensures forall d :: d in r <==> d in s && d in within
  {
    if s == [] then []
    else
      assert s == [s[0]] + s[1..];
      if s[0] in within then [s[0]] + Keep(s[1..], within) else Keep(s[1..], within)
  }

  lemma {:induction false} KeepKeep(s: seq<string>, a: set<string>, b: set<string>)
    requires b <= a
    ensures Keep(Keep(s, a), b) == Keep(s, b)
    decreases |s|
  {
    if s != [] {
      KeepKeep(s[1..], a, b);
      if s[0] in a {
        assert ([s[0]] + Keep(s[1..], a))[1..] == Keep(s[1..], a);
      }
    }
  }

  lemma {:induction false} KeepSame(s: seq<string>, a: set<string>, b: set<string>)
    requires forall x :: x in s ==> (x in a <==> x in b)
    ensures Keep(s, a) == Keep(s, b)
    decreases |s|
  {
    if s != [] {
      KeepSame(s[1..], a, b);
    }
  }

  lemma {:induction false} KeepSnoc(s: seq<string>, x: string, a: set<string>)
    ensures Keep(s + [x], a) == if x in a then Keep(s, a) + [x] else Keep(s, a)
    decreases |s|
  {
    if s != [] {
      assert (s + [x])[1..] == s[1..] + [x];
      KeepSnoc(s[1..], x, a);
    }
  }

  // ---------------------------------------------------------------- the schedule

  lemma PathStaysBehind(edges: Edges, order: seq<string>, p: seq<string>, i: nat)
    requires DepsFirst(edges, order) && IsPath(edges, p) && i < |order| && p[0] == order[i]
    ensures |p| > 1 ==> Last(p) in order[..i]
    decreases |p|
  {
    if |p| > 1 {
      assert Hop(edges, p, 0);
      var j :| 0 <= j < i && order[..i][j] == p[1];
      PathSuffix(edges, p, 1);
      PathStaysBehind(edges, order, p[1..], j);
    }
  }

  // Nothing already scheduled lies on a cycle.
  lemma ScheduledIsAcyclic(edges: Edges, order: seq<string>, s: string)
    requires DepsFirst(edges, order) && Distinct(order) && s in order
    ensures !Reaches(edges, s, s)
  {
    hide IsPath, DepsFirst;
    var i :| 0 <= i < |order| && order[i] == s;
    forall p | PathBetween(edges, p, s, s)
      ensures false
    {
      PathStaysBehind(edges, order, p, i);
    }
  }

  ghost predicate DepsKnown(nodes: seq<string>, edges: Edges) {
    forall x, d :: x in nodes && d in Deps(edges, x) ==> d in nodes
  }

  // Every cycle avoids what is scheduled, so it shows up among the remaining steps.
  lemma CycleRemains(edges: Edges, nodes: seq<string>, order: seq<string>, rem: set<string>, s: string)
    requires DepsFirst(edges, order) && Distinct(order)
    requires DepsKnown(nodes, edges)
    requires forall x :: x in rem <==> x in nodes && x !in order
    requires s in nodes
    ensures Reaches(edges, s, s) <==> s in rem && ReachesIn(edges, rem, s, s)
  {
    if Reaches(edges, s, s) {
      var p :| PathBetween(edges, p, s, s);
      if s in order {
        ScheduledIsAcyclic(edges, order, s);
      } else {
        forall i | 0 <= i < |p|
          ensures p[i] in rem
        {
          PathInNodes(edges, nodes, p, i);
          if p[i] in order {
            var k :| 0 <= k < |order| && order[k] == p[i];
            PathSuffix(edges, p, i);
            PathStaysBehind(edges, order, p[i..], k);
          }
        }
        assert ReachesIn(edges, rem, s, s);
      }
    }
    if ReachesIn(edges, rem, s, s) {
      var p :| PathBetween(edges, p, s, s);
      assert Reaches(edges, s, s);
    }
  }

  lemma PathInNodes(edges: Edges, nodes: seq<string>, p: seq<string>, i: nat)
    requires IsPath(edges, p) && i < |p| && p[0] in nodes
    requires DepsKnown(nodes, edges)
    ensures p[i] in nodes
    decreases i
  {
    if i > 0 {
      PathInNodes(edges, nodes, p, i - 1);
      assert Hop(edges, p, i - 1);
    }
  }

  // A partial schedule: each step was the first ready one when it was chosen.
  ghost predicate Greedy(nodes: seq<string>, edges: Edges, order: seq<string>) {
    && Distinct(order) && DepsFirst(edges, order)
    && (forall i :: 0 <= i < |order| ==> FirstReady(nodes, edges, order[..i], order[i]))
    && forall s :: s in order ==> s in nodes
  }

  lemma GreedyStep(nodes: seq<string>, edges: Edges, order: seq<string>, s: string)
    requires Greedy(nodes, edges, order) && FirstReady(nodes, edges, order, s)
    ensures Greedy(nodes, edges, order + [s])
  {
    var next := order + [s];
    forall i | 0 <= i < |next|
      ensures FirstReady(nodes, edges, next[..i], next[i])
      ensures forall d :: d in Deps(edges, next[i]) ==> d in next[..i]
    {
      assert next[..i] == order[..i];
      if i == |order| {
        assert order[..i] == order;
      }
    }
  }

  // A complete greedy schedule precedes every other schedule at their first difference.
  lemma GreedyIsLeast(nodes: seq<string>, edges: Edges, order: seq<string>, other: seq<string>)
    requires Distinct(nodes) && Greedy(nodes, edges, order) && |order| == |nodes|
    requires IsSchedule(nodes, edges, other)
    ensures other == order || LexBefore(nodes, order, other)
  {
    hide FirstReady, Ready, DepsFirst;
    var k := FirstDifference(order, other, 0);
    if k < |order| {
      ReadyWhenRun(edges, other, k);
      EarliestReady(nodes, edges, order[..k], order[k], other[k]);
    }
  }

  lemma ReadyWhenRun(edges: Edges, order: seq<string>, k: nat)
    requires Distinct(order) && DepsFirst(edges, order) && k < |order|
    ensures Ready(edges, order[..k], order[k])
  {}

  lemma EarliestReady(nodes: seq<string>, edges: Edges, done: seq<string>, s: string, t: string)
    requires FirstReady(nodes, edges, done, s) && Ready(edges, done, t) && t in nodes && s != t
    ensures DeclaredBefore(nodes, s, t)
  {}

  ghost function FirstDifference(a: seq<string>, b: seq<string>, k: nat): (r: nat)
    requires |a| == |b| && k <= |a| && a[..k] == b[..k]
    ensures r <= |a| && a[..r] == b[..r]
    ensures r < |a| ==> a[r] != b[r]
    ensures r == |a| ==> a == b
    decreases |a| - k
  {
    if k == |a| then
      assert a[..k] == a && b[..k] == b;
      k
    else if a[k] != b[k] then k
    else
      assert a[..k + 1] == a[..k] + [a[k]] && b[..k + 1] == b[..k] + [b[k]];
      FirstDifference(a, b, k + 1)
  }

  lemma {:induction false} SameLengthSameSteps(a: seq<string>, b: seq<string>)
    requires Distinct(a) && Distinct(b) && |a| == |b| && forall x :: x in a ==> x in b
    ensures forall x :: x in b ==> x in a
    decreases |a|
  {
    if a != [] {
      assert a[0] in a && a[0] in b;
      var j :| 0 <= j < |b| && b[j] == a[0];
      var b' := b[..j] + b[j + 1..];
      assert forall x :: x in b ==> x == a[0] || x in b';
      assert forall x :: x in a[1..] ==> x in a && x != a[0];
      SameLengthSameSteps(a[1..], b');
    }
  }

  lemma CompleteGreedy(nodes: seq<string>, edges: Edges, order: seq<string>)
    requires Distinct(nodes) && Greedy(nodes, edges, order) && |order| == |nodes|
    ensures LeastSchedule(nodes, edges, order) && OnCycles(nodes, edges) == {}
  {
    hide Reaches, FirstReady, DepsFirst, LexBefore;
    SameLengthSameSteps(order, nodes);
    forall other | IsSchedule(nodes, edges, other)
      ensures other == order || LexBefore(nodes, order, other)
    {
      GreedyIsLeast(nodes, edges, order, other);
    }
    forall s | s in nodes
      ensures !Reaches(edges, s, s)
    {
      ScheduledIsAcyclic(edges, order, s);
    }
  }

  // With steps left and none ready, the steps on cycles are those of the remainder that
  // reach themselves inside it, and there is one.
  lemma StuckHasCycle(nodes: seq<string>, edges: Edges, order: seq<string>, rem: set<string>)
    requires Distinct(nodes) && Greedy(nodes, edges, order) && |order| < |nodes|
    requires DepsKnown(nodes, edges)
    requires forall x :: x in nodes ==> !Ready(edges, order, x)
    requires forall x :: x in rem <==> x in nodes && x !in order
    ensures OnCycles(nodes, edges) != {} && OnCycles(nodes, edges) <= rem
    ensures forall s :: s in OnCycles(nodes, edges) <==> s in rem && ReachesIn(edges, rem, s, s)
  {
    hide Reaches, ReachesIn, FirstReady, Ready, DepsKnown, BlockedIn;
    forall s | s in nodes
      ensures Reaches(edges, s, s) <==> s in rem && ReachesIn(edges, rem, s, s)
    {
      CycleRemains(edges, nodes, order, rem, s);
    }
    var x := Leftover(nodes, order);
    forall y | y in rem
      ensures BlockedIn(edges, rem, y)
    {
      NotReadyIsBlocked(nodes, edges, order, rem, y);
    }
    SingletonPath(edges, x);
    var s := WalkFindsCycle(edges, rem, [x]);
    assert s in OnCycles(nodes, edges);
  }

  lemma NotReadyIsBlocked(nodes: seq<string>, edges: Edges, order: seq<string>, rem: set<string>, y: string)
    requires y in rem && !Ready(edges, order, y) && DepsKnown(nodes, edges)
    requires forall x :: x in rem <==> x in nodes && x !in order
    ensures BlockedIn(edges, rem, y)
  {}

  lemma SingletonPath(edges: Edges, x: string)
    ensures IsPath(edges, [x])
  {}

  lemma {:induction false} Leftover(nodes: seq<string>, order: seq<string>) returns (x: string)
    requires Distinct(nodes) && |order| < |nodes|
    ensures x in nodes && x !in order
  {
    var inOrder := set y | y in order;
    SetSize(order);
    if forall y :: y in nodes ==> y in order {
      DistinctFits(nodes, inOrder);
    }
    x :| x in nodes && x !in order;
  }

  lemma {:induction false} SetSize(s: seq<string>)
    ensures |set y | y in s| <= |s|
    decreases |s|
  {
    if s != [] {
      SetSize(s[1..]);
      assert (set y | y in s) == (set y | y in s[1..]) + {s[0]};
    }
  }

  // The steps of the remainder that lie on a cycle inside it; all of them if there is none.
  method CycleMembers(edges: Edges, remaining: seq<string>) returns (members: seq<string>)
    ensures var rem := set s | s in remaining;
      var cyclic := set s | s in remaining && ReachesIn(edges, rem, s, s);
      members == if Keep(remaining, cyclic) != [] then Keep(remaining, cyclic) else remaining
  {
    hide ReachesIn;
    var rem := set s | s in remaining;
    ghost var cyclic := set s | s in remaining && ReachesIn(edges, rem, s, s);
    members := [];
    for i := 0 to |remaining|
      invariant members == Keep(remaining[..i], cyclic)
    {
      var found := ReachesItself(edges, rem, remaining[i]);
      KeepSnoc(remaining[..i], remaining[i], cyclic);
      assert remaining[..i + 1] == remaining[..i] + [remaining[i]];
      if found {
        members := members + [remaining[i]];
      }
    }
    assert remaining[..|remaining|] == remaining;
    if members == [] {
      members := remaining;
    }
  }

  method NextReady(nodes: seq<string>, edges: Edges, order: seq<string>, scheduled: set<string>) returns (ready: Option<string>)
    requires forall s :: s in scheduled <==> s in order
    ensures ready.Some? ==> FirstReady(nodes, edges, order, ready.value)
    ensures ready.None? ==> forall s :: s in nodes ==> !Ready(edges, order, s)
  {
    for k := 0 to |nodes|
      invariant forall j :: 0 <= j < k ==> !Ready(edges, order, nodes[j])
    {
      var s := nodes[k];
      if s !in scheduled && forall d :: d in Deps(edges, s) ==> d in scheduled {
        assert Ready(edges, order, s);
        return Some(s);
      }
    }
    ready := None;
  }

  method TopoOrder(wf: WorkflowDef) returns (r: Result<seq<string>, OrderError>)
    requires wf.Valid()
    ensures Problems(wf, wf.declared) != [] ==> r == Err(BadReferences(Problems(wf, wf.declared)))
    ensures Problems(wf, wf.declared) == [] ==>
      var nodes, edges := wf.declared, EdgesOf(wf);
      if HasCycle(edges, nodes)
      then r == Err(Cycle(Keep(nodes, OnCycles(nodes, edges)))) && r.error.members != []
      else r.Ok? && LeastSchedule(nodes, edges, r.value)
  {
    hide Problems, Ready, FirstReady, Reaches, ReachesIn, LeastSchedule, Greedy, Keep;
    var found := StepEdges(wf);
    if found.Err? {
      return Err(BadReferences(found.error));
    }
    var edges := found.value;
    var declaration := wf.declared;
    EdgesKnown(wf);
    var scheduled: set<string> := {};
    var order: seq<string> := [];
    NothingScheduled(declaration, edges);
    while |order| < |declaration|
      invariant |order| <= |declaration| && Greedy(declaration, edges, order)
      invariant forall s :: s in scheduled <==> s in order
      decreases |declaration| - |order|
    {
      var ready := NextReady(declaration, edges, order, scheduled);
      if ready.None? {
        var remaining := Keep(declaration, (set s | s in declaration) - scheduled);
        var members := CycleMembers(edges, remaining);
        assert scheduled == set s | s in order;
        StuckMembers(declaration, edges, order, remaining, members);
        return Err(Cycle(members));
      }
      GreedyStep(declaration, edges, order, ready.value);
      scheduled := scheduled + {ready.value};
      order := order + [ready.value];
    }
    CompleteGreedy(declaration, edges, order);
    NoCycles(declaration, edges);
    r := Ok(order);
  }

  lemma NothingScheduled(nodes: seq<string>, edges: Edges)
    ensures Greedy(nodes, edges, [])
  {}

  lemma NoCycles(nodes: seq<string>, edges: Edges)
    ensures HasCycle(edges, nodes) <==> OnCycles(nodes, edges) != {}
  {
    hide Reaches;
    if HasCycle(edges, nodes) {
      var s :| s in nodes && Reaches(edges, s, s);
      assert s in OnCycles(nodes, edges);
    } else {
      assert forall s :: s !in OnCycles(nodes, edges);
    }
  }

  lemma EdgesKnown(wf: WorkflowDef)
    requires wf.Valid()
    ensures DepsKnown(wf.declared, EdgesOf(wf))
  {
    forall x, d | x in wf.declared && d in Deps(EdgesOf(wf), x)
      ensures d in wf.declared
    {
      DepsMeaning(x, Refs(wf.steps[x]), wf.steps.Keys);
    }
  }

  lemma StuckMembers(nodes: seq<string>, edges: Edges, order: seq<string>, remaining: seq<string>, members: seq<string>)
    requires Distinct(nodes) && Greedy(nodes, edges, order) && |order| < |nodes| && DepsKnown(nodes, edges)
    requires forall x :: x in nodes ==> !Ready(edges, order, x)
    requires remaining == Keep(nodes, (set s | s in nodes) - (set s | s in order))
    requires var rem := set s | s in remaining;
      var cyclic := set s | s in remaining && ReachesIn(edges, rem, s, s);
      members == if Keep(remaining, cyclic) != [] then Keep(remaining, cyclic) else remaining
    ensures HasCycle(edges, nodes)
    ensures members == Keep(nodes, OnCycles(nodes, edges)) && members != []
  {
    hide Reaches, ReachesIn, Ready, Greedy, DepsKnown, HasCycle;
    var rem := set s | s in remaining;
    var cyclic := set s | s in remaining && ReachesIn(edges, rem, s, s);
    StuckHasCycle(nodes, edges, order, rem);
    assert cyclic == OnCycles(nodes, edges);
    KeepSame(nodes, (set s | s in nodes) - (set s | s in order), rem);
    KeepKeep(nodes, rem, cyclic);
    var s :| s in cyclic;
    assert s in Keep(nodes, cyclic);
    NoCycles(nodes, edges);
  }

  // ---------------------------------------------------------------- failure propagation

  datatype StepStatus = SKIPPED | SUCCESS | FAILED | BLOCKED | CANCELLED

  // What the steps after position k become when order[k] fails.
  ghost function AfterFailure(edges: Edges, failed: string, s: string): StepStatus {
    if Reaches(edges, s, failed) then BLOCKED else SKIPPED
  }

  function Position(order: seq<string>, s: string): (r: Option<nat>)
    ensures r.None? <==> s !in order
    ensures r.Some? ==> r.value < |order| && order[r.value] == s && s !in order[..r.value]
  {
    if order == [] then None
    else
      assert order == [order[0]] + order[1..];
      if order[0] == s then Some(0)
      else
        var r := Position(order[1..], s);
        if r.None? then None
        else
          assert order[..r.value + 1] == [order[0]] + order[1..][..r.value];
          Some(r.value + 1)
  }

  method PropagateFailure(order: seq<string>, edges: Edges, failed: string)
    returns (r: Result<map<string, StepStatus>, string>)
    requires Distinct(order) && DepsFirst(edges, order)
    ensures r.Err? <==> failed !in order
    ensures r.Ok? ==>
      var k := Position(order, failed).value;
      && (forall s :: s in r.value <==> s in order[k + 1..])
      && forall s :: s in r.value ==> r.value[s] == AfterFailure(edges, failed, s)
  {
    hide Reaches, DepsFirst, IsPath, Distinct, Spreading;
    var position := Position(order, failed);
    if position.None? {
      return Err("failed step is not in the execution order");
    }
    var k := position.value;
    var poisoned: set<string> := {failed};
    var statuses: map<string, StepStatus> := map[];
    NothingSpread(order, edges, k);
    for i := k + 1 to |order|
      invariant Spreading(order, edges, k, i, poisoned, statuses)
    {
      var stepId := order[i];
      SpreadNext(order, edges, k, i, poisoned, statuses);
      if exists d :: d in Deps(edges, stepId) && d in poisoned {
        poisoned := poisoned + {stepId};
        statuses := statuses[stepId := BLOCKED];
      } else {
        statuses := statuses[stepId := SKIPPED];
      }
    }
    AllSpread(order, edges, k, poisoned, statuses);
    r := Ok(statuses);
  }

  // The steps after the failed one and before the i-th have their status, and the poisoned ones are
  // those that depend on the failure.
  ghost predicate Spreading(order: seq<string>, edges: Edges, k: nat, i: nat, poisoned: set<string>, statuses: map<string, StepStatus>)
    requires k < i <= |order|
  {
    && (forall s :: s in poisoned <==> s == order[k] || (s in order[k + 1..i] && Reaches(edges, s, order[k])))
    && (forall s :: s in statuses <==> s in order[k + 1..i])
    && forall s :: s in statuses ==> statuses[s] == AfterFailure(edges, order[k], s)
  }

  lemma NothingSpread(order: seq<string>, edges: Edges, k: nat)
    requires k < |order|
    ensures Spreading(order, edges, k, k + 1, {order[k]}, map[])
  {}

  lemma SpreadNext(order: seq<string>, edges: Edges, k: nat, i: nat, poisoned: set<string>, statuses: map<string, StepStatus>)
    requires Distinct(order) && DepsFirst(edges, order) && k < i < |order| && Spreading(order, edges, k, i, poisoned, statuses)
    ensures
      if exists d :: d in Deps(edges, order[i]) && d in poisoned
      then Spreading(order, edges, k, i + 1, poisoned + {order[i]}, statuses[order[i] := BLOCKED])
      else Spreading(order, edges, k, i + 1, poisoned, statuses[order[i] := SKIPPED])
  {
    hide Reaches, DepsFirst, IsPath, Distinct;
    PoisonedDeps(order, edges, k, i, poisoned);
    assert order[k + 1..i + 1] == order[k + 1..i] + [order[i]];
  }

  lemma AllSpread(order: seq<string>, edges: Edges, k: nat, poisoned: set<string>, statuses: map<string, StepStatus>)
    requires k < |order| && Spreading(order, edges, k, |order|, poisoned, statuses)
    ensures forall s :: s in statuses <==> s in order[k + 1..]
    ensures forall s :: s in statuses ==> statuses[s] == AfterFailure(edges, order[k], s)
  {
    hide Reaches;
    assert order[k + 1..|order|] == order[k + 1..];
  }

  // A step depends on the failure exactly when one of its dependencies is poisoned.
  lemma PoisonedDeps(order: seq<string>, edges: Edges, k: nat, i: nat, poisoned: set<string>)
    requires Distinct(order) && DepsFirst(edges, order) && k < i < |order|
    requires forall s :: s in poisoned <==> s == order[k] || (s in order[k + 1..i] && Reaches(edges, s, order[k]))
    ensures (exists d :: d in Deps(edges, order[i]) && d in poisoned) <==> Reaches(edges, order[i], order[k])
  {
    hide Reaches, DepsFirst, IsPath;
    if d :| d in Deps(edges, order[i]) && d in poisoned {
      if d == order[k] {
        ReachesDep(edges, order[i], d);
      } else {
        ReachesVia(edges, order[i], d, order[k]);
      }
    }
    if Reaches(edges, order[i], order[k]) {
      FirstHop(edges, order[i], order[k]);
      var d :| d in Deps(edges, order[i]) && (d == order[k] || Reaches(edges, d, order[k]));
      DepBetween(order, edges, k, i, d);
    }
  }

  lemma DepBetween(order: seq<string>, edges: Edges, k: nat, i: nat, d: string)
    requires Distinct(order) && DepsFirst(edges, order) && k < i < |order| && d in Deps(edges, order[i])
    requires d == order[k] || Reaches(edges, d, order[k])
    ensures d == order[k] || d in order[k + 1..i]
  {
    hide IsPath;
    var j :| 0 <= j < i && order[..i][j] == d;
    if j < k {
      var p :| PathBetween(edges, p, d, order[k]);
      PathStaysBehind(edges, order, p, j);
    } else if j > k {
      assert order[k + 1..i][j - k - 1] == d;
    }
  }
}
