// The serial step loops of workflow runs and of orchestrated executions. Both are proved
// against one description of how a run ends, indexed by the first turn that is not a success.
module RunLoop {
  import opened Wrappers
  import opened Seqs
  import opened Workflows
  import opened Graphs
  import opened Scheduler

  datatype Outcome = Succeeded | WasCancelled | Failed(timeout: bool)

  // What the environment does around one step: cancellation and deadline seen before it, an
  // error before launch (working directory, rendering, prompt size), the agent's outcome, and
  // the deadline seen after it.
  datatype Turn = Turn(
    cancelBefore: bool, deadlineBefore: bool, preLaunchError: bool, outcome: Outcome, deadlineAfter: bool)
  {
    predicate Starts() {
      !cancelBefore && !deadlineBefore
    }

    predicate Clean() {
      Starts() && !preLaunchError && outcome.Succeeded?
    }

    // A failure that is not the workflow deadline: it propagates to dependents.
    predicate OrdinaryFailure() {
      Starts() && (preLaunchError || (outcome.Failed? && !(outcome.timeout && deadlineAfter)))
    }

    predicate Cancels() {
      cancelBefore || (Starts() && !preLaunchError && outcome.WasCancelled?)
    }

    predicate HitsDeadline() {
      !cancelBefore && (deadlineBefore || (!preLaunchError && outcome.Failed? && outcome.timeout && deadlineAfter))
    }
  }

  // The first turn among n that is not a clean success.
  function StopAt(turns: seq<Turn>, n: nat, k: nat): (r: nat)
    requires k <= n <= |turns|
    ensures k <= r <= n && (r < n ==> !turns[r].Clean())
    ensures forall i :: k <= i < r ==> turns[i].Clean()
    decreases n - k
  {
    if k == n || !turns[k].Clean() then k else StopAt(turns, n, k + 1)
  }

  ghost function FinalStatus(order: seq<string>, edges: Edges, turns: seq<Turn>, i: nat): StepStatus
    requires i < |order| <= |turns|
  {
    var k := StopAt(turns, |order|, 0);
    if i < k then SUCCESS
    else if !turns[k].Starts() then SKIPPED
    else if i > k then
      if turns[k].OrdinaryFailure() then AfterFailure(edges, order[k], order[i]) else SKIPPED
    else if !turns[k].preLaunchError && turns[k].outcome.WasCancelled? then CANCELLED
    else FAILED
  }

  ghost function Key(prefix: string, id: string): string {
    prefix + id
  }

  // Every step of the order has its final status, and no other entry changed.
  ghost predicate Settled(
    prefix: string, order: seq<string>, edges: Edges, turns: seq<Turn>,
    before: map<string, StepStatus>, after: map<string, StepStatus>)
    requires |order| <= |turns|
  {
    && after.Keys == before.Keys
    && (forall i :: 0 <= i < |order| ==>
          Key(prefix, order[i]) in after && after[Key(prefix, order[i])] == FinalStatus(order, edges, turns, i))
    && forall s :: s in after && (forall i :: 0 <= i < |order| ==> s != Key(prefix, order[i])) ==> after[s] == before[s]
  }

  // The loop's state before turn k, when all earlier turns were clean.
  ghost predicate Running(
    prefix: string, order: seq<string>, k: nat,
    before: map<string, StepStatus>, now: map<string, StepStatus>)
    requires k <= |order|
  {
    && now.Keys == before.Keys
    && (forall i :: 0 <= i < k ==> Key(prefix, order[i]) in now && now[Key(prefix, order[i])] == SUCCESS)
    && (forall i :: k <= i < |order| ==> Key(prefix, order[i]) in now && now[Key(prefix, order[i])] == SKIPPED)
    && forall s :: s in now && (forall i :: 0 <= i < |order| ==> s != Key(prefix, order[i])) ==> now[s] == before[s]
  }

  // A step as it starts: everything it depends on has succeeded.
  ghost predicate ProducersDone(prefix: string, edges: Edges, id: string, now: map<string, StepStatus>) {
    forall d :: d in Deps(edges, id) ==> Key(prefix, d) in now && now[Key(prefix, d)] == SUCCESS
  }

  lemma KeysDistinct(prefix: string, a: string, b: string)
    requires Key(prefix, a) == Key(prefix, b)
    ensures a == b
  {
    assert Key(prefix, a)[|prefix|..] == a && Key(prefix, b)[|prefix|..] == b;
  }

  lemma StartsReady(prefix: string, order: seq<string>, edges: Edges, k: nat,
                    before: map<string, StepStatus>, now: map<string, StepStatus>)
    requires DepsFirst(edges, order) && k < |order| && Running(prefix, order, k, before, now)
    ensures ProducersDone(prefix, edges, order[k], now)
  {}

  // Setting one step of the order.
  lemma SetStep(prefix: string, order: seq<string>, k: nat,
                before: map<string, StepStatus>, now: map<string, StepStatus>, status: StepStatus)
    requires Distinct(order) && k < |order| && Running(prefix, order, k, before, now)
    ensures var next := now[Key(prefix, order[k]) := status];
      && next.Keys == before.Keys
      && (forall i :: 0 <= i < |order| ==>
            && Key(prefix, order[i]) in next
            && next[Key(prefix, order[i])] == if i < k then SUCCESS else if i == k then status else SKIPPED)
      && (forall s :: s in next && (forall i :: 0 <= i < |order| ==> s != Key(prefix, order[i])) ==> next[s] == before[s])
      && (status == SUCCESS ==> Running(prefix, order, k + 1, before, next))
  {
    forall i | 0 <= i < |order| && i != k
      ensures Key(prefix, order[i]) != Key(prefix, order[k])
    {
      if Key(prefix, order[i]) == Key(prefix, order[k]) {
        KeysDistinct(prefix, order[i], order[k]);
      }
    }
  }

  // Before turn k fails, nothing from k on has run.
  lemma SettledByStop(prefix: string, order: seq<string>, edges: Edges, turns: seq<Turn>, k: nat,
                      before: map<string, StepStatus>, now: map<string, StepStatus>)
    requires |order| <= |turns| && k <= |order| && Running(prefix, order, k, before, now)
    requires k == StopAt(turns, |order|, 0) && (k < |order| ==> !turns[k].Starts())
    ensures Settled(prefix, order, edges, turns, before, now)
  {}

  // Turn k ended the run without propagation.
  lemma SettledByStep(prefix: string, order: seq<string>, edges: Edges, turns: seq<Turn>, k: nat,
                      before: map<string, StepStatus>, now: map<string, StepStatus>)
    requires Distinct(order) && k < |order| <= |turns| && Running(prefix, order, k, before, now)
    requires k == StopAt(turns, |order|, 0) && turns[k].Starts() && !turns[k].OrdinaryFailure()
    ensures var status := if turns[k].outcome.WasCancelled? then CANCELLED else FAILED;
      Settled(prefix, order, edges, turns, before, now[Key(prefix, order[k]) := status])
  {
    SetStep(prefix, order, k, before, now, if turns[k].outcome.WasCancelled? then CANCELLED else FAILED);
  }

  // Turn k failed and its failure was propagated.
  lemma SettledByFailure(prefix: string, order: seq<string>, edges: Edges, turns: seq<Turn>, k: nat,
                         before: map<string, StepStatus>, now: map<string, StepStatus>,
                         spread: map<string, StepStatus>, after: map<string, StepStatus>)
    requires Distinct(order) && k < |order| <= |turns| && Running(prefix, order, k, before, now)
    requires k == StopAt(turns, |order|, 0) && turns[k].OrdinaryFailure()
    requires forall s :: s in spread <==> s in order[k + 1..]
    requires forall s :: s in spread ==> spread[s] == AfterFailure(edges, order[k], s)
    requires after == Overlay(prefix, now[Key(prefix, order[k]) := FAILED], spread)
    ensures Settled(prefix, order, edges, turns, before, after)
  {
    hide AfterFailure, Overlay, Running, Distinct;
    var failed := now[Key(prefix, order[k]) := FAILED];
    SetStep(prefix, order, k, before, now, FAILED);
    OverlayKeys(prefix, failed, spread);
    forall i | 0 <= i < |order|
      ensures Key(prefix, order[i]) in after && after[Key(prefix, order[i])] == FinalStatus(order, edges, turns, i)
    {
      SpreadEntry(order, k, i, spread);
      OverlayAt(prefix, failed, spread, order[i]);
    }
    forall s | s in after && forall i :: 0 <= i < |order| ==> s != Key(prefix, order[i])
      ensures after[s] == before[s]
    {
      SpreadElsewhere(prefix, order, k, spread, s);
      OverlayBeside(prefix, failed, spread, s);
    }
  }

  lemma OverlayKeys(prefix: string, now: map<string, StepStatus>, spread: map<string, StepStatus>)
    ensures Overlay(prefix, now, spread).Keys == now.Keys
  {}

  lemma OverlayAt(prefix: string, now: map<string, StepStatus>, spread: map<string, StepStatus>, id: string)
    requires Key(prefix, id) in now
    ensures Key(prefix, id) in Overlay(prefix, now, spread)
    ensures Overlay(prefix, now, spread)[Key(prefix, id)] == if id in spread then spread[id] else now[Key(prefix, id)]
  {
    assert Key(prefix, id)[|prefix|..] == id && Names(prefix, Key(prefix, id));
  }

  lemma OverlayBeside(prefix: string, now: map<string, StepStatus>, spread: map<string, StepStatus>, s: string)
    requires s in now && !(Names(prefix, s) && s[|prefix|..] in spread)
    ensures s in Overlay(prefix, now, spread) && Overlay(prefix, now, spread)[s] == now[s]
  {}

  // A key of no step is not touched when the failure spreads.
  lemma SpreadElsewhere(prefix: string, order: seq<string>, k: nat, spread: map<string, StepStatus>, s: string)
    requires k < |order| && forall id :: id in spread <==> id in order[k + 1..]
    requires forall i :: 0 <= i < |order| ==> s != Key(prefix, order[i])
    ensures forall id :: id in spread ==> s != Key(prefix, id)
    ensures !(Names(prefix, s) && s[|prefix|..] in spread)
  {
    forall id | id in spread
      ensures s != Key(prefix, id)
    {
      var j :| 0 <= j < |order| - k - 1 && order[k + 1..][j] == id;
      assert order[k + 1 + j] == id;
    }
    if Names(prefix, s) {
      assert s == Key(prefix, s[|prefix|..]);
    }
  }

  lemma SpreadEntry(order: seq<string>, k: nat, i: nat, spread: map<string, StepStatus>)
    requires Distinct(order) && k < |order| && i < |order|
    requires forall s :: s in spread <==> s in order[k + 1..]
    ensures order[i] in spread <==> i > k
  {
    if i > k {
      assert order[k + 1..][i - k - 1] == order[i];
    }
  }

  // `now` with every entry of `spread` written under its prefixed key.
  ghost function Overlay(prefix: string, now: map<string, StepStatus>, spread: map<string, StepStatus>): map<string, StepStatus> {
    map s | s in now :: if Names(prefix, s) && s[|prefix|..] in spread then spread[s[|prefix|..]] else now[s]
  }

  predicate Names(prefix: string, s: string) {
    |s| >= |prefix| && s[..|prefix|] == prefix
  }

  lemma SpreadKeys(prefix: string, order: seq<string>, k: nat,
                   before: map<string, StepStatus>, now: map<string, StepStatus>, spread: map<string, StepStatus>)
    requires k < |order| && Running(prefix, order, k, before, now)
    requires forall s :: s in spread <==> s in order[k + 1..]
    ensures forall id :: id in spread ==> Key(prefix, id) in now
  {}

  // Recording the failure and its spread settles the run.
  lemma FailureSpreads(prefix: string, order: seq<string>, edges: Edges, turns: seq<Turn>, k: nat,
                       before: map<string, StepStatus>, now: map<string, StepStatus>, spread: map<string, StepStatus>)
    requires Distinct(order) && k < |order| <= |turns| && Running(prefix, order, k, before, now)
    requires k == StopAt(turns, |order|, 0) && turns[k].OrdinaryFailure()
    requires forall s :: s in spread <==> s in order[k + 1..]
    requires forall s :: s in spread ==> spread[s] == AfterFailure(edges, order[k], s)
    ensures var failed := now[Key(prefix, order[k]) := FAILED];
      && (forall id :: id in spread ==> Key(prefix, id) in failed)
      && Settled(prefix, order, edges, turns, before, Overlay(prefix, failed, spread))
  {
    hide Running, Settled, Distinct, AfterFailure, Overlay;
    SpreadKeys(prefix, order, k, before, now, spread);
    SettledByFailure(prefix, order, edges, turns, k, before, now, spread,
                     Overlay(prefix, now[Key(prefix, order[k]) := FAILED], spread));
  }

  // Orchestrated steps are recorded under this prefix.
  const EXECUTE_PREFIX := "execute/"

  lemma NoPrefix()
    ensures forall id :: Key("", id) == id
  {}

  datatype Start = Start(id: string, steps: map<string, StepStatus>)

  // The steps that started: all before the stop, and the stopping step if it got that far.
  ghost predicate StartedInOrder(prefix: string, order: seq<string>, edges: Edges, turns: seq<Turn>, log: seq<Start>)
    requires |order| <= |turns|
  {
    var k := StopAt(turns, |order|, 0);
    && |log| == (if k < |order| && turns[k].Starts() then k + 1 else k)
    && forall i :: 0 <= i < |log| ==> log[i].id == order[i] && ProducersDone(prefix, edges, log[i].id, log[i].steps)
  }

  ghost predicate LogSoFar(prefix: string, order: seq<string>, edges: Edges, n: nat, log: seq<Start>)
    requires n <= |order|
  {
    |log| == n && forall i :: 0 <= i < n ==> log[i].id == order[i] && ProducersDone(prefix, edges, log[i].id, log[i].steps)
  }

  lemma NothingStarted(prefix: string, order: seq<string>, edges: Edges)
    ensures LogSoFar(prefix, order, edges, 0, [])
  {}

  lemma LogGrows(prefix: string, order: seq<string>, edges: Edges, turns: seq<Turn>, k: nat, log: seq<Start>, start: Start)
    requires k < |order| <= |turns| && LogSoFar(prefix, order, edges, k, log)
    requires start.id == order[k] && ProducersDone(prefix, edges, order[k], start.steps)
    ensures LogSoFar(prefix, order, edges, k + 1, log + [start])
    ensures StopAt(turns, |order|, 0) == k && turns[k].Starts() ==> StartedInOrder(prefix, order, edges, turns, log + [start])
  {}

  lemma LogEnds(prefix: string, order: seq<string>, edges: Edges, turns: seq<Turn>, k: nat, log: seq<Start>)
    requires k <= |order| <= |turns| && LogSoFar(prefix, order, edges, k, log)
    requires StopAt(turns, |order|, 0) == k && (k < |order| ==> !turns[k].Starts())
    ensures StartedInOrder(prefix, order, edges, turns, log)
  {
    hide ProducersDone;
  }

  class RunResult {
    var steps: map<string, StepStatus>
    var deadlineStops: nat
    ghost var started: seq<Start>  // each step as it started, with the statuses at that moment

    constructor (steps: map<string, StepStatus>)
      ensures this.steps == steps && deadlineStops == 0 && started == []
    {
      this.steps := steps;
      deadlineStops := 0;
      started := [];
    }

    // Write propagated statuses under their prefixed keys.
    method Apply(prefix: string, spread: map<string, StepStatus>)
      requires forall id :: id in spread ==> Key(prefix, id) in steps
      modifies this`steps
      ensures steps == Overlay(prefix, old(steps), spread)
    {
      var todo := spread.Keys;
      while todo != {}
        invariant todo <= spread.Keys && steps.Keys == old(steps).Keys
        invariant forall s :: s in steps ==>
          steps[s] == if Names(prefix, s) && s[|prefix|..] in spread.Keys - todo then spread[s[|prefix|..]] else old(steps)[s]
        decreases todo
      {
        var id :| id in todo;
        assert Key(prefix, id)[|prefix|..] == id && Names(prefix, Key(prefix, id));
        forall s | Names(prefix, s) && s[|prefix|..] == id
          ensures s == Key(prefix, id)
        {
          assert s == s[..|prefix|] + s[|prefix|..];
        }
        steps := steps[prefix + id := spread[id]];
        todo := todo - {id};
      }
    }

    // The step loop, recording each step under the prefix and its id.
    method RunAll(prefix: string, order: seq<string>, edges: Edges, turns: seq<Turn>) returns (cancelled: bool)
      requires Distinct(order) && DepsFirst(edges, order) && |order| <= |turns| && started == []
      requires forall id :: id in order ==>
        Key(prefix, id) in steps && steps[Key(prefix, id)] == SKIPPED
      modifies this
      ensures Settled(prefix, order, edges, turns, old(steps), steps)
      ensures StartedInOrder(prefix, order, edges, turns, started)
      ensures var k := StopAt(turns, |order|, 0);
        && (cancelled <==> k < |order| && turns[k].Cancels())
        && deadlineStops == old(deadlineStops) + (if k < |order| && turns[k].HitsDeadline() then 1 else 0)
    {
      hide Settled, Running, DepsFirst, ProducersDone, AfterFailure, Overlay, Names, Distinct, StopAt, LogSoFar, StartedInOrder;
      ghost var before := steps;
      InitiallyRunning(prefix, order, steps);
      NothingStarted(prefix, order, edges);
      cancelled := false;
      var pending := order;
      ghost var k := 0;
      while pending != []
        invariant k <= |order| && pending == order[k..]
        invariant Running(prefix, order, k, before, steps)
        invariant forall i :: 0 <= i < k ==> turns[i].Clean()
        invariant LogSoFar(prefix, order, edges, k, started) && deadlineStops == old(deadlineStops)
        decreases |pending|
      {
        var rawId := pending[0];
        var stepId := prefix + rawId;
        var turn := turns[|order| - |pending|];
        assert rawId == order[k] && stepId == Key(prefix, rawId) && turn == turns[k];
        if !turn.Clean() {
          StopsHere(turns, |order|, k);
        }
        if turn.cancelBefore {
          cancelled := true;
          SettledByStop(prefix, order, edges, turns, k, before, steps);
          LogEnds(prefix, order, edges, turns, k, started);
          return;
        }
        if turn.deadlineBefore {
          deadlineStops := deadlineStops + 1;
          SettledByStop(prefix, order, edges, turns, k, before, steps);
          LogEnds(prefix, order, edges, turns, k, started);
          return;
        }
        pending := pending[1..];
        StartsReady(prefix, order, edges, k, before, steps);
        LogGrows(prefix, order, edges, turns, k, started, Start(order[k], steps));
        started := started + [Start(rawId, steps)];
        ghost var now := steps;
        steps := steps[stepId := FAILED];
        if turn.preLaunchError {
          var spread := PropagateFailure(order, edges, rawId);
          FailedPosition(order, k);
          FailureSpreads(prefix, order, edges, turns, k, before, now, spread.value);
          Apply(prefix, spread.value);
          return;
        }
        match turn.outcome {
          case Succeeded =>
            steps := steps[stepId := SUCCESS];
          case WasCancelled =>
            steps := steps[stepId := CANCELLED];
          case Failed(_) =>
            steps := steps[stepId := FAILED];
        }
        if turn.outcome.Succeeded? {
          SetStep(prefix, order, k, before, now, SUCCESS);
          assert steps == now[stepId := SUCCESS];
          k := k + 1;
          continue;
        }
        if turn.outcome.WasCancelled? {
          cancelled := true;
          SettledByStep(prefix, order, edges, turns, k, before, now);
          assert steps == now[stepId := CANCELLED];
          return;
        }
        assert steps == now[stepId := FAILED];
        if turn.outcome.timeout && turn.deadlineAfter {
          deadlineStops := deadlineStops + 1;
          SettledByStep(prefix, order, edges, turns, k, before, now);
        } else {
          var spread := PropagateFailure(order, edges, rawId);
          FailedPosition(order, k);
          FailureSpreads(prefix, order, edges, turns, k, before, now, spread.value);
          Apply(prefix, spread.value);
        }
        return;
      }
      StopsHere(turns, |order|, k);
      SettledByStop(prefix, order, edges, turns, k, before, steps);
      LogEnds(prefix, order, edges, turns, k, started);
    }

    // The workflow runner's loop: steps are keyed by their own id.
    method RunSteps(order: seq<string>, edges: Edges, turns: seq<Turn>) returns (cancelled: bool)
      requires Distinct(order) && DepsFirst(edges, order) && |order| <= |turns| && started == []
      requires forall id :: id in order ==> id in steps && steps[id] == SKIPPED
      modifies this
      ensures Settled("", order, edges, turns, old(steps), steps)
      ensures StartedInOrder("", order, edges, turns, started)
      ensures var k := StopAt(turns, |order|, 0);
        && (cancelled <==> k < |order| && turns[k].Cancels())
        && deadlineStops == old(deadlineStops) + (if k < |order| && turns[k].HitsDeadline() then 1 else 0)
    {
      NoPrefix();
      cancelled := RunAll("", order, edges, turns);
    }

    // The plan executor's loop: the same steps, keyed `execute/<id>` beside other entries.
    method RunExecution(order: seq<string>, edges: Edges, turns: seq<Turn>) returns (cancelled: bool)
      requires Distinct(order) && DepsFirst(edges, order) && |order| <= |turns| && started == []
      requires forall id :: id in order ==>
        Key(EXECUTE_PREFIX, id) in steps && steps[Key(EXECUTE_PREFIX, id)] == SKIPPED
      modifies this
      ensures Settled(EXECUTE_PREFIX, order, edges, turns, old(steps), steps)
      ensures StartedInOrder(EXECUTE_PREFIX, order, edges, turns, started)
      ensures var k := StopAt(turns, |order|, 0);
        && (cancelled <==> k < |order| && turns[k].Cancels())
        && deadlineStops == old(deadlineStops) + (if k < |order| && turns[k].HitsDeadline() then 1 else 0)
    {
      cancelled := RunAll(EXECUTE_PREFIX, order, edges, turns);
    }
  }

  lemma InitiallyRunning(prefix: string, order: seq<string>, steps: map<string, StepStatus>)
    requires forall id :: id in order ==> Key(prefix, id) in steps && steps[Key(prefix, id)] == SKIPPED
    ensures Running(prefix, order, 0, steps, steps)
  {}

  lemma StopsHere(turns: seq<Turn>, n: nat, k: nat)
    requires k <= n <= |turns| && (k < n ==> !turns[k].Clean())
    requires forall i :: 0 <= i < k ==> turns[i].Clean()
    ensures StopAt(turns, n, 0) == k
  {}

  lemma FailedPosition(order: seq<string>, k: nat)
    requires Distinct(order) && k < |order|
    ensures Position(order, order[k]) == Some(k)
  {}

  // ---------------------------------------------------------------- how a run ends

  // A prefix of successes, at most one failed or cancelled step right after it, and then only
  // blocked or skipped ones; blocked are exactly the transitive dependents of a propagated failure.
  lemma RunShape(order: seq<string>, edges: Edges, turns: seq<Turn>, i: nat)
    requires i < |order| <= |turns|
    ensures var k, s := StopAt(turns, |order|, 0), FinalStatus(order, edges, turns, i);
      && (s == SUCCESS <==> i < k)
      && (s == FAILED || s == CANCELLED <==> i == k && turns[k].Starts())
      && (s == BLOCKED <==> k < i && turns[k].OrdinaryFailure() && Reaches(edges, order[i], order[k]))
  {}

  // The agent was started, ran to its end and reported success.
  ghost predicate RanToSuccess(t: Turn) {
    !t.cancelBefore && !t.deadlineBefore && !t.preLaunchError && t.outcome == Succeeded
  }

  // A step is recorded as a success exactly when its own agent and all before it succeeded.
  lemma SuccessMeansRanToSuccess(order: seq<string>, edges: Edges, turns: seq<Turn>, i: nat)
    requires i < |order| <= |turns|
    ensures FinalStatus(order, edges, turns, i) == SUCCESS <==> forall j :: 0 <= j <= i ==> RanToSuccess(turns[j])
  {
    hide AfterFailure;
    var k := StopAt(turns, |order|, 0);
    assert k <= i ==> !RanToSuccess(turns[k]);
    assert i < k ==> forall j :: 0 <= j <= i ==> turns[j].Clean();
    assert AfterFailure(edges, order[if k < |order| then k else 0], order[i]) != SUCCESS by {
      NeverSuccess(edges, order[if k < |order| then k else 0], order[i]);
    }
  }

  lemma NeverSuccess(edges: Edges, failed: string, s: string)
    ensures AfterFailure(edges, failed, s) != SUCCESS
  {}

  // What the first turn that is not a success leaves behind, read off what was observed in it.
  // Seen before its step: nothing more starts. Before the launch, or in the agent: the step failed
  // and whatever depends on it is blocked. A timeout past the workflow's deadline, and a
  // cancellation, block nothing.
  lemma FirstFailureDecides(order: seq<string>, edges: Edges, turns: seq<Turn>, k: nat, i: nat)
    requires k < |order| <= |turns| && i < |order|
    requires !RanToSuccess(turns[k]) && forall j :: 0 <= j < k ==> RanToSuccess(turns[j])
    ensures StopAt(turns, |order|, 0) == k
    ensures var t, status := turns[k], FinalStatus(order, edges, turns, i);
      && (i < k ==> status == SUCCESS)
      && (t.cancelBefore || t.deadlineBefore ==> (k <= i ==> status == SKIPPED))
      && (!t.cancelBefore && !t.deadlineBefore ==>
            && (t.preLaunchError && k < i ==> status == if Reaches(edges, order[i], order[k]) then BLOCKED else SKIPPED)
            && (t.preLaunchError && i == k ==> status == FAILED)
            && (!t.preLaunchError && t.outcome.WasCancelled? && i == k ==> status == CANCELLED)
            && (!t.preLaunchError && t.outcome.WasCancelled? && k < i ==> status == SKIPPED)
            && (!t.preLaunchError && t.outcome.Failed? && i == k ==> status == FAILED)
            && (!t.preLaunchError && t.outcome.Failed? && k < i ==>
                  status == if Reaches(edges, order[i], order[k]) && !(t.outcome.timeout && t.deadlineAfter)
                            then BLOCKED else SKIPPED))
    ensures var t := turns[k];
      && (t.Cancels() <==> t.cancelBefore || (!t.deadlineBefore && !t.preLaunchError && t.outcome.WasCancelled?))
      && (t.HitsDeadline() <==>
            !t.cancelBefore && (t.deadlineBefore || (!t.preLaunchError && t.outcome == Failed(true) && t.deadlineAfter)))
  {
    hide Reaches;
    forall j | 0 <= j < |order|
      ensures RanToSuccess(turns[j]) <==> turns[j].Clean()
    {}
    StopsHere(turns, |order|, k);
  }

  // A step behind an unfinished dependency is never run, and a success has only successes behind it.
  lemma DependentsOfUnfinishedNeverRun(order: seq<string>, edges: Edges, turns: seq<Turn>, i: nat, j: nat)
    requires Distinct(order) && DepsFirst(edges, order) && i < |order| <= |turns| && j < |order|
    requires Reaches(edges, order[i], order[j])
    ensures FinalStatus(order, edges, turns, j) != SUCCESS ==>
      FinalStatus(order, edges, turns, i) == BLOCKED || FinalStatus(order, edges, turns, i) == SKIPPED
    ensures FinalStatus(order, edges, turns, i) == SUCCESS ==> FinalStatus(order, edges, turns, j) == SUCCESS
  {
    hide Reaches, IsPath, DepsFirst;
    var p := PathOf(edges, order[i], order[j]);
    PathStaysBehind(edges, order, p, i);
    var m :| 0 <= m < i && order[..i][m] == order[j];
    assert m == j;
    RunShape(order, edges, turns, i);
    RunShape(order, edges, turns, j);
  }

  lemma PathOf(edges: Edges, a: string, b: string) returns (p: seq<string>)
    requires Reaches(edges, a, b)
    ensures PathBetween(edges, p, a, b)
  {
    p :| PathBetween(edges, p, a, b);
  }

  // Whatever the prefixes, the loops settle every step alike, one under the other's renaming.
  lemma SameUnderRenaming(prefix: string, prefix': string, order: seq<string>, edges: Edges, turns: seq<Turn>,
                          before: map<string, StepStatus>, after: map<string, StepStatus>,
                          before': map<string, StepStatus>, after': map<string, StepStatus>)
    requires |order| <= |turns|
    requires Settled(prefix, order, edges, turns, before, after)
    requires Settled(prefix', order, edges, turns, before', after')
    ensures forall id :: id in order ==>
      Key(prefix, id) in after && Key(prefix', id) in after' && after[Key(prefix, id)] == after'[Key(prefix', id)]
  {
    forall id | id in order
      ensures Key(prefix, id) in after && Key(prefix', id) in after' && after[Key(prefix, id)] == after'[Key(prefix', id)]
    {
      var i :| 0 <= i < |order| && order[i] == id;
      assert after[Key(prefix, order[i])] == FinalStatus(order, edges, turns, i);
    }
  }

  datatype RunStatus = RunSuccess | RunFailed | RunPartial | RunCancelled

  function AggregateStatus(statuses: seq<StepStatus>, cancelled: bool): RunStatus {
    if cancelled || CANCELLED in statuses then RunCancelled
    else if statuses != [] && forall s :: s in statuses ==> s == SUCCESS then RunSuccess
    else if SUCCESS in statuses then RunPartial
    else RunFailed
  }

  // The run's status read off the first unclean turn.
  lemma RunStatusMeaning(order: seq<string>, edges: Edges, turns: seq<Turn>, statuses: seq<StepStatus>)
    requires 0 < |order| <= |turns| && |statuses| == |order|
    requires forall i :: 0 <= i < |order| ==> statuses[i] == FinalStatus(order, edges, turns, i)
    ensures var k := StopAt(turns, |order|, 0);
      var cancelled := k < |order| && turns[k].Cancels();
      AggregateStatus(statuses, cancelled) ==
        if k == |order| then RunSuccess
        else if turns[k].Cancels() then RunCancelled
        else if k > 0 then RunPartial
        else RunFailed
  {
    hide FinalStatus;
    forall i | 0 <= i < |order|
      ensures statuses[i] == SUCCESS <==> i < StopAt(turns, |order|, 0)
      ensures statuses[i] == CANCELLED ==> i == StopAt(turns, |order|, 0) && turns[i].Cancels()
    {
      RunShape(order, edges, turns, i);
      CancelledStep(order, edges, turns, i);
    }
    var k := StopAt(turns, |order|, 0);
    forall s | s in statuses
      ensures k == |order| ==> s == SUCCESS
      ensures s == SUCCESS ==> k > 0
      ensures s == CANCELLED ==> k < |order| && turns[k].Cancels()
    {
      var i :| 0 <= i < |statuses| && statuses[i] == s;
    }
    assert statuses[0] in statuses;
    assert k < |order| ==> statuses[k] in statuses && statuses[k] != SUCCESS;
  }

  lemma CancelledStep(order: seq<string>, edges: Edges, turns: seq<Turn>, i: nat)
    requires i < |order| <= |turns|
    ensures FinalStatus(order, edges, turns, i) == CANCELLED ==> i == StopAt(turns, |order|, 0) && turns[i].Cancels()
  {}
}
