// The cross-process workspace lease, as a transition system.
//
// One lease file; any number of processes, each with any number of runs. A run's acquire and
// release are cut into one step per system call, interleaved arbitrarily with other runs,
// crashes and new processes. Recovery compares the file's bytes and unlinks it by two calls;
// that nothing changes the file in between is a predicate on actions (`Adjacent`).
module Lease {
  import opened Wrappers

  type RunId = nat
  type ProcId = nat  // one incarnation of a process; never reused

  datatype Proc = Proc(pid: int, group: int, start: string, alive: bool)

  // The bytes of the lease file: freshly created and still empty, or a complete lease.
  datatype Content = Blank | Owned(run: RunId, pid: int, group: int, start: string)

  datatype File = File(creator: RunId, content: Content)

  datatype Reason = Held | Ambiguous

  datatype Phase =
    | Trying(attempt: nat)                     // about to create the file exclusively
    | Contending(attempt: nat)                 // creation failed, about to read the file
    | Probing(attempt: nat, raw: Content)      // about to probe the recorded pid
    | ProbingGroup(attempt: nat, raw: Content) // about to probe the recorded group
    | Recovering(attempt: nat, raw: Content)   // about to compare the file with `raw`
    | Removing(attempt: nat, raw: Content)     // found it unchanged, about to remove it
    | Writing                                  // created the file, about to write it
    | Syncing                                  // wrote the file, about to sync it
    | Holding
    | Releasing                                // about to read the file back
    | Unlinking                                // about to remove the file
    | Released
    | Busy(reason: Reason)
    | Broken                                   // an input/output error ended the acquire

  datatype Run = Run(proc: ProcId, phase: Phase)

  datatype State = State(
    procs: map<ProcId, Proc>,
    runs: map<RunId, Run>,
    used: set<RunId>,
    file: Option<File>)

  // Create-or-recover rounds before a churning file is reported busy.
  const MAX_ATTEMPTS: nat := 8

  datatype Action =
    | Spawn(proc: ProcId, pid: int, group: int, start: string)
    | Crash(proc: ProcId)
    | Begin(run: RunId, proc: ProcId)
    | Advance(run: RunId, error: bool)  // one step of the run; `error`: its system call fails
    | Release(run: RunId)

  predicate Alive(s: State, p: ProcId) {
    p in s.procs && s.procs[p].alive
  }

  predicate LiveRun(s: State, r: RunId) {
    r in s.runs && Alive(s, s.runs[r].proc)
  }

  ghost predicate PidInUse(s: State, pid: int) {
    exists p :: Alive(s, p) && s.procs[p].pid == pid
  }

  ghost predicate GroupInUse(s: State, group: int) {
    exists p :: Alive(s, p) && s.procs[p].group == group
  }

  // A live process with this pid whose start marker is the recorded, non-empty one.
  ghost predicate SameIncarnation(s: State, pid: int, start: string) {
    start != "" && exists p :: Alive(s, p) && s.procs[p].pid == pid && s.procs[p].start == start
  }

  function Lease(s: State, r: RunId): Content
    requires r in s.runs && s.runs[r].proc in s.procs
  {
    var p := s.procs[s.runs[r].proc];
    Owned(r, p.pid, p.group, p.start)
  }

  function Goto(s: State, r: RunId, phase: Phase): State
    requires r in s.runs
  {
    s.(runs := s.runs[r := s.runs[r].(phase := phase)])
  }

  // One step of run r's program.
  ghost function AdvanceRun(s: State, r: RunId, error: bool): State
    requires r in s.runs && s.runs[r].proc in s.procs
  {
    match s.runs[r].phase
    case Trying(k) =>
      if k >= MAX_ATTEMPTS then Goto(s, r, Busy(Ambiguous))
      else if error then Goto(s, r, Broken)
      else if s.file.None? then Goto(s, r, Writing).(file := Some(File(r, Blank)))
      else Goto(s, r, Contending(k))
    case Writing =>
      if error then Goto(s, r, Broken)
      else if s.file.Some? && s.file.value.creator == r then
        Goto(s, r, Syncing).(file := Some(File(r, Lease(s, r))))
      else Goto(s, r, Syncing)
    case Syncing => Goto(s, r, if error then Broken else Holding)
    case Contending(k) =>
      if error || s.file.None? then Goto(s, r, Busy(Ambiguous))
      else Goto(s, r, Probing(k, s.file.value.content))
    case Probing(k, raw) =>
      if raw.Blank? || raw.pid <= 0 || error then Goto(s, r, Busy(Ambiguous))
      else if PidInUse(s, raw.pid) then
        Goto(s, r, Busy(if SameIncarnation(s, raw.pid, raw.start) then Held else Ambiguous))
      else Goto(s, r, ProbingGroup(k, raw))
    case ProbingGroup(k, raw) =>
      if raw.Owned? && raw.group > 1 && (error || GroupInUse(s, raw.group)) then Goto(s, r, Busy(Ambiguous))
      else Goto(s, r, Recovering(k, raw))
    case Recovering(k, raw) =>
      if s.file.None? then Goto(s, r, Trying(k + 1))
      else if error then Goto(s, r, Busy(Ambiguous))
      else if s.file.value.content != raw then Goto(s, r, Trying(k + 1))
      else Goto(s, r, Removing(k, raw))
    case Removing(k, _) =>
      if s.file.None? then Goto(s, r, Trying(k + 1))
      else if error then Goto(s, r, Busy(Ambiguous))
      else Goto(s, r, Trying(k + 1)).(file := None)
    case Releasing =>
      if error || s.file.None? then Goto(s, r, Released)
      else
        var seen := s.file.value.content;
        Goto(s, r, if seen.Owned? && seen.run == r then Unlinking else Released)
    case Unlinking =>
      if error then Goto(s, r, Released) else Goto(s, r, Released).(file := None)
    case _ => s
  }

  // A disabled action changes nothing.
  ghost function Step(s: State, a: Action): State {
    match a
    case Spawn(p, pid, group, start) =>
      if p in s.procs || PidInUse(s, pid) then s
      else s.(procs := s.procs[p := Proc(pid, group, start, true)])
    case Crash(p) =>
      if p in s.procs then s.(procs := s.procs[p := s.procs[p].(alive := false)]) else s
    case Begin(r, p) =>
      if r in s.used || !Alive(s, p) then s
      else s.(runs := s.runs[r := Run(p, Trying(0))], used := s.used + {r})
    case Advance(r, error) =>
      if LiveRun(s, r) then AdvanceRun(s, r, error) else s
    case Release(r) =>
      if LiveRun(s, r) && s.runs[r].phase == Holding then Goto(s, r, Releasing) else s
  }

  ghost function Exec(s: State, actions: seq<Action>): State
    decreases |actions|
  {
    if actions == [] then s else Exec(Step(s, actions[0]), actions[1..])
  }

  // Nothing runs yet; the file may be left over from earlier runs.
  ghost predicate Init(s: State) {
    && s.procs == map[] && s.runs == map[]
    && (s.file.Some? ==> s.file.value.creator in s.used)
    && (s.file.Some? && s.file.value.content.Owned? ==>
          s.file.value.content.run == s.file.value.creator)
  }

  // ---------------------------------------------------------------- safety

  // From exclusive creation until its own unlink.
  predicate Holds(s: State, r: RunId) {
    LiveRun(s, r) && match s.runs[r].phase
                     case Writing | Syncing | Holding | Releasing | Unlinking => true
                     case _ => false
  }

  // What a run may have read: no run but a begun one, with that run's own process.
  ghost predicate Genuine(s: State, c: Content) {
    c.Owned? ==>
      c.run in s.used && (c.run in s.runs ==> s.runs[c.run].proc in s.procs && c == Lease(s, c.run))
  }

  ghost predicate OwnerGone(s: State, c: Content) {
    c.Owned? && c.run in s.used && !LiveRun(s, c.run)
  }

  ghost predicate RunOk(s: State, r: RunId)
    requires r in s.runs
  {
    && s.runs[r].proc in s.procs && r in s.used
    && (Holds(s, r) ==> s.file == Some(File(r, if s.runs[r].phase == Writing then Blank else Lease(s, r))))
    && match s.runs[r].phase
       case Probing(_, raw) => Genuine(s, raw)
       case ProbingGroup(_, raw) => OwnerGone(s, raw)
       case Recovering(_, raw) => OwnerGone(s, raw)
       case Removing(_, raw) => OwnerGone(s, raw)
       case _ => true
  }

  ghost predicate Inv(s: State) {
    && (forall r :: r in s.runs ==> RunOk(s, r))
    && (s.file.Some? ==> s.file.value.creator in s.used && Genuine(s, s.file.value.content))
    && (s.file.Some? && s.file.value.content.Owned? ==> s.file.value.content.run == s.file.value.creator)
  }

  lemma InitInv(s: State)
    requires Init(s)
    ensures Inv(s)
  {}

  // If r holds the lease, no other run does: the file carries the holder's name.
  lemma Mutex(s: State, r: RunId, q: RunId)
    requires Inv(s) && Holds(s, r) && Holds(s, q)
    ensures r == q
  {}

  // t differs from s at most in phases and in the file.
  ghost predicate SameWorld(s: State, t: State) {
    && t.procs == s.procs && t.used == s.used && t.runs.Keys == s.runs.Keys
    && forall q :: q in s.runs ==> t.runs[q].proc == s.runs[q].proc
  }

  lemma WorldFacts(s: State, t: State, c: Content)
    requires SameWorld(s, t)
    ensures Genuine(s, c) <==> Genuine(t, c)
    ensures OwnerGone(s, c) <==> OwnerGone(t, c)
  {}

  // Run r moves on; everyone else keeps their phase.
  ghost predicate OnlyRun(s: State, t: State, r: RunId) {
    SameWorld(s, t) && r in s.runs && forall q :: q in s.runs && q != r ==> t.runs[q] == s.runs[q]
  }

  lemma StepInv(s: State, t: State, r: RunId)
    requires Inv(s) && OnlyRun(s, t, r) && RunOk(t, r)
    requires t.file == s.file || forall q :: q in s.runs && q != r ==> !Holds(s, q)
    requires t.file.Some? ==> t.file.value.creator in t.used && Genuine(t, t.file.value.content)
    requires t.file.Some? && t.file.value.content.Owned? ==> t.file.value.content.run == t.file.value.creator
    ensures Inv(t)
  {}

  lemma FileStays(s: State, t: State)
    requires Inv(s) && SameWorld(s, t) && t.file == s.file
    ensures t.file.Some? ==> t.file.value.creator in t.used && Genuine(t, t.file.value.content)
    ensures t.file.Some? && t.file.value.content.Owned? ==> t.file.value.content.run == t.file.value.creator
  {}

  // A holder, or the proof that a recorded owner is gone, leaves no other holder of the file.
  lemma NoOtherHolder(s: State, r: RunId)
    requires Inv(s)
    requires s.file.None? || Holds(s, r) || OwnerGone(s, s.file.value.content)
    ensures forall q :: q in s.runs && q != r ==> !Holds(s, q)
  {}

  // When run r unlinks a stale file, the file is still what it was compared with, or gone.
  ghost predicate StillStale(s: State, r: RunId)
    requires r in s.runs
  {
    s.runs[r].phase.Removing? ==> s.file.None? || s.file.value.content == s.runs[r].phase.raw
  }

  lemma AdvanceKeepsInv(s: State, r: RunId, error: bool)
    requires Inv(s) && LiveRun(s, r) && (error || StillStale(s, r))
    ensures Inv(AdvanceRun(s, r, error))
  {
    var t := AdvanceRun(s, r, error);
    RunKnown(s, r);
    MovesAlone(s, r, error);
    AdvanceRunOk(s, r, error);
    hide AdvanceRun, RunOk, StillStale, Genuine, Holds, Inv;
    if t.file == s.file {
      FileStays(s, t);
    } else {
      OthersLoseNothing(s, r, error);
      FileWritten(s, r, error);
    }
    StepInv(s, t, r);
  }

  lemma RunKnown(s: State, r: RunId)
    requires Inv(s) && r in s.runs
    ensures RunOk(s, r) && s.runs[r].proc in s.procs
  {}

  lemma MovesAlone(s: State, r: RunId, error: bool)
    requires r in s.runs && s.runs[r].proc in s.procs
    ensures OnlyRun(s, AdvanceRun(s, r, error), r)
  {
    hide PidInUse, GroupInUse, SameIncarnation;
  }

  // A step that changes the file takes it from no other live run.
  lemma OthersLoseNothing(s: State, r: RunId, error: bool)
    requires Inv(s) && LiveRun(s, r) && (error || StillStale(s, r))
    requires RunOk(s, r) && AdvanceRun(s, r, error).file != s.file
    ensures forall q :: q in s.runs && q != r ==> !Holds(s, q)
  {
    hide Inv, PidInUse, GroupInUse, SameIncarnation, OwnerGone, Genuine;
    NoOtherHolder(s, r);
  }

  lemma FileWritten(s: State, r: RunId, error: bool)
    requires LiveRun(s, r) && RunOk(s, r) && AdvanceRun(s, r, error).file != s.file
    ensures var t := AdvanceRun(s, r, error);
      && (t.file.Some? ==> t.file.value.creator in t.used && Genuine(t, t.file.value.content))
      && (t.file.Some? && t.file.value.content.Owned? ==> t.file.value.content.run == t.file.value.creator)
  {
    hide PidInUse, GroupInUse, SameIncarnation;
  }

  lemma AdvanceRunOk(s: State, r: RunId, error: bool)
    requires Inv(s) && LiveRun(s, r)
    ensures r in AdvanceRun(s, r, error).runs && RunOk(AdvanceRun(s, r, error), r)
  {
    RunKnown(s, r);
    match s.runs[r].phase
    case Trying(_) => OwnStepOk(s, r, error);
    case Writing => OwnStepOk(s, r, error);
    case Syncing => OwnStepOk(s, r, error);
    case Releasing => OwnStepOk(s, r, error);
    case Unlinking => OwnStepOk(s, r, error);
    case Contending(_) => ReadStepOk(s, r, error);
    case Probing(_, _) => ProbeStepOk(s, r, error);
    case ProbingGroup(_, _) => RecoverStepOk(s, r, error);
    case Recovering(_, _) => RecoverStepOk(s, r, error);
    case Removing(_, _) => RecoverStepOk(s, r, error);
    case _ =>
  }

  // Creating, writing, syncing and releasing.
  lemma OwnStepOk(s: State, r: RunId, error: bool)
    requires LiveRun(s, r) && RunOk(s, r)
    requires s.runs[r].phase.Trying? || s.runs[r].phase.Writing? || s.runs[r].phase.Syncing?
      || s.runs[r].phase.Releasing? || s.runs[r].phase.Unlinking?
    ensures r in AdvanceRun(s, r, error).runs && RunOk(AdvanceRun(s, r, error), r)
  {
    hide Genuine, OwnerGone, PidInUse, GroupInUse, SameIncarnation;
  }

  lemma ReadStepOk(s: State, r: RunId, error: bool)
    requires Inv(s) && LiveRun(s, r) && RunOk(s, r) && s.runs[r].phase.Contending?
    ensures r in AdvanceRun(s, r, error).runs && RunOk(AdvanceRun(s, r, error), r)
  {
    var t := AdvanceRun(s, r, error);
    MovesAlone(s, r, error);
    hide Genuine, OwnerGone, PidInUse, GroupInUse, SameIncarnation;
    if s.file.Some? {
      WorldFacts(s, t, s.file.value.content);
    }
  }

  lemma ProbeStepOk(s: State, r: RunId, error: bool)
    requires LiveRun(s, r) && RunOk(s, r) && s.runs[r].phase.Probing?
    ensures r in AdvanceRun(s, r, error).runs && RunOk(AdvanceRun(s, r, error), r)
  {
    var t, raw := AdvanceRun(s, r, error), s.runs[r].phase.raw;
    MovesAlone(s, r, error);
    hide Genuine, OwnerGone, PidInUse, GroupInUse, SameIncarnation;
    if raw.Owned? && !PidInUse(s, raw.pid) {
      GoneOwner(s, raw);
      WorldFacts(s, t, raw);
    }
  }

  // Nobody has the recorded pid, so the recorded run is not live.
  lemma GoneOwner(s: State, raw: Content)
    requires Genuine(s, raw) && raw.Owned? && !PidInUse(s, raw.pid)
    ensures OwnerGone(s, raw)
  {}

  // An owner once gone stays gone.
  lemma RecoverStepOk(s: State, r: RunId, error: bool)
    requires LiveRun(s, r) && RunOk(s, r)
    requires s.runs[r].phase.ProbingGroup? || s.runs[r].phase.Recovering? || s.runs[r].phase.Removing?
    ensures r in AdvanceRun(s, r, error).runs && RunOk(AdvanceRun(s, r, error), r)
  {
    MovesAlone(s, r, error);
    hide Genuine, OwnerGone, PidInUse, GroupInUse, SameIncarnation;
    WorldFacts(s, AdvanceRun(s, r, error), s.runs[r].phase.raw);
  }

  lemma SpawnKeepsInv(s: State, p: ProcId, pid: int, group: int, start: string)
    requires Inv(s) && p !in s.procs
    ensures Inv(s.(procs := s.procs[p := Proc(pid, group, start, true)]))
  {}

  lemma CrashKeepsInv(s: State, p: ProcId)
    requires Inv(s) && p in s.procs
    ensures Inv(s.(procs := s.procs[p := s.procs[p].(alive := false)]))
  {}

  lemma BeginKeepsInv(s: State, r: RunId, p: ProcId)
    requires Inv(s) && r !in s.used && Alive(s, p)
    ensures Inv(s.(runs := s.runs[r := Run(p, Trying(0))], used := s.used + {r}))
  {}

  lemma ReleaseKeepsInv(s: State, r: RunId)
    requires Inv(s) && LiveRun(s, r) && s.runs[r].phase == Holding
    ensures Inv(Goto(s, r, Releasing))
  {}

  // Nothing changes a stale file between a run's comparison and its unlink.
  ghost predicate Adjacent(s: State, a: Action) {
    a.Advance? && LiveRun(s, a.run) && !a.error ==> StillStale(s, a.run)
  }

  ghost predicate AdjacentRun(s: State, actions: seq<Action>)
    decreases |actions|
  {
    actions == [] || (Adjacent(s, actions[0]) && AdjacentRun(Step(s, actions[0]), actions[1..]))
  }

  lemma StepKeepsInv(s: State, a: Action)
    requires Inv(s) && Adjacent(s, a)
    ensures Inv(Step(s, a))
  {
    hide Inv, AdvanceRun, StillStale;
    match a
    case Spawn(p, pid, group, start) =>
      if p !in s.procs {
        SpawnKeepsInv(s, p, pid, group, start);
      }
    case Crash(p) =>
      if p in s.procs {
        CrashKeepsInv(s, p);
      }
    case Begin(r, p) =>
      if r !in s.used && Alive(s, p) {
        BeginKeepsInv(s, r, p);
      }
    case Advance(r, error) =>
      if LiveRun(s, r) {
        AdvanceKeepsInv(s, r, error);
      }
    case Release(r) =>
      if LiveRun(s, r) && s.runs[r].phase == Holding {
        ReleaseKeepsInv(s, r);
      }
  }

  lemma {:induction false} ExecKeepsInv(s: State, actions: seq<Action>)
    requires Inv(s) && AdjacentRun(s, actions)
    ensures Inv(Exec(s, actions))
    decreases |actions|
  {
    hide Inv, Step, Adjacent;
    if actions != [] {
      StepKeepsInv(s, actions[0]);
      ExecKeepsInv(Step(s, actions[0]), actions[1..]);
    }
  }

  // Over every interleaving in which no file changes between comparison and unlink: at most one
  // live run holds the lease, and once written the file is exactly that run's lease.
  lemma OneHolder(s0: State, actions: seq<Action>, r: RunId, q: RunId)
    requires Init(s0) && AdjacentRun(s0, actions)
    ensures var s := Exec(s0, actions);
      Holds(s, r) ==>
        && (Holds(s, q) ==> q == r)
        && (s.runs[r].phase != Writing ==> s.runs[r].proc in s.procs && s.file == Some(File(r, Lease(s, r))))
  {
    hide Exec;
    InitInv(s0);
    ExecKeepsInv(s0, actions);
    var s := Exec(s0, actions);
    if Holds(s, r) {
      assert RunOk(s, r);
      if Holds(s, q) {
        Mutex(s, r, q);
      }
    }
  }

  // Over the same interleavings: a step that removes the file is either the holder's own release,
  // or a recovery of a run that can never act again; in neither case does another live run hold it.
  lemma RemovalsAreSafe(s0: State, actions: seq<Action>, a: Action)
    requires Init(s0) && AdjacentRun(s0, actions) && Adjacent(Exec(s0, actions), a)
    ensures var s := Exec(s0, actions);
      s.file.Some? && Step(s, a).file.None? ==>
        a.Advance? && LiveRun(s, a.run)
        && match s.runs[a.run].phase
           case Unlinking => s.file.value.content.Owned? && s.file.value.content.run == a.run
           case Removing(_, raw) => OwnerGone(s, s.file.value.content) && forall q :: !Holds(s, q)
           case _ => false
  {
    hide Exec;
    InitInv(s0);
    ExecKeepsInv(s0, actions);
    var s := Exec(s0, actions);
    if s.file.Some? && Step(s, a).file.None? {
      var r := a.run;
      assert RunOk(s, r);
      forall q
        ensures s.runs[r].phase.Removing? ==> !Holds(s, q)
      {
        if q in s.runs {
          assert RunOk(s, q);
        }
      }
    }
  }

  // Exactly when an unlink is harmless, whatever the file has become since the comparison: when
  // no live run holds the lease.
  lemma UnlinkKeepsInvIff(s: State, r: RunId)
    requires Inv(s) && LiveRun(s, r) && s.runs[r].phase.Removing? && s.file.Some?
    ensures Inv(AdvanceRun(s, r, false)) <==> forall q :: !Holds(s, q)
  {
    var t := AdvanceRun(s, r, false);
    if q :| Holds(s, q) {
      assert q != r && t.runs[q] == s.runs[q] && Holds(t, q) && t.file.None?;
      assert !RunOk(t, q);
    } else {
      assert OnlyRun(s, t, r) && RunOk(t, r);
      StepInv(s, t, r);
    }
  }

  // ---------------------------------------------------------------- progress

  // Run r's next n steps with nobody else moving and no failing system call.
  ghost function Alone(s: State, r: RunId, n: nat): State
    requires LiveRun(s, r)
    ensures LiveRun(Alone(s, r, n), r) && Alone(s, r, n).procs == s.procs && Alone(s, r, n).runs[r].proc == s.runs[r].proc
  {
    if n == 0 then s else AdvanceRun(Alone(s, r, n - 1), r, false)
  }

  // The recorded owner is provably dead: its pid is gone, and so is its group unless the
  // recorded group is one the probe skips.
  ghost predicate ProvablyStale(s: State, c: Content) {
    c.Owned? && c.pid > 0 && !PidInUse(s, c.pid) && (c.group <= 1 || !GroupInUse(s, c.group))
  }

  // The recorded owner is at work: its pid carries the recorded, non-empty start marker.
  ghost predicate IsHeld(s: State, c: Content) {
    c.Owned? && c.pid > 0 && c.start != "" && exists p :: Alive(s, p) && s.procs[p].pid == c.pid && s.procs[p].start == c.start
  }

  // Undisturbed, an acquire takes the lease exactly when the file is absent or provably stale;
  // otherwise it reports busy, held exactly when the owner is seen at work, and leaves the file
  // alone.
  lemma AcquireAlone(s: State, r: RunId)
    requires LiveRun(s, r) && s.runs[r].phase == Trying(0)
    ensures s.file.None? ==> Alone(s, r, 3).runs[r].phase == Holding && Alone(s, r, 3).file == Some(File(r, Lease(s, r)))
    ensures s.file.Some? && ProvablyStale(s, s.file.value.content) ==>
      Alone(s, r, 9).runs[r].phase == Holding && Alone(s, r, 9).file == Some(File(r, Lease(s, r)))
    ensures s.file.Some? && !ProvablyStale(s, s.file.value.content) ==>
      && Alone(s, r, 4).runs[r].phase == Busy(if IsHeld(s, s.file.value.content) then Held else Ambiguous)
      && Alone(s, r, 4).file == s.file
  {
    hide AdvanceRun, ProvablyStale, IsHeld, Lease, Alone;
    if s.file.None? {
      CreatesAlone(s, r);
    } else {
      ContendsAlone(s, r);
      if ProvablyStale(s, s.file.value.content) {
        RecoversAlone(Alone(s, r, 4), r);
        AloneSplit(s, r, 4, 2);
        CreatesAlone(Alone(s, r, 6), r);
        AloneSplit(s, r, 6, 3);
        SameLease(s, Alone(s, r, 6), r);
      }
    }
  }

  lemma {:induction false} AloneSplit(s: State, r: RunId, m: nat, n: nat)
    requires LiveRun(s, r)
    ensures Alone(s, r, m + n) == Alone(Alone(s, r, m), r, n)
    decreases n
  {
    hide AdvanceRun;
    if n > 0 {
      AloneSplit(s, r, m, n - 1);
      assert Alone(s, r, m + n) == AdvanceRun(Alone(s, r, m + (n - 1)), r, false);
    }
  }

  lemma RecoversAlone(s: State, r: RunId)
    requires LiveRun(s, r) && s.file.Some? && s.runs[r].phase == Recovering(0, s.file.value.content)
    ensures Alone(s, r, 1).runs[r].phase == Removing(0, s.file.value.content) && Alone(s, r, 1).file == s.file
    ensures Alone(s, r, 2).runs[r].phase == Trying(1) && Alone(s, r, 2).file.None?
  {
    assert Alone(s, r, 0) == s;
  }

  lemma SameLease(s: State, t: State, r: RunId)
    requires LiveRun(s, r) && LiveRun(t, r) && s.procs == t.procs && s.runs[r].proc == t.runs[r].proc
    ensures Lease(s, r) == Lease(t, r)
  {}

  lemma CreatesAlone(s: State, r: RunId)
    requires LiveRun(s, r) && s.runs[r].phase.Trying? && s.runs[r].phase.attempt < MAX_ATTEMPTS && s.file.None?
    ensures Alone(s, r, 3).runs[r].phase == Holding && Alone(s, r, 3).file == Some(File(r, Lease(s, r)))
  {
    var s1 := AdvanceRun(s, r, false);
    var s2 := AdvanceRun(s1, r, false);
    assert Alone(s, r, 0) == s && Alone(s, r, 1) == s1 && Alone(s, r, 2) == s2;
    assert s1.runs[r].phase == Writing && s1.file == Some(File(r, Blank));
    assert s2.runs[r].phase == Syncing && s2.file == Some(File(r, Lease(s, r)));
  }

  lemma ContendsAlone(s: State, r: RunId)
    requires LiveRun(s, r) && s.runs[r].phase == Trying(0) && s.file.Some?
    ensures var t, raw := Alone(s, r, 4), s.file.value.content;
      && t.file == s.file
      && if ProvablyStale(s, raw) then t.runs[r].phase == Recovering(0, raw)
         else t.runs[r].phase == Busy(if IsHeld(s, raw) then Held else Ambiguous)
  {
    hide AdvanceRun, ProvablyStale, IsHeld;
    ReadsAlone(s, r);
    var s1 := AdvanceRun(s, r, false);
    var s2 := AdvanceRun(s1, r, false);
    assert Alone(s, r, 0) == s && Alone(s, r, 1) == s1 && Alone(s, r, 2) == s2;
    ProbesAlone(s2, r);
    var s3 := AdvanceRun(s2, r, false);
    assert Alone(s, r, 3) == s3 && Alone(s, r, 4) == AdvanceRun(s3, r, false);
    StaleInBoth(s, s2, s.file.value.content);
  }

  lemma ReadsAlone(s: State, r: RunId)
    requires LiveRun(s, r) && s.runs[r].phase == Trying(0) && s.file.Some?
    ensures LiveRun(AdvanceRun(s, r, false), r)
    ensures var t := AdvanceRun(AdvanceRun(s, r, false), r, false);
      t.procs == s.procs && t.file == s.file && LiveRun(t, r) && t.runs[r].phase == Probing(0, s.file.value.content)
  {
    hide PidInUse, GroupInUse, SameIncarnation;
    assert AdvanceRun(s, r, false) == Goto(s, r, Contending(0));
  }

  lemma ProbesAlone(s: State, r: RunId)
    requires LiveRun(s, r) && s.runs[r].phase.Probing? && s.runs[r].phase.attempt == 0
    ensures LiveRun(AdvanceRun(s, r, false), r)
    ensures var t, raw := AdvanceRun(AdvanceRun(s, r, false), r, false), s.runs[r].phase.raw;
      && t.file == s.file && LiveRun(t, r)
      && if ProvablyStale(s, raw) then t.runs[r].phase == Recovering(0, raw)
         else t.runs[r].phase == Busy(if IsHeld(s, raw) then Held else Ambiguous)
  {
    HeldIff(s, s.runs[r].phase.raw);
    hide PidInUse, GroupInUse, SameIncarnation, IsHeld;
    var t := AdvanceRun(s, r, false);
    SameProcs(s, t);
    assert t.procs == s.procs && t.file == s.file;
    assert t.runs[r].phase.Busy? || t.runs[r].phase == ProbingGroup(0, s.runs[r].phase.raw);
  }

  lemma HeldIff(s: State, c: Content)
    ensures IsHeld(s, c) <==> c.Owned? && c.pid > 0 && PidInUse(s, c.pid) && SameIncarnation(s, c.pid, c.start)
  {}

  lemma StaleInBoth(s: State, t: State, c: Content)
    requires s.procs == t.procs
    ensures ProvablyStale(s, c) <==> ProvablyStale(t, c)
    ensures IsHeld(s, c) <==> IsHeld(t, c)
  {
    SameProcs(s, t);
  }

  // A failing system call changes no file, and none leads to holding or removing one: a failed
  // probe of a recorded owner is ambiguous, whatever the file says.
  lemma ErrorsAreCautious(s: State, r: RunId)
    requires LiveRun(s, r)
    ensures var t, was := AdvanceRun(s, r, true), s.runs[r].phase;
      var phase := t.runs[r].phase;
      && t.file == s.file
      && (was.Trying? ==> phase == if was.attempt >= MAX_ATTEMPTS then Busy(Ambiguous) else Broken)
      && (was.Writing? || was.Syncing? ==> phase == Broken)
      && (was.Contending? || was.Probing? ==> phase == Busy(Ambiguous))
      && (was.ProbingGroup? && was.raw.Owned? && was.raw.group > 1 ==> phase == Busy(Ambiguous))
      && (was.Recovering? || was.Removing? ==> phase == if s.file.None? then Trying(was.attempt + 1) else Busy(Ambiguous))
      && (was.Releasing? || was.Unlinking? ==> phase == Released)
  {
    hide PidInUse, GroupInUse, SameIncarnation;
  }

  // A holder that releases, with nobody else moving, leaves no file behind.
  lemma ReleaseFrees(s: State, r: RunId)
    requires Inv(s) && LiveRun(s, r) && s.runs[r].phase == Holding
    ensures LiveRun(Step(s, Release(r)), r)
    ensures var t := Alone(Step(s, Release(r)), r, 2);
      t.runs[r].phase == Released && t.file.None? && !Holds(t, r)
  {
    RunKnown(s, r);
    hide Inv, PidInUse, GroupInUse, SameIncarnation;
    var s1 := Step(s, Release(r));
    assert s1 == Goto(s, r, Releasing);
    var s2 := AdvanceRun(s1, r, false);
    assert s2 == Goto(s1, r, Unlinking);
    assert Alone(s1, r, 0) == s1 && Alone(s1, r, 1) == s2;
    assert AdvanceRun(s2, r, false) == Goto(s2, r, Released).(file := None);
  }

  // So the next run to try, in the same process or another, gets the lease.
  lemma ReleaseLetsNextIn(s: State, r: RunId, q: RunId)
    requires Inv(s) && LiveRun(s, r) && s.runs[r].phase == Holding
    requires LiveRun(s, q) && s.runs[q].phase == Trying(0)
    ensures LiveRun(Step(s, Release(r)), r) && LiveRun(Alone(Step(s, Release(r)), r, 2), q)
    ensures var t := Alone(Alone(Step(s, Release(r)), r, 2), q, 3);
      t.runs[q].phase == Holding && t.file == Some(File(q, Lease(s, q)))
  {
    hide Inv, AdvanceRun, Alone, Lease, Holds;
    ReleaseFrees(s, r);
    var s1 := Step(s, Release(r));
    OthersStand(s1, r, q, 2);
    var freed := Alone(s1, r, 2);
    CreatesAlone(freed, q);
    SameLease(s, freed, q);
  }

  lemma SameProcs(s: State, t: State)
    requires s.procs == t.procs
    ensures forall pid :: PidInUse(s, pid) <==> PidInUse(t, pid)
    ensures forall g :: GroupInUse(s, g) <==> GroupInUse(t, g)
  {}

  // The steps of the create-or-recover rounds still to come after round k.
  function Rounds(k: nat): nat {
    if k >= MAX_ATTEMPTS then 0 else 6 * (MAX_ATTEMPTS - k)
  }

  // How many steps of its own a run can still take.
  function StepsLeft(phase: Phase): nat {
    match phase
    case Trying(k) => if k >= MAX_ATTEMPTS then 1 else Rounds(k) + 7
    case Contending(k) => Rounds(k) + 6
    case Probing(k, _) => Rounds(k) + 5
    case ProbingGroup(k, _) => Rounds(k) + 4
    case Recovering(k, _) => Rounds(k) + 3
    case Removing(k, _) => Rounds(k) + 2
    case Writing => 2
    case Syncing => 1
    case Releasing => 2
    case Unlinking => 1
    case _ => 0
  }

  // However others interfere, every step of a run uses up its budget: an acquire ends within
  // 55 steps of its own, a release within two.
  lemma EveryStepCounts(s: State, r: RunId, error: bool)
    requires LiveRun(s, r) && StepsLeft(s.runs[r].phase) > 0
    ensures StepsLeft(AdvanceRun(s, r, error).runs[r].phase) < StepsLeft(s.runs[r].phase)
    ensures StepsLeft(Trying(0)) == 55 && StepsLeft(Releasing) == 2
  {
    hide PidInUse, GroupInUse, SameIncarnation, Lease, Rounds;
    FirstRound();
    match s.runs[r].phase
    case Trying(k) => RoundsFall(k);
    case Recovering(k, _) => RoundsFall(k);
    case Removing(k, _) => RoundsFall(k);
    case _ =>
  }

  lemma FirstRound()
    ensures Rounds(0) == 48
  {}

  lemma RoundsFall(k: nat)
    ensures StepsLeft(Trying(k + 1)) < Rounds(k) + 2
  {}

  // ---------------------------------------------------------------- where the protocol falls short

  // A run whose sync fails after the lease is written gives up without holding it, but the file
  // goes on naming it: others are told the workspace is held for as long as its process lives.
  lemma FailedSyncKeepsOthersOut(s: State, r: RunId, q: RunId)
    requires Inv(s) && LiveRun(s, r) && s.runs[r].phase == Syncing
    requires LiveRun(s, q) && s.runs[q].phase == Trying(0)
    requires s.procs[s.runs[r].proc].pid > 0 && s.procs[s.runs[r].proc].start != ""
    ensures var t := AdvanceRun(s, r, true);
      && !Holds(t, r) && t.file == Some(File(r, Lease(s, r)))
      && LiveRun(t, q) && Alone(t, q, 3).runs[q].phase == Busy(Held)
  {
    RunKnown(s, r);
    var t := AdvanceRun(s, r, true);
    assert t == Goto(s, r, Broken) && t.file == Some(File(r, Lease(s, r)));
    hide Inv, RunOk, AdvanceRun;
    ReadsAlone(t, q);
    var t1 := AdvanceRun(t, q, false);
    var t2 := AdvanceRun(t1, q, false);
    assert Alone(t, q, 0) == t && Alone(t, q, 1) == t1 && Alone(t, q, 2) == t2;
    FindsHeld(t2, q, s.runs[r].proc);
  }

  lemma FindsHeld(s: State, q: RunId, p: ProcId)
    requires LiveRun(s, q) && s.runs[q].phase.Probing? && s.runs[q].phase.raw.Owned? && Alive(s, p)
    requires var raw := s.runs[q].phase.raw;
      raw.pid == s.procs[p].pid > 0 && raw.start == s.procs[p].start != ""
    ensures AdvanceRun(s, q, false).runs[q].phase == Busy(Held)
  {
    var raw := s.runs[q].phase.raw;
    assert PidInUse(s, raw.pid) && SameIncarnation(s, raw.pid, raw.start);
  }

  // Two runs have found the same stale file unchanged. q unlinks it and takes the lease; r's
  // unlink then removes q's file, r creates its own, and both hold the lease.
  lemma LateUnlinkBreaksTheLease(s: State, r: RunId, q: RunId)
    requires LiveRun(s, r) && LiveRun(s, q) && r != q && s.file.Some?
    requires s.runs[r].phase == Removing(0, s.file.value.content) && s.runs[q].phase == s.runs[r].phase
    ensures LiveRun(Alone(s, q, 4), r)
    ensures var end := Alone(Alone(s, q, 4), r, 4);
      Holds(end, q) && Holds(end, r) && end.runs[q].phase == Holding == end.runs[r].phase
  {
    hide AdvanceRun, Alone, Holds;
    UnlinksAlone(s, q);
    CreatesAlone(Alone(s, q, 1), q);
    AloneSplit(s, q, 1, 3);
    OthersStand(s, q, r, 4);
    var taken := Alone(s, q, 4);
    UnlinksAlone(taken, r);
    CreatesAlone(Alone(taken, r, 1), r);
    AloneSplit(taken, r, 1, 3);
    OthersStand(taken, r, q, 4);
    HoldingHolds(Alone(taken, r, 4), q);
    HoldingHolds(Alone(taken, r, 4), r);
  }

  lemma UnlinksAlone(s: State, r: RunId)
    requires LiveRun(s, r) && s.runs[r].phase.Removing? && s.runs[r].phase.attempt == 0
    ensures Alone(s, r, 1).runs[r].phase == Trying(1) && Alone(s, r, 1).file.None?
  {
    assert Alone(s, r, 0) == s;
  }

  lemma HoldingHolds(s: State, r: RunId)
    requires LiveRun(s, r) && s.runs[r].phase == Holding
    ensures Holds(s, r)
  {}

  lemma {:induction false} OthersStand(s: State, r: RunId, q: RunId, n: nat)
    requires LiveRun(s, r) && q in s.runs && q != r
    ensures q in Alone(s, r, n).runs && Alone(s, r, n).runs[q] == s.runs[q]
    decreases n
  {
    if n > 0 {
      OthersStand(s, r, q, n - 1);
    }
  }

  // Run r takes n steps without an error.
  function Steps(r: RunId, n: nat): seq<Action> {
    seq(n, _ => Advance(r, false))
  }

  lemma {:induction false} StepsAreAlone(s: State, r: RunId, n: nat)
    requires LiveRun(s, r)
    ensures Exec(s, Steps(r, n)) == Alone(s, r, n)
    decreases n
  {
    hide AdvanceRun;
    if n > 0 {
      var t := AdvanceRun(s, r, false);
      assert Alone(s, r, 0) == s && Alone(s, r, 1) == t;
      assert Steps(r, n)[1..] == Steps(r, n - 1);
      StepsAreAlone(t, r, n - 1);
      AloneSplit(s, r, 1, n - 1);
    }
  }

  lemma {:induction false} ExecConcat(s: State, a: seq<Action>, b: seq<Action>)
    ensures Exec(s, a + b) == Exec(Exec(s, a), b)
    decreases |a|
  {
    hide Step;
    if a == [] {
      assert a + b == b;
    } else {
      assert (a + b)[1..] == a[1..] + b;
      ExecConcat(Step(s, a[0]), a[1..], b);
    }
  }

  // The lease of a run that is gone, with nothing running yet.
  const STALE: Content := Owned(0, 99, 99, "before")
  const ABANDONED: State := State(map[], map[], {0}, Some(File(0, STALE)))

  const TWO_ARRIVE: seq<Action> := [Spawn(1, 11, 11, "a"), Spawn(2, 12, 12, "b"), Begin(1, 1), Begin(2, 2)]

  // Both runs find the stale file and compare it; run 2 removes it and takes the lease; run 1,
  // already past its comparison, does the same.
  function LateUnlinkRun(): seq<Action> {
    TWO_ARRIVE + Steps(1, 5) + Steps(2, 5) + Steps(2, 4) + Steps(1, 4)
  }

  // A run of the code's own system calls, from a file left behind, after which two live runs
  // hold the lease.
  lemma TwoHolders()
    ensures var s := Exec(ABANDONED, LateUnlinkRun());
      Init(ABANDONED) && Holds(s, 1) && Holds(s, 2)
  {
    hide AdvanceRun, Alone, Holds, Exec;
    TwoArrive();
    var s := Exec(ABANDONED, TWO_ARRIVE);
    ReadyToRemove(s, 1);
    var s1 := Alone(s, 1, 5);
    OthersStand(s, 1, 2, 5);
    StaleInBoth(s, s1, STALE);
    ReadyToRemove(s1, 2);
    var s2 := Alone(s1, 2, 5);
    OthersStand(s1, 2, 1, 5);
    LateUnlinkBreaksTheLease(s2, 1, 2);
    StepsAreAlone(s, 1, 5);
    StepsAreAlone(s1, 2, 5);
    StepsAreAlone(s2, 2, 4);
    StepsAreAlone(Alone(s2, 2, 4), 1, 4);
    ExecConcat(ABANDONED, TWO_ARRIVE, Steps(1, 5));
    ExecConcat(ABANDONED, TWO_ARRIVE + Steps(1, 5), Steps(2, 5));
    ExecConcat(ABANDONED, TWO_ARRIVE + Steps(1, 5) + Steps(2, 5), Steps(2, 4));
    ExecConcat(ABANDONED, TWO_ARRIVE + Steps(1, 5) + Steps(2, 5) + Steps(2, 4), Steps(1, 4));
  }

  lemma TwoArrive()
    ensures var s := Exec(ABANDONED, TWO_ARRIVE);
      && LiveRun(s, 1) && LiveRun(s, 2) && s.runs[1].phase == Trying(0) == s.runs[2].phase
      && s.file == ABANDONED.file && ProvablyStale(s, STALE)
  {
    TwoSpawn();
    TwoBegin();
    ExecConcat(ABANDONED, [Spawn(1, 11, 11, "a"), Spawn(2, 12, 12, "b")], [Begin(1, 1), Begin(2, 2)]);
    assert TWO_ARRIVE == [Spawn(1, 11, 11, "a"), Spawn(2, 12, 12, "b")] + [Begin(1, 1), Begin(2, 2)];
  }

  const TWO_PROCS: map<ProcId, Proc> := map[1 := Proc(11, 11, "a", true), 2 := Proc(12, 12, "b", true)]

  lemma TwoSpawn()
    ensures Exec(ABANDONED, [Spawn(1, 11, 11, "a"), Spawn(2, 12, 12, "b")]) == ABANDONED.(procs := TWO_PROCS)
  {
    var s1 := Step(ABANDONED, Spawn(1, 11, 11, "a"));
    assert s1.procs == map[1 := Proc(11, 11, "a", true)];
    TwoSteps(ABANDONED, Spawn(1, 11, 11, "a"), Spawn(2, 12, 12, "b"));
  }

  lemma TwoBegin()
    ensures var s := Exec(ABANDONED.(procs := TWO_PROCS), [Begin(1, 1), Begin(2, 2)]);
      && s.procs == TWO_PROCS && s.file == ABANDONED.file
      && s.runs == map[1 := Run(1, Trying(0)), 2 := Run(2, Trying(0))]
  {
    var s2 := ABANDONED.(procs := TWO_PROCS);
    var s3 := Step(s2, Begin(1, 1));
    assert s3.runs == map[1 := Run(1, Trying(0))] && s3.used == {0, 1};
    var s4 := Step(s3, Begin(2, 2));
    assert s4.runs == map[1 := Run(1, Trying(0)), 2 := Run(2, Trying(0))] && s4.procs == TWO_PROCS;
    TwoSteps(s2, Begin(1, 1), Begin(2, 2));
  }

  lemma TwoSteps(s: State, a: Action, b: Action)
    ensures Exec(s, [a, b]) == Step(Step(s, a), b)
  {
    hide Step;
    assert [a, b][1..] == [b] && [b][1..] == [];
    assert Exec(Step(s, a), [b]) == Exec(Step(Step(s, a), b), []);
  }

  lemma ReadyToRemove(s: State, r: RunId)
    requires LiveRun(s, r) && s.runs[r].phase == Trying(0) && s.file.Some? && ProvablyStale(s, s.file.value.content)
    ensures Alone(s, r, 5).runs[r].phase == Removing(0, s.file.value.content) && Alone(s, r, 5).file == s.file
  {
    hide AdvanceRun, ProvablyStale, Alone;
    ContendsAlone(s, r);
    RecoversAlone(Alone(s, r, 4), r);
    AloneSplit(s, r, 4, 1);
  }
}
