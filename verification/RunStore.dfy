// Run directories, their manifests and the derived index, as a transition system.
//
// Writers, crashes, recovery and reindexing interleave at the grain of single file and table
// operations. One grain is coarser than the code: a recovery inspects and finalises one run
// directory in a single step.
module RunStore {
  import opened Wrappers
  import opened Seqs

  type RunId = nat
  type ProcId = nat  // one incarnation of a process; never reused
  type WriterId = nat
  type ReindexId = nat

  // Directories without a sentinel are left alone while younger than this.
  const GRACE_SECONDS: nat := 5

  // ---------------------------------------------------------------- manifests and rows

  datatype Manifest = Manifest(
    supported: bool, runId: RunId, kind: string, target: string, status: string, startedAt: string,
    endedAt: Option<string>, durationMs: Option<int>, workspace: string)

  datatype Row = Row(
    runId: RunId, kind: string, target: string, status: string, startedAt: string,
    endedAt: Option<string>, durationMs: Option<int>, workspace: string)

  // The row a finished run inserts for itself.
  function RowOf(m: Manifest): Row {
    Row(m.runId, m.kind, m.target, m.status, m.startedAt, m.endedAt, m.durationMs, m.workspace)
  }

  // The row a reindex derives: nothing for an unsupported schema or an empty required field.
  function RowFromManifest(m: Manifest): Option<Row> {
    if !m.supported || m.kind == "" || m.target == "" || m.status == "" || m.startedAt == "" || m.workspace == "" then None
    else Some(RowOf(m))
  }

  // What recovery can still learn about an interrupted run.
  datatype Facts = Facts(
    kind: Option<string>, target: Option<string>, workspace: Option<string>, startedAt: string, endedAt: string)

  function OrUnknown(fact: Option<string>): (r: string)
    ensures r != ""
  {
    if fact.Some? && fact.value != "" then fact.value else "unknown"
  }

  function Abandoned(run: RunId, facts: Facts): Manifest {
    Manifest(true, run, OrUnknown(facts.kind), OrUnknown(facts.target), "abandoned", facts.startedAt,
             Some(facts.endedAt), None, OrUnknown(facts.workspace))
  }

  // ---------------------------------------------------------------- processes and sentinels

  type Pid = n: int | n > 0 witness 1

  datatype Proc = Proc(pid: Pid, alive: bool)

  // Which facility answers for a process's start marker; their answers never compare equal.
  datatype Source = Ps | Procfs | Unavailable

  datatype Stamp = Stamp(proc: ProcId, pid: Pid, source: Source)

  // A sentinel is created empty and stamped by a second system call.
  datatype Sentinel = Sentinel(owner: WriterId, stamp: Option<Stamp>)

  datatype Dir = Dir(sentinel: Option<Sentinel>, manifest: Option<Manifest>, mtime: nat)

  datatype Phase =
    | Opened                // the directory exists, the sentinel is not claimed yet
    | Claimed               // the sentinel exists but is empty
    | Active
    | Durable(m: Manifest)  // the manifest is on disk, the row is not inserted yet
    | Indexed(m: Manifest)
    | Finalized
    | Rejected              // another writer holds the sentinel

  datatype Writer = Writer(proc: ProcId, run: RunId, phase: Phase)

  // A reindex in progress; `before` records which manifests were durable when it listed the
  // run directories.
  datatype Reindex =
    | Snapshotted(pre: set<RunId>)
    | Scanning(pre: set<RunId>, todo: set<RunId>, scanned: map<RunId, Row>, before: set<RunId>, unread: set<RunId>)
    | Committed

  datatype State = State(
    clock: nat, procs: map<ProcId, Proc>, writers: map<WriterId, Writer>,
    dirs: map<RunId, Dir>, table: map<RunId, Row>, reindexes: map<ReindexId, Reindex>)

  datatype Action =
    | Spawn(proc: ProcId, pid: Pid)
    | Crash(proc: ProcId)
    | Tick
    | Open(writer: WriterId, proc: ProcId, run: RunId)
    | Claim(writer: WriterId)
    | Sign(writer: WriterId, source: Source)
    | WriteManifest(writer: WriterId, m: Manifest)
    | InsertRow(writer: WriterId)
    | Finalize(writer: WriterId)
    | Recover(run: RunId, source: Source, asOf: nat, facts: Facts)
    | Snapshot(x: ReindexId)
    | List(x: ReindexId)
    | Scan(x: ReindexId, run: RunId, error: bool)  // `error`: the manifest cannot be read
    | Commit(x: ReindexId)

  predicate Alive(s: State, p: ProcId) {
    p in s.procs && s.procs[p].alive
  }

  predicate LiveWriter(s: State, w: WriterId) {
    w in s.writers && Alive(s, s.writers[w].proc)
  }

  // A writer that owns its directory: from claiming the sentinel to releasing it.
  predicate Owns(s: State, w: WriterId) {
    LiveWriter(s, w) && match s.writers[w].phase
                        case Claimed | Active | Durable(_) | Indexed(_) => true
                        case _ => false
  }

  // The live process with this pid, if any, is not the stamped incarnation according to the
  // facility answering now.
  ghost predicate MarkerDiffers(s: State, stamp: Stamp, source: Source) {
    && stamp.source != Unavailable && source != Unavailable
    && forall p :: Alive(s, p) && s.procs[p].pid == stamp.pid ==> source != stamp.source || p != stamp.proc
  }

  ghost predicate PidInUse(s: State, pid: Pid) {
    exists p :: Alive(s, p) && s.procs[p].pid == pid
  }

  ghost predicate ProvablyDead(s: State, stamp: Stamp, source: Source) {
    !PidInUse(s, stamp.pid) || MarkerDiffers(s, stamp, source)
  }

  // Recovery acts on this directory.
  ghost predicate Recoverable(s: State, dir: Dir, source: Source, asOf: nat) {
    && dir.manifest.None?
    && if dir.sentinel.Some? then
         dir.sentinel.value.stamp.Some? && ProvablyDead(s, dir.sentinel.value.stamp.value, source)
       else asOf - dir.mtime >= GRACE_SECONDS
  }

  function SetDir(s: State, run: RunId, dir: Dir): State {
    s.(dirs := s.dirs[run := dir])
  }

  function Manifests(s: State): set<RunId> {
    set r | r in s.dirs && s.dirs[r].manifest.Some?
  }

  // A disabled action changes nothing.
  ghost function Step(s: State, a: Action): State {
    match a
    case Spawn(p, pid) =>
      if p in s.procs || PidInUse(s, pid) then s else s.(procs := s.procs[p := Proc(pid, true)])
    case Crash(p) =>
      if p in s.procs then s.(procs := s.procs[p := s.procs[p].(alive := false)]) else s
    case Tick => s.(clock := s.clock + 1)
    case Open(w, p, run) =>
      if w in s.writers || !Alive(s, p) then s
      else
        var t := s.(writers := s.writers[w := Writer(p, run, Opened)]);
        if run in s.dirs then t else SetDir(t, run, Dir(None, None, s.clock))
    case Recover(run, source, asOf, facts) =>
      if run in s.dirs && asOf <= s.clock && facts.startedAt != "" && Recoverable(s, s.dirs[run], source, asOf) then
        var m := Abandoned(run, facts);
        SetDir(s, run, Dir(None, Some(m), s.clock)).(table := s.table[run := RowOf(m)])
      else s
    case Snapshot(x) =>
      if x in s.reindexes then s else s.(reindexes := s.reindexes[x := Snapshotted(s.table.Keys)])
    case List(x) =>
      if x in s.reindexes && s.reindexes[x].Snapshotted? then
        s.(reindexes := s.reindexes[x := Scanning(s.reindexes[x].pre, s.dirs.Keys, map[], Manifests(s), {})])
      else s
    case Scan(x, run, error) =>
      if x in s.reindexes && s.reindexes[x].Scanning? && run in s.reindexes[x].todo then
        s.(reindexes := s.reindexes[x := ScanOne(s, s.reindexes[x], run, error)])
      else s
    case Commit(x) =>
      if x in s.reindexes && s.reindexes[x].Scanning? && s.reindexes[x].todo == {} then
        var stale := s.reindexes[x].pre - s.reindexes[x].scanned.Keys;
        s.(table := (s.table + s.reindexes[x].scanned) - stale, reindexes := s.reindexes[x := Committed])
      else s
    case _ =>
      if LiveWriter(s, a.writer) && s.writers[a.writer].run in s.dirs then WriterStep(s, a) else s
  }

  ghost function ScanOne(s: State, r: Reindex, run: RunId, error: bool): Reindex
    requires r.Scanning?
  {
    if error then Scanning(r.pre, r.todo - {run}, r.scanned, r.before, r.unread + {run})
    else
      var row := if run in s.dirs && s.dirs[run].manifest.Some? then RowFromManifest(s.dirs[run].manifest.value) else None;
      Scanning(
        r.pre, r.todo - {run}, if row.Some? then r.scanned[row.value.runId := row.value] else r.scanned, r.before, r.unread)
  }

  // What one step of a writer does: its next phase, its directory and the row it inserts.
  datatype Move = Move(phase: Phase, dir: Dir, row: Option<Row>)

  predicate IsWriterAction(a: Action) {
    a.Claim? || a.Sign? || a.WriteManifest? || a.InsertRow? || a.Finalize?
  }

  function WriterMove(a: Action, writer: Writer, pid: Pid, dir: Dir, clock: nat): Move
    requires IsWriterAction(a)
  {
    var w, phase, stay := a.writer, writer.phase, Move(writer.phase, dir, None);
    match a
    case Claim(_) =>
      if phase != Opened then stay
      else if dir.sentinel.Some? then stay.(phase := Rejected)
      else Move(Claimed, dir.(sentinel := Some(Sentinel(w, None)), mtime := clock), None)
    case Sign(_, source) =>
      if phase != Claimed then stay
      else if dir.sentinel.Some? && dir.sentinel.value.owner == w then
        Move(Active, dir.(sentinel := Some(Sentinel(w, Some(Stamp(writer.proc, pid, source))))), None)
      else stay.(phase := Active)
    case WriteManifest(_, m) =>
      if phase != Active || m.runId != writer.run then stay
      else Move(Durable(m), dir.(manifest := Some(m), mtime := clock), None)
    case InsertRow(_) =>
      if phase.Durable? then Move(Indexed(phase.m), dir, Some(RowOf(phase.m))) else stay
    case Finalize(_) =>
      if phase == Opened || phase == Rejected || phase == Finalized then stay
      else Move(Finalized, dir.(sentinel := None, mtime := clock), None)
  }

  ghost function MoveOf(s: State, a: Action): Move
    requires IsWriterAction(a) && LiveWriter(s, a.writer) && s.writers[a.writer].run in s.dirs
  {
    var writer := s.writers[a.writer];
    WriterMove(a, writer, s.procs[writer.proc].pid, s.dirs[writer.run], s.clock)
  }

  ghost function WriterStep(s: State, a: Action): State
    requires IsWriterAction(a) && LiveWriter(s, a.writer) && s.writers[a.writer].run in s.dirs
  {
    var writer, move := s.writers[a.writer], MoveOf(s, a);
    s.(writers := s.writers[a.writer := writer.(phase := move.phase)],
       dirs := s.dirs[writer.run := move.dir],
       table := if move.row.Some? then s.table[writer.run := move.row.value] else s.table)
  }

  ghost function Exec(s: State, actions: seq<Action>): State
    decreases |actions|
  {
    if actions == [] then s else Exec(Step(s, actions[0]), actions[1..])
  }

  // Nothing runs yet; directories and rows may be left over, each row beside its manifest.
  ghost predicate Init(s: State) {
    && s.procs == map[] && s.writers == map[] && s.reindexes == map[]
    && (forall r :: r in s.dirs && s.dirs[r].manifest.Some? ==> s.dirs[r].manifest.value.runId == r)
    && forall r :: r in s.table ==>
         r in s.dirs && s.dirs[r].manifest.Some? && s.table[r] == RowOf(s.dirs[r].manifest.value)
  }

  // ---------------------------------------------------------------- what each kind of action leaves alone

  lemma ProcessStep(s: State, a: Action)
    requires a.Spawn? || a.Crash? || a.Tick?
    ensures var t := Step(s, a);
      && t.writers == s.writers && t.dirs == s.dirs && t.table == s.table && t.reindexes == s.reindexes
      && forall p :: p in s.procs ==>
           p in t.procs && t.procs[p].pid == s.procs[p].pid && (t.procs[p].alive ==> s.procs[p].alive)
  {}

  lemma OpenStep(s: State, a: Action)
    requires a.Open?
    ensures var t := Step(s, a);
      && t.procs == s.procs && t.table == s.table && t.reindexes == s.reindexes
      && (t == s || (a.writer !in s.writers
                     && t.writers == s.writers[a.writer := Writer(a.proc, a.run, Opened)]
                     && t.dirs == if a.run in s.dirs then s.dirs else s.dirs[a.run := Dir(None, None, s.clock)]))
      && (t != s ==> a.proc in s.procs)
  {}

  // A reindex moves on by itself; only its commit touches the table.
  lemma ReindexStep(s: State, a: Action)
    requires a.Snapshot? || a.List? || a.Scan? || a.Commit?
    ensures var t := Step(s, a);
      && t.procs == s.procs && t.writers == s.writers && t.dirs == s.dirs && (!a.Commit? ==> t.table == s.table)
      && (t.reindexes == s.reindexes
          || (a.x in t.reindexes && t.reindexes == s.reindexes[a.x := t.reindexes[a.x]]))
  {
    hide ScanOne, Manifests, Recoverable, WriterStep, PidInUse;
  }

  // A writer that can move.
  ghost predicate Enabled(s: State, a: Action) {
    IsWriterAction(a) && LiveWriter(s, a.writer) && s.writers[a.writer].run in s.dirs
  }

  lemma WriterActs(s: State, a: Action)
    requires IsWriterAction(a)
    ensures Step(s, a) == if Enabled(s, a) then WriterStep(s, a) else s
  {
    hide WriterStep, Recoverable, ScanOne;
  }

  // ---------------------------------------------------------------- one live writer

  // The facility that answers for start markers does not change between stamping and recovery.
  ghost predicate Steady(s: State, a: Action) {
    a.Recover? && a.run in s.dirs && s.dirs[a.run].sentinel.Some? && s.dirs[a.run].sentinel.value.stamp.Some? ==>
      var recorded := s.dirs[a.run].sentinel.value.stamp.value.source;
      a.source == recorded || a.source == Unavailable || recorded == Unavailable
  }

  ghost predicate SteadyRun(s: State, actions: seq<Action>)
    decreases |actions|
  {
    actions == [] || (Steady(s, actions[0]) && SteadyRun(Step(s, actions[0]), actions[1..]))
  }

  ghost predicate OwnOk(s: State, w: WriterId)
    requires w in s.writers
  {
    var run, proc, phase := s.writers[w].run, s.writers[w].proc, s.writers[w].phase;
    && run in s.dirs && proc in s.procs
    && (Owns(s, w) ==>
          && s.dirs[run].sentinel.Some?
          && s.dirs[run].sentinel.value.owner == w
          && if phase == Claimed then s.dirs[run].sentinel.value.stamp.None?
             else
               && s.dirs[run].sentinel.value.stamp.Some?
               && s.dirs[run].sentinel.value.stamp.value.proc == proc
               && s.dirs[run].sentinel.value.stamp.value.pid == s.procs[proc].pid)
  }

  ghost predicate Owned(s: State) {
    forall w :: w in s.writers ==> OwnOk(s, w)
  }

  // A live owner is never judged dead while the marker facility is steady.
  lemma LiveOwnerIsSafe(s: State, w: WriterId, a: Action)
    requires Owned(s) && Owns(s, w) && a.Recover? && a.run == s.writers[w].run && Steady(s, a)
    ensures !Recoverable(s, s.dirs[a.run], a.source, a.asOf)
  {}

  lemma RecoverKeepsOwned(s: State, a: Action)
    requires Owned(s) && a.Recover? && Steady(s, a)
    ensures Owned(Step(s, a))
  {}

  lemma WriterKeepsOwned(s: State, a: Action)
    requires Owned(s) && IsWriterAction(a)
    ensures Owned(Step(s, a))
  {
    hide OwnOk;
    var t := Step(s, a);
    if LiveWriter(s, a.writer) {
      OwnerKnown(s, a.writer);
      WriterOwns(s, a);
      forall w | w in t.writers
        ensures OwnOk(t, w)
      {
        if w != a.writer {
          OwnerKnown(s, w);
          BystanderOwns(s, a, w);
        }
      }
    }
  }

  lemma OwnerKnown(s: State, w: WriterId)
    requires Owned(s) && w in s.writers
    ensures s.writers[w].run in s.dirs && s.writers[w].proc in s.procs
  {
    assert OwnOk(s, w);
  }

  lemma WriterOwns(s: State, a: Action)
    requires Owned(s) && IsWriterAction(a)
    requires LiveWriter(s, a.writer)
    ensures a.writer in Step(s, a).writers && OwnOk(Step(s, a), a.writer)
  {
    assert OwnOk(s, a.writer);
  }

  lemma BystanderOwns(s: State, a: Action, w: WriterId)
    requires Owned(s) && IsWriterAction(a)
    requires LiveWriter(s, a.writer) && w in s.writers && w != a.writer
    ensures w in Step(s, a).writers && OwnOk(Step(s, a), w)
  {
    assert OwnOk(s, a.writer) && OwnOk(s, w);
  }

  lemma OtherKeepsOwned(s: State, a: Action)
    requires Owned(s)
    requires !a.Recover? && !IsWriterAction(a)
    ensures Owned(Step(s, a))
  {
    if a.Open? {
      OpenKeepsOwned(s, a);
    } else {
      WorldKeepsOwned(s, a);
    }
  }

  lemma OpenKeepsOwned(s: State, a: Action)
    requires Owned(s) && a.Open?
    ensures Owned(Step(s, a))
  {
    hide Step;
    var t := Step(s, a);
    OpenStep(s, a);
    forall w | w in t.writers
      ensures OwnOk(t, w)
    {
      if w in s.writers {
        assert OwnOk(s, w);
      }
    }
  }

  // Neither writers nor directories change; processes only die or are added.
  lemma WorldKeepsOwned(s: State, a: Action)
    requires Owned(s)
    requires a.Spawn? || a.Crash? || a.Tick? || a.Snapshot? || a.List? || a.Scan? || a.Commit?
    ensures Owned(Step(s, a))
  {
    hide Owned, OwnOk, Step;
    if a.Spawn? || a.Crash? || a.Tick? {
      ProcessStep(s, a);
    } else {
      ReindexStep(s, a);
    }
    SameOwners(s, Step(s, a));
  }

  lemma SameOwners(s: State, t: State)
    requires Owned(s) && t.writers == s.writers && t.dirs == s.dirs
    requires forall p :: p in s.procs ==>
      p in t.procs && t.procs[p].pid == s.procs[p].pid && (t.procs[p].alive ==> s.procs[p].alive)
    ensures Owned(t)
  {
    forall w | w in t.writers
      ensures OwnOk(t, w)
    {
      assert OwnOk(s, w);
    }
  }

  lemma StepKeepsOwned(s: State, a: Action)
    requires Owned(s) && Steady(s, a)
    ensures Owned(Step(s, a))
  {
    hide Owned, Step;
    if a.Recover? {
      RecoverKeepsOwned(s, a);
    } else if IsWriterAction(a) {
      WriterKeepsOwned(s, a);
    } else {
      OtherKeepsOwned(s, a);
    }
  }

  lemma {:induction false} ExecKeepsOwned(s: State, actions: seq<Action>)
    requires Owned(s) && SteadyRun(s, actions)
    ensures Owned(Exec(s, actions))
    decreases |actions|
  {
    hide Owned, Step, Steady;
    if actions != [] {
      StepKeepsOwned(s, actions[0]);
      ExecKeepsOwned(Step(s, actions[0]), actions[1..]);
    }
  }

  // While the marker facility is steady, each run directory has at most one live writer in every
  // reachable state, even if run ids repeat.
  lemma OneLiveWriter(s0: State, actions: seq<Action>, v: WriterId, w: WriterId)
    requires Init(s0) && SteadyRun(s0, actions)
    ensures var s := Exec(s0, actions);
      Owns(s, v) && Owns(s, w) && s.writers[v].run == s.writers[w].run ==> v == w
  {
    ExecKeepsOwned(s0, actions);
    var s := Exec(s0, actions);
    if Owns(s, v) && Owns(s, w) {
      assert OwnOk(s, v) && OwnOk(s, w);
    }
  }

  // ---------------------------------------------------------------- manifests and rows

  // Run ids are fresh: a writer only opens a directory that does not exist yet.
  ghost predicate Fresh(s: State, a: Action) {
    a.Open? ==> a.run !in s.dirs
  }

  ghost predicate FreshRun(s: State, actions: seq<Action>)
    decreases |actions|
  {
    actions == [] || (Fresh(s, actions[0]) && FreshRun(Step(s, actions[0]), actions[1..]))
  }

  // Every writer has a directory of its own.
  ghost predicate OwnDirectories(s: State) {
    && (forall w :: w in s.writers ==> s.writers[w].run in s.dirs)
    && forall v, w :: v in s.writers && w in s.writers && s.writers[v].run == s.writers[w].run ==> v == w
  }

  lemma StepKeepsDirectories(s: State, a: Action)
    requires OwnDirectories(s) && Fresh(s, a)
    ensures OwnDirectories(Step(s, a))
  {
    if a.Open? {
      hide Recoverable, ScanOne;
    } else {
      hide OwnDirectories;
      SameDirectories(s, a);
      KeepsDirectories(s, Step(s, a));
    }
  }

  // Only opening a directory adds a writer, and no directory goes away.
  lemma SameDirectories(s: State, a: Action)
    requires !a.Open?
    ensures var t := Step(s, a);
      && t.writers.Keys == s.writers.Keys && s.dirs.Keys <= t.dirs.Keys
      && forall w :: w in s.writers ==> t.writers[w].run == s.writers[w].run
  {
    hide Recoverable, ScanOne, WriterStep;
    if IsWriterAction(a) && LiveWriter(s, a.writer) && s.writers[a.writer].run in s.dirs {
      WriterSameDirectories(s, a);
    }
  }

  lemma WriterSameDirectories(s: State, a: Action)
    requires IsWriterAction(a) && LiveWriter(s, a.writer) && s.writers[a.writer].run in s.dirs
    ensures var t := WriterStep(s, a);
      && t.writers.Keys == s.writers.Keys && s.dirs.Keys <= t.dirs.Keys
      && forall w :: w in s.writers ==> t.writers[w].run == s.writers[w].run
  {}

  lemma KeepsDirectories(s: State, t: State)
    requires OwnDirectories(s) && t.writers.Keys == s.writers.Keys && s.dirs.Keys <= t.dirs.Keys
    requires forall w :: w in s.writers ==> t.writers[w].run == s.writers[w].run
    ensures OwnDirectories(t)
  {
    assert forall w :: w in t.writers <==> w in s.writers.Keys;
    assert forall r :: r in s.dirs ==> r in t.dirs.Keys;
  }

  lemma {:induction false} ExecKeepsDirectories(s: State, actions: seq<Action>)
    requires OwnDirectories(s) && FreshRun(s, actions)
    ensures OwnDirectories(Exec(s, actions))
    decreases |actions|
  {
    hide Step, OwnDirectories, Fresh;
    if actions != [] {
      StepKeepsDirectories(s, actions[0]);
      ExecKeepsDirectories(Step(s, actions[0]), actions[1..]);
    }
  }

  // With fresh run ids, each run directory has at most one writer in every reachable state,
  // whatever recovery does and whichever facility answers it.
  lemma OneWriterPerFreshRun(s0: State, actions: seq<Action>, v: WriterId, w: WriterId)
    requires Init(s0) && FreshRun(s0, actions)
    ensures var s := Exec(s0, actions);
      v in s.writers && w in s.writers && s.writers[v].run == s.writers[w].run ==> v == w
  {
    hide Exec;
    ExecKeepsDirectories(s0, actions);
  }

  // No recovery finds a live writer that has lingered for the grace period between creating
  // its directory and claiming the sentinel.
  ghost predicate Prompt(s: State, a: Action) {
    a.Recover? && a.run in s.dirs ==>
      forall w :: LiveWriter(s, w) && s.writers[w].run == a.run && s.writers[w].phase == Opened ==>
        a.asOf - s.dirs[a.run].mtime < GRACE_SECONDS
  }

  ghost predicate Orderly(s: State, a: Action) {
    Steady(s, a) && Fresh(s, a) && Prompt(s, a)
  }

  ghost predicate OrderlyRun(s: State, actions: seq<Action>)
    decreases |actions|
  {
    actions == [] || (Orderly(s, actions[0]) && OrderlyRun(Step(s, actions[0]), actions[1..]))
  }

  function ManifestAt(s: State, r: RunId): Option<Manifest> {
    if r in s.dirs then s.dirs[r].manifest else None
  }

  // The row a reindex would derive for r.
  function RowAt(s: State, r: RunId): Option<Row> {
    var m := ManifestAt(s, r);
    if m.Some? then RowFromManifest(m.value) else None
  }

  ghost predicate WriterOk(s: State, w: WriterId)
    requires w in s.writers
  {
    var run := s.writers[w].run;
    && run in s.dirs
    && (forall v :: v in s.writers && s.writers[v].run == run ==> v == w)
    && match s.writers[w].phase
       case Opened => LiveWriter(s, w) ==> s.dirs[run].manifest.None? && s.dirs[run].sentinel.None?
       case Claimed => LiveWriter(s, w) ==> s.dirs[run].manifest.None?
       case Active => LiveWriter(s, w) ==> s.dirs[run].manifest.None?
       case Durable(m) => s.dirs[run].manifest == Some(m)
       case Indexed(m) => s.dirs[run].manifest == Some(m)
       case _ => true
  }

  ghost predicate DirsOk(s: State) {
    forall r :: r in s.dirs && s.dirs[r].manifest.Some? ==> s.dirs[r].manifest.value.runId == r
  }

  // Every row names a run whose manifest is durable, and says what that manifest says.
  ghost predicate TableOk(s: State) {
    forall r :: r in s.table ==> ManifestAt(s, r).Some? && s.table[r] == RowOf(ManifestAt(s, r).value)
  }

  ghost predicate ReindexOk(s: State, rx: Reindex) {
    match rx
    case Snapshotted(pre) => forall r :: r in pre ==> ManifestAt(s, r).Some?
    case Scanning(pre, todo, scanned, before, unread) =>
      && (forall r :: r in pre ==> r in before)
      && (forall r :: r in before ==> ManifestAt(s, r).Some?)
      && (forall r :: r in scanned ==> RowAt(s, r) == Some(scanned[r]))
      && (forall r :: r in before ==> r in todo || r in scanned || r in unread || RowAt(s, r).None?)
      && (forall r :: r in scanned || r in unread ==> r !in todo) && (forall r :: r in unread ==> r !in scanned)
    case Committed => true
  }

  ghost predicate Consistent(s: State) {
    && Owned(s)
    && (forall w :: w in s.writers ==> WriterOk(s, w))
    && DirsOk(s) && TableOk(s)
    && forall x :: x in s.reindexes ==> ReindexOk(s, s.reindexes[x])
  }

  lemma InitConsistent(s: State)
    requires Init(s)
    ensures Consistent(s)
  {}

  // Durable manifests stay as they are; new ones may appear.
  ghost predicate Grows(s: State, t: State) {
    forall r :: ManifestAt(s, r).Some? ==> ManifestAt(t, r) == ManifestAt(s, r)
  }

  lemma AllReindexesStayOk(s: State, t: State)
    requires Consistent(s) && Grows(s, t) && t.reindexes == s.reindexes
    ensures forall x :: x in t.reindexes ==> ReindexOk(t, t.reindexes[x])
  {}

  // ---------------------------------------------------------------- each action keeps the store consistent

  lemma ProcessKeepsConsistent(s: State, a: Action)
    requires Consistent(s) && (a.Spawn? || a.Crash? || a.Tick?)
    ensures Consistent(Step(s, a)) && Grows(s, Step(s, a))
  {
    hide Step, Owned, ReindexOk, WriterOk, DirsOk, TableOk, Grows;
    var t := Step(s, a);
    ProcessStep(s, a);
    OtherKeepsOwned(s, a);
    SameFiles(s, t);
    forall w | w in t.writers
      ensures WriterOk(t, w)
    {
      OwnerKnown(s, w);
      SameWriter(s, t, w);
    }
  }

  lemma SameWriter(s: State, t: State, w: WriterId)
    requires w in s.writers && WriterOk(s, w) && s.writers[w].proc in s.procs
    requires t.writers == s.writers && t.dirs == s.dirs
    requires s.writers[w].proc in t.procs && (t.procs[s.writers[w].proc].alive ==> s.procs[s.writers[w].proc].alive)
    ensures WriterOk(t, w)
  {}

  lemma OpenKeepsConsistent(s: State, a: Action)
    requires Consistent(s) && a.Open? && Fresh(s, a)
    ensures Consistent(Step(s, a)) && Grows(s, Step(s, a))
  {
    hide Step, Owned, ReindexOk, WriterOk;
    var t := Step(s, a);
    OpenStep(s, a);
    OtherKeepsOwned(s, a);
    forall w | w in t.writers
      ensures WriterOk(t, w)
    {
      OpenKeepsWriter(s, a, w);
    }
    AllReindexesStayOk(s, t);
  }

  lemma OpenKeepsWriter(s: State, a: Action, w: WriterId)
    requires (forall v :: v in s.writers ==> WriterOk(s, v)) && a.Open? && Fresh(s, a) && w in Step(s, a).writers
    ensures WriterOk(Step(s, a), w)
  {
    hide Step;
    OpenStep(s, a);
    forall v | v in s.writers
      ensures WriterOk(s, v) && s.writers[v].run in s.dirs
    {}
  }

  lemma RecoverKeepsFiles(s: State, a: Action)
    requires DirsOk(s) && TableOk(s) && a.Recover?
    ensures DirsOk(Step(s, a)) && TableOk(Step(s, a)) && Grows(s, Step(s, a))
  {
    hide ProvablyDead;
  }

  lemma RecoverKeepsWriter(s: State, a: Action, w: WriterId)
    requires Owned(s) && w in s.writers && WriterOk(s, w) && a.Recover? && Orderly(s, a)
    ensures WriterOk(Step(s, a), w)
  {
    hide Owned, ProvablyDead;
    var run, phase := s.writers[w].run, s.writers[w].phase;
    if run == a.run && LiveWriter(s, w) {
      if Owns(s, w) {
        LiveOwnerIsSafe(s, w, a);
      }
    }
  }

  lemma RecoverKeepsConsistent(s: State, a: Action)
    requires Consistent(s) && a.Recover? && Orderly(s, a)
    ensures Consistent(Step(s, a)) && Grows(s, Step(s, a))
  {
    hide WriterOk, DirsOk, TableOk, Recoverable, Owned, Steady, Fresh, Prompt, Grows, ReindexOk;
    var t := Step(s, a);
    RecoverKeepsOwned(s, a);
    RecoverKeepsFiles(s, a);
    forall w | w in t.writers
      ensures WriterOk(t, w)
    {
      RecoverKeepsWriter(s, a, w);
    }
    AllReindexesStayOk(s, t);
  }

  // A move leaves the manifest alone or makes the first one, and a row repeats the manifest.
  lemma MoveKeepsManifest(s: State, a: Action)
    requires Enabled(s, a) && WriterOk(s, a.writer)
    ensures var run, move := s.writers[a.writer].run, MoveOf(s, a);
      && (move.dir.manifest == s.dirs[run].manifest
          || (s.dirs[run].manifest.None? && move.dir.manifest.Some? && move.dir.manifest.value.runId == run))
      && (move.row.Some? ==> move.dir.manifest.Some? && move.row.value == RowOf(move.dir.manifest.value))
  {}

  lemma WriterKeepsFiles(s: State, a: Action)
    requires DirsOk(s) && TableOk(s) && IsWriterAction(a)
    requires a.writer in s.writers ==> WriterOk(s, a.writer)
    ensures DirsOk(Step(s, a)) && TableOk(Step(s, a)) && Grows(s, Step(s, a))
  {
    hide Step, MoveOf, WriterOk;
    WriterActs(s, a);
    if Enabled(s, a) {
      MoveKeepsManifest(s, a);
    }
  }

  // The writer that moves meets its own condition; nobody else shares its directory.
  lemma WriterKeepsWriter(s: State, a: Action, w: WriterId)
    requires IsWriterAction(a) && w in s.writers && WriterOk(s, w)
    requires a.writer in s.writers ==> WriterOk(s, a.writer)
    ensures w in Step(s, a).writers && WriterOk(Step(s, a), w)
  {
    hide Step, MoveOf;
    WriterActs(s, a);
    if Enabled(s, a) {
      MoveFits(s, a);
    }
  }

  lemma MoveFits(s: State, a: Action)
    requires Enabled(s, a) && WriterOk(s, a.writer)
    ensures var move := MoveOf(s, a);
      match move.phase
      case Opened => move.dir.manifest.None? && move.dir.sentinel.None?
      case Claimed => move.dir.manifest.None?
      case Active => move.dir.manifest.None?
      case Durable(m) => move.dir.manifest == Some(m)
      case Indexed(m) => move.dir.manifest == Some(m)
      case _ => true
  {}

  lemma WriterKeepsConsistent(s: State, a: Action)
    requires Consistent(s) && IsWriterAction(a)
    ensures Consistent(Step(s, a)) && Grows(s, Step(s, a))
  {
    hide WriterOk, DirsOk, TableOk, Owned, Grows, ReindexOk, ManifestAt;
    var t := Step(s, a);
    WriterKeepsOwned(s, a);
    WriterKeepsFiles(s, a);
    forall w | w in t.writers
      ensures WriterOk(t, w)
    {
      WriterKeepsWriter(s, a, w);
    }
    AllReindexesStayOk(s, t);
  }

  lemma SameFiles(s: State, t: State)
    requires t.dirs == s.dirs
    ensures DirsOk(s) ==> DirsOk(t)
    ensures Grows(s, t)
    ensures TableOk(s) && t.table == s.table ==> TableOk(t)
    ensures forall rx :: ReindexOk(s, rx) ==> ReindexOk(t, rx)
    ensures t.procs == s.procs && t.writers == s.writers ==>
      forall w :: w in s.writers && WriterOk(s, w) ==> WriterOk(t, w)
  {}

  lemma ScanKeepsReindex(s: State, rx: Reindex, run: RunId, error: bool)
    requires DirsOk(s) && rx.Scanning? && ReindexOk(s, rx) && run in rx.todo
    ensures ReindexOk(s, ScanOne(s, rx, run, error))
  {}

  lemma ListStartsReindex(s: State, pre: set<RunId>)
    requires ReindexOk(s, Snapshotted(pre))
    ensures ReindexOk(s, Scanning(pre, s.dirs.Keys, map[], Manifests(s), {}))
  {}

  lemma SnapshotStartsReindex(s: State)
    requires TableOk(s)
    ensures ReindexOk(s, Snapshotted(s.table.Keys))
  {}

  lemma CommitKeepsTable(s: State, x: ReindexId)
    requires TableOk(s) && (x in s.reindexes ==> ReindexOk(s, s.reindexes[x]))
    ensures TableOk(Step(s, Commit(x)))
  {}

  lemma ReindexKeepsItself(s: State, a: Action)
    requires DirsOk(s) && TableOk(s) && (a.Snapshot? || a.List? || a.Scan? || a.Commit?)
    requires a.x in s.reindexes ==> ReindexOk(s, s.reindexes[a.x])
    ensures a.x in Step(s, a).reindexes ==> ReindexOk(s, Step(s, a).reindexes[a.x])
  {
    hide DirsOk, TableOk, ReindexOk, ScanOne;
    if a.Scan? && a.x in s.reindexes && s.reindexes[a.x].Scanning? && a.run in s.reindexes[a.x].todo {
      ScanKeepsReindex(s, s.reindexes[a.x], a.run, a.error);
    } else if a.List? && a.x in s.reindexes && s.reindexes[a.x].Snapshotted? {
      ListStartsReindex(s, s.reindexes[a.x].pre);
    } else if a.Snapshot? {
      SnapshotStartsReindex(s);
    }
    CommittedOk(s);
  }

  lemma ReindexKeepsConsistent(s: State, a: Action)
    requires Consistent(s) && (a.Snapshot? || a.List? || a.Scan? || a.Commit?)
    ensures Consistent(Step(s, a)) && Grows(s, Step(s, a))
  {
    hide Step, WriterOk, DirsOk, TableOk, Owned, Grows, ReindexOk;
    var t := Step(s, a);
    OtherKeepsOwned(s, a);
    ReindexStep(s, a);
    ReindexKeepsItself(s, a);
    SameFiles(s, t);
    if a.Commit? {
      CommitKeepsTable(s, a.x);
    }
  }

  lemma CommittedOk(s: State)
    ensures ReindexOk(s, Committed)
  {}

  lemma StepKeepsConsistent(s: State, a: Action)
    requires Consistent(s) && Orderly(s, a)
    ensures Consistent(Step(s, a)) && Grows(s, Step(s, a))
  {
    hide Consistent, Step, Grows;
    match a
    case Spawn(_, _) => ProcessKeepsConsistent(s, a);
    case Crash(_) => ProcessKeepsConsistent(s, a);
    case Tick => ProcessKeepsConsistent(s, a);
    case Open(_, _, _) => OpenKeepsConsistent(s, a);
    case Recover(_, _, _, _) => RecoverKeepsConsistent(s, a);
    case Snapshot(_) => ReindexKeepsConsistent(s, a);
    case List(_) => ReindexKeepsConsistent(s, a);
    case Scan(_, _, _) => ReindexKeepsConsistent(s, a);
    case Commit(_) => ReindexKeepsConsistent(s, a);
    case _ => WriterKeepsConsistent(s, a);
  }

  lemma {:induction false} ExecKeepsConsistent(s: State, actions: seq<Action>)
    requires Consistent(s) && OrderlyRun(s, actions)
    ensures Consistent(Exec(s, actions)) && Grows(s, Exec(s, actions))
    decreases |actions|
  {
    hide Consistent, Step, Orderly;
    if actions != [] {
      StepKeepsConsistent(s, actions[0]);
      ExecKeepsConsistent(Step(s, actions[0]), actions[1..]);
    }
  }

  // The row repeats the manifest, field by field.
  ghost predicate Says(row: Row, m: Manifest) {
    && row.runId == m.runId && row.kind == m.kind && row.target == m.target && row.status == m.status
    && row.startedAt == m.startedAt && row.endedAt == m.endedAt && row.durationMs == m.durationMs
    && row.workspace == m.workspace
  }

  // A manifest yields a row exactly when its schema is supported and it says what it must; the
  // row then repeats it, and no other row does.
  lemma RowFromManifestSays(m: Manifest, row: Row)
    ensures RowFromManifest(m) == Some(row) <==>
      && m.supported && Says(row, m)
      && row.kind != "" && row.target != "" && row.status != "" && row.startedAt != "" && row.workspace != ""
  {}

  // In every reachable state, each row names a run with a durable manifest and agrees with it,
  // and no later step changes or removes a durable manifest.
  lemma ManifestsAreTheTruth(s0: State, actions: seq<Action>, later: seq<Action>, r: RunId)
    requires Init(s0) && OrderlyRun(s0, actions) && OrderlyRun(Exec(s0, actions), later)
    ensures var s, t := Exec(s0, actions), Exec(Exec(s0, actions), later);
      && (r in s.table ==> ManifestAt(s, r).Some? && Says(s.table[r], ManifestAt(s, r).value))
      && (ManifestAt(s, r).Some? ==> ManifestAt(t, r) == ManifestAt(s, r))
  {
    hide Exec, OrderlyRun;
    InitConsistent(s0);
    ExecKeepsConsistent(s0, actions);
    ExecKeepsConsistent(Exec(s0, actions), later);
  }

  // ---- one run from start to end

  // The six steps of a writer.
  function WholeRun(w: WriterId, p: ProcId, run: RunId, source: Source, m: Manifest): seq<Action> {
    [Open(w, p, run), Claim(w), Sign(w, source), WriteManifest(w, m), InsertRow(w), Finalize(w)]
  }

  // Undisturbed, a run on a new directory ends with its manifest durable, its row in the table and
  // its sentinel gone.
  lemma WholeRunIsIndexed(s: State, w: WriterId, p: ProcId, run: RunId, source: Source, m: Manifest)
    requires Alive(s, p) && w !in s.writers && run !in s.dirs && m.runId == run
    ensures var t := Exec(s, WholeRun(w, p, run, source, m));
      && w in t.writers && t.writers[w].phase == Finalized
      && ManifestAt(t, run) == Some(m) && t.dirs[run].sentinel.None?
      && run in t.table && Says(t.table[run], m)
      && t.table - {run} == s.table - {run} && t.dirs - {run} == s.dirs - {run}
  {
    hide Step, WriterStep;
    var s1 := Step(s, Open(w, p, run));
    OpensNew(s, w, p, run);
    Exec6(s, Open(w, p, run), Claim(w), Sign(w, source), WriteManifest(w, m), InsertRow(w), Finalize(w));
    var s2, s3 := Step(s1, Claim(w)), Step(Step(s1, Claim(w)), Sign(w, source));
    var s4 := Step(s3, WriteManifest(w, m));
    var s5 := Step(s4, InsertRow(w));
    MoveBy(s1, Claim(w), Claimed);
    MoveBy(s2, Sign(w, source), Active);
    MoveBy(s3, WriteManifest(w, m), Durable(m));
    MoveBy(s4, InsertRow(w), Indexed(m));
    MoveBy(s5, Finalize(w), Finalized);
  }

  lemma OpensNew(s: State, w: WriterId, p: ProcId, run: RunId)
    requires Alive(s, p) && w !in s.writers && run !in s.dirs
    ensures var t := Step(s, Open(w, p, run));
      && t.procs == s.procs && t.table == s.table && w in t.writers && t.writers[w] == Writer(p, run, Opened)
      && t.dirs == s.dirs[run := Dir(None, None, s.clock)]
  {}

  // The writer's next step, when it is the one its phase calls for.
  ghost predicate Leads(a: Action, writer: Writer, dir: Dir, next: Phase) {
    match a
    case Claim(_) => writer.phase == Opened && dir.sentinel.None? && next == Claimed
    case Sign(_, _) => writer.phase == Claimed && next == Active
    case WriteManifest(_, m) => writer.phase == Active && m.runId == writer.run && next == Durable(m)
    case InsertRow(_) => writer.phase.Durable? && next == Indexed(writer.phase.m)
    case Finalize(_) => writer.phase.Indexed? && next == Finalized
    case _ => false
  }

  lemma MoveBy(s: State, a: Action, next: Phase)
    requires Enabled(s, a) && Leads(a, s.writers[a.writer], s.dirs[s.writers[a.writer].run], next)
    ensures var t, w := Step(s, a), a.writer;
      var run := s.writers[w].run;
      && t.procs == s.procs && w in t.writers && t.writers[w] == s.writers[w].(phase := next)
      && run in t.dirs && t.dirs - {run} == s.dirs - {run} && t.table - {run} == s.table - {run}
      && t.dirs[run].manifest == (if a.WriteManifest? then Some(a.m) else s.dirs[run].manifest)
      && (a.Finalize? ==> t.dirs[run].sentinel.None?)
      && (a.InsertRow? ==> run in t.table && Says(t.table[run], s.writers[w].phase.m))
      && (!a.InsertRow? ==> t.table == s.table)
  {
    WriterActs(s, a);
  }

  // What a committing reindex does to the table, whatever ran beside it: a row is dropped exactly
  // if it predates the scan and its manifest yields no row or could not be read; every manifest
  // that was durable when the scan began, was read and yields a row is indexed; and nothing else
  // changes.
  lemma CommitIsSafe(s0: State, actions: seq<Action>, x: ReindexId, r: RunId)
    requires Init(s0) && OrderlyRun(s0, actions)
    requires var s := Exec(s0, actions);
      x in s.reindexes && s.reindexes[x].Scanning? && s.reindexes[x].todo == {}
    ensures var s := Exec(s0, actions);
      var t := Step(s, Commit(x));
      && (r in s.table && r !in t.table <==>
            r in s.table && r in s.reindexes[x].pre && (RowAt(s, r).None? || r in s.reindexes[x].unread))
      && (r in s.reindexes[x].before && RowAt(s, r).Some? && r !in s.reindexes[x].unread ==>
            r in t.table && Some(t.table[r]) == RowAt(s, r))
      && (r in s.table && r in t.table ==> t.table[r] == s.table[r])
  {
    hide Exec, OrderlyRun;
    InitConsistent(s0);
    ExecKeepsConsistent(s0, actions);
    CommitEffect(Exec(s0, actions), x, r);
  }

  lemma CommitEffect(s: State, x: ReindexId, r: RunId)
    requires TableOk(s) && x in s.reindexes && ReindexOk(s, s.reindexes[x])
    requires s.reindexes[x].Scanning? && s.reindexes[x].todo == {}
    ensures var t := Step(s, Commit(x));
      && (r in s.table && r !in t.table <==>
            r in s.table && r in s.reindexes[x].pre && (RowAt(s, r).None? || r in s.reindexes[x].unread))
      && (r in s.reindexes[x].before && RowAt(s, r).Some? && r !in s.reindexes[x].unread ==>
            r in t.table && Some(t.table[r]) == RowAt(s, r))
      && (r in s.table && r in t.table ==> t.table[r] == s.table[r])
  {}

  // The scan's only directory cannot be read: its row goes, its manifest stays.
  lemma UnreadRowIsDropped(s: State, x: ReindexId, r: RunId)
    requires x !in s.reindexes && s.dirs.Keys == {r} && r in s.table
    ensures var t := Step(Step(Step(Step(s, Snapshot(x)), List(x)), Scan(x, r, true)), Commit(x));
      t.dirs == s.dirs && r !in t.table
  {
    ListedNow(s, x);
    var s2 := Step(Step(s, Snapshot(x)), List(x));
    assert r in s.dirs.Keys && r in s.table.Keys;
    var s3 := Step(s2, Scan(x, r, true));
    assert s3.reindexes[x] == Scanning(s.table.Keys, {}, map[], Manifests(s), {r});
  }

  // A durable manifest that cannot be read during the scan loses its row, although the manifest
  // stays as it was.
  lemma UnreadableManifestLosesItsRow()
    ensures var m := Abandoned(1, SOME_FACTS);
      var s := State(0, map[], map[], map[1 := Dir(None, Some(m), 0)], map[1 := RowOf(m)], map[]);
      var t := Exec(s, [Snapshot(0), List(0), Scan(0, 1, true), Commit(0)]);
      && Init(s) && RowAt(s, 1).Some? && 1 in s.table
      && ManifestAt(t, 1) == ManifestAt(s, 1) && 1 !in t.table
  {
    hide Step;
    var m := Abandoned(1, SOME_FACTS);
    var s := State(0, map[], map[], map[1 := Dir(None, Some(m), 0)], map[1 := RowOf(m)], map[]);
    UnreadRowIsDropped(s, 0, 1);
    Exec4(s, Snapshot(0), List(0), Scan(0, 1, true), Commit(0));
  }

  lemma Exec4(s: State, a: Action, b: Action, c: Action, d: Action)
    ensures Exec(s, [a, b, c, d]) == Step(Step(Step(Step(s, a), b), c), d)
  {
    hide Step;
    ExecCons(s, a, [b, c, d]);
    ExecCons(Step(s, a), b, [c, d]);
    ExecCons(Step(Step(s, a), b), c, [d]);
    ExecCons(Step(Step(Step(s, a), b), c), d, []);
    assert [a] + [b, c, d] == [a, b, c, d] && [b] + [c, d] == [b, c, d];
    assert [c] + [d] == [c, d] && [d] + [] == [d];
  }

  // The table a rebuild from manifests alone gives.
  ghost function Rebuilt(s: State): map<RunId, Row> {
    map r | r in Manifests(s) && RowAt(s, r).Some? :: RowAt(s, r).value
  }

  // With nothing else running, a reindex makes the table exactly that, so a second one
  // changes nothing.
  lemma QuietReindexRebuilds(s: State, x: ReindexId)
    requires Consistent(s) && x in s.reindexes && s.reindexes[x].Scanning? && s.reindexes[x].todo == {}
    requires s.reindexes[x].pre == s.table.Keys && s.reindexes[x].before == Manifests(s) && s.reindexes[x].unread == {}
    ensures Step(s, Commit(x)).table == Rebuilt(s)
    ensures s.table == Rebuilt(s) ==> Step(s, Commit(x)).table == s.table
  {
    var t := Step(s, Commit(x));
    forall r
      ensures r in t.table <==> r in Rebuilt(s)
      ensures r in t.table && r in Rebuilt(s) ==> t.table[r] == Rebuilt(s)[r]
    {
      assert ReindexOk(s, s.reindexes[x]);
      CommitEffect(s, x, r);
      ScannedAreManifests(s, x);
    }
  }

  // ---- a reindex with nothing beside it, from its snapshot to its commit

  function Scans(x: ReindexId, dirs: seq<RunId>): seq<Action> {
    seq(|dirs|, i requires 0 <= i < |dirs| => Scan(x, dirs[i], false))
  }

  function WholeReindex(x: ReindexId, dirs: seq<RunId>): seq<Action> {
    [Snapshot(x), List(x)] + Scans(x, dirs) + [Commit(x)]
  }

  lemma {:induction false} ExecConcat(s: State, a: seq<Action>, b: seq<Action>)
    ensures Exec(s, a + b) == Exec(Exec(s, a), b)
    decreases |a|
  {
    hide Step;
    if a == [] {
      assert a + b == b;
    } else {
      assert (a + b)[1..] == a[1..] + b;
      ExecConcat(Step(s, a[0]), a[1..], b);
    }
  }

  // Reading the directories one by one changes nothing but the scan.
  lemma {:induction false} ScansRun(s: State, x: ReindexId, dirs: seq<RunId>)
    requires Consistent(s) && x in s.reindexes && s.reindexes[x].Scanning?
    requires Distinct(dirs) && forall r :: r in s.reindexes[x].todo <==> r in dirs
    ensures var t := Exec(s, Scans(x, dirs));
      && Consistent(t) && t.dirs == s.dirs && t.table == s.table
      && x in t.reindexes && t.reindexes[x].Scanning? && t.reindexes[x].todo == {}
      && t.reindexes[x].pre == s.reindexes[x].pre && t.reindexes[x].before == s.reindexes[x].before
      && t.reindexes[x].unread == s.reindexes[x].unread
    decreases |dirs|
  {
    hide Consistent;
    if dirs == [] {
      assert Scans(x, dirs) == [];
    } else {
      assert dirs[0] in s.reindexes[x].todo;
      var t := Step(s, Scan(x, dirs[0], false));
      StepKeepsConsistent(s, Scan(x, dirs[0], false));
      assert Scans(x, dirs)[0] == Scan(x, dirs[0], false) && Scans(x, dirs)[1..] == Scans(x, dirs[1..]);
      ScannedNext(s, x, dirs);
      ScansRun(t, x, dirs[1..]);
    }
  }

  lemma ScannedNext(s: State, x: ReindexId, dirs: seq<RunId>)
    requires x in s.reindexes && s.reindexes[x].Scanning? && dirs != []
    requires Distinct(dirs) && forall r :: r in s.reindexes[x].todo <==> r in dirs
    ensures var t := Step(s, Scan(x, dirs[0], false));
      && t.dirs == s.dirs && t.table == s.table && x in t.reindexes && t.reindexes[x].Scanning?
      && (forall r :: r in t.reindexes[x].todo <==> r in dirs[1..]) && Distinct(dirs[1..])
      && t.reindexes[x].pre == s.reindexes[x].pre && t.reindexes[x].before == s.reindexes[x].before
      && t.reindexes[x].unread == s.reindexes[x].unread
  {
    assert dirs[0] in dirs;
    forall r
      ensures r in dirs[1..] <==> r in dirs && r != dirs[0]
    {
      if r in dirs && r != dirs[0] {
        var i :| 0 <= i < |dirs| && dirs[i] == r;
        assert dirs[1..][i - 1] == r;
      }
    }
  }

  // A reindex that runs alone makes the table the map built from the manifests; a second one
  // changes nothing.
  lemma ReindexAloneRebuilds(s: State, x: ReindexId, dirs: seq<RunId>)
    requires Consistent(s) && x !in s.reindexes && Distinct(dirs) && forall r :: r in s.dirs <==> r in dirs
    ensures var t := Exec(s, WholeReindex(x, dirs));
      && t.table == Rebuilt(s) && t.dirs == s.dirs && Consistent(t)
      && (s.table == Rebuilt(s) ==> t.table == s.table)
  {
    hide Consistent, Rebuilt, Step, Exec;
    var s1 := Step(s, Snapshot(x));
    StepKeepsConsistent(s, Snapshot(x));
    var s2 := Step(s1, List(x));
    StepKeepsConsistent(s1, List(x));
    ListedNow(s, x);
    ScansRun(s2, x, dirs);
    var s3 := Exec(s2, Scans(x, dirs));
    QuietReindexRebuilds(s3, x);
    StepKeepsConsistent(s3, Commit(x));
    CommitKeepsDirs(s3, x);
    NothingRuns();
    assert [Snapshot(x), List(x)] == [Snapshot(x)] + [List(x)] && [List(x)] == [List(x)] + [] && [Commit(x)] == [Commit(x)] + [];
    ExecCons(s, Snapshot(x), [List(x)]);
    ExecCons(s1, List(x), []);
    ExecCons(s3, Commit(x), []);
    ExecConcat(s, [Snapshot(x), List(x)], Scans(x, dirs));
    ExecConcat(s, [Snapshot(x), List(x)] + Scans(x, dirs), [Commit(x)]);
    SameRebuilt(s, s3);
  }

  lemma ListedNow(s: State, x: ReindexId)
    requires x !in s.reindexes
    ensures var t := Step(Step(s, Snapshot(x)), List(x));
      && t.dirs == s.dirs && t.table == s.table && x in t.reindexes
      && t.reindexes[x] == Scanning(s.table.Keys, s.dirs.Keys, map[], Manifests(s), {})
  {}

  lemma CommitKeepsDirs(s: State, x: ReindexId)
    ensures Step(s, Commit(x)).dirs == s.dirs
  {}

  lemma NothingRuns()
    ensures forall t :: Exec(t, []) == t
  {}

  lemma SameRebuilt(s: State, t: State)
    requires t.dirs == s.dirs
    ensures Rebuilt(t) == Rebuilt(s) && Manifests(t) == Manifests(s)
  {}

  lemma ReindexTwice(s: State, x: ReindexId, y: ReindexId, dirs: seq<RunId>)
    requires Consistent(s) && x !in s.reindexes && y !in Exec(s, WholeReindex(x, dirs)).reindexes
    requires Distinct(dirs) && forall r :: r in s.dirs <==> r in dirs
    ensures var t := Exec(s, WholeReindex(x, dirs));
      Exec(t, WholeReindex(y, dirs)).table == t.table
  {
    hide Consistent, Rebuilt, Exec, WholeReindex;
    ReindexAloneRebuilds(s, x, dirs);
    var t := Exec(s, WholeReindex(x, dirs));
    SameRebuilt(s, t);
    ReindexAloneRebuilds(t, y, dirs);
  }

  lemma ScannedAreManifests(s: State, x: ReindexId)
    requires x in s.reindexes && s.reindexes[x].Scanning? && ReindexOk(s, s.reindexes[x])
    ensures forall r :: r in s.reindexes[x].scanned ==> r in Manifests(s) && RowAt(s, r) == Some(s.reindexes[x].scanned[r])
  {}

  // ---------------------------------------------------------------- recovery and live writers

  // The facility that stamped the run's sentinel, if it is stamped.
  function RecordedSource(s: State, run: RunId): Source {
    if run in s.dirs && s.dirs[run].sentinel.Some? && s.dirs[run].sentinel.value.stamp.Some?
    then s.dirs[run].sentinel.value.stamp.value.source
    else Unavailable
  }

  // Exactly which directories a recovery finalises, and what it writes: one without a manifest
  // whose sentinel is absent and which is old enough, or whose sentinel names a process id nobody
  // has now, or one that somebody else has, as far as one facility can tell both times.
  lemma RecoveryFinalisesIff(s: State, a: Action)
    requires a.Recover? && a.run in s.dirs && s.dirs[a.run].manifest.None?
    requires a.asOf <= s.clock && a.facts.startedAt != ""
    ensures var dir, m := s.dirs[a.run], ManifestAt(Step(s, a), a.run);
      && (m.Some? <==>
            if dir.sentinel.None? then a.asOf - dir.mtime >= 5
            else
              && dir.sentinel.value.stamp.Some?
              && var stamp := dir.sentinel.value.stamp.value;
                 forall p :: Alive(s, p) && s.procs[p].pid == stamp.pid ==>
                   && stamp.source != Unavailable && a.source != Unavailable
                   && (p != stamp.proc || a.source != stamp.source))
      && (m.Some? ==>
            && m.value.runId == a.run && m.value.status == "abandoned" && m.value.supported
            && m.value.kind == OrUnknown(a.facts.kind) && m.value.target == OrUnknown(a.facts.target)
            && m.value.workspace == OrUnknown(a.facts.workspace) && m.value.durationMs.None?
            && m.value.startedAt == a.facts.startedAt && m.value.endedAt == Some(a.facts.endedAt)
            && Step(s, a).dirs[a.run].sentinel.None?
            && a.run in Step(s, a).table && Says(Step(s, a).table[a.run], m.value))
  {}

  // Recovery finalises the run of a writer that is still at work exactly when the writer has
  // lingered without a sentinel for the grace period, or is stamped and its marker is answered
  // by a different facility than the one that stamped it.
  lemma RecoveryHitsLiveWriterIff(s: State, w: WriterId, a: Action)
    requires Consistent(s) && LiveWriter(s, w) && a.Recover? && a.run == s.writers[w].run
    requires a.asOf <= s.clock && a.facts.startedAt != ""
    requires s.writers[w].phase == Opened || s.writers[w].phase == Claimed || s.writers[w].phase == Active
    ensures ManifestAt(s, a.run).None? && a.run in s.dirs
    ensures var phase, recorded := s.writers[w].phase, RecordedSource(s, a.run);
      ManifestAt(Step(s, a), a.run).Some? <==>
      || (phase == Opened && a.asOf - s.dirs[a.run].mtime >= GRACE_SECONDS)
      || (phase == Active && recorded != Unavailable && a.source != Unavailable && a.source != recorded)
  {
    assert OwnOk(s, w) && WriterOk(s, w);
    if s.writers[w].phase == Active {
      assert Alive(s, s.writers[w].proc);
      assert PidInUse(s, s.procs[s.writers[w].proc].pid);
    }
  }

  // Recovery acts on the directory of a live owner: its sentinel is stamped through one facility
  // and answered by another, and no manifest is durable yet.
  ghost predicate HitsOwner(s: State, a: Action) {
    && a.Recover? && a.run in s.dirs && a.asOf <= s.clock && a.facts.startedAt != ""
    && s.dirs[a.run].manifest.None?
    && RecordedSource(s, a.run) != Unavailable && a.source != Unavailable && a.source != RecordedSource(s, a.run)
    && exists w :: Owns(s, w) && s.writers[w].run == a.run
  }

  // Exactly which steps take a directory away from its live owner.
  lemma StepKeepsOwnedIff(s: State, a: Action)
    requires Owned(s)
    ensures Owned(Step(s, a)) <==> !HitsOwner(s, a)
  {
    if !a.Recover? {
      StepKeepsOwned(s, a);
    } else if HitsOwner(s, a) {
      var w :| Owns(s, w) && s.writers[w].run == a.run;
      OwnerIsHit(s, a, w);
    } else {
      hide HitsOwner, Owned, Step;
      SparedOwners(s, a);
    }
  }

  lemma OwnerIsHit(s: State, a: Action, w: WriterId)
    requires Owned(s) && HitsOwner(s, a) && Owns(s, w) && s.writers[w].run == a.run
    ensures !Owned(Step(s, a))
  {
    var t := Step(s, a);
    assert MarkerDiffers(s, s.dirs[a.run].sentinel.value.stamp.value, a.source);
    assert Owns(t, w) && t.dirs[a.run].sentinel.None?;
    assert !OwnOk(t, w);
  }

  lemma SparedOwners(s: State, a: Action)
    requires Owned(s) && a.Recover? && !HitsOwner(s, a)
    ensures Owned(Step(s, a))
  {
    hide Recoverable;
    var t := Step(s, a);
    forall w | w in t.writers
      ensures OwnOk(t, w)
    {
      assert OwnOk(s, w);
      if t != s && Owns(s, w) && s.writers[w].run == a.run {
        SparedOwner(s, a, w);
      }
    }
  }

  lemma SparedOwner(s: State, a: Action, w: WriterId)
    requires a.Recover? && !HitsOwner(s, a) && w in s.writers && OwnOk(s, w) && Owns(s, w) && s.writers[w].run == a.run
    ensures Step(s, a) == s
  {
    assert Alive(s, s.writers[w].proc);
  }

  // Recovery leaves a run with a durable manifest untouched, in every state whatsoever.
  lemma RecoverySparesManifests(s: State, a: Action)
    requires a.Recover? && ManifestAt(s, a.run).Some?
    ensures Step(s, a) == s
  {}

  const EMPTY: State := State(0, map[], map[], map[], map[], map[])
  const SOME_FACTS: Facts := Facts(None, None, None, "t0", "t1")

  // A writer opens run 1 and stamps its sentinel through one facility; recovery asks another.
  const FLIPPED: seq<Action> := [Spawn(0, 7), Open(0, 0, 1), Claim(0), Sign(0, Ps), Recover(1, Procfs, 0, SOME_FACTS)]

  // Its run is finalised as abandoned while it is still writing.
  lemma FlippedMarkerFinalisesLiveRun()
    ensures var s := Exec(EMPTY, FLIPPED);
      && LiveWriter(s, 0) && s.writers[0].phase == Active && ManifestAt(s, 1) == Some(Abandoned(1, SOME_FACTS))
      && s.procs == AT_WORK.procs && s.writers == AT_WORK.writers && s.dirs[1].sentinel.None?
  {
    hide Step;
    WriterAtWork();
    WriterIsHit();
    Exec5(EMPTY, Spawn(0, 7), Open(0, 0, 1), Claim(0), Sign(0, Ps), Recover(1, Procfs, 0, SOME_FACTS));
  }

  lemma WriterIsHit()
    ensures var m := Abandoned(1, SOME_FACTS);
      Step(AT_WORK, Recover(1, Procfs, 0, SOME_FACTS))
      == SetDir(AT_WORK, 1, Dir(None, Some(m), 0)).(table := AT_WORK.table[1 := RowOf(m)])
  {
    assert MarkerDiffers(AT_WORK, Stamp(0, 7, Ps), Procfs);
    assert Recoverable(AT_WORK, AT_WORK.dirs[1], Procfs, 0);
  }

  // Process 0, pid 7, has opened run 1, claimed its sentinel and stamped it through ps.
  const AT_WORK: State := State(
    0, map[0 := Proc(7, true)], map[0 := Writer(0, 1, Active)],
    map[1 := Dir(Some(Sentinel(0, Some(Stamp(0, 7, Ps)))), None, 0)], map[], map[])

  lemma WriterAtWork()
    ensures Step(Step(Step(Step(EMPTY, Spawn(0, 7)), Open(0, 0, 1)), Claim(0)), Sign(0, Ps)) == AT_WORK
  {
    var s1 := Step(EMPTY, Spawn(0, 7));
    assert s1.procs == map[0 := Proc(7, true)];
    var s2 := Step(s1, Open(0, 0, 1));
    assert s2.writers == map[0 := Writer(0, 1, Opened)] && s2.dirs == map[1 := Dir(None, None, 0)];
    var s3 := Step(s2, Claim(0));
    var s4 := Step(s3, Sign(0, Ps));
    assert s4.writers == AT_WORK.writers && s4.dirs == AT_WORK.dirs;
  }

  // With the directory taken away, a second writer opens the same run and claims it: two live
  // owners of one run directory.
  lemma TwoLiveWriters()
    ensures var s := Exec(EMPTY, FLIPPED + [Spawn(1, 8), Open(1, 1, 1), Claim(1)]);
      Owns(s, 0) && Owns(s, 1) && s.writers[0].run == 1 == s.writers[1].run
  {
    hide Exec, Step;
    FlippedMarkerFinalisesLiveRun();
    var s := Exec(EMPTY, FLIPPED);
    SecondClaims(s);
    Exec3(s, Spawn(1, 8), Open(1, 1, 1), Claim(1));
    ExecConcat(EMPTY, FLIPPED, [Spawn(1, 8), Open(1, 1, 1), Claim(1)]);
  }

  lemma SecondClaims(s: State)
    requires s.procs == AT_WORK.procs && s.writers == AT_WORK.writers
    requires 1 in s.dirs && s.dirs[1].sentinel.None?
    ensures var t := Step(Step(Step(s, Spawn(1, 8)), Open(1, 1, 1)), Claim(1));
      Owns(t, 0) && Owns(t, 1) && t.writers[0].run == 1 == t.writers[1].run
  {
    hide Recoverable, ScanOne;
    var s1 := Step(s, Spawn(1, 8));
    assert s1.procs == map[0 := Proc(7, true), 1 := Proc(8, true)];
    var s2 := Step(s1, Open(1, 1, 1));
    assert s2.writers == map[0 := Writer(0, 1, Active), 1 := Writer(1, 1, Opened)] && s2.dirs == s.dirs;
    var s3 := Step(s2, Claim(1));
    assert s3.procs == s1.procs && s3.writers == map[0 := Writer(0, 1, Active), 1 := Writer(1, 1, Claimed)];
  }

  lemma Exec3(s: State, a: Action, b: Action, c: Action)
    ensures Exec(s, [a, b, c]) == Step(Step(Step(s, a), b), c)
  {
    hide Step;
    ExecCons(s, a, [b, c]);
    ExecCons(Step(s, a), b, [c]);
    ExecCons(Step(Step(s, a), b), c, []);
    assert [a] + [b, c] == [a, b, c] && [b] + [c] == [b, c] && [c] + [] == [c];
  }

  function Ticks(n: nat): seq<Action> {
    seq(n, _ => Tick)
  }

  lemma {:induction false} TicksPass(s: State, n: nat)
    ensures Exec(s, Ticks(n)) == s.(clock := s.clock + n)
    decreases n
  {
    if n > 0 {
      assert Ticks(n)[1..] == Ticks(n - 1);
      TicksPass(Step(s, Tick), n - 1);
    }
  }

  // A live writer that has created its directory and then lingers: after the grace period its
  // run is finalised as abandoned, before it could claim its sentinel.
  lemma LingeringWriterIsFinalised()
    ensures var s := Exec(EMPTY, [Spawn(0, 7), Open(0, 0, 1)] + Ticks(GRACE_SECONDS) + [Recover(1, Ps, GRACE_SECONDS, SOME_FACTS)]);
      LiveWriter(s, 0) && s.writers[0].phase == Opened && ManifestAt(s, 1) == Some(Abandoned(1, SOME_FACTS))
  {
    var begin, ticks, recover := [Spawn(0, 7), Open(0, 0, 1)], Ticks(GRACE_SECONDS), Recover(1, Ps, GRACE_SECONDS, SOME_FACTS);
    var s1 := Step(EMPTY, Spawn(0, 7));
    assert s1.procs == map[0 := Proc(7, true)];
    var s2 := Step(s1, Open(0, 0, 1));
    assert s2.writers == map[0 := Writer(0, 1, Opened)] && s2.dirs == map[1 := Dir(None, None, 0)];
    ExecCons(EMPTY, Spawn(0, 7), [Open(0, 0, 1)]);
    ExecCons(s1, Open(0, 0, 1), []);
    assert begin == [Spawn(0, 7)] + [Open(0, 0, 1)] && [Open(0, 0, 1)] == [Open(0, 0, 1)] + [];
    TicksPass(s2, GRACE_SECONDS);
    var s3 := s2.(clock := GRACE_SECONDS);
    ExecConcat(EMPTY, begin, ticks);
    ExecConcat(EMPTY, begin + ticks, [recover]);
    ExecCons(s3, recover, []);
    assert [recover] == [recover] + [];
    assert Recoverable(s3, s3.dirs[1], Ps, GRACE_SECONDS);
  }

  lemma Exec5(s: State, a: Action, b: Action, c: Action, d: Action, e: Action)
    ensures Exec(s, [a, b, c, d, e]) == Step(Step(Step(Step(Step(s, a), b), c), d), e)
  {
    hide Step;
    ExecCons(s, a, [b, c, d, e]);
    ExecCons(Step(s, a), b, [c, d, e]);
    ExecCons(Step(Step(s, a), b), c, [d, e]);
    ExecCons(Step(Step(Step(s, a), b), c), d, [e]);
    ExecCons(Step(Step(Step(Step(s, a), b), c), d), e, []);
    assert [a] + [b, c, d, e] == [a, b, c, d, e] && [b] + [c, d, e] == [b, c, d, e];
    assert [c] + [d, e] == [c, d, e] && [d] + [e] == [d, e] && [e] + [] == [e];
  }

  lemma Exec6(s: State, a: Action, b: Action, c: Action, d: Action, e: Action, f: Action)
    ensures Exec(s, [a, b, c, d, e, f]) == Step(Step(Step(Step(Step(Step(s, a), b), c), d), e), f)
  {
    hide Step;
    ExecCons(s, a, [b, c, d, e, f]);
    Exec5(Step(s, a), b, c, d, e, f);
    assert [a] + [b, c, d, e, f] == [a, b, c, d, e, f];
  }

  lemma ExecCons(s: State, a: Action, rest: seq<Action>)
    ensures Exec(s, [a] + rest) == Exec(Step(s, a), rest)
  {
    hide Step;
    assert ([a] + rest)[1..] == rest;
  }

  // ---------------------------------------------------------------- the index, one caller at a time

  class RunIndex {
    var table: map<RunId, Row>

    constructor ()
      ensures table == map[]
    {
      table := map[];
    }

    method InsertAll(rows: map<RunId, Row>)
      modifies this
      ensures table == old(table) + rows
    {
      var todo := rows.Keys;
      while todo != {}
        invariant todo <= rows.Keys && table.Keys == old(table).Keys + (rows.Keys - todo)
        invariant forall r :: r in table ==> table[r] == if r in rows && r !in todo then rows[r] else old(table)[r]
        decreases todo
      {
        var r :| r in todo;
        table := table[r := rows[r]];
        todo := todo - {r};
      }
    }

    method DeleteAll(ids: set<RunId>)
      modifies this
      ensures table == old(table) - ids
    {
      var todo := ids;
      while todo != {}
        invariant todo <= ids && table == old(table) - (ids - todo)
        decreases todo
      {
        var r :| r in todo;
        assert ids - (todo - {r}) == (ids - todo) + {r};
        table := table - {r};
        todo := todo - {r};
      }
    }

    // A rebuild with no concurrent writer. `dirs` lists the run directories.
    method ReindexAll(dirs: seq<RunId>, manifests: map<RunId, Manifest>) returns (count: nat)
      requires forall r :: r in manifests ==> manifests[r].runId == r
      modifies this
      ensures table == map r | r in dirs && r in manifests && RowFromManifest(manifests[r]).Some? :: RowOf(manifests[r])
      ensures count == |table|
    {
      var pre := table.Keys;
      var scanned: map<RunId, Row> := map[];
      for i := 0 to |dirs|
        invariant table == old(table)
        invariant scanned == map r | r in dirs[..i] && r in manifests && RowFromManifest(manifests[r]).Some? :: RowOf(manifests[r])
      {
        var r := dirs[i];
        if r in manifests {
          var row := RowFromManifest(manifests[r]);
          if row.Some? {
            scanned := scanned[row.value.runId := row.value];
          }
        }
        assert dirs[..i + 1] == dirs[..i] + [r];
      }
      assert dirs[..|dirs|] == dirs;
      InsertAll(scanned);
      DeleteAll(pre - scanned.Keys);
      assert table == scanned;
      count := |scanned|;
    }
  }
}
