// The canonical event recorder: sequencing, byte ceilings and the bounded continuation of a
// truncated step.
//
// The simple form of a recording is its trace: the lines recorded and the events suppressed,
// in order. Every decision is stated on the trace alone (`Append`). The recorder keeps counters
// instead and never looks back; its methods are proved to produce exactly that trace.
module Recorder {
  import opened Wrappers
  import opened Seqs
  import opened Maps

  type StepId = Option<string>

  datatype Profile = METADATA | STANDARD | DEBUG

  datatype CaptureStatus = COMPLETE | DERIVED | PARTIAL | UNAVAILABLE

  function Severity(s: CaptureStatus): nat {
    match s
    case COMPLETE => 0
    case DERIVED => 1
    case PARTIAL => 2
    case UNAVAILABLE => 3
  }

  function Worse(a: CaptureStatus, b: CaptureStatus): CaptureStatus {
    if Severity(a) >= Severity(b) then a else b
  }

  // Metadata-only lines a truncated step may still write.
  const MAX_TRUNCATED_CONTINUATION_LINES: nat := 20
  const CONTINUATION_LINE_OVERHEAD_BYTES: nat := 256

  const EVENT_TYPES: set<string> := {
    "run_started", "config_resolved", "policy_resolved", "agent_launching", "agent_launched", "handshake",
    "session_created", "prompt_started", "message_chunk", "thought_chunk", "tool_call", "tool_call_update",
    "plan", "usage", "mode", "unknown_update", "permission_requested", "permission_decided", "fs_read",
    "fs_write", "terminal_op", "file_change", "step_started", "step_finished", "egress_notice",
    "lease_acquired", "lease_released", "cancel_requested", "terminated", "truncation", "error",
    "run_finished", "raw_frame"}

  // The event types whose payload carries agent content.
  const CONTENT_TYPES: set<string> := {
    "message_chunk", "thought_chunk", "tool_call", "tool_call_update", "fs_read", "fs_write",
    "permission_requested", "terminal_op"}

  datatype Body<P> =
    | Full(payload: P)
    | Truncated(originalBytes: nat)
    | Summary(originalBytes: nat, suppressedEvents: nat, suppressedBytes: nat)
    | Notice(limitBytes: nat, bytesAtTruncation: nat)

  datatype Envelope<P> = Envelope(seqNo: nat, eventType: string, step: StepId, session: Option<string>, body: Body<P>, status: CaptureStatus)

  datatype Call<P> = Call(eventType: string, step: StepId, session: Option<string>, payload: P, status: CaptureStatus)

  // The byte counts, redaction and profile reduction the recorder relies on. A line's length is
  // a function of the envelope, sequence number included.
  datatype Config<!P> = Config(
    profile: Profile,
    maxEventBytesPerStep: nat,
    maxPayloadBytes: nat,
    jsonBytes: P -> nat,
    truncatedBytes: nat -> nat,
    redact: P -> P,
    metadataView: (string, P) -> P,
    lineBytes: Envelope<P> -> nat)

  // ---------------------------------------------------------------- the trace

  // Why a line was written: an ordinary event, the notice that a step crossed its ceiling, the
  // event that crossed it, a metadata-only continuation, a truncated step's final event, or a
  // truncation event a caller emitted itself.
  datatype Role = Ordinary | Crossed | Crossing | Continued | Final | Explicit

  datatype Item<P> =
    | Line(env: Envelope<P>, bytes: nat, role: Role)
    | Dropped(step: StepId, bytes: nat)

  function Lines<P>(trace: seq<Item<P>>): nat {
    if trace == [] then 0 else Lines(trace[..|trace| - 1]) + (if Last(trace).Line? then 1 else 0)
  }

  function StepBytes<P>(trace: seq<Item<P>>, s: StepId): nat {
    if trace == [] then 0
    else
      StepBytes(trace[..|trace| - 1], s)
      + (if Last(trace).Line? && Last(trace).env.step == s then Last(trace).bytes else 0)
  }

  function Count<P>(trace: seq<Item<P>>, s: StepId, role: Role): nat {
    if trace == [] then 0
    else
      Count(trace[..|trace| - 1], s, role)
      + (if HasRole(Last(trace), s, role) then 1 else 0)
  }

  function Bytes<P>(trace: seq<Item<P>>, s: StepId, role: Role): nat {
    if trace == [] then 0
    else
      Bytes(trace[..|trace| - 1], s, role)
      + (if HasRole(Last(trace), s, role) then Last(trace).bytes else 0)
  }

  function DroppedCount<P>(trace: seq<Item<P>>, s: StepId): nat {
    if trace == [] then 0
    else DroppedCount(trace[..|trace| - 1], s) + (if Last(trace).Dropped? && Last(trace).step == s then 1 else 0)
  }

  function DroppedBytes<P>(trace: seq<Item<P>>, s: StepId): nat {
    if trace == [] then 0
    else DroppedBytes(trace[..|trace| - 1], s) + (if Last(trace).Dropped? && Last(trace).step == s then Last(trace).bytes else 0)
  }

  predicate IsTruncated<P>(trace: seq<Item<P>>, s: StepId) {
    Count(trace, s, Crossed) > 0
  }

  predicate Reduces<P>(cfg: Config<P>, eventType: string) {
    eventType in CONTENT_TYPES && (cfg.profile == METADATA || (cfg.profile == STANDARD && eventType == "thought_chunk"))
  }

  // A payload too large to process is replaced before it is even redacted.
  predicate Oversized<P>(cfg: Config<P>, c: Call<P>) {
    cfg.jsonBytes(c.payload) > cfg.maxPayloadBytes
  }

  function Processed<P>(cfg: Config<P>, c: Call<P>): P {
    var p := cfg.redact(c.payload);
    if Reduces(cfg, c.eventType) then cfg.metadataView(c.eventType, p) else p
  }

  function OriginalBytes<P>(cfg: Config<P>, c: Call<P>): nat {
    if Oversized(cfg, c) then cfg.jsonBytes(c.payload) else cfg.jsonBytes(Processed(cfg, c))
  }

  function PreparedBody<P>(cfg: Config<P>, c: Call<P>): Body<P> {
    if Oversized(cfg, c) then Truncated(cfg.jsonBytes(c.payload)) else Full(Processed(cfg, c))
  }

  function PreparedStatus<P>(cfg: Config<P>, c: Call<P>): CaptureStatus {
    if Oversized(cfg, c) then PARTIAL
    else if Reduces(cfg, c.eventType) then Worse(c.status, PARTIAL)
    else c.status
  }

  // The profile drops raw frames entirely outside debug.
  predicate Filtered<P>(cfg: Config<P>, c: Call<P>) {
    c.eventType == "raw_frame" && cfg.profile != DEBUG
  }

  function LineFor<P>(cfg: Config<P>, n: nat, c: Call<P>, body: Body<P>, status: CaptureStatus, role: Role): Item<P> {
    var env := Envelope(n, c.eventType, c.step, c.session, body, status);
    Line(env, cfg.lineBytes(env), role)
  }

  function NoticeFor<P>(cfg: Config<P>, n: nat, c: Call<P>, used: nat): Item<P> {
    var env := Envelope(n, "truncation", c.step, c.session, Notice(cfg.maxEventBytesPerStep, used), COMPLETE);
    Line(env, cfg.lineBytes(env), Crossed)
  }

  // What one admitted call adds to the trace.
  function Append<P>(cfg: Config<P>, trace: seq<Item<P>>, c: Call<P>): seq<Item<P>> {
    var n, used := Lines(trace), StepBytes(trace, c.step);
    var cut := Truncated(OriginalBytes(cfg, c));
    if Filtered(cfg, c) then []
    else if c.eventType == "truncation" then
      [LineFor(cfg, n, c, PreparedBody(cfg, c), PreparedStatus(cfg, c), Explicit)]
    else if IsTruncated(trace, c.step) then
      if c.eventType == "step_finished" then
        var body := Summary(OriginalBytes(cfg, c), DroppedCount(trace, c.step), DroppedBytes(trace, c.step));
        [LineFor(cfg, n, c, body, PARTIAL, Final)]
      else if Count(trace, c.step, Continued) >= MAX_TRUNCATED_CONTINUATION_LINES then
        [Dropped(c.step, cfg.truncatedBytes(OriginalBytes(cfg, c)) + CONTINUATION_LINE_OVERHEAD_BYTES)]
      else
        [LineFor(cfg, n, c, cut, PARTIAL, Continued)]
    else
      var draft := LineFor(cfg, n, c, PreparedBody(cfg, c), PreparedStatus(cfg, c), Ordinary);
      if used + draft.bytes > cfg.maxEventBytesPerStep then
        [NoticeFor(cfg, n, c, used), LineFor(cfg, n + 1, c, cut, PARTIAL, Crossing)]
      else [draft]
  }

  // A whole run's trace: calls with an unknown type are refused and leave nothing.
  function TraceOf<P>(cfg: Config<P>, calls: seq<Call<P>>): seq<Item<P>> {
    if calls == [] then []
    else
      var before, c := TraceOf(cfg, calls[..|calls| - 1]), Last(calls);
      if c.eventType in EVENT_TYPES then before + Append(cfg, before, c) else before
  }

  // ---------------------------------------------------------------- the recorder

  ghost predicate Counters<P>(
    trace: seq<Item<P>>, nextSeq: nat, stepBytes: map<StepId, nat>, truncated: set<StepId>,
    continuation: map<StepId, nat>, events: map<StepId, nat>, bytes: map<StepId, nat>)
  {
    && nextSeq == Lines(trace)
    && forall s ::
         && Get(stepBytes, s) == StepBytes(trace, s)
         && (s in truncated <==> IsTruncated(trace, s))
         && Get(continuation, s) == Count(trace, s, Continued)
         && Get(events, s) == DroppedCount(trace, s)
         && Get(bytes, s) == DroppedBytes(trace, s)
  }

  lemma AtStep<P>(
    trace: seq<Item<P>>, nextSeq: nat, stepBytes: map<StepId, nat>, truncated: set<StepId>,
    continuation: map<StepId, nat>, events: map<StepId, nat>, bytes: map<StepId, nat>, s: StepId)
    requires Counters(trace, nextSeq, stepBytes, truncated, continuation, events, bytes)
    ensures nextSeq == Lines(trace) && Get(stepBytes, s) == StepBytes(trace, s)
    ensures s in truncated <==> IsTruncated(trace, s)
    ensures Get(continuation, s) == Count(trace, s, Continued)
    ensures Get(events, s) == DroppedCount(trace, s) && Get(bytes, s) == DroppedBytes(trace, s)
  {}

  // One more line: its role says which counters move besides the sequence number and the bytes.
  lemma AddLine<P>(
    trace: seq<Item<P>>, nextSeq: nat, stepBytes: map<StepId, nat>, truncated: set<StepId>,
    continuation: map<StepId, nat>, events: map<StepId, nat>, bytes: map<StepId, nat>, x: Item<P>)
    requires Counters(trace, nextSeq, stepBytes, truncated, continuation, events, bytes) && x.Line?
    ensures var s := x.env.step;
      Counters(
        trace + [x], nextSeq + 1, stepBytes[s := Get(stepBytes, s) + x.bytes],
        if x.role == Crossed then truncated + {s} else truncated,
        if x.role == Continued then continuation[s := Get(continuation, s) + 1] else continuation, events, bytes)
  {
    hide Lines, StepBytes, Count, Bytes, DroppedCount, DroppedBytes;
    Snoc(trace, x);
  }

  lemma AddDropped<P>(
    trace: seq<Item<P>>, nextSeq: nat, stepBytes: map<StepId, nat>, truncated: set<StepId>,
    continuation: map<StepId, nat>, events: map<StepId, nat>, bytes: map<StepId, nat>, s: StepId, n: nat)
    requires Counters(trace, nextSeq, stepBytes, truncated, continuation, events, bytes)
    ensures Counters(
      trace + [Dropped(s, n)], nextSeq, stepBytes, truncated, continuation,
      events[s := Get(events, s) + 1], bytes[s := Get(bytes, s) + n])
  {
    hide Lines, StepBytes, Count, Bytes, DroppedCount, DroppedBytes;
    Snoc(trace, Dropped(s, n));
  }

  class RunRecorder<P> {
    const cfg: Config<P>
    var nextSeq: nat
    var stepBytes: map<StepId, nat>
    var truncatedSteps: set<StepId>
    var truncatedContinuation: map<StepId, nat>
    var suppressedEvents: map<StepId, nat>
    var suppressedBytes: map<StepId, nat>
    ghost var trace: seq<Item<P>>

    // The counters are the trace's own counts.
    ghost predicate Valid()
      reads this
    {
      Counters(trace, nextSeq, stepBytes, truncatedSteps, truncatedContinuation, suppressedEvents, suppressedBytes)
    }

    constructor (cfg: Config<P>)
      ensures this.cfg == cfg && trace == [] && Valid()
    {
      this.cfg := cfg;
      nextSeq := 0;
      stepBytes := map[];
      truncatedSteps := {};
      truncatedContinuation := map[];
      suppressedEvents := map[];
      suppressedBytes := map[];
      trace := [];
    }

    // Write one line: the only place that takes a sequence number.
    method Record(eventType: string, step: StepId, session: Option<string>, body: Body<P>, status: CaptureStatus, ghost role: Role)
      returns (env: Envelope<P>)
      modifies this`nextSeq, this`stepBytes, this`trace
      ensures env == Envelope(old(nextSeq), eventType, step, session, body, status)
      ensures nextSeq == old(nextSeq) + 1
      ensures stepBytes == old(stepBytes)[step := Get(old(stepBytes), step) + cfg.lineBytes(env)]
      ensures trace == old(trace) + [Line(env, cfg.lineBytes(env), role)]
    {
      env := Envelope(nextSeq, eventType, step, session, body, status);
      nextSeq := nextSeq + 1;
      var nbytes := cfg.lineBytes(env);
      stepBytes := stepBytes[step := Get(stepBytes, step) + nbytes];
      trace := trace + [Line(env, nbytes, role)];
    }

    // The size check before redaction, then redaction and profile reduction.
    method Prepare(c: Call<P>) returns (body: Body<P>, status: CaptureStatus, originalBytes: nat)
      ensures body == PreparedBody(cfg, c) && status == PreparedStatus(cfg, c) && originalBytes == OriginalBytes(cfg, c)
    {
      status := c.status;
      var rawBytes := cfg.jsonBytes(c.payload);
      if rawBytes > cfg.maxPayloadBytes {
        body := Truncated(rawBytes);
        status := PARTIAL;
        originalBytes := rawBytes;
      } else {
        var payload := cfg.redact(c.payload);
        if Reduces(cfg, c.eventType) {
          payload := cfg.metadataView(c.eventType, payload);
          status := Worse(status, PARTIAL);
        }
        body := Full(payload);
        originalBytes := cfg.jsonBytes(payload);
      }
    }

    // Write one line outside the notice and the continuation: no other counter moves.
    method Write(c: Call<P>, body: Body<P>, status: CaptureStatus, ghost role: Role) returns (env: Envelope<P>)
      requires Valid() && role != Crossed && role != Continued
      modifies this
      ensures Valid() && trace == old(trace) + [LineFor(cfg, Lines(old(trace)), c, body, status, role)]
      ensures env == Last(trace).env
      ensures truncatedSteps == old(truncatedSteps)
    {
      hide Lines, StepBytes, Count, DroppedCount, DroppedBytes;
      AtStep(trace, nextSeq, stepBytes, truncatedSteps, truncatedContinuation, suppressedEvents, suppressedBytes, c.step);
      AddLine(trace, nextSeq, stepBytes, truncatedSteps, truncatedContinuation, suppressedEvents, suppressedBytes,
              LineFor(cfg, nextSeq, c, body, status, role));
      env := Record(c.eventType, c.step, c.session, body, status, role);
    }

    // Count an event without writing it.
    method Suppress(step: StepId, lost: nat)
      requires Valid()
      modifies this`suppressedEvents, this`suppressedBytes, this`trace
      ensures Valid() && trace == old(trace) + [Dropped(step, lost)]
    {
      hide Counters, Lines, StepBytes, Count, DroppedCount, DroppedBytes;
      AddDropped(trace, nextSeq, stepBytes, truncatedSteps, truncatedContinuation, suppressedEvents, suppressedBytes, step, lost);
      suppressedEvents := suppressedEvents[step := Get(suppressedEvents, step) + 1];
      suppressedBytes := suppressedBytes[step := Get(suppressedBytes, step) + lost];
      trace := trace + [Dropped(step, lost)];
    }

    // A step past its ceiling: its final event with the totals, or a bounded number of
    // metadata-only lines, or nothing but a count.
    method EmitAfterCeiling(c: Call<P>, originalBytes: nat) returns (env: Option<Envelope<P>>)
      requires Valid() && c.step in truncatedSteps && !Filtered(cfg, c) && c.eventType != "truncation"
      requires originalBytes == OriginalBytes(cfg, c)
      modifies this
      ensures Valid() && trace == old(trace) + Append(cfg, old(trace), c)
      ensures env == Persisted(Append(cfg, old(trace), c))
    {
      hide Counters, Lines, StepBytes, Count, DroppedCount, DroppedBytes;
      AtStep(trace, nextSeq, stepBytes, truncatedSteps, truncatedContinuation, suppressedEvents, suppressedBytes, c.step);
      if c.eventType == "step_finished" {
        var body := Summary(originalBytes, Get(suppressedEvents, c.step), Get(suppressedBytes, c.step));
        var e := Write(c, body, PARTIAL, Final);
        return Some(e);
      }
      var persisted := Get(truncatedContinuation, c.step);
      if persisted >= MAX_TRUNCATED_CONTINUATION_LINES {
        Suppress(c.step, cfg.truncatedBytes(originalBytes) + CONTINUATION_LINE_OVERHEAD_BYTES);
        return None;
      }
      AddLine(trace, nextSeq, stepBytes, truncatedSteps, truncatedContinuation, suppressedEvents, suppressedBytes,
              LineFor(cfg, nextSeq, c, Truncated(originalBytes), PARTIAL, Continued));
      truncatedContinuation := truncatedContinuation[c.step := persisted + 1];
      var e := Record(c.eventType, c.step, c.session, Truncated(originalBytes), PARTIAL, Continued);
      env := Some(e);
    }

    // A step within its ceiling: the line as drafted if it fits, else the notice and the
    // event reduced to metadata.
    method EmitBeforeCeiling(c: Call<P>, body: Body<P>, status: CaptureStatus, originalBytes: nat) returns (env: Envelope<P>)
      requires Valid() && c.step !in truncatedSteps && !Filtered(cfg, c) && c.eventType != "truncation"
      requires body == PreparedBody(cfg, c) && status == PreparedStatus(cfg, c) && originalBytes == OriginalBytes(cfg, c)
      modifies this
      ensures Valid() && trace == old(trace) + Append(cfg, old(trace), c)
      ensures Some(env) == Persisted(Append(cfg, old(trace), c))
    {
      hide Counters, Lines, StepBytes, Count, DroppedCount, DroppedBytes;
      AtStep(trace, nextSeq, stepBytes, truncatedSteps, truncatedContinuation, suppressedEvents, suppressedBytes, c.step);
      var draft := Envelope(nextSeq, c.eventType, c.step, c.session, body, status);
      var lineLen := cfg.lineBytes(draft);
      var used := Get(stepBytes, c.step);
      if used + lineLen <= cfg.maxEventBytesPerStep {
        env := Write(c, body, status, Ordinary);
        return;
      }
      AddLine(trace, nextSeq, stepBytes, truncatedSteps, truncatedContinuation, suppressedEvents, suppressedBytes,
              NoticeFor(cfg, nextSeq, c, used));
      AtNext(trace, NoticeFor(cfg, nextSeq, c, used));
      truncatedSteps := truncatedSteps + {c.step};
      var notice := Record("truncation", c.step, c.session, Notice(cfg.maxEventBytesPerStep, used), COMPLETE, Crossed);
      env := Write(c, Truncated(originalBytes), PARTIAL, Crossing);
    }

    // Record one event; None when it is not persisted.
    method Emit(c: Call<P>) returns (r: Result<Option<Envelope<P>>, string>)
      requires Valid()
      modifies this
      ensures Valid()
      ensures r.Err? <==> c.eventType !in EVENT_TYPES
      ensures r.Err? ==> trace == old(trace)
      ensures r.Ok? ==> trace == old(trace) + Append(cfg, old(trace), c)
      ensures r.Ok? ==> r.value == Persisted(Append(cfg, old(trace), c))
    {
      hide Counters, Lines, StepBytes, Count, DroppedCount, DroppedBytes;
      if c.eventType !in EVENT_TYPES {
        return Err("unknown event_type");
      }
      if cfg.profile != DEBUG && c.eventType == "raw_frame" {
        return Ok(None);
      }
      var body, status, originalBytes := Prepare(c);
      if c.eventType == "truncation" {
        var env := Write(c, body, status, Explicit);
        r := Ok(Some(env));
      } else if c.step in truncatedSteps {
        var env := EmitAfterCeiling(c, originalBytes);
        r := Ok(env);
      } else {
        AtStep(trace, nextSeq, stepBytes, truncatedSteps, truncatedContinuation, suppressedEvents, suppressedBytes, c.step);
        var env := EmitBeforeCeiling(c, body, status, originalBytes);
        r := Ok(Some(env));
      }
    }

    // A whole run of calls on a new recorder; refused calls leave nothing.
    method EmitAll(calls: seq<Call<P>>)
      requires Valid() && trace == []
      modifies this
      ensures Valid() && trace == TraceOf(cfg, calls)
    {
      hide Counters, Append;
      for i := 0 to |calls|
        invariant Valid() && trace == TraceOf(cfg, calls[..i])
      {
        CallsSnoc(cfg, calls[..i], calls[i], None);
        assert calls[..i + 1] == calls[..i] + [calls[i]];
        var r := Emit(calls[i]);
      }
      assert calls[..|calls|] == calls;
    }
  }

  lemma AtNext<P>(trace: seq<Item<P>>, x: Item<P>)
    requires x.Line?
    ensures Lines(trace + [x]) == Lines(trace) + 1
  {}

  // The envelope a call returns: that of the last line it added, if it added one.
  function Persisted<P>(added: seq<Item<P>>): Option<Envelope<P>> {
    if added != [] && Last(added).Line? then Some(Last(added).env) else None
  }

  // One more item changes exactly its own counts.
  lemma Snoc<P>(trace: seq<Item<P>>, x: Item<P>)
    ensures Lines(trace + [x]) == Lines(trace) + (if x.Line? then 1 else 0)
    ensures forall s ::
      && StepBytes(trace + [x], s) == StepBytes(trace, s) + (if x.Line? && x.env.step == s then x.bytes else 0)
    ensures forall s, role ::
      && Count(trace + [x], s, role) == Count(trace, s, role) + (if HasRole(x, s, role) then 1 else 0)
    ensures forall s, role ::
      && Bytes(trace + [x], s, role) == Bytes(trace, s, role) + (if HasRole(x, s, role) then x.bytes else 0)
    ensures forall s ::
      && DroppedCount(trace + [x], s) == DroppedCount(trace, s) + (if x.Dropped? && x.step == s then 1 else 0)
    ensures forall s ::
      && DroppedBytes(trace + [x], s) == DroppedBytes(trace, s) + (if x.Dropped? && x.step == s then x.bytes else 0)
  {}

  predicate HasRole<P>(x: Item<P>, s: StepId, role: Role) {
    x.Line? && x.env.step == s && x.role == role
  }

  // ---------------------------------------------------------------- whole runs: one step's ledger

  predicate Admitted<P>(cfg: Config<P>, c: Call<P>, s: StepId) {
    c.eventType in EVENT_TYPES && (c.eventType == "raw_frame" ==> cfg.profile == DEBUG) && c.step == s
  }

  function AdmittedCalls<P>(cfg: Config<P>, calls: seq<Call<P>>, s: StepId): nat {
    if calls == [] then 0
    else AdmittedCalls(cfg, calls[..|calls| - 1], s) + (if Admitted(cfg, Last(calls), s) then 1 else 0)
  }

  function CallsOfType<P>(calls: seq<Call<P>>, s: StepId, eventType: string): nat {
    if calls == [] then 0
    else
      CallsOfType(calls[..|calls| - 1], s, eventType)
      + (if Last(calls).step == s && Last(calls).eventType == eventType then 1 else 0)
  }

  ghost predicate Ledger<P>(cfg: Config<P>, calls: seq<Call<P>>, trace: seq<Item<P>>, s: StepId) {
    && Count(trace, s, Crossed) <= 1 && Count(trace, s, Crossing) == Count(trace, s, Crossed)
    && Count(trace, s, Continued) <= MAX_TRUNCATED_CONTINUATION_LINES
    && (DroppedCount(trace, s) > 0 ==> Count(trace, s, Continued) == MAX_TRUNCATED_CONTINUATION_LINES)
    && (Count(trace, s, Crossed) == 0 ==>
          Count(trace, s, Continued) == 0 && Count(trace, s, Final) == 0 && DroppedCount(trace, s) == 0)
    && Count(trace, s, Explicit) == CallsOfType(calls, s, "truncation")
    && Count(trace, s, Final) <= CallsOfType(calls, s, "step_finished")
    && AdmittedCalls(cfg, calls, s) ==
         Count(trace, s, Ordinary) + Count(trace, s, Crossing) + Count(trace, s, Continued)
         + Count(trace, s, Final) + Count(trace, s, Explicit) + DroppedCount(trace, s)
    && Bytes(trace, s, Ordinary) <= cfg.maxEventBytesPerStep
    && StepBytes(trace, s) ==
         Bytes(trace, s, Ordinary) + Bytes(trace, s, Crossed) + Bytes(trace, s, Crossing)
         + Bytes(trace, s, Continued) + Bytes(trace, s, Final) + Bytes(trace, s, Explicit)
  }

  lemma CallsSnoc<P>(cfg: Config<P>, calls: seq<Call<P>>, c: Call<P>, s: StepId)
    ensures AdmittedCalls(cfg, calls + [c], s) == AdmittedCalls(cfg, calls, s) + (if Admitted(cfg, c, s) then 1 else 0)
    ensures forall t :: CallsOfType(calls + [c], s, t) == CallsOfType(calls, s, t) + (if c.step == s && c.eventType == t then 1 else 0)
    ensures TraceOf(cfg, calls + [c]) ==
      var before := TraceOf(cfg, calls);
      if c.eventType in EVENT_TYPES then before + Append(cfg, before, c) else before
  {}

  // What one more item of the given kind does to one step's counts.
  lemma SnocAt<P>(trace: seq<Item<P>>, x: Item<P>, s: StepId)
    ensures forall role :: Count(trace + [x], s, role) == Count(trace, s, role) + (if HasRole(x, s, role) then 1 else 0)
    ensures forall role :: Bytes(trace + [x], s, role) == Bytes(trace, s, role) + (if HasRole(x, s, role) then x.bytes else 0)
    ensures StepBytes(trace + [x], s) == StepBytes(trace, s) + (if x.Line? && x.env.step == s then x.bytes else 0)
    ensures DroppedCount(trace + [x], s) == DroppedCount(trace, s) + (if x.Dropped? && x.step == s then 1 else 0)
  {}

  // One item for one call keeps the ledger when the item's kind fits the step's state.
  lemma LedgerItem<P>(cfg: Config<P>, calls: seq<Call<P>>, c: Call<P>, trace: seq<Item<P>>, x: Item<P>, s: StepId)
    requires Ledger(cfg, calls, trace, s)
    requires Admitted(cfg, c, s)
    requires x.Dropped? ==> x.step == s && IsTruncated(trace, s) && Count(trace, s, Continued) >= MAX_TRUNCATED_CONTINUATION_LINES
    requires x.Line? ==>
      && x.env.step == s && x.role != Crossed && x.role != Crossing
      && (x.role == Explicit <==> c.eventType == "truncation")
      && (x.role == Final ==> c.eventType == "step_finished" && IsTruncated(trace, s))
      && (x.role == Continued ==> Count(trace, s, Continued) < MAX_TRUNCATED_CONTINUATION_LINES && IsTruncated(trace, s))
      && (x.role == Ordinary ==> !IsTruncated(trace, s) && StepBytes(trace, s) + x.bytes <= cfg.maxEventBytesPerStep)
    requires x.Dropped? ==> c.eventType != "truncation"
    ensures Ledger(cfg, calls + [c], trace + [x], s)
  {
    hide StepBytes, Count, Bytes, DroppedCount, AdmittedCalls, CallsOfType, TraceOf;
    CallsSnoc(cfg, calls, c, s);
    SnocAt(trace, x, s);
  }

  lemma LedgerCrossing<P>(cfg: Config<P>, calls: seq<Call<P>>, c: Call<P>, trace: seq<Item<P>>, x: Item<P>, y: Item<P>, s: StepId)
    requires Ledger(cfg, calls, trace, s)
    requires Admitted(cfg, c, s) && c.eventType != "truncation" && !IsTruncated(trace, s)
    requires HasRole(x, s, Crossed) && HasRole(y, s, Crossing)
    ensures Ledger(cfg, calls + [c], trace + [x, y], s)
  {
    hide StepBytes, Count, Bytes, DroppedCount, AdmittedCalls, CallsOfType, Admitted, TraceOf;
    CallsSnoc(cfg, calls, c, s);
    SnocAt(trace, x, s);
    SnocAt(trace + [x], y, s);
    assert trace + [x, y] == trace + [x] + [y];
  }

  // Calls of other steps, and filtered calls, leave the step's ledger alone.
  lemma {:induction false} LedgerElsewhere<P>(cfg: Config<P>, calls: seq<Call<P>>, c: Call<P>, trace: seq<Item<P>>, added: seq<Item<P>>, s: StepId)
    requires Ledger(cfg, calls, trace, s)
    requires !Admitted(cfg, c, s) && (c.step == s ==> c.eventType != "truncation")
    requires forall x :: x in added ==> (x.Line? ==> x.env.step != s) && (x.Dropped? ==> x.step != s)
    ensures Ledger(cfg, calls + [c], trace + added, s)
    decreases |added|
  {
    hide StepBytes, Count, Bytes, DroppedCount, AdmittedCalls, CallsOfType, Admitted, TraceOf;
    if added == [] {
      CallsSnoc(cfg, calls, c, s);
      assert trace + added == trace;
    } else {
      var front, x := added[..|added| - 1], Last(added);
      SplitLast(added);
      Assoc(trace, front, [x]);
      LedgerElsewhere(cfg, calls, c, trace, front, s);
      SnocAt(trace + front, x, s);
    }
  }

  // One call keeps every step's ledger.
  lemma LedgerStep<P>(cfg: Config<P>, calls: seq<Call<P>>, c: Call<P>, trace: seq<Item<P>>, s: StepId)
    requires Ledger(cfg, calls, trace, s) && c.eventType in EVENT_TYPES
    ensures Ledger(cfg, calls + [c], trace + Append(cfg, trace, c), s)
  {
    hide Ledger, StepBytes, Count, Bytes, DroppedCount, DroppedBytes, TraceOf, OriginalBytes, PreparedBody, PreparedStatus;
    var added := Append(cfg, trace, c);
    if c.step != s || Filtered(cfg, c) {
      LedgerElsewhere(cfg, calls, c, trace, added, s);
    } else if |added| == 1 {
      assert added == [added[0]];
      LedgerItem(cfg, calls, c, trace, added[0], s);
    } else {
      assert added == [added[0], added[1]];
      LedgerCrossing(cfg, calls, c, trace, added[0], added[1], s);
    }
  }

  lemma {:induction false} LedgerHolds<P>(cfg: Config<P>, calls: seq<Call<P>>, s: StepId)
    ensures Ledger(cfg, calls, TraceOf(cfg, calls), s)
    decreases |calls|
  {
    hide Append;
    if calls != [] {
      var front, c := calls[..|calls| - 1], Last(calls);
      SplitLast(calls);
      LedgerHolds(cfg, front, s);
      CallsSnoc(cfg, front, c, s);
      if c.eventType in EVENT_TYPES {
        LedgerStep(cfg, front, c, TraceOf(cfg, front), s);
      }
    }
  }

  // Every admitted call is either a recorded line or counted as suppressed.
  lemma NothingUnaccounted<P>(cfg: Config<P>, calls: seq<Call<P>>, s: StepId)
    ensures var trace := TraceOf(cfg, calls);
      AdmittedCalls(cfg, calls, s) == LinesOf(trace, s) - Count(trace, s, Crossed) + DroppedCount(trace, s)
  {
    LedgerHolds(cfg, calls, s);
    LinesByRole(TraceOf(cfg, calls), s);
  }

  function LinesOf<P>(trace: seq<Item<P>>, s: StepId): nat {
    if trace == [] then 0
    else LinesOf(trace[..|trace| - 1], s) + (if Last(trace).Line? && Last(trace).env.step == s then 1 else 0)
  }

  lemma {:induction false} LinesByRole<P>(trace: seq<Item<P>>, s: StepId)
    ensures LinesOf(trace, s) ==
      Count(trace, s, Ordinary) + Count(trace, s, Crossed) + Count(trace, s, Crossing)
      + Count(trace, s, Continued) + Count(trace, s, Final) + Count(trace, s, Explicit)
    decreases |trace|
  {
    if trace != [] {
      LinesByRole(trace[..|trace| - 1], s);
    }
  }

  // ---------------------------------------------------------------- whole runs: every line

  // Each item agrees with the part of the trace before it.
  ghost predicate ItemOk<P>(cfg: Config<P>, before: seq<Item<P>>, x: Item<P>) {
    match x
    case Dropped(s, _) => IsTruncated(before, s)
    case Line(env, bytes, role) =>
      && env.seqNo == Lines(before) && bytes == cfg.lineBytes(env)
      && match role
         case Ordinary => !IsTruncated(before, env.step) && env.eventType != "truncation"
         case Crossed =>
           && !IsTruncated(before, env.step) && env.eventType == "truncation"
           && env.body == Notice(cfg.maxEventBytesPerStep, StepBytes(before, env.step))
         case Crossing => IsTruncated(before, env.step) && env.eventType != "truncation" && env.body.Truncated?
         case Continued => IsTruncated(before, env.step) && env.eventType != "truncation" && env.body.Truncated?
         case Final =>
           && IsTruncated(before, env.step) && env.eventType == "step_finished"
           && env.body.Summary? && env.body.suppressedEvents == DroppedCount(before, env.step)
           && env.body.suppressedBytes == DroppedBytes(before, env.step)
         case Explicit => env.eventType == "truncation"
  }

  ghost predicate TraceOk<P>(cfg: Config<P>, trace: seq<Item<P>>) {
    forall i :: 0 <= i < |trace| ==> ItemOk(cfg, trace[..i], trace[i])
  }

  lemma TraceOkSnoc<P>(cfg: Config<P>, trace: seq<Item<P>>, x: Item<P>)
    requires TraceOk(cfg, trace) && ItemOk(cfg, trace, x)
    ensures TraceOk(cfg, trace + [x])
  {
    hide ItemOk;
    var next := trace + [x];
    forall i | 0 <= i < |next|
      ensures ItemOk(cfg, next[..i], next[i])
    {
      if i < |trace| {
        assert next[..i] == trace[..i];
      } else {
        assert next[..i] == trace;
      }
    }
  }

  lemma AppendOk<P>(cfg: Config<P>, trace: seq<Item<P>>, c: Call<P>)
    requires TraceOk(cfg, trace)
    ensures TraceOk(cfg, trace + Append(cfg, trace, c))
  {
    hide TraceOk, Lines, StepBytes, Count, Bytes, DroppedCount, DroppedBytes;
    var added := Append(cfg, trace, c);
    if added == [] {
      assert trace + added == trace;
    } else if |added| == 1 {
      TraceOkSnoc(cfg, trace, added[0]);
      assert added == [added[0]];
    } else {
      TraceOkSnoc(cfg, trace, added[0]);
      Snoc(trace, added[0]);
      TraceOkSnoc(cfg, trace + [added[0]], added[1]);
      assert trace + added == trace + [added[0]] + [added[1]];
    }
  }

  lemma {:induction false} EveryTraceOk<P>(cfg: Config<P>, calls: seq<Call<P>>)
    ensures TraceOk(cfg, TraceOf(cfg, calls))
    decreases |calls|
  {
    hide Append, ItemOk;
    if calls != [] {
      EveryTraceOk(cfg, calls[..|calls| - 1]);
      AppendOk(cfg, TraceOf(cfg, calls[..|calls| - 1]), Last(calls));
    }
  }

  // Sequence numbers count the recorded lines: 0, 1, 2, ... without a gap.
  lemma SequenceHasNoGap<P>(cfg: Config<P>, calls: seq<Call<P>>, i: nat)
    requires i < |TraceOf(cfg, calls)| && TraceOf(cfg, calls)[i].Line?
    ensures TraceOf(cfg, calls)[i].env.seqNo == Lines(TraceOf(cfg, calls)[..i])
  {
    EveryTraceOk(cfg, calls);
    assert ItemOk(cfg, TraceOf(cfg, calls)[..i], TraceOf(cfg, calls)[i]);
  }

  lemma {:induction false} CountGrows<P>(trace: seq<Item<P>>, i: nat, j: nat, s: StepId, role: Role)
    requires i <= j <= |trace|
    ensures Count(trace[..i], s, role) <= Count(trace[..j], s, role)
    decreases j - i
  {
    if i < j {
      CountGrows(trace, i, j - 1, s, role);
      assert trace[..j][..j - 1] == trace[..j - 1];
    }
  }

  // After a step's notice, every later line of the step carries metadata only, unless a caller
  // emitted a truncation event of its own; its final event carries the count suppressed so far.
  lemma AfterNoticeOnlyMetadata<P>(cfg: Config<P>, calls: seq<Call<P>>, i: nat, j: nat)
    requires i < j < |TraceOf(cfg, calls)|
    requires TraceOf(cfg, calls)[i].Line? && TraceOf(cfg, calls)[i].role == Crossed
    requires TraceOf(cfg, calls)[j].Line? && TraceOf(cfg, calls)[j].env.step == TraceOf(cfg, calls)[i].env.step
    ensures var env := TraceOf(cfg, calls)[j].env;
      env.eventType != "truncation" ==>
        || env.body.Truncated?
        || (&& env.eventType == "step_finished" && env.body.Summary?
            && env.body.suppressedEvents == DroppedCount(TraceOf(cfg, calls)[..j], env.step)
            && env.body.suppressedBytes == DroppedBytes(TraceOf(cfg, calls)[..j], env.step))
  {
    hide Append, Lines, StepBytes, Bytes, DroppedCount, DroppedBytes, TraceOf;
    var trace := TraceOf(cfg, calls);
    EveryTraceOk(cfg, calls);
    var s := trace[i].env.step;
    assert trace[..i + 1][..i] == trace[..i];
    assert Count(trace[..i + 1], s, Crossed) > 0;
    CountGrows(trace, i + 1, j, s, Crossed);
    assert ItemOk(cfg, trace[..j], trace[j]);
  }

  function TruncationEvents<P>(trace: seq<Item<P>>, s: StepId): nat {
    if trace == [] then 0
    else
      TruncationEvents(trace[..|trace| - 1], s)
      + (if Last(trace).Line? && Last(trace).env.step == s && Last(trace).env.eventType == "truncation" then 1 else 0)
  }

  lemma {:induction false} TruncationByRole<P>(cfg: Config<P>, trace: seq<Item<P>>, s: StepId)
    requires TraceOk(cfg, trace)
    ensures TruncationEvents(trace, s) == Count(trace, s, Crossed) + Count(trace, s, Explicit)
    decreases |trace|
  {
    if trace != [] {
      var front := trace[..|trace| - 1];
      assert ItemOk(cfg, trace[..|trace| - 1], trace[|trace| - 1]);
      forall i | 0 <= i < |front|
        ensures ItemOk(cfg, front[..i], front[i])
      {
        assert front[..i] == trace[..i] && front[i] == trace[i];
        assert ItemOk(cfg, trace[..i], trace[i]);
      }
      TruncationByRole(cfg, front, s);
    }
  }

  // The recorder writes one notice per truncated step; only callers emitting truncation events
  // themselves can make it more. So a step has at most one exactly when callers emit none, or
  // one for a step that never crosses its ceiling.
  lemma TruncationEventsExactly<P>(cfg: Config<P>, calls: seq<Call<P>>, s: StepId)
    ensures var trace := TraceOf(cfg, calls);
      var notice := if IsTruncated(trace, s) then 1 else 0;
      && TruncationEvents(trace, s) == notice + CallsOfType(calls, s, "truncation")
      && (TruncationEvents(trace, s) <= 1 <==>
            CallsOfType(calls, s, "truncation") == 0 || (CallsOfType(calls, s, "truncation") == 1 && !IsTruncated(trace, s)))
  {
    LedgerHolds(cfg, calls, s);
    EveryTraceOk(cfg, calls);
    TruncationByRole(cfg, TraceOf(cfg, calls), s);
  }

  // ---------------------------------------------------------------- the byte ceiling

  predicate IsMetadataRole(role: Role) {
    role == Crossed || role == Crossing || role == Continued || role == Final
  }

  // No metadata-only line of the step is longer than `widest`.
  ghost predicate MetadataWithin<P>(trace: seq<Item<P>>, s: StepId, widest: nat) {
    forall i :: 0 <= i < |trace| && trace[i].Line? && trace[i].env.step == s && IsMetadataRole(trace[i].role) ==>
      trace[i].bytes <= widest
  }

  lemma {:induction false} BytesByCount<P>(trace: seq<Item<P>>, s: StepId, role: Role, widest: nat)
    requires MetadataWithin(trace, s, widest) && IsMetadataRole(role)
    ensures Bytes(trace, s, role) <= Count(trace, s, role) * widest
    decreases |trace|
  {
    if trace != [] {
      var front := trace[..|trace| - 1];
      assert forall i :: 0 <= i < |front| ==> front[i] == trace[i];
      BytesByCount(front, s, role, widest);
      var n := Count(front, s, role);
      assert (n + 1) * widest == n * widest + widest;
    }
  }

  // A step's recorded bytes stay within its ceiling plus 22 metadata-only lines and one for
  // each of its step_finished events, apart from truncation events emitted by callers.
  lemma StepBytesBounded<P>(cfg: Config<P>, calls: seq<Call<P>>, s: StepId, widest: nat)
    requires MetadataWithin(TraceOf(cfg, calls), s, widest)
    ensures var trace := TraceOf(cfg, calls);
      && StepBytes(trace, s) - Bytes(trace, s, Explicit)
           <= cfg.maxEventBytesPerStep + (22 + CallsOfType(calls, s, "step_finished")) * widest
      && (CallsOfType(calls, s, "truncation") == 0 ==> Bytes(trace, s, Explicit) == 0)
  {
    hide TraceOf, Append, StepBytes, Bytes, Count;
    var trace := TraceOf(cfg, calls);
    LedgerHolds(cfg, calls, s);
    BytesByCount(trace, s, Crossed, widest);
    BytesByCount(trace, s, Crossing, widest);
    BytesByCount(trace, s, Continued, widest);
    BytesByCount(trace, s, Final, widest);
    var n := Count(trace, s, Crossed) + Count(trace, s, Crossing) + Count(trace, s, Continued) + Count(trace, s, Final);
    SumOfProducts(Count(trace, s, Crossed), Count(trace, s, Crossing), Count(trace, s, Continued), Count(trace, s, Final), widest);
    Monotone(n, 22 + CallsOfType(calls, s, "step_finished"), widest);
    NoneMeansNoBytes(trace, s, Explicit);
  }

  lemma SumOfProducts(a: nat, b: nat, c: nat, d: nat, w: nat)
    ensures a * w + b * w + c * w + d * w == (a + b + c + d) * w
  {}

  lemma Monotone(a: nat, b: nat, w: nat)
    requires a <= b
    ensures a * w <= b * w
  {}

  lemma {:induction false} NoneMeansNoBytes<P>(trace: seq<Item<P>>, s: StepId, role: Role)
    ensures Count(trace, s, role) == 0 ==> Bytes(trace, s, role) == 0
    decreases |trace|
  {
    if trace != [] {
      NoneMeansNoBytes(trace[..|trace| - 1], s, role);
    }
  }

  // ---------------------------------------------------------------- capture status

  // A call that keeps its payload: not replaced for its size, and either a truncation event or
  // one whose drafted line still fits its step.
  predicate KeepsPayload<P>(cfg: Config<P>, trace: seq<Item<P>>, c: Call<P>) {
    && !Oversized(cfg, c)
    && (|| c.eventType == "truncation"
        || (&& !IsTruncated(trace, c.step)
            && StepBytes(trace, c.step) + LineFor(cfg, Lines(trace), c, PreparedBody(cfg, c), PreparedStatus(cfg, c), Ordinary).bytes
                 <= cfg.maxEventBytesPerStep))
  }

  // A recorded status is no better than the caller's, except that an unavailable event recorded
  // without its payload becomes partial.
  lemma StatusOnlyDegradesIff<P>(cfg: Config<P>, trace: seq<Item<P>>, c: Call<P>)
    requires Persisted(Append(cfg, trace, c)).Some?
    ensures var env := Persisted(Append(cfg, trace, c)).value;
      Severity(env.status) >= Severity(c.status) <==> c.status != UNAVAILABLE || KeepsPayload(cfg, trace, c)
  {
    hide Lines, StepBytes, Count, DroppedCount, DroppedBytes;
  }

  // ---------------------------------------------------------------- what a recording shows of its calls

  // Each profile hides agent content to its own degree.
  lemma ProfilesHide<P>(cfg: Config<P>, eventType: string)
    ensures cfg.profile == DEBUG ==> !Reduces(cfg, eventType)
    ensures cfg.profile == STANDARD ==> (Reduces(cfg, eventType) <==> eventType == "thought_chunk")
    ensures cfg.profile == METADATA ==> (Reduces(cfg, eventType) <==> eventType in CONTENT_TYPES)
  {}

  // The payload as the recording may show it.
  ghost predicate ShownAs<P>(cfg: Config<P>, c: Call<P>, p: P) {
    if Reduces(cfg, c.eventType) then p == cfg.metadataView(c.eventType, cfg.redact(c.payload)) else p == cfg.redact(c.payload)
  }

  // The size told of a payload that is not shown: that of the raw one if it was too large to look
  // at, else that of the redacted one.
  ghost predicate SizedAs<P>(cfg: Config<P>, c: Call<P>, n: nat) {
    if cfg.jsonBytes(c.payload) > cfg.maxPayloadBytes then n == cfg.jsonBytes(c.payload)
    else if Reduces(cfg, c.eventType) then n == cfg.jsonBytes(cfg.metadataView(c.eventType, cfg.redact(c.payload)))
    else n == cfg.jsonBytes(cfg.redact(c.payload))
  }

  // The item tells of this call, and no more of its payload than that.
  ghost predicate TellsOf<P>(cfg: Config<P>, c: Call<P>, x: Item<P>) {
    match x
    case Dropped(s, bytes) =>
      && s == c.step
      && exists n: nat :: SizedAs(cfg, c, n) && bytes == cfg.truncatedBytes(n) + CONTINUATION_LINE_OVERHEAD_BYTES
    case Line(env, _, role) =>
      && env.step == c.step && env.session == c.session
      && (role == Crossed <==> env.body.Notice?)
      && match env.body
         case Notice(_, _) => env.eventType == "truncation" && env.status == COMPLETE
         case Full(p) =>
           && env.eventType == c.eventType && ShownAs(cfg, c, p) && cfg.jsonBytes(c.payload) <= cfg.maxPayloadBytes
           && env.status == if Reduces(cfg, c.eventType) && c.status != UNAVAILABLE then PARTIAL else c.status
         case Truncated(n) => env.eventType == c.eventType && SizedAs(cfg, c, n) && env.status == PARTIAL
         case Summary(n, _, _) => env.eventType == c.eventType && SizedAs(cfg, c, n) && env.status == PARTIAL
  }

  lemma AddedTellsOf<P>(cfg: Config<P>, trace: seq<Item<P>>, c: Call<P>, x: Item<P>)
    requires x in Append(cfg, trace, c)
    ensures TellsOf(cfg, c, x)
  {
    hide Lines, StepBytes, Count, DroppedCount, DroppedBytes;
    assert ShownAs(cfg, c, Processed(cfg, c));
    assert SizedAs(cfg, c, OriginalBytes(cfg, c));
  }

  // Every item tells of an admitted call, never of a raw frame outside debugging: a payload it
  // shows is redacted, and reduced where the profile says so, and its status is the caller's unless
  // something is missing.
  lemma {:induction false} EveryItemTellsOf<P>(cfg: Config<P>, calls: seq<Call<P>>, x: Item<P>)
    requires x in TraceOf(cfg, calls)
    ensures exists c :: c in calls && Admitted(cfg, c, c.step) && TellsOf(cfg, c, x)
    decreases |calls|
  {
    hide Append, TellsOf;
    var front, last := calls[..|calls| - 1], Last(calls);
    if x in TraceOf(cfg, front) {
      EveryItemTellsOf(cfg, front, x);
    } else {
      assert last in calls;
      AddedTellsOf(cfg, TraceOf(cfg, front), last, x);
      NothingOfFiltered(cfg, TraceOf(cfg, front), last);
    }
  }

  lemma NothingOfFiltered<P>(cfg: Config<P>, trace: seq<Item<P>>, c: Call<P>)
    ensures Filtered(cfg, c) ==> Append(cfg, trace, c) == []
  {}

  // Two calls that differ only in what redaction hides.
  ghost predicate LookAlike<P>(cfg: Config<P>, c: Call<P>, d: Call<P>) {
    && d == c.(payload := d.payload)
    && cfg.redact(c.payload) == cfg.redact(d.payload) && cfg.jsonBytes(c.payload) == cfg.jsonBytes(d.payload)
  }

  lemma AppendsAlike<P>(cfg: Config<P>, trace: seq<Item<P>>, c: Call<P>, d: Call<P>)
    requires LookAlike(cfg, c, d)
    ensures Append(cfg, trace, c) == Append(cfg, trace, d)
  {
    hide Lines, StepBytes, Count, DroppedCount, DroppedBytes;
  }

  // What redaction hides never reaches the recording: runs whose calls differ only in that leave
  // the same trace, sequence numbers, sizes and drops included.
  lemma {:induction false} RecordingHidesSecrets<P>(cfg: Config<P>, calls: seq<Call<P>>, others: seq<Call<P>>)
    requires |calls| == |others| && forall i :: 0 <= i < |calls| ==> LookAlike(cfg, calls[i], others[i])
    ensures TraceOf(cfg, calls) == TraceOf(cfg, others)
    decreases |calls|
  {
    hide Append;
    if calls != [] {
      var n := |calls| - 1;
      assert LookAlike(cfg, calls[n], others[n]);
      RecordingHidesSecrets(cfg, calls[..n], others[..n]);
      AppendsAlike(cfg, TraceOf(cfg, calls[..n]), calls[n], others[n]);
    }
  }

  // ---------------------------------------------------------------- failing runs

  // A recorder whose steps may take five bytes: a line with a payload takes the payload's size and
  // ten bytes more, every other line ten.
  const SMALL: Config<nat> := Config(
    STANDARD, 5, 1000, p => p, n => n, p => p, (t, p) => p,
    (env: Envelope<nat>) => if env.body.Full? then env.body.payload + 10 else 10)

  function Note(eventType: string, size: nat, status: CaptureStatus): Call<nat> {
    Call(eventType, Some("s"), None, size, status)
  }

  // An oversized event the caller reports as unavailable is recorded as partial.
  lemma UnavailableBecomesPartial()
    ensures var c := Note("fs_read", 1001, UNAVAILABLE);
      var added := Append(SMALL, [], c);
      && c.eventType in EVENT_TYPES
      && Persisted(added).Some? && Persisted(added).value.status == PARTIAL
      && Severity(Persisted(added).value.status) < Severity(c.status)
  {}

  // A plan event crosses the ceiling at once, and then the caller emits a truncation event of
  // its own, with a payload.
  function TruncatedByCaller(): seq<Call<nat>> {
    [Note("plan", 1, COMPLETE), Note("truncation", 300, COMPLETE)]
  }

  lemma PlanCrosses()
    ensures var a, s := Note("plan", 1, COMPLETE), Some("s");
      var trace := TraceOf(SMALL, [a]);
      && |trace| == 2 && HasRole(trace[0], s, Crossed) && HasRole(trace[1], s, Crossing)
      && trace[0].bytes == 10 == trace[1].bytes
  {
    hide Count, DroppedCount, DroppedBytes;
    var a := Note("plan", 1, COMPLETE);
    CallsSnoc(SMALL, [], a, None);
    assert [] + [a] == [a] && TraceOf(SMALL, []) == [];
    NothingYet(Some("s"));
    var draft := LineFor(SMALL, 0, a, PreparedBody(SMALL, a), PreparedStatus(SMALL, a), Ordinary);
    assert draft.bytes == 11;
  }

  lemma NothingYet(s: StepId)
    ensures Lines<nat>([]) == 0 && StepBytes<nat>([], s) == 0 && forall role :: Count<nat>([], s, role) == 0
  {}

  // The whole run: the notice, the crossing event and the caller's truncation event, which keeps
  // its payload.
  lemma CallerTruncationTrace()
    ensures var s := Some("s");
      var trace := TraceOf(SMALL, TruncatedByCaller());
      && |trace| == 3 && HasRole(trace[0], s, Crossed) && HasRole(trace[1], s, Crossing) && HasRole(trace[2], s, Explicit)
      && trace[0].bytes == 10 == trace[1].bytes && trace[2].bytes == 310 && trace[2].env.body == Full(300)
      && trace[2].env.eventType == "truncation"
  {
    hide Lines, StepBytes, Count, DroppedCount, DroppedBytes, TraceOf;
    var a, b := Note("plan", 1, COMPLETE), Note("truncation", 300, COMPLETE);
    PlanCrosses();
    CallsSnoc(SMALL, [a], b, None);
    assert [a] + [b] == TruncatedByCaller();
  }

  // So neither the ceiling nor the rule that later lines carry metadata only binds a caller's own
  // truncation events.
  lemma CallerTruncationEscapes()
    ensures var s := Some("s");
      var trace := TraceOf(SMALL, TruncatedByCaller());
      && |trace| == 3 && trace[0].Line? && trace[0].role == Crossed && trace[2].Line? && trace[2].env.body.Full?
      && MetadataWithin(trace, s, 10) && StepBytes(trace, s) > SMALL.maxEventBytesPerStep + 22 * 10
  {
    hide TraceOf;
    CallerTruncationTrace();
    var trace, s := TraceOf(SMALL, TruncatedByCaller()), Some("s");
    LastThree(trace);
    Snoc(trace[..2], trace[2]);
  }

  lemma LastThree<T>(s: seq<T>)
    requires |s| == 3
    ensures s[..2] + [s[2]] == s
  {}

  // And the step ends with two truncation events.
  lemma TwoTruncationEvents()
    ensures var trace := TraceOf(SMALL, TruncatedByCaller());
      IsTruncated(trace, Some("s")) && TruncationEvents(trace, Some("s")) == 2
  {
    hide TraceOf, StepBytes;
    CallerTruncationTrace();
    var trace, s := TraceOf(SMALL, TruncatedByCaller()), Some("s");
    assert trace[..2][..1] == trace[..1] && trace[..1][..0] == [];
    assert Count(trace[..1], s, Crossed) == 1;
    CountGrows(trace, 1, 3, s, Crossed);
    assert trace[..3] == trace;
    EveryTraceOk(SMALL, TruncatedByCaller());
    TruncationEventsExactly(SMALL, TruncatedByCaller(), s);
    CallerTruncations();
  }

  lemma CallerTruncations()
    ensures CallsOfType(TruncatedByCaller(), Some("s"), "truncation") == 1
  {
    var calls := TruncatedByCaller();
    assert calls[..1] == [calls[0]] && calls[..1][..0] == [];
  }
}
