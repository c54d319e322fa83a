// Finding the plan in a planner's answer: balanced top-level brace spans, string and escape
// aware.
//
// The reference is a grammar: a span is a group, made of plain characters, string literals and
// inner groups. The scanner is a counter with two flags; it is proved to find exactly the
// groups the grammar describes, so JSON objects, which are groups, come back whole.
module BraceScanner {
  import opened Wrappers
  import opened Seqs

  // ---------------------------------------------------------------- the grammar

  datatype StrChar = Raw(c: char) | Escape(c: char)

  datatype Item = Plain(c: char) | Quoted(body: seq<StrChar>) | Group(items: seq<Item>)

  predicate BodyOk(body: seq<StrChar>) {
    forall x :: x in body && x.Raw? ==> x.c != '"' && x.c != '\\'
  }

  predicate ItemsOk(items: seq<Item>) {
    if items == [] then true
    else
      && (match items[0]
          case Plain(c) => c != '{' && c != '}' && c != '"'
          case Quoted(body) => BodyOk(body)
          case Group(inner) => ItemsOk(inner))
      && ItemsOk(items[1..])
  }

  function BodyText(body: seq<StrChar>): string {
    if body == [] then ""
    else (match body[0] case Raw(c) => [c] case Escape(c) => ['\\', c]) + BodyText(body[1..])
  }

  function ItemsText(items: seq<Item>): string
    decreases items
  {
    if items == [] then ""
    else
      (match items[0]
       case Plain(c) => [c]
       case Quoted(body) => "\"" + BodyText(body) + "\""
       case Group(inner) => "{" + ItemsText(inner) + "}")
      + ItemsText(items[1..])
  }

  // A complete top-level object: one group and nothing else.
  ghost predicate IsGroup(s: string) {
    exists items :: ItemsOk(items) && s == "{" + ItemsText(items) + "}"
  }

  datatype Span = Span(start: nat, end: nat)

  // The first opening brace at or after `from`.
  ghost predicate IsOpen(text: string, from: nat, start: nat) {
    from <= start < |text| && text[start] == '{' && '{' !in text[from..start]
  }

  ghost predicate NeverCloses(text: string, start: nat) {
    start <= |text| && forall end :: start <= end <= |text| ==> !IsGroup(text[start..end])
  }

  // Scanning on from `from` finds the group `s` next.
  ghost predicate FindsNext(text: string, from: nat, s: Span) {
    IsOpen(text, from, s.start) && s.start < s.end <= |text| && IsGroup(text[s.start..s.end])
  }

  // Scanning on from `from` finds nothing: no brace opens, or the first that opens never closes.
  ghost predicate FindsNoMore(text: string, from: nat) {
    from <= |text| && ('{' !in text[from..] || exists start :: IsOpen(text, from, start) && NeverCloses(text, start))
  }

  function EndBefore(spans: seq<Span>, i: nat): nat
    requires i <= |spans|
  {
    if i == 0 then 0 else spans[i - 1].end
  }

  ghost predicate IsPartialScan(text: string, spans: seq<Span>) {
    forall i {:trigger EndBefore(spans, i)} :: 0 <= i < |spans| ==> FindsNext(text, EndBefore(spans, i), spans[i])
  }

  // The spans are the text's top-level groups, left to right, with no brace opening between two
  // of them.
  ghost predicate IsScan(text: string, spans: seq<Span>) {
    IsPartialScan(text, spans) && FindsNoMore(text, EndBefore(spans, |spans|))
  }

  ghost function TextAt(text: string, spans: seq<Span>, k: nat): string
    requires IsPartialScan(text, spans) && k < |spans|
  {
    assert FindsNext(text, EndBefore(spans, k), spans[k]);
    text[spans[k].start..spans[k].end]
  }

  ghost function TextsOf(text: string, spans: seq<Span>): seq<string>
    requires IsPartialScan(text, spans)
  {
    seq(|spans|, k requires 0 <= k < |spans| => TextAt(text, spans, k))
  }

  // ---------------------------------------------------------------- the counter

  datatype Mode = Code | InString | Escaped

  datatype State = State(depth: int, mode: Mode)

  const START := State(0, Code)

  function Delta(q: State, c: char): State {
    match q.mode
    case Escaped => State(q.depth, InString)
    case InString =>
      if c == '\\' then State(q.depth, Escaped)
      else if c == '"' then State(q.depth, Code)
      else q
    case Code =>
      if c == '"' then State(q.depth, InString)
      else if c == '{' then State(q.depth + 1, Code)
      else if c == '}' then State(q.depth - 1, Code)
      else q
  }

  function Run(q: State, s: string): State
    decreases |s|
  {
    if s == "" then q else Run(Delta(q, s[0]), s[1..])
  }

  lemma {:induction false} RunConcat(q: State, a: string, b: string)
    ensures Run(q, a + b) == Run(Run(q, a), b)
    decreases |a|
  {
    if a == "" {
      assert a + b == b;
    } else {
      assert (a + b)[1..] == a[1..] + b;
      RunConcat(Delta(q, a[0]), a[1..], b);
    }
  }

  lemma RunSnoc(q: State, a: string, c: char)
    ensures Run(q, a + [c]) == Delta(Run(q, a), c)
  {
    RunConcat(q, a, [c]);
  }

  // Depth only counts: starting deeper ends deeper by as much.
  lemma {:induction false} RunShift(q: State, k: int, s: string)
    ensures Run(State(q.depth + k, q.mode), s) == State(Run(q, s).depth + k, Run(q, s).mode)
    decreases |s|
  {
    if s != "" {
      RunShift(Delta(q, s[0]), k, s[1..]);
    }
  }

  ghost predicate StaysAtLeast(q: State, s: string, low: int) {
    forall n :: 0 <= n <= |s| ==> Run(q, s[..n]).depth >= low
  }

  lemma {:induction false} StaysConcat(q: State, a: string, b: string, low: int)
    ensures StaysAtLeast(q, a + b, low) <==> StaysAtLeast(q, a, low) && StaysAtLeast(Run(q, a), b, low)
  {
    hide Run;
    forall n | 0 <= n <= |a|
      ensures (a + b)[..n] == a[..n]
    {}
    forall n | 0 <= n <= |b|
      ensures Run(q, (a + b)[..|a| + n]) == Run(Run(q, a), b[..n])
    {
      assert (a + b)[..|a| + n] == a + b[..n];
      RunConcat(q, a, b[..n]);
    }
    if StaysAtLeast(q, a + b, low) {
      forall n | 0 <= n <= |a|
        ensures Run(q, a[..n]).depth >= low
      {
        assert Run(q, (a + b)[..n]).depth >= low;
      }
      forall n | 0 <= n <= |b|
        ensures Run(Run(q, a), b[..n]).depth >= low
      {
        assert Run(q, (a + b)[..|a| + n]).depth >= low;
      }
    }
    if StaysAtLeast(q, a, low) && StaysAtLeast(Run(q, a), b, low) {
      forall n | 0 <= n <= |a + b|
        ensures Run(q, (a + b)[..n]).depth >= low
      {
        if n > |a| {
          assert Run(Run(q, a), b[..n - |a|]).depth >= low;
        }
      }
    }
  }

  // ---------------------------------------------------------------- grammar to counter

  // Reading a piece from a state keeps the depth at or above its start and comes back to code.
  ghost predicate Neutral(s: string, d: int) {
    Run(State(d, Code), s) == State(d, Code) && StaysAtLeast(State(d, Code), s, d)
  }

  lemma NeutralConcat(a: string, b: string, d: int)
    requires Neutral(a, d) && Neutral(b, d)
    ensures Neutral(a + b, d)
  {
    RunConcat(State(d, Code), a, b);
    StaysConcat(State(d, Code), a, b, d);
  }

  lemma {:induction false} BodyRuns(body: seq<StrChar>, d: int)
    requires BodyOk(body)
    ensures Run(State(d, InString), BodyText(body)) == State(d, InString)
    ensures StaysAtLeast(State(d, InString), BodyText(body), d)
    decreases |body|
  {
    if body != [] {
      var q := State(d, InString);
      var head := match body[0] case Raw(c) => [c] case Escape(c) => ['\\', c];
      assert Run(q, head) == q by {
        if body[0].Escape? {
          assert head[1..] == [body[0].c];
          assert Run(State(d, Escaped), [body[0].c]) == Run(State(d, InString), "");
        }
      }
      ShortStays(q, head, d);
      BodyRuns(body[1..], d);
      RunConcat(q, head, BodyText(body[1..]));
      StaysConcat(q, head, BodyText(body[1..]), d);
    }
  }

  // Depth cannot change inside a string of at most two characters that ends inside it.
  lemma ShortStays(q: State, s: string, low: int)
    requires q.depth >= low && |s| <= 2 && (|s| > 0 ==> Delta(q, s[0]).depth >= low) && Run(q, s).depth >= low
    ensures StaysAtLeast(q, s, low)
  {
    forall n | 0 <= n <= |s|
      ensures Run(q, s[..n]).depth >= low
    {
      if n == |s| {
        assert s[..n] == s;
      } else if n == 1 {
        assert s[..n] == [s[0]];
        assert Run(q, [s[0]]) == Delta(q, s[0]);
      }
    }
  }

  lemma QuotedNeutral(body: seq<StrChar>, d: int)
    requires BodyOk(body)
    ensures Neutral("\"" + BodyText(body) + "\"", d)
  {
    var q := State(d, Code);
    var text := BodyText(body);
    BodyRuns(body, d);
    ShortStays(q, "\"", d);
    RunConcat(q, "\"", text);
    StaysConcat(q, "\"", text, d);
    ShortStays(State(d, InString), "\"", d);
    RunConcat(q, "\"" + text, "\"");
    StaysConcat(q, "\"" + text, "\"", d);
  }

  lemma GroupNeutral(inner: string, d: int)
    requires Neutral(inner, d + 1)
    ensures Neutral("{" + inner + "}", d)
    ensures StaysAtLeast(State(d, Code), "{" + inner, d)
    ensures forall n :: 0 < n < |inner| + 2 ==> Run(State(d, Code), ("{" + inner + "}")[..n]).depth > d
  {
    var q := State(d, Code);
    ShortStays(q, "{", d);
    RunConcat(q, "{", inner);
    StaysConcat(q, "{", inner, d);
    ShortStays(State(d + 1, Code), "}", d);
    RunConcat(q, "{" + inner, "}");
    StaysConcat(q, "{" + inner, "}", d);
    forall n | 0 < n < |inner| + 2
      ensures Run(q, ("{" + inner + "}")[..n]).depth > d
    {
      assert ("{" + inner + "}")[..n] == "{" + inner[..n - 1];
      RunConcat(q, "{", inner[..n - 1]);
    }
  }

  lemma {:induction false} ItemsNeutral(items: seq<Item>, d: int)
    requires ItemsOk(items)
    ensures Neutral(ItemsText(items), d)
    decreases items
  {
    if items == [] {
      ShortStays(State(d, Code), "", d);
    } else {
      var tail := ItemsText(items[1..]);
      ItemsNeutral(items[1..], d);
      match items[0] {
        case Plain(c) =>
          ShortStays(State(d, Code), [c], d);
          NeutralConcat([c], tail, d);
        case Quoted(body) =>
          QuotedNeutral(body, d);
          NeutralConcat("\"" + BodyText(body) + "\"", tail, d);
        case Group(inner) =>
          ItemsNeutral(inner, d + 1);
          GroupNeutral(ItemsText(inner), d);
          NeutralConcat("{" + ItemsText(inner) + "}", tail, d);
      }
    }
  }

  // A span closes at its end and not before.
  ghost predicate Closes(s: string) {
    && |s| >= 2 && s[0] == '{' && Run(START, s) == START
    && forall n :: 0 < n < |s| ==> Run(START, s[..n]).depth > 0
  }

  lemma GroupCloses(s: string)
    requires IsGroup(s)
    ensures Closes(s)
  {
    var items :| ItemsOk(items) && s == "{" + ItemsText(items) + "}";
    ItemsNeutral(items, 1);
    GroupNeutral(ItemsText(items), 0);
  }

  // ---------------------------------------------------------------- counter to grammar

  // Every string the counter reads without dipping below its start is a list of items.
  lemma {:induction false} ItemsOf(s: string) returns (items: seq<Item>)
    requires Neutral(s, 0)
    ensures ItemsOk(items) && ItemsText(items) == s
    decreases |s|
  {
    if s == "" {
      items := [];
    } else if s[0] == '"' {
      RunHead(s);
      var body, rest := BodyOf(s[1..], 0);
      var head := "\"" + BodyText(body) + "\"";
      assert s == head + rest;
      QuotedNeutral(body, 0);
      NeutralTail(head, rest);
      var tail := ItemsOf(rest);
      items := [Quoted(body)] + tail;
    } else if s[0] == '{' {
      var n := FirstReturn(s, 1);
      var inner := s[1..n - 1];
      var head := "{" + inner + "}";
      InnerNeutral(s, n);
      assert s == head + s[n..];
      var innerItems := ItemsOf(inner);
      ItemsNeutral(innerItems, 1);
      GroupNeutral(inner, 0);
      NeutralTail(head, s[n..]);
      var tail := ItemsOf(s[n..]);
      items := [Group(innerItems)] + tail;
    } else {
      assert s[..1] == [s[0]];
      assert Run(START, s[..1]).depth >= 0;
      assert s == [s[0]] + s[1..];
      ShortStays(START, [s[0]], 0);
      NeutralTail([s[0]], s[1..]);
      var tail := ItemsOf(s[1..]);
      items := [Plain(s[0])] + tail;
    }
  }

  lemma NeutralTail(head: string, rest: string)
    requires Neutral(head + rest, 0) && Neutral(head, 0)
    ensures Neutral(rest, 0)
  {
    RunConcat(START, head, rest);
    StaysConcat(START, head, rest, 0);
  }

  lemma RunHead(s: string)
    requires s != ""
    ensures Run(START, s) == Run(Delta(START, s[0]), s[1..])
  {}

  lemma {:induction false} BodyOf(s: string, d: int) returns (body: seq<StrChar>, rest: string)
    requires Run(State(d, InString), s).mode == Code
    ensures BodyOk(body) && s == BodyText(body) + "\"" + rest
    decreases |s|
  {
    if s[0] == '"' {
      body, rest := [], s[1..];
    } else if s[0] == '\\' {
      assert Run(State(d, InString), s) == Run(Delta(State(d, Escaped), s[1]), s[1..][1..]);
      assert s[1..][1..] == s[2..];
      body, rest := BodyOf(s[2..], d);
      body := [Escape(s[1])] + body;
    } else {
      body, rest := BodyOf(s[1..], d);
      body := [Raw(s[0])] + body;
    }
  }

  // The first prefix of at least n characters that is back at depth 0.
  lemma {:induction false} FirstReturn(s: string, n: nat) returns (m: nat)
    requires n <= |s| && Run(START, s).depth == 0
    ensures n <= m <= |s| && Run(START, s[..m]).depth == 0
    ensures forall k :: n <= k < m ==> Run(START, s[..k]).depth != 0
    decreases |s| - n
  {
    assert s[..|s|] == s;
    if Run(START, s[..n]).depth == 0 {
      m := n;
    } else {
      m := FirstReturn(s, n + 1);
    }
  }

  // Depth moves by one at a time, and down only at a closing brace in code.
  lemma StepDown(q: State, c: char)
    requires q.depth > 0 && Delta(q, c).depth <= 0
    ensures q == State(1, Code) && c == '}' && Delta(q, c) == START
  {}

  lemma ReturnsByBrace(s: string, n: nat)
    requires 1 < n <= |s| && Run(START, s[..n - 1]).depth > 0 && Run(START, s[..n]).depth == 0
    ensures s[n - 1] == '}' && Run(START, s[..n - 1]) == State(1, Code) && Run(START, s[..n]) == START
  {
    assert s[..n] == s[..n - 1] + [s[n - 1]];
    RunSnoc(START, s[..n - 1], s[n - 1]);
    StepDown(Run(START, s[..n - 1]), s[n - 1]);
  }

  lemma InnerNeutral(s: string, n: nat)
    requires s != "" && s[0] == '{' && StaysAtLeast(START, s, 0)
    requires 1 <= n <= |s| && Run(START, s[..n]).depth == 0
    requires forall k :: 1 <= k < n ==> Run(START, s[..k]).depth != 0
    ensures n >= 2 && s[n - 1] == '}' && Neutral(s[1..n - 1], 0)
  {
    assert s[..1] == ['{'];
    assert Run(START, s[..1]) == State(1, Code);
    assert n >= 2;
    assert Run(START, s[..n - 1]).depth > 0;
    ReturnsByBrace(s, n);
    var inner := s[1..n - 1];
    forall k | 0 <= k <= |inner|
      ensures Run(START, inner[..k]) == State(Run(START, s[..k + 1]).depth - 1, Run(START, s[..k + 1]).mode)
    {
      assert s[..k + 1] == ['{'] + inner[..k];
      RunConcat(START, ['{'], inner[..k]);
      RunShift(START, 1, inner[..k]);
    }
    assert inner[..|inner|] == inner;
    forall k | 0 <= k <= |inner|
      ensures Run(START, inner[..k]).depth >= 0
    {
      assert Run(START, s[..k + 1]).depth != 0 && Run(START, s[..k + 1]).depth >= 0;
    }
  }

  // The counter and the grammar agree on every span.
  lemma GroupIffCloses(s: string)
    ensures IsGroup(s) <==> Closes(s)
  {
    if IsGroup(s) {
      GroupCloses(s);
    }
    if Closes(s) {
      assert s[..|s|] == s;
      assert s[..0] == "";
      assert forall n :: 0 <= n <= |s| ==> Run(START, s[..n]).depth >= 0;
      InnerNeutral(s, |s|);
      var items := ItemsOf(s[1..|s| - 1]);
      assert s == "{" + ItemsText(items) + "}";
    }
  }

  // No group is a proper prefix of another.
  lemma GroupsArePrefixFree(s: string, n: nat)
    requires n <= |s| && IsGroup(s) && IsGroup(s[..n])
    ensures n == |s|
  {
    GroupCloses(s);
    GroupCloses(s[..n]);
  }

  // ---------------------------------------------------------------- the scanner

  method FindBrace(text: string, from: nat) returns (r: Option<nat>)
    requires from <= |text|
    ensures r.None? ==> '{' !in text[from..]
    ensures r.Some? ==> IsOpen(text, from, r.value)
  {
    var i := from;
    while i < |text|
      invariant from <= i <= |text|
      invariant '{' !in text[from..i]
    {
      if text[i] == '{' {
        return Some(i);
      }
      i := i + 1;
    }
    assert text[from..i] == text[from..];
    r := None;
  }

  // The end of the object opening at `start`, if it closes.
  method FindClose(text: string, start: nat) returns (r: Option<nat>)
    requires start < |text| && text[start] == '{'
    ensures r.Some? ==> start < r.value <= |text| && IsGroup(text[start..r.value])
    ensures r.None? ==> NeverCloses(text, start)
  {
    hide IsGroup;
    var depth: int := 0;
    var inString, escaped := false, false;
    var pos := start;
    assert text[start..start] == "";
    while pos < |text|
      invariant start <= pos <= |text|
      invariant escaped ==> inString
      invariant Run(START, text[start..pos]) == State(depth, if escaped then Escaped else if inString then InString else Code)
      invariant forall n :: 0 < n <= pos - start ==> Run(START, text[start..][..n]).depth > 0
      invariant pos > start ==> depth > 0
    {
      var c := text[pos];
      assert text[start..pos + 1] == text[start..pos] + [c];
      assert text[start..][..pos + 1 - start] == text[start..pos + 1];
      RunSnoc(START, text[start..pos], c);
      if inString {
        if escaped {
          escaped := false;
        } else if c == '\\' {
          escaped := true;
        } else if c == '"' {
          inString := false;
        }
      } else if c == '"' {
        inString := true;
      } else if c == '{' {
        depth := depth + 1;
      } else if c == '}' {
        depth := depth - 1;
        if depth == 0 {
          ClosesHere(text, start, pos + 1);
          return Some(pos + 1);
        }
      }
      pos := pos + 1;
    }
    StaysOpen(text, start);
    r := None;
  }

  lemma ClosesHere(text: string, start: nat, end: nat)
    requires start + 1 < end <= |text| && text[start] == '{' && Run(START, text[start..end]) == START
    requires forall n :: 0 < n < end - start ==> Run(START, text[start..][..n]).depth > 0
    ensures IsGroup(text[start..end])
  {
    hide IsGroup;
    var s := text[start..end];
    forall n | 0 < n < |s|
      ensures Run(START, s[..n]).depth > 0
    {
      assert s[..n] == text[start..][..n];
    }
    GroupIffCloses(s);
  }

  lemma StaysOpen(text: string, start: nat)
    requires start < |text|
    requires forall n :: 0 < n <= |text| - start ==> Run(START, text[start..][..n]).depth > 0
    ensures NeverCloses(text, start)
  {
    hide IsGroup;
    forall end | start <= end <= |text|
      ensures !IsGroup(text[start..end])
    {
      GroupIffCloses(text[start..end]);
      assert text[start..end] == text[start..][..end - start];
    }
  }

  // Each balanced top-level object of the text. An opening brace whose object never closes ends
  // the scan.
  method BalancedSpans(text: string) returns (spans: seq<Span>)
    ensures IsScan(text, spans)
  {
    hide IsGroup, IsOpen, NeverCloses;
    spans := [];
    var index := 0;
    while true
      invariant index == EndBefore(spans, |spans|) <= |text|
      invariant IsPartialScan(text, spans)
      decreases |text| - index
    {
      var start := FindBrace(text, index);
      if start.None? {
        return;
      }
      OpenInRange(text, index, start.value);
      var end := FindClose(text, start.value);
      if end.None? {
        return;
      }
      PartialSnoc(text, spans, Span(start.value, end.value));
      spans := spans + [Span(start.value, end.value)];
      index := end.value;
    }
  }

  lemma OpenInRange(text: string, from: nat, start: nat)
    requires IsOpen(text, from, start)
    ensures from <= start < |text| && text[start] == '{'
  {}

  lemma PartialSnoc(text: string, spans: seq<Span>, s: Span)
    requires IsPartialScan(text, spans) && FindsNext(text, EndBefore(spans, |spans|), s)
    ensures IsPartialScan(text, spans + [s])
  {
    hide FindsNext;
    forall i | 0 <= i < |spans + [s]|
      ensures FindsNext(text, EndBefore(spans + [s], i), (spans + [s])[i])
    {
      assert i < |spans| ==> FindsNext(text, EndBefore(spans, i), spans[i]);
    }
  }

  // ---------------------------------------------------------------- the scan is unique

  lemma OpenUnique(text: string, from: nat, a: nat, b: nat)
    requires IsOpen(text, from, a) && IsOpen(text, from, b)
    ensures a == b
  {}

  lemma NextUnique(text: string, from: nat, a: Span, b: Span)
    requires FindsNext(text, from, a) && FindsNext(text, from, b)
    ensures a == b
  {
    hide IsGroup;
    OpenUnique(text, from, a.start, b.start);
    var short, long := if a.end <= b.end then a.end else b.end, if a.end <= b.end then b.end else a.end;
    SliceSlice(text, a.start, long, 0, short - a.start);
    assert text[a.start..long][..short - a.start] == text[a.start..long][0..short - a.start];
    GroupsArePrefixFree(text[a.start..long], short - a.start);
  }

  lemma NextOrNoMore(text: string, from: nat, a: Span)
    requires FindsNext(text, from, a)
    ensures !FindsNoMore(text, from)
  {}

  lemma {:induction false} ScanAgrees(text: string, a: seq<Span>, b: seq<Span>, n: nat)
    requires IsScan(text, a) && IsPartialScan(text, b) && n <= |b|
    ensures n <= |a| && a[..n] == b[..n]
    decreases n
  {
    hide FindsNext, FindsNoMore;
    if n > 0 {
      ScanAgrees(text, a, b, n - 1);
      assert EndBefore(a, n - 1) == EndBefore(b, n - 1);
      assert FindsNext(text, EndBefore(b, n - 1), b[n - 1]);
      if n - 1 == |a| {
        NextOrNoMore(text, EndBefore(b, n - 1), b[n - 1]);
      } else {
        NextUnique(text, EndBefore(b, n - 1), a[n - 1], b[n - 1]);
      }
    }
  }

  // A text has one scan only.
  lemma ScanUnique(text: string, a: seq<Span>, b: seq<Span>)
    requires IsScan(text, a) && IsScan(text, b)
    ensures a == b
  {
    hide FindsNoMore, IsPartialScan;
    ScanAgrees(text, a, b, |b|);
    ScanAgrees(text, b, a, |a|);
    assert a[..|b|] == a && b[..|b|] == b;
  }

  // ---------------------------------------------------------------- printed objects come back

  ghost predicate NoOpenBrace(gaps: seq<string>) {
    forall g :: g in gaps ==> '{' !in g
  }

  // Groups with a gap before, between and after.
  function Interleave(gaps: seq<string>, groups: seq<string>): string
    requires |gaps| == |groups| + 1
  {
    if groups == [] then gaps[0]
    else Interleave(gaps[..|gaps| - 1], groups[..|groups| - 1]) + (Last(groups) + Last(gaps))
  }

  function Places(gaps: seq<string>, groups: seq<string>): seq<Span>
    requires |gaps| == |groups| + 1
  {
    if groups == [] then []
    else
      var at := |Interleave(gaps[..|gaps| - 1], groups[..|groups| - 1])|;
      Places(gaps[..|gaps| - 1], groups[..|groups| - 1]) + [Span(at, at + |Last(groups)|)]
  }

  lemma NextInLongerText(text: string, more: string, from: nat, s: Span)
    requires FindsNext(text, from, s)
    ensures FindsNext(text + more, from, s)
  {}

  lemma PartialInLongerText(text: string, more: string, spans: seq<Span>)
    requires IsPartialScan(text, spans)
    ensures IsPartialScan(text + more, spans) && TextsOf(text + more, spans) == TextsOf(text, spans)
  {
    hide FindsNext;
    forall i | 0 <= i < |spans|
      ensures FindsNext(text + more, EndBefore(spans, i), spans[i])
      ensures 0 <= spans[i].start <= spans[i].end <= |text| && (text + more)[spans[i].start..spans[i].end] == text[spans[i].start..spans[i].end]
    {
      NextInLongerText(text, more, EndBefore(spans, i), spans[i]);
      SpanInRange(text, EndBefore(spans, i), spans[i]);
    }
  }

  lemma SpanInRange(text: string, from: nat, s: Span)
    requires FindsNext(text, from, s)
    ensures from <= s.start < s.end <= |text|
  {}

  // The spans found so far are these groups, and only `gap` is left after them.
  ghost predicate Placed(text: string, spans: seq<Span>, groups: seq<string>, gap: string) {
    && IsPartialScan(text, spans) && TextsOf(text, spans) == groups
    && EndBefore(spans, |spans|) <= |text| && text[EndBefore(spans, |spans|)..] == gap
  }

  lemma {:induction false} PlacesScan(gaps: seq<string>, groups: seq<string>)
    requires |gaps| == |groups| + 1 && NoOpenBrace(gaps)
    requires forall g :: g in groups ==> IsGroup(g)
    ensures Placed(Interleave(gaps, groups), Places(gaps, groups), groups, Last(gaps))
    decreases |groups|
  {
    hide IsGroup, Placed;
    if groups == [] {
      NothingPlaced(gaps[0]);
    } else {
      var frontGaps, frontGroups := gaps[..|gaps| - 1], groups[..|groups| - 1];
      PlacesScan(frontGaps, frontGroups);
      assert Last(frontGaps) in gaps;
      PlaceOne(Interleave(frontGaps, frontGroups), Places(frontGaps, frontGroups), frontGroups, Last(frontGaps), Last(groups), Last(gaps));
      SplitLast(groups);
    }
  }

  lemma NothingPlaced(text: string)
    ensures Placed(text, [], [], text)
  {}

  lemma PlaceOne(front: string, spans: seq<Span>, groups: seq<string>, before: string, group: string, gap: string)
    requires Placed(front, spans, groups, before) && '{' !in before && IsGroup(group)
    ensures Placed(front + (group + gap), spans + [Span(|front|, |front| + |group|)], groups + [group], gap)
  {
    hide IsGroup, FindsNext;
    var text, s := front + (group + gap), Span(|front|, |front| + |group|);
    PartialInLongerText(front, group + gap, spans);
    PlacedNext(front, group, gap, EndBefore(spans, |spans|));
    PartialSnoc(text, spans, s);
    TextsSnoc(text, spans, s);
    assert text[s.start..s.end] == group;
  }

  lemma TextsSnoc(text: string, spans: seq<Span>, s: Span)
    requires IsPartialScan(text, spans + [s]) && IsPartialScan(text, spans)
    ensures s.start <= s.end <= |text| && TextsOf(text, spans + [s]) == TextsOf(text, spans) + [text[s.start..s.end]]
  {
    hide FindsNext;
    var i := |spans|;
    assert FindsNext(text, EndBefore(spans + [s], i), (spans + [s])[i]);
    SpanInRange(text, EndBefore(spans + [s], i), s);
  }

  lemma PlacedNext(front: string, group: string, gap: string, from: nat)
    requires from <= |front| && '{' !in front[from..] && IsGroup(group)
    ensures FindsNext(front + (group + gap), from, Span(|front|, |front| + |group|))
  {}

  // Whatever the gaps hold besides opening braces, the scan of groups laid out between them is
  // the groups, in order.
  lemma GroupsComeBack(gaps: seq<string>, groups: seq<string>, spans: seq<Span>)
    requires |gaps| == |groups| + 1 && NoOpenBrace(gaps)
    requires forall g :: g in groups ==> IsGroup(g)
    requires IsScan(Interleave(gaps, groups), spans)
    ensures TextsOf(Interleave(gaps, groups), spans) == groups
  {
    hide IsGroup;
    PlacesScan(gaps, groups);
    assert Last(gaps) in gaps;
    ScanUnique(Interleave(gaps, groups), spans, Places(gaps, groups));
  }

  // ---------------------------------------------------------------- JSON objects are groups

  // Values as section 2 of RFC 8259 writes them, blanks included. Atoms are numbers and the
  // three literal names.
  datatype Json =
    | Str(chars: seq<JsonChar>)
    | Atom(text: string)
    | Object(blank: string, members: Members)
    | Array(blank: string, elements: Elements)

  datatype Members =
    | NoMembers
    | Member(before: string, key: seq<JsonChar>, after: string, element: Element, more: Members)

  datatype Elements = NoElements | More(first: Element, rest: Elements)

  datatype Element = Element(before: string, value: Json, after: string)

  // One character of a string, as section 7 of RFC 8259 writes it.
  datatype JsonChar = Unescaped(c: char) | Short(c: char) | Hex(a: char, b: char, c: char, d: char)

  const SHORT_ESCAPES: string := "\"\\/bfnrt"
  const HEX_DIGITS: string := "0123456789abcdefABCDEF"
  const BLANKS: string := " \t\n\r"
  const ATOM_CHARS: string := "0123456789+-.eEtrufalsn"

  predicate CharOk(x: JsonChar) {
    match x
    case Unescaped(c) => c != '"' && c != '\\' && c >= ' '
    case Short(c) => c in SHORT_ESCAPES
    case Hex(a, b, c, d) => a in HEX_DIGITS && b in HEX_DIGITS && c in HEX_DIGITS && d in HEX_DIGITS
  }

  predicate CharsOk(s: seq<JsonChar>) {
    forall x :: x in s ==> CharOk(x)
  }

  predicate IsBlank(s: string) {
    forall c :: c in s ==> c in BLANKS
  }

  predicate JsonOk(j: Json) {
    match j
    case Str(s) => CharsOk(s)
    case Atom(text) => forall c :: c in text ==> c in ATOM_CHARS
    case Object(blank, members) => IsBlank(blank) && MembersOk(members)
    case Array(blank, elements) => IsBlank(blank) && ElementsOk(elements)
  }

  predicate MembersOk(m: Members) {
    m.Member? ==> IsBlank(m.before) && CharsOk(m.key) && IsBlank(m.after) && ElementOk(m.element) && MembersOk(m.more)
  }

  predicate ElementsOk(e: Elements) {
    e.More? ==> ElementOk(e.first) && ElementsOk(e.rest)
  }

  predicate ElementOk(e: Element) {
    IsBlank(e.before) && JsonOk(e.value) && IsBlank(e.after)
  }

  function CharsText(s: seq<JsonChar>): string {
    if s == [] then ""
    else
      (match s[0]
       case Unescaped(c) => [c]
       case Short(c) => ['\\', c]
       case Hex(a, b, c, d) => ['\\', 'u', a, b, c, d])
      + CharsText(s[1..])
  }

  function JsonText(j: Json): string {
    match j
    case Str(s) => "\"" + CharsText(s) + "\""
    case Atom(text) => text
    case Object(blank, members) => "{" + (if members.NoMembers? then blank else MembersText(members)) + "}"
    case Array(blank, elements) => "[" + (if elements.NoElements? then blank else ElementsText(elements)) + "]"
  }

  function MembersText(m: Members): string {
    if m.NoMembers? then ""
    else
      m.before + ("\"" + CharsText(m.key) + "\"") + m.after + ":" + ElementText(m.element)
      + (if m.more.NoMembers? then "" else "," + MembersText(m.more))
  }

  function ElementsText(e: Elements): string {
    if e.NoElements? then ""
    else ElementText(e.first) + (if e.rest.NoElements? then "" else "," + ElementsText(e.rest))
  }

  function ElementText(e: Element): string {
    e.before + JsonText(e.value) + e.after
  }

  // ---- a text is regular when the grammar of items has it

  ghost predicate Regular(s: string) {
    exists items :: ItemsOk(items) && ItemsText(items) == s
  }

  lemma {:induction false} ItemsConcat(a: seq<Item>, b: seq<Item>)
    requires ItemsOk(a) && ItemsOk(b)
    ensures ItemsOk(a + b) && ItemsText(a + b) == ItemsText(a) + ItemsText(b)
    decreases |a|
  {
    hide ItemsOk, ItemsText;
    if a == [] {
      assert a + b == b;
      NoItems();
    } else {
      var head, tail := ItemsText([a[0]]), ItemsText(a[1..]);
      assert (a + b)[1..] == a[1..] + b;
      Unfold(a);
      Unfold(a + b);
      ItemsConcat(a[1..], b);
      Assoc(head, tail, ItemsText(b));
    }
  }

  lemma OneItem(x: Item)
    ensures ItemsOk([x]) <==>
      match x
      case Plain(c) => c != '{' && c != '}' && c != '"'
      case Quoted(body) => BodyOk(body)
      case Group(inner) => ItemsOk(inner)
    ensures ItemsText([x]) ==
      match x
      case Plain(c) => [c]
      case Quoted(body) => "\"" + BodyText(body) + "\""
      case Group(inner) => "{" + ItemsText(inner) + "}"
  {}

  lemma NoItems()
    ensures ItemsText([]) == "" && ItemsOk([])
  {}

  lemma Unfold(items: seq<Item>)
    requires items != []
    ensures ItemsOk(items) <==> ItemsOk([items[0]]) && ItemsOk(items[1..])
    ensures ItemsText(items) == ItemsText([items[0]]) + ItemsText(items[1..])
  {}

  lemma RegularConcat(s: string, t: string)
    requires Regular(s) && Regular(t)
    ensures Regular(s + t)
  {
    var a :| ItemsOk(a) && ItemsText(a) == s;
    var b :| ItemsOk(b) && ItemsText(b) == t;
    ItemsConcat(a, b);
  }

  lemma {:induction false} PlainRegular(s: string)
    requires '{' !in s && '}' !in s && '"' !in s
    ensures Regular(s)
    decreases |s|
  {
    if s == "" {
      assert ItemsText([]) == s;
    } else {
      var one := [Plain(s[0])];
      OneItem(one[0]);
      assert ItemsOk(one) && ItemsText(one) == [s[0]];
      PlainRegular(s[1..]);
      RegularConcat([s[0]], s[1..]);
      assert [s[0]] + s[1..] == s;
    }
  }

  lemma BodyCons(x: StrChar, body: seq<StrChar>)
    requires BodyOk(body) && BodyOk([x])
    ensures BodyOk([x] + body)
    ensures BodyText([x] + body) == (match x case Raw(c) => [c] case Escape(c) => ['\\', c]) + BodyText(body)
  {}

  lemma ConsRaw(c: char, body: seq<StrChar>) returns (longer: seq<StrChar>)
    requires BodyOk(body) && c in HEX_DIGITS
    ensures BodyOk(longer) && BodyText(longer) == [c] + BodyText(body)
  {
    longer := [Raw(c)] + body;
    BodyCons(Raw(c), body);
  }

  lemma HexBody(a: char, b: char, c: char, d: char, tail: seq<StrChar>) returns (body: seq<StrChar>)
    requires BodyOk(tail) && CharOk(Hex(a, b, c, d))
    ensures BodyOk(body) && BodyText(body) == ['\\', 'u', a, b, c, d] + BodyText(tail)
  {
    hide BodyOk, BodyText;
    body := ConsRaw(d, tail);
    body := ConsRaw(c, body);
    body := ConsRaw(b, body);
    body := ConsRaw(a, body);
    body := ConsEscape('u', body);
  }

  lemma ConsEscape(c: char, body: seq<StrChar>) returns (longer: seq<StrChar>)
    requires BodyOk(body)
    ensures BodyOk(longer) && BodyText(longer) == ['\\', c] + BodyText(body)
  {
    longer := [Escape(c)] + body;
    BodyCons(Escape(c), body);
  }

  lemma {:induction false} BodyOfChars(s: seq<JsonChar>) returns (body: seq<StrChar>)
    requires CharsOk(s)
    ensures BodyOk(body) && BodyText(body) == CharsText(s)
    decreases |s|
  {
    if s == [] {
      body := [];
    } else {
      assert CharOk(s[0]);
      var tail := BodyOfChars(s[1..]);
      match s[0] {
        case Unescaped(c) =>
          body := [Raw(c)] + tail;
          BodyCons(Raw(c), tail);
        case Short(c) =>
          body := [Escape(c)] + tail;
          BodyCons(Escape(c), tail);
        case Hex(a, b, c, d) =>
          body := HexBody(a, b, c, d, tail);
      }
    }
  }

  lemma StringRegular(s: seq<JsonChar>)
    requires CharsOk(s)
    ensures Regular("\"" + CharsText(s) + "\"")
  {
    var body := BodyOfChars(s);
    OneItem(Quoted(body));
    assert ItemsOk([Quoted(body)]) && ItemsText([Quoted(body)]) == "\"" + CharsText(s) + "\"";
  }

  lemma GroupRegular(s: string)
    requires Regular(s)
    ensures Regular("{" + s + "}") && IsGroup("{" + s + "}")
  {
    var items :| ItemsOk(items) && ItemsText(items) == s;
    OneItem(Group(items));
    assert ItemsOk([Group(items)]) && ItemsText([Group(items)]) == "{" + s + "}";
  }

  lemma AtomRegular(text: string)
    requires forall c :: c in text ==> c in ATOM_CHARS
    ensures Regular(text)
  {
    PlainRegular(text);
  }

  lemma BlankRegular(s: string)
    requires IsBlank(s)
    ensures Regular(s)
  {
    PlainRegular(s);
  }

  lemma {:induction false} JsonRegular(j: Json)
    requires JsonOk(j)
    ensures Regular(JsonText(j))
    ensures j.Object? ==> IsGroup(JsonText(j))
    decreases j
  {
    hide Regular, IsGroup, CharsOk, CharsText, IsBlank;
    match j {
      case Str(s) =>
        StringRegular(s);
      case Atom(text) =>
        AtomRegular(text);
      case Object(blank, members) =>
        BlankRegular(blank);
        MembersRegular(members);
        GroupRegular(if members.NoMembers? then blank else MembersText(members));
      case Array(blank, elements) =>
        BlankRegular(blank);
        ElementsRegular(elements);
        BracketsRegular(if elements.NoElements? then blank else ElementsText(elements));
    }
  }

  lemma BracketsRegular(inner: string)
    requires Regular(inner)
    ensures Regular("[" + inner + "]")
  {
    hide Regular;
    PlainRegular("[");
    PlainRegular("]");
    RegularConcat("[", inner);
    RegularConcat("[" + inner, "]");
  }

  lemma {:induction false} MembersRegular(m: Members)
    requires MembersOk(m)
    ensures Regular(MembersText(m))
    decreases m
  {
    hide Regular;
    PlainRegular("");
    if m.Member? {
      var key := "\"" + CharsText(m.key) + "\"";
      BlankRegular(m.before);
      StringRegular(m.key);
      BlankRegular(m.after);
      PlainRegular(":");
      ElementRegular(m.element);
      RegularConcat(m.before, key);
      RegularConcat(m.before + key, m.after);
      RegularConcat(m.before + key + m.after, ":");
      RegularConcat(m.before + key + m.after + ":", ElementText(m.element));
      MembersRegular(m.more);
      PlainRegular(",");
      RegularConcat(",", MembersText(m.more));
      RegularConcat(
        m.before + key + m.after + ":" + ElementText(m.element),
        if m.more.NoMembers? then "" else "," + MembersText(m.more));
    }
  }

  lemma {:induction false} ElementsRegular(e: Elements)
    requires ElementsOk(e)
    ensures Regular(ElementsText(e))
    decreases e
  {
    hide Regular;
    PlainRegular("");
    if e.More? {
      ElementRegular(e.first);
      ElementsRegular(e.rest);
      PlainRegular(",");
      RegularConcat(",", ElementsText(e.rest));
      RegularConcat(ElementText(e.first), if e.rest.NoElements? then "" else "," + ElementsText(e.rest));
    }
  }

  lemma {:induction false} ElementRegular(e: Element)
    requires ElementOk(e)
    ensures Regular(ElementText(e))
    decreases e
  {
    hide Regular;
    BlankRegular(e.before);
    JsonRegular(e.value);
    BlankRegular(e.after);
    RegularConcat(e.before, JsonText(e.value));
    RegularConcat(e.before + JsonText(e.value), e.after);
  }

  // The scan undoes the printer: objects printed with any blanks and any escapes, between texts
  // holding no opening brace, are exactly what the scan yields.
  lemma PrintedObjectsComeBack(gaps: seq<string>, objects: seq<Json>, spans: seq<Span>)
    requires |gaps| == |objects| + 1 && NoOpenBrace(gaps)
    requires forall o :: o in objects ==> o.Object? && JsonOk(o)
    requires IsScan(Interleave(gaps, Printed(objects)), spans)
    ensures TextsOf(Interleave(gaps, Printed(objects)), spans) == Printed(objects)
  {
    hide IsGroup, JsonOk, JsonText;
    forall g | g in Printed(objects)
      ensures IsGroup(g)
    {
      var i :| 0 <= i < |objects| && g == JsonText(objects[i]);
      JsonRegular(objects[i]);
    }
    GroupsComeBack(gaps, Printed(objects), spans);
  }

  function Printed(objects: seq<Json>): seq<string> {
    seq(|objects|, i requires 0 <= i < |objects| => JsonText(objects[i]))
  }

  // ---------------------------------------------------------------- choosing the plan

  // The first candidate that parses, else the first candidate, else none.
  ghost predicate IsChoice(candidates: seq<string>, parses: string -> bool, r: Option<string>) {
    match r
    case None => candidates == []
    case Some(c) =>
      || (exists k :: 0 <= k < |candidates| && candidates[k] == c && parses(c) && NoneParses(candidates[..k], parses))
      || (candidates != [] && c == candidates[0] && NoneParses(candidates, parses))
  }

  ghost predicate NoneParses(candidates: seq<string>, parses: string -> bool) {
    forall c :: c in candidates ==> !parses(c)
  }

  // What scanning the fenced block, when there is one, and then the whole answer offers.
  ghost predicate IsOffer(raw: string, fenced: Option<string>, candidates: seq<string>) {
    exists inFence, inRaw :: Offers(raw, fenced, inFence, inRaw, candidates)
  }

  ghost predicate Offers(raw: string, fenced: Option<string>, inFence: seq<Span>, inRaw: seq<Span>, candidates: seq<string>) {
    && (fenced.Some? ==> IsScan(fenced.value, inFence)) && IsScan(raw, inRaw)
    && candidates == (if fenced.Some? then TextsOf(fenced.value, inFence) else []) + TextsOf(raw, inRaw)
  }

  method SpanTexts(text: string) returns (texts: seq<string>, ghost spans: seq<Span>)
    ensures IsScan(text, spans) && texts == TextsOf(text, spans)
  {
    hide TextsOf, IsPartialScan, FindsNoMore;
    var found := BalancedSpans(text);
    spans := found;
    texts := [];
    for i := 0 to |found|
      invariant |texts| == i && forall k :: 0 <= k < i ==> texts[k] == TextAt(text, found, k)
    {
      TextInRange(text, found, i);
      texts := texts + [text[found[i].start..found[i].end]];
    }
    AllTexts(text, found, texts);
  }

  lemma TextInRange(text: string, spans: seq<Span>, k: nat)
    requires IsPartialScan(text, spans) && k < |spans|
    ensures spans[k].start <= spans[k].end <= |text| && TextAt(text, spans, k) == text[spans[k].start..spans[k].end]
  {
    assert FindsNext(text, EndBefore(spans, k), spans[k]);
  }

  lemma AllTexts(text: string, spans: seq<Span>, texts: seq<string>)
    requires IsPartialScan(text, spans) && |texts| == |spans|
    requires forall k :: 0 <= k < |spans| ==> texts[k] == TextAt(text, spans, k)
    ensures texts == TextsOf(text, spans)
  {
    hide FindsNext, IsPartialScan;
  }

  // The first balanced span that parses; if none does, the first balanced span. The fence
  // search is a library call: `fenced` is the content it found.
  method ExtractJsonObject(raw: string, fenced: Option<string>, parses: string -> bool) returns (r: Option<string>)
    ensures exists candidates :: IsOffer(raw, fenced, candidates) && IsChoice(candidates, parses, r)
  {
    hide IsPartialScan, FindsNoMore, TextsOf;
    var inRaw, rawSpans := SpanTexts(raw);
    var inFence: seq<string> := [];
    ghost var fenceSpans: seq<Span> := [];
    if fenced.Some? {
      inFence, fenceSpans := SpanTexts(fenced.value);
    }
    var candidates := inFence + inRaw;
    assert Offers(raw, fenced, fenceSpans, rawSpans, candidates);
    var firstBalanced: Option<string> := None;
    for i := 0 to |candidates|
      invariant firstBalanced == if i == 0 then None else Some(candidates[0])
      invariant NoneParses(candidates[..i], parses)
    {
      if firstBalanced.None? {
        firstBalanced := Some(candidates[i]);
      }
      if parses(candidates[i]) {
        assert IsOffer(raw, fenced, candidates) && IsChoice(candidates, parses, Some(candidates[i]));
        return Some(candidates[i]);
      }
    }
    assert candidates[..|candidates|] == candidates;
    r := firstBalanced;
    assert IsOffer(raw, fenced, candidates) && IsChoice(candidates, parses, r);
  }

  // An answer whose prose opens no brace before a printed plan object yields that plan,
  // whatever follows it, when the plan parses and no fence hides it.
  lemma PlanIsExtracted(prose: string, plan: Json, rest: string, parses: string -> bool, candidates: seq<string>, r: Option<string>)
    requires '{' !in prose && plan.Object? && JsonOk(plan) && parses(JsonText(plan))
    requires IsOffer(prose + (JsonText(plan) + rest), None, candidates) && IsChoice(candidates, parses, r)
    ensures r == Some(JsonText(plan))
  {
    hide IsGroup, IsPartialScan, FindsNoMore, TextsOf, JsonOk, JsonText;
    var text := prose + (JsonText(plan) + rest);
    JsonRegular(plan);
    PlacedNext(prose, JsonText(plan), rest, 0);
    var inFence, inRaw :| Offers(text, None, inFence, inRaw, candidates);
    assert candidates == TextsOf(text, inRaw);
    FirstSpan(text, inRaw, Span(|prose|, |prose| + |JsonText(plan)|));
    assert candidates[0] == JsonText(plan);
    FirstParses(candidates, parses, r);
  }

  lemma FirstSpan(text: string, spans: seq<Span>, s: Span)
    requires IsScan(text, spans) && FindsNext(text, 0, s)
    ensures spans != [] && spans[0] == s && s.start <= s.end <= |text|
    ensures TextsOf(text, spans) != [] && TextsOf(text, spans)[0] == text[s.start..s.end]
  {
    hide FindsNext, FindsNoMore;
    assert EndBefore([s], 0) == 0;
    assert IsPartialScan(text, [s]);
    ScanAgrees(text, spans, [s], 1);
    assert spans[..1][0] == s;
    SpanInRange(text, 0, s);
  }

  lemma FirstParses(candidates: seq<string>, parses: string -> bool, r: Option<string>)
    requires candidates != [] && parses(candidates[0]) && IsChoice(candidates, parses, r)
    ensures r == Some(candidates[0])
  {}
}
