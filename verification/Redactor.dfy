// The redaction code: candidate search, sort-and-merge, one-shot application with running
// counts, and the two chunk-wise redactors, each proved against `Spans` and `Streaming`.
module Redactor {
  import opened Seqs
  import opened Maps
  import opened Spans
  import opened Streaming
  import opened Exactness

  // The widest built-in token pattern; the window is never smaller.
  const BUILTIN_WIDTH: nat := 560

  datatype Match = Match(start: nat, end: nat, kind: string)

  // ---------------------------------------------------------------- candidates

  // The first occurrence at or after `start`, or -1.
  function Find(text: string, value: string, start: nat): (r: int)
    ensures r == -1 || (start <= r && OccursAt(text, value, r))
    ensures forall p: nat :: start <= p && (r == -1 || p < r) ==> !OccursAt(text, value, p)
    decreases |text| - start
  {
    if start + |value| > |text| then -1
    else if OccursAt(text, value, start) then start
    else Find(text, value, start + 1)
  }

  method IterSpans(text: string, value: string) returns (starts: seq<nat>)
    requires value != ""
    ensures forall p: nat :: p in starts <==> Taken(text, value, p)
  {
    starts := [];
    var start := 0;
    var idx := Find(text, value, start);
    while idx != -1
      invariant idx == Find(text, value, start) && start <= |text|
      invariant forall p :: p in starts ==> Taken(text, value, p)
      invariant forall p: nat :: Taken(text, value, p) && p < start ==> p in starts && p + |value| <= start
      decreases |text| - start
    {
      TakenIfFree(text, value, idx);
      starts := starts + [idx];
      start := idx + |value|;
      idx := Find(text, value, start);
    }
  }

  method Candidates(text: string, ms: seq<Matcher>) returns (cands: seq<Cand>)
    requires ValidMatchers(ms)
    ensures forall c :: c in cands <==> c in Cands(text, ms)
  {
    cands := [];
    for i := 0 to |ms|
      invariant forall c :: c in cands <==> c in Cands(text, ms) && c.prio < i
    {
      var starts := IterSpans(text, ms[i].value);
      ghost var before := cands;
      for j := 0 to |starts|
        invariant forall c :: c in cands <==> c in before || exists k :: 0 <= k < j && c == Cand(starts[k], starts[k] + |ms[i].value|, i)
      {
        cands := cands + [Cand(starts[j], starts[j] + |ms[i].value|, i)];
      }
      forall c: Cand
        ensures c in cands <==> c in Cands(text, ms) && c.prio < i + 1
      {
        PrioCands(text, ms, i, starts, c);
      }
    }
    CandsEndInside(text, ms);
  }

  lemma PrioCands(text: string, ms: seq<Matcher>, i: nat, starts: seq<nat>, c: Cand)
    requires ValidMatchers(ms) && i < |ms|
    requires forall p: nat :: p in starts <==> Taken(text, ms[i].value, p)
    ensures (exists k :: 0 <= k < |starts| && c == Cand(starts[k], starts[k] + |ms[i].value|, i))
            <==> c in Cands(text, ms) && c.prio == i
  {
    if c in Cands(text, ms) && c.prio == i {
      CandShape(text, ms, c);
      InCands(text, ms, i, c.start);
      var k :| 0 <= k < |starts| && starts[k] == c.start;
    }
    if exists k :: 0 <= k < |starts| && c == Cand(starts[k], starts[k] + |ms[i].value|, i) {
      InCands(text, ms, i, c.start);
    }
  }

  // ---------------------------------------------------------------- sorting

  // By start, then by matcher priority.
  predicate Before(a: Cand, b: Cand) {
    a.start < b.start || (a.start == b.start && a.prio <= b.prio)
  }

  function Insert(c: Cand, s: seq<Cand>): (r: seq<Cand>)
    ensures multiset(r) == multiset(s) + multiset{c}
  {
    if s == [] || Before(c, s[0]) then [c] + s
    else
      assert s == [s[0]] + s[1..];
      [s[0]] + Insert(c, s[1..])
  }

  function Sort(s: seq<Cand>): (r: seq<Cand>)
    ensures multiset(r) == multiset(s)
  {
    if s == [] then []
    else
      assert s == s[..|s| - 1] + [s[|s| - 1]];
      Insert(s[|s| - 1], Sort(s[..|s| - 1]))
  }

  predicate SortedCands(s: seq<Cand>) {
    forall i, j :: 0 <= i < j < |s| ==> Before(s[i], s[j])
  }

  lemma {:induction false} InsertSorted(c: Cand, s: seq<Cand>)
    requires SortedCands(s)
    ensures SortedCands(Insert(c, s))
    decreases |s|
  {
    if s != [] && !Before(c, s[0]) {
      InsertSorted(c, s[1..]);
      forall x | x in Insert(c, s[1..])
        ensures Before(s[0], x)
      {
        assert x in multiset(Insert(c, s[1..]));
        assert x == c || x in s[1..];
      }
    }
  }

  lemma {:induction false} SortSorts(s: seq<Cand>)
    ensures SortedCands(Sort(s))
    decreases |s|
  {
    if s != [] {
      SortSorts(s[..|s| - 1]);
      InsertSorted(s[|s| - 1], Sort(s[..|s| - 1]));
    }
  }

  // ---------------------------------------------------------------- merging

  // A maximal run of overlapping proposals, labelled by its most specific contributor.
  ghost predicate IsSpan(cs: set<Cand>, ms: seq<Matcher>, m: Match) {
    && m.start < m.end
    && Starts(cs, m.start) && !Straddled(cs, m.start) && !Straddled(cs, m.end)
    && (forall x :: m.start < x < m.end ==> Straddled(cs, x))
    && m.kind == Label(cs, ms, m.start, m.end)
  }

  ghost predicate InSpan(c: Cand, m: Match) {
    m.start <= c.start && c.end <= m.end
  }

  // The merged spans: in order, disjoint, each a maximal run, and every proposal inside one.
  ghost predicate IsMerge(cs: set<Cand>, ms: seq<Matcher>, spans: seq<Match>) {
    && (forall i {:trigger IsSpan(cs, ms, spans[i])} :: 0 <= i < |spans| ==> IsSpan(cs, ms, spans[i]))
    && (forall i, j :: 0 <= i < j < |spans| ==> spans[i].end <= spans[j].start)
    && (forall c :: c in cs ==> exists i :: 0 <= i < |spans| && InSpan(c, spans[i]))
  }

  ghost predicate IsBest(cs: set<Cand>, s: int, e: int, i: int) {
    0 <= i && Contributes(cs, s, e, i) && forall j :: 0 <= j < i ==> !Contributes(cs, s, e, j)
  }

  lemma LabelIs(cs: set<Cand>, ms: seq<Matcher>, s: int, e: int, i: int)
    requires IsBest(cs, s, e, i) && i < |ms|
    ensures Label(cs, ms, s, e) == ms[i].kind
  {}

  lemma SpanKept(cs: set<Cand>, ms: seq<Matcher>, m: Match, c: Cand)
    requires IsSpan(cs, ms, m) && m.end <= c.start < c.end
    ensures IsSpan(cs + {c}, ms, m)
  {
    hide BestPrio;
    forall x | m.start < x < m.end
      ensures Straddled(cs + {c}, x)
    {
      assert Straddled(cs, x);
    }
    forall i: nat
      ensures Contributes(cs + {c}, m.start, m.end, i) <==> Contributes(cs, m.start, m.end, i)
    {}
    SameBest(cs + {c}, cs, m.start, m.end, 0, |ms|);
  }

  lemma {:induction false} SameBest(a: set<Cand>, b: set<Cand>, s: int, e: int, i: nat, n: nat)
    requires i <= n && forall j: nat :: Contributes(a, s, e, j) <==> Contributes(b, s, e, j)
    ensures BestPrio(a, s, e, i, n) == BestPrio(b, s, e, i, n)
    decreases n - i
  {}

  lemma SpanNew(cs: set<Cand>, ms: seq<Matcher>, c: Cand)
    requires 0 <= c.start < c.end && 0 <= c.prio < |ms|
    requires forall d :: d in cs ==> d.start < d.end <= c.start
    ensures IsSpan(cs + {c}, ms, Match(c.start, c.end, ms[c.prio].kind))
    ensures IsBest(cs + {c}, c.start, c.end, c.prio)
  {
    LabelIs(cs + {c}, ms, c.start, c.end, c.prio);
  }

  lemma SpanExtended(cs: set<Cand>, ms: seq<Matcher>, m: Match, best: int, c: Cand)
    requires IsSpan(cs, ms, m) && IsBest(cs, m.start, m.end, best) && 0 <= best < |ms| && 0 <= c.prio < |ms|
    requires m.start <= c.start < m.end && c.start < c.end
    requires forall d :: d in cs ==> d.end <= m.end
    ensures var e := if c.end > m.end then c.end else m.end;
      var best' := if c.prio < best then c.prio else best;
      IsSpan(cs + {c}, ms, Match(m.start, e, ms[best'].kind)) && IsBest(cs + {c}, m.start, e, best')
  {
    var cs', e := cs + {c}, if c.end > m.end then c.end else m.end;
    var best' := if c.prio < best then c.prio else best;
    var s0 :| s0 in cs && s0.start == m.start;
    assert s0 in cs';
    forall x | m.start < x < e
      ensures Straddled(cs', x)
    {
      if x < m.end {
        assert Straddled(cs, x);
        var d :| d in cs && d.start < x < d.end;
        assert d in cs';
      } else {
        assert c in cs' && c.start < x < c.end;
      }
    }
    var b :| b in cs && m.start <= b.start && b.end <= m.end && b.prio == best;
    assert b in cs' && c in cs';
    assert Contributes(cs', m.start, e, best');
    forall j | 0 <= j < best'
      ensures !Contributes(cs', m.start, e, j)
    {
      assert !Contributes(cs, m.start, m.end, j);
    }
    LabelIs(cs', ms, m.start, e, best');
  }

  ghost function SetOf(s: seq<Cand>): set<Cand> {
    set c | c in s
  }

  lemma {:induction false} LastEnd(cs: set<Cand>, ms: seq<Matcher>, spans: seq<Match>)
    requires IsMerge(cs, ms, spans) && spans != []
    ensures forall d :: d in cs ==> d.end <= Last(spans).end
  {
    hide Label, Starts, Straddled;
    forall d | d in cs
      ensures d.end <= Last(spans).end
    {
      var i :| 0 <= i < |spans| && InSpan(d, spans[i]);
      assert IsSpan(cs, ms, spans[i]) && IsSpan(cs, ms, Last(spans));
    }
  }

  // A proposal overlapping the last span widens it; any other opens a new one.
  lemma MergeStep(cs: set<Cand>, ms: seq<Matcher>, done: seq<Match>, cur: Match, best: int, c: Cand)
    requires IsMerge(cs, ms, done + [cur]) && IsBest(cs, cur.start, cur.end, best)
    requires 0 <= best < |ms| && 0 <= c.prio < |ms| && cur.start <= c.start < c.end
    requires forall d :: d in cs ==> d.start < d.end
    ensures var e := if c.end > cur.end then c.end else cur.end;
      var best' := if c.prio < best then c.prio else best;
      if c.start < cur.end
      then IsMerge(cs + {c}, ms, done + [Match(cur.start, e, ms[best'].kind)])
           && IsBest(cs + {c}, cur.start, e, best')
      else IsMerge(cs + {c}, ms, done + [cur] + [Match(c.start, c.end, ms[c.prio].kind)])
           && IsBest(cs + {c}, c.start, c.end, c.prio)
  {
    hide Label, BestPrio, Starts, Straddled, Contributes, IsBest, IsSpan;
    var spans := done + [cur];
    assert spans[|done|] == cur;
    LastEnd(cs, ms, spans);
    forall i | 0 <= i < |done|
      ensures IsSpan(cs + {c}, ms, done[i])
    {
      assert spans[i] == done[i] && IsSpan(cs, ms, spans[i]) && spans[i].end <= spans[|done|].start;
      SpanKept(cs, ms, done[i], c);
    }
    if c.start < cur.end {
      SpanExtended(cs, ms, cur, best, c);
      var e := if c.end > cur.end then c.end else cur.end;
      var wide := Match(cur.start, e, ms[if c.prio < best then c.prio else best].kind);
      CoverKept(cs, spans, done + [wide], c, |done|);
    } else {
      SpanKept(cs, ms, cur, c);
      SpanNew(cs, ms, c);
      CoverKept(cs, spans, done + [cur] + [Match(c.start, c.end, ms[c.prio].kind)], c, |done| + 1);
    }
  }

  lemma CoverKept(cs: set<Cand>, spans: seq<Match>, spans': seq<Match>, c: Cand, j: nat)
    requires forall d :: d in cs ==> exists i :: 0 <= i < |spans| && InSpan(d, spans[i])
    requires |spans| <= |spans'| && j < |spans'| && InSpan(c, spans'[j])
    requires forall i :: 0 <= i < |spans| ==> spans'[i].start <= spans[i].start && spans[i].end <= spans'[i].end
    ensures forall d :: d in cs + {c} ==> exists i :: 0 <= i < |spans'| && InSpan(d, spans'[i])
  {}

  method FindMatches(text: string, ms: seq<Matcher>) returns (spans: seq<Match>)
    requires ValidMatchers(ms)
    ensures IsMerge(Cands(text, ms), ms, spans)
  {
    hide IsMerge, IsSpan, IsBest, Sort, Insert;
    CandsEndInside(text, ms);
    var cands := Candidates(text, ms);
    if cands == [] {
      MergeOfNothing(Cands(text, ms), ms);
      return [];
    }
    var sorted := Sort(cands);
    SortSorts(cands);
    SameElements(sorted, cands);
    assert SetOf(sorted) == Cands(text, ms);
    assert sorted[0] in cands;
    var merged: seq<Match> := [];
    var curStart, curEnd, curPrio := sorted[0].start, sorted[0].end, sorted[0].prio;
    var curKind := ms[curPrio].kind;
    FirstMerge(sorted[0], ms);
    assert SetOf(sorted[..1]) == {sorted[0]};
    for i := 1 to |sorted|
      invariant 0 <= curStart < curEnd && 0 <= curPrio < |ms| && curStart <= sorted[i - 1].start
      invariant IsMerge(SetOf(sorted[..i]), ms, merged + [Match(curStart, curEnd, curKind)])
      invariant IsBest(SetOf(sorted[..i]), curStart, curEnd, curPrio) && curKind == ms[curPrio].kind
    {
      var c := sorted[i];
      assert c in cands && Before(sorted[i - 1], c);
      MergeStep(SetOf(sorted[..i]), ms, merged, Match(curStart, curEnd, curKind), curPrio, c);
      assert SetOf(sorted[..i + 1]) == SetOf(sorted[..i]) + {c};
      if c.start < curEnd {
        if c.end > curEnd {
          curEnd := c.end;
        }
        if c.prio < curPrio {
          curPrio, curKind := c.prio, ms[c.prio].kind;
        }
      } else {
        merged := merged + [Match(curStart, curEnd, curKind)];
        curStart, curEnd, curPrio, curKind := c.start, c.end, c.prio, ms[c.prio].kind;
      }
    }
    assert sorted[..|sorted|] == sorted;
    spans := merged + [Match(curStart, curEnd, curKind)];
  }

  lemma SameElements(a: seq<Cand>, b: seq<Cand>)
    requires multiset(a) == multiset(b)
    ensures |a| == |b| && forall c :: c in a <==> c in b
  {
    assert |multiset(a)| == |multiset(b)|;
    forall c: Cand
      ensures c in a <==> c in b
    {
      assert c in a <==> c in multiset(a);
      assert c in b <==> c in multiset(b);
    }
  }

  lemma MergeOfNothing(cs: set<Cand>, ms: seq<Matcher>)
    requires forall c :: c !in cs
    ensures IsMerge(cs, ms, [])
  {}

  lemma FirstMerge(c: Cand, ms: seq<Matcher>)
    requires 0 <= c.start < c.end && 0 <= c.prio < |ms|
    ensures IsMerge({c}, ms, [] + [Match(c.start, c.end, ms[c.prio].kind)])
    ensures IsBest({c}, c.start, c.end, c.prio)
  {
    SpanNew({}, ms, c);
    assert {} + {c} == {c};
    assert InSpan(c, Match(c.start, c.end, ms[c.prio].kind));
    assert ([] + [Match(c.start, c.end, ms[c.prio].kind)])[0] == Match(c.start, c.end, ms[c.prio].kind);
  }

  // ---------------------------------------------------------------- applying spans

  lemma NoStartBetween(cs: set<Cand>, ms: seq<Matcher>, spans: seq<Match>, i: nat, from: nat)
    requires IsMerge(cs, ms, spans) && i <= |spans|
    requires from == if i == 0 then 0 else spans[i - 1].end
    requires forall c :: c in cs ==> 0 <= c.start < c.end
    ensures forall x :: from <= x && (i < |spans| ==> x < spans[i].start) ==> !Starts(cs, x)
    ensures !Straddled(cs, from)
    ensures i < |spans| ==> from <= spans[i].start
  {
    hide Label, Starts, Straddled;
    forall x | from <= x && (i < |spans| ==> x < spans[i].start)
      ensures !Starts(cs, x)
    {
      forall c | c in cs
        ensures c.start != x
      {
        var j :| 0 <= j < |spans| && InSpan(c, spans[j]);
        assert i > 0 ==> IsSpan(cs, ms, spans[i - 1]);
        assert i < |spans| ==> IsSpan(cs, ms, spans[i]);
      }
      NotStarts(cs, x);
    }
    if i == 0 {
      NotBelowZero(cs);
    } else {
      assert IsSpan(cs, ms, spans[i - 1]);
    }
  }

  lemma NotStarts(cs: set<Cand>, x: int)
    requires forall c :: c in cs ==> c.start != x
    ensures !Starts(cs, x)
  {}

  lemma NotBelowZero(cs: set<Cand>)
    requires forall c :: c in cs ==> 0 <= c.start
    ensures !Straddled(cs, 0)
  {}

  // Copying up to a span and writing its marker extends the reading to the span's end.
  lemma SpanStep(cs: set<Cand>, ms: seq<Matcher>, text: string, pos: nat, m: Match)
    requires pos <= m.start && m.end <= |text| && !Straddled(cs, pos) && IsSpan(cs, ms, m)
    requires forall x :: pos <= x < m.start ==> !Starts(cs, x)
    ensures var before, after := Scan(cs, ms, text, 0, pos, 0), Scan(cs, ms, text, 0, m.end, 0);
      && Text(after) == Text(before) + text[pos..m.start] + Marker(m.kind)
      && Counts(after) == Bump(Counts(before), m.kind)
      && Marks(after) == Marks(before) + 1
  {
    hide Starts, Straddled, Label, Text, Counts, Marks;
    var a, b, c := Scan(cs, ms, text, 0, pos, 0), Scan(cs, ms, text, pos, m.start, 0), Scan(cs, ms, text, m.start, m.end, 0);
    ScanConcat(cs, ms, text, 0, pos, m.end, 0);
    ScanConcat(cs, ms, text, pos, m.start, m.end, 0);
    ScanClear(cs, ms, text, pos, m.start, 0);
    ScanOneSpan(cs, ms, text, m);
    TextConcat(a, b + c);
    TextConcat(b, c);
    CountsConcat(a, b + c);
    CountsConcat(b, c);
    OnePiece(Mark(m.start, m.end, m.kind));
    Assoc(Text(a), Text(b), Text(c));
    PlusOne(Counts(a), m.kind);
  }

  lemma PlusOne(a: map<string, nat>, k: string)
    ensures Plus(a, Plus(map[], map[k := 1])) == Bump(a, k)
  {}

  lemma ScanOneSpan(cs: set<Cand>, ms: seq<Matcher>, text: string, m: Match)
    requires m.end <= |text| && IsSpan(cs, ms, m)
    ensures Scan(cs, ms, text, m.start, m.end, 0) == [Mark(m.start, m.end, m.kind)]
  {}

  // The stretch after the last applied span is copied verbatim.
  lemma TailStep(cs: set<Cand>, ms: seq<Matcher>, text: string, pos: nat, q: nat)
    requires pos <= q <= |text| && !Straddled(cs, pos) && !Straddled(cs, q)
    requires forall x :: pos <= x < q ==> !Starts(cs, x)
    ensures var before, after := Scan(cs, ms, text, 0, pos, 0), Scan(cs, ms, text, 0, q, 0);
      Text(after) == Text(before) + text[pos..q] && Counts(after) == Counts(before) && Marks(after) == Marks(before)
  {
    ScanConcat(cs, ms, text, 0, pos, q, 0);
    ScanClear(cs, ms, text, pos, q, 0);
    TextConcat(Scan(cs, ms, text, 0, pos, 0), Scan(cs, ms, text, pos, q, 0));
    CountsConcat(Scan(cs, ms, text, 0, pos, 0), Scan(cs, ms, text, pos, q, 0));
    PlusNothing(Counts(Scan(cs, ms, text, 0, pos, 0)));
  }

  lemma PlusNothing(a: map<string, nat>)
    ensures Plus(a, map[]) == a
  {}

  lemma SpanInside(cs: set<Cand>, ms: seq<Matcher>, spans: seq<Match>, i: nat, n: nat)
    requires IsMerge(cs, ms, spans) && i < |spans| && !Straddled(cs, n)
    requires forall c :: c in cs ==> c.start < c.end <= n
    ensures spans[i].end <= n
  {
    assert IsSpan(cs, ms, spans[i]);
  }

  lemma SpanAt(cs: set<Cand>, ms: seq<Matcher>, spans: seq<Match>, i: nat)
    requires IsMerge(cs, ms, spans) && i < |spans|
    ensures IsSpan(cs, ms, spans[i])
  {}

  lemma SpanFacts(cs: set<Cand>, ms: seq<Matcher>, m: Match)
    requires IsSpan(cs, ms, m)
    ensures m.start < m.end && Starts(cs, m.start) && !Straddled(cs, m.start) && !Straddled(cs, m.end)
    ensures forall x :: m.start < x < m.end ==> Straddled(cs, x)
  {}

  // ---------------------------------------------------------------- the run's redactor

  // Widest first, so that a longer secret labels the spans it shares with a shorter one.
  predicate WidestFirst(ms: seq<Matcher>) {
    forall i, j :: 0 <= i < j < |ms| ==> |ms[i].value| >= |ms[j].value|
  }

  function InsertMatcher(m: Matcher, ms: seq<Matcher>): (r: seq<Matcher>)
    ensures multiset(r) == multiset(ms) + multiset{m}
  {
    if ms == [] || |ms[0].value| < |m.value| then [m] + ms
    else
      assert ms == [ms[0]] + ms[1..];
      [ms[0]] + InsertMatcher(m, ms[1..])
  }

  lemma {:induction false} InsertWidest(m: Matcher, ms: seq<Matcher>)
    requires WidestFirst(ms)
    ensures WidestFirst(InsertMatcher(m, ms))
    decreases |ms|
  {
    if ms != [] && |ms[0].value| >= |m.value| {
      InsertWidest(m, ms[1..]);
      forall x | x in InsertMatcher(m, ms[1..])
        ensures |x.value| <= |ms[0].value|
      {
        assert x in multiset(InsertMatcher(m, ms[1..]));
        assert x == m || x in ms[1..];
      }
    }
  }

  lemma InsertMembers(m: Matcher, ms: seq<Matcher>)
    ensures forall x :: x in InsertMatcher(m, ms) <==> x in ms || x == m
  {
    forall x: Matcher
      ensures x in InsertMatcher(m, ms) <==> x in ms || x == m
    {
      assert x in InsertMatcher(m, ms) <==> x in multiset(InsertMatcher(m, ms));
      assert x in ms <==> x in multiset(ms);
    }
  }

  // Counts partly added to a summary: `rest` is still to come.
  ghost predicate Recorded(was: map<string, nat>, counts: map<string, nat>, rest: map<string, nat>, now: map<string, nat>) {
    && rest.Keys <= counts.Keys && (forall k :: k in rest ==> rest[k] == counts[k])
    && now.Keys == was.Keys + (counts.Keys - rest.Keys)
    && forall k :: k in now ==> now[k] == if k in rest then Get(was, k) else Get(was, k) + Get(counts, k)
  }

  lemma NothingRecorded(was: map<string, nat>, counts: map<string, nat>)
    ensures Recorded(was, counts, counts, was)
  {}

  lemma RecordedNext(was: map<string, nat>, counts: map<string, nat>, rest: map<string, nat>, now: map<string, nat>, k: string)
    requires Recorded(was, counts, rest, now) && k in rest
    ensures Recorded(was, counts, rest - {k}, now[k := Get(now, k) + rest[k]])
  {
    var next := now[k := Get(now, k) + rest[k]];
    assert next.Keys == was.Keys + (counts.Keys - (rest - {k}).Keys);
  }

  lemma AllRecorded(was: map<string, nat>, counts: map<string, nat>, now: map<string, nat>)
    requires Recorded(was, counts, map[], now)
    ensures now == Plus(was, counts)
  {}

  class Redactor {
    const matchers: seq<Matcher>
    const window: nat
    var total: nat
    var byKind: map<string, nat>

    ghost predicate Valid() {
      ValidMatchers(matchers) && WindowCovers(matchers, window)
    }

    constructor (secrets: seq<(string, string)>)
      ensures Valid() && total == 0 && byKind == map[]
      ensures WidestFirst(matchers)
      ensures forall m :: m in matchers <==> m.value != "" && (m.kind, m.value) in secrets
      ensures window == BUILTIN_WIDTH || exists m :: m in matchers && |m.value| == window > BUILTIN_WIDTH
    {
      hide InsertMatcher;
      var ms: seq<Matcher> := [];
      var w: nat := BUILTIN_WIDTH;
      for i := 0 to |secrets|
        invariant WidestFirst(ms) && WindowCovers(ms, w)
        invariant forall m :: m in ms <==> m.value != "" && (m.kind, m.value) in secrets[..i]
        invariant w == BUILTIN_WIDTH || exists m :: m in ms && |m.value| == w > BUILTIN_WIDTH
      {
        var (kind, value) := secrets[i];
        assert secrets[..i + 1] == secrets[..i] + [secrets[i]];
        if value != "" {
          var m := Matcher(kind, value);
          InsertWidest(m, ms);
          InsertMembers(m, ms);
          ms := InsertMatcher(m, ms);
          w := if |value| > w then |value| else w;
        }
      }
      matchers := ms;
      window := w;
      total := 0;
      byKind := map[];
    }

    // Add one call's counts to the run's summary.
    method Record(counts: map<string, nat>)
      modifies this
      ensures byKind == Plus(old(byKind), counts) && total == old(total) + Sum(counts)
    {
      var rest := counts;
      hide Recorded, Plus;
      NothingRecorded(byKind, counts);
      while rest != map[]
        invariant Recorded(old(byKind), counts, rest, byKind) && total + Sum(rest) == old(total) + Sum(counts)
        decreases rest.Keys
      {
        var k :| k in rest;
        SumPick(rest, k);
        RecordedNext(old(byKind), counts, rest, byKind, k);
        byKind := byKind[k := Get(byKind, k) + rest[k]];
        total := total + rest[k];
        rest := rest - {k};
      }
      AllRecorded(old(byKind), counts, byKind);
    }

    // One-shot redaction of a complete text.
    method Apply(text: string) returns (out: string)
      requires Valid()
      modifies this
      ensures out == Text(OneShot(text, matchers))
      ensures byKind == Plus(old(byKind), Counts(OneShot(text, matchers)))
      ensures total == old(total) + Marks(OneShot(text, matchers))
    {
      hide IsMerge, IsSpan, Scan, Straddled, Starts, Cands, Text, Counts, Marks;
      var spans := FindMatches(text, matchers);
      ghost var cs := Cands(text, matchers);
      CandsEndInside(text, matchers);
      NothingRead(cs, matchers, text);
      if spans == [] {
        NoStartBetween(cs, matchers, spans, 0, 0);
        TailStep(cs, matchers, text, 0, |text|);
        PlusNothing(byKind);
        return text;
      }
      var parts, pos, counts := "", 0, map[];
      for i := 0 to |spans|
        invariant pos == if i == 0 then 0 else spans[i - 1].end
        invariant pos <= |text| && !Straddled(cs, pos)
        invariant parts == Text(Scan(cs, matchers, text, 0, pos, 0))
        invariant counts == Counts(Scan(cs, matchers, text, 0, pos, 0))
        invariant byKind == old(byKind) && total == old(total)
      {
        var m := spans[i];
        NoStartBetween(cs, matchers, spans, i, pos);
        SpanInside(cs, matchers, spans, i, |text|);
        SpanAt(cs, matchers, spans, i);
        SpanStep(cs, matchers, text, pos, m);
        SpanFacts(cs, matchers, m);
        parts := parts + text[pos..m.start];
        parts := parts + Marker(m.kind);
        counts := counts[m.kind := Get(counts, m.kind) + 1];
        pos := m.end;
      }
      NoStartBetween(cs, matchers, spans, |spans|, pos);
      TailStep(cs, matchers, text, pos, |text|);
      parts := parts + text[pos..];
      SumCounts(Scan(cs, matchers, text, 0, |text|, 0));
      Record(counts);
      out := parts;
    }
  }

  lemma NothingRead(cs: set<Cand>, ms: seq<Matcher>, text: string)
    requires !Straddled(cs, 0)
    ensures Scan(cs, ms, text, 0, 0, 0) == [] && Text([]) == "" && Counts([]) == map[] && Marks([]) == 0
  {}

  // ---------------------------------------------------------------- the window strategy

  // What the feed loop has established when it stops before span i.
  lemma CutAfterSpans(
    buf: string, ms: seq<Matcher>, window: nat, spans: seq<Match>, i: nat, pos: nat, hold: bool)
    requires ValidMatchers(ms) && window >= 1 && |buf| > window
    requires IsMerge(Cands(buf, ms), ms, spans) && i <= |spans|
    requires pos == if i == 0 then 0 else spans[i - 1].end
    requires i > 0 ==> spans[i - 1].start < |buf| - window && spans[i - 1].end < |buf|
    requires hold ==> i < |spans| && spans[i].start < |buf| - window && spans[i].end >= |buf|
    requires !hold && i < |spans| ==> spans[i].start >= |buf| - window
    ensures FinalCut(buf, ms, window) ==
      if hold then spans[i].start else if pos > |buf| - window then pos else |buf| - window
    ensures pos <= FinalCut(buf, ms, window) <= |buf|
    ensures forall x :: pos <= x < FinalCut(buf, ms, window) ==> !Starts(Cands(buf, ms), x)
    ensures !Straddled(Cands(buf, ms), pos)
  {
    hide IsMerge, IsSpan, Cands, Straddled, Starts;
    var cs, cut := Cands(buf, ms), |buf| - window;
    CandsEndInside(buf, ms);
    NoStartBetween(cs, ms, spans, i, pos);
    if hold {
      SpanAt(cs, ms, spans, i);
      SpanFacts(cs, ms, spans[i]);
      SpanInside(cs, ms, spans, i, |buf|);
      UpIs(cs, cut, |buf|, |buf|);
      DownIs(cs, cut, spans[i].start);
    } else if pos > cut {
      SpanAt(cs, ms, spans, i - 1);
      SpanFacts(cs, ms, spans[i - 1]);
      UpIs(cs, cut, |buf|, pos);
    } else {
      FreeBetween(cs, pos, cut);
      UpIs(cs, cut, |buf|, cut);
    }
  }

  lemma {:induction false} DownIs(cs: set<Cand>, p: nat, r: nat)
    requires r <= p && !Straddled(cs, 0) && !Straddled(cs, r)
    requires forall x :: r < x <= p ==> Straddled(cs, x)
    ensures Down(cs, p) == r
    decreases p - r
  {
    if r < p {
      DownIs(cs, p - 1, r);
    }
  }

  lemma FreeBetween(cs: set<Cand>, p: nat, q: nat)
    requires p <= q && !Straddled(cs, p) && forall x :: p <= x < q ==> !Starts(cs, x)
    ensures !Straddled(cs, q)
  {
    forall c | c in cs
      ensures !(c.start < q < c.end)
    {
      if p <= c.start < q {
        assert Starts(cs, c.start);
      }
    }
  }

  class StreamingRedactor {
    const redactor: Redactor
    var buf: string
    ghost var emitted: nat  // characters of the stream already finalised

    constructor (redactor: Redactor)
      ensures this.redactor == redactor && buf == "" && emitted == 0
    {
      this.redactor := redactor;
      buf := "";
      emitted := 0;
    }

    method Feed(chunk: string) returns (out: string)
      requires redactor.Valid()
      modifies this, redactor
      ensures var b := old(buf) + chunk;
        var f := FinalCut(b, redactor.matchers, redactor.window);
        var pieces := FeedPieces(b, redactor.matchers, redactor.window, old(emitted));
        && out == Text(pieces)
        && redactor.byKind == Plus(old(redactor.byKind), Counts(pieces))
        && redactor.total == old(redactor.total) + Marks(pieces)
        && buf == b[f..] && emitted == old(emitted) + f
    {
      hide IsMerge, IsSpan, Scan, Straddled, Starts, Cands, Text, Counts, Marks, FinalCut;
      var ms, window := redactor.matchers, redactor.window;
      buf := buf + chunk;
      var buflen := |buf|;
      var cut := buflen - window;
      ghost var cs, b := Cands(buf, ms), buf;
      CandsEndInside(buf, ms);
      NothingRead(cs, ms, buf);
      if cut <= 0 {
        NothingFinal(b, ms, window, emitted);
        PlusNothing(redactor.byKind);
        return "";
      }
      var spans := FindMatches(buf, ms);
      var parts, pos, counts, i, hold := "", 0, map[], 0, false;
      while i < |spans| && !hold && spans[i].start < cut
        invariant i <= |spans| && pos == if i == 0 then 0 else spans[i - 1].end
        invariant i > 0 ==> spans[i - 1].start < cut && spans[i - 1].end < buflen
        invariant hold ==> i < |spans| && spans[i].start < cut && spans[i].end >= buflen
        invariant pos <= buflen && !Straddled(cs, pos)
        invariant parts == Text(Scan(cs, ms, b, 0, pos, 0))
        invariant counts == Counts(Scan(cs, ms, b, 0, pos, 0))
        invariant buf == b && emitted == old(emitted)
        invariant redactor.byKind == old(redactor.byKind) && redactor.total == old(redactor.total)
        decreases |spans| - i, !hold
      {
        var m := spans[i];
        if m.end >= buflen {
          hold := true;
        } else {
          NoStartBetween(cs, ms, spans, i, pos);
          SpanAt(cs, ms, spans, i);
          SpanStep(cs, ms, b, pos, m);
          SpanFacts(cs, ms, m);
          parts := parts + buf[pos..m.start];
          parts := parts + Marker(m.kind);
          counts := counts[m.kind := Get(counts, m.kind) + 1];
          pos := m.end;
          i := i + 1;
        }
      }
      CutAfterSpans(b, ms, window, spans, i, pos, hold);
      var finalCut := if hold then spans[i].start else if pos > cut then pos else cut;
      TailStep(cs, ms, b, pos, finalCut);
      Relocate(b, ms, window, emitted);
      SumCounts(Scan(cs, ms, b, 0, finalCut, 0));
      parts := parts + buf[pos..finalCut];
      buf := buf[finalCut..];
      emitted := emitted + finalCut;
      if counts != map[] {
        redactor.Record(counts);
      } else {
        PlusNothing(redactor.byKind);
      }
      out := parts;
    }

    method Flush() returns (out: string)
      requires redactor.Valid()
      modifies this, redactor
      ensures var pieces := FlushPieces(old(buf), redactor.matchers, old(emitted));
        && out == Text(pieces)
        && redactor.byKind == Plus(old(redactor.byKind), Counts(pieces))
        && redactor.total == old(redactor.total) + Marks(pieces)
        && buf == ""
    {
      var text := buf;
      FlushContent(text, redactor.matchers, emitted);
      emitted := emitted + |text|;
      buf := "";
      out := redactor.Apply(text);
    }
  }

  lemma NothingFinal(b: string, ms: seq<Matcher>, window: nat, base: nat)
    requires ValidMatchers(ms) && window >= 1 && |b| <= window
    ensures FinalCut(b, ms, window) == 0 && b[0..] == b
    ensures FeedPieces(b, ms, window, base) == []
  {}

  lemma Relocate(b: string, ms: seq<Matcher>, window: nat, base: nat)
    requires ValidMatchers(ms) && window >= 1
    ensures !Straddled(Cands(b, ms), FinalCut(b, ms, window))
    ensures var here := Scan(Cands(b, ms), ms, b, 0, FinalCut(b, ms, window), 0);
      var there := FeedPieces(b, ms, window, base);
      Text(here) == Text(there) && Counts(here) == Counts(there) && Marks(here) == Marks(there)
  {
    var f := FinalCut(b, ms, window);
    BaseIrrelevant(Cands(b, ms), ms, b, 0, f, 0, base);
    SameContentSameText(Scan(Cands(b, ms), ms, b, 0, f, 0), FeedPieces(b, ms, window, base));
  }

  lemma FlushContent(text: string, ms: seq<Matcher>, base: nat)
    requires ValidMatchers(ms)
    ensures Text(OneShot(text, ms)) == Text(FlushPieces(text, ms, base))
    ensures Counts(OneShot(text, ms)) == Counts(FlushPieces(text, ms, base))
    ensures Marks(OneShot(text, ms)) == Marks(FlushPieces(text, ms, base))
  {
    CandsEndInside(text, ms);
    BaseIrrelevant(Cands(text, ms), ms, text, 0, |text|, 0, base);
    SameContentSameText(OneShot(text, ms), FlushPieces(text, ms, base));
  }

  // ---------------------------------------------------------------- the guard

  // The first tail, from lo on, that is a proper prefix of the secret.
  method ExactPartialStart(value: string, buf: string, lo: nat) returns (start: int)
    requires lo <= |buf|
    ensures start == -1 || (lo <= start < |buf| && GrowsInto(buf, value, start))
    ensures forall i :: lo <= i < |buf| && (start == -1 || i < start) ==> !GrowsInto(buf, value, i)
  {
    var n := |buf|;
    var i := if lo > n - |value| + 1 then lo else n - |value| + 1;
    while i < n
      invariant lo <= i && n - |value| < i
      invariant forall j :: lo <= j < n && j < i ==> !GrowsInto(buf, value, j)
    {
      if buf[i..] <= value {
        return i;
      }
      i := i + 1;
    }
    start := -1;
  }

  // The safe prefix: up to the first tail that any secret could still grow from.
  method SafeEmitLen(buf: string, ms: seq<Matcher>, maxWidth: nat) returns (r: nat)
    requires WindowCovers(ms, maxWidth)
    ensures r <= |buf| && r == GuardCut(buf, ms)
  {
    var n := |buf|;
    if n == 0 {
      return 0;
    }
    var lo := if n > maxWidth then n - maxWidth else 0;
    var earliest := n;
    for k := 0 to |ms|
      invariant lo <= earliest <= n
      invariant earliest < n ==> Growing(buf, ms, earliest)
      invariant forall j, i :: 0 <= j < k && lo <= i < earliest ==> !GrowsInto(buf, ms[j].value, i)
    {
      var start := ExactPartialStart(ms[k].value, buf, lo);
      if start != -1 && start < earliest {
        earliest := start;
      }
    }
    forall i | 0 <= i < earliest
      ensures !Growing(buf, ms, i)
    {}
    GuardCutIs(buf, ms, 0, earliest);
    r := earliest;
  }

  class StreamGuard {
    const redactor: Redactor
    var held: string
    ghost var emitted: nat

    constructor (redactor: Redactor)
      ensures this.redactor == redactor && held == "" && emitted == 0
    {
      this.redactor := redactor;
      held := "";
      emitted := 0;
    }

    method Feed(chunk: string) returns (out: string)
      requires redactor.Valid()
      modifies this, redactor
      ensures var b := old(held) + chunk;
        var g := GuardCut(b, redactor.matchers);
        var pieces := FlushPieces(b[..g], redactor.matchers, old(emitted));
        && out == Text(pieces)
        && redactor.byKind == Plus(old(redactor.byKind), Counts(pieces))
        && redactor.total == old(redactor.total) + Marks(pieces)
        && held == b[g..] && emitted == old(emitted) + g
    {
      var buf := held + chunk;
      var cut := SafeEmitLen(buf, redactor.matchers, redactor.window);
      var emitRaw := buf[..cut];
      FlushContent(emitRaw, redactor.matchers, emitted);
      held := buf[cut..];
      emitted := emitted + cut;
      if emitRaw == "" {
        PlusNothing(redactor.byKind);
        return "";
      }
      out := redactor.Apply(emitRaw);
    }

    method Flush() returns (out: string)
      requires redactor.Valid()
      modifies this, redactor
      ensures var pieces := FlushPieces(old(held), redactor.matchers, old(emitted));
        && out == Text(pieces)
        && redactor.byKind == Plus(old(redactor.byKind), Counts(pieces))
        && redactor.total == old(redactor.total) + Marks(pieces)
        && held == ""
    {
      FlushContent(held, redactor.matchers, emitted);
      if held == "" {
        PlusNothing(redactor.byKind);
        return "";
      }
      out := redactor.Apply(held);
      emitted := emitted + |held|;
      held := "";
    }
  }

  // ---------------------------------------------------------------- whole streams

  lemma PartsJoin(done: seq<Piece>, more: seq<Piece>, rest: seq<Piece>)
    ensures done + (more + rest) == done + more + rest
    ensures Text(done + more) == Text(done) + Text(more)
    ensures Counts(done + more) == Plus(Counts(done), Counts(more))
    ensures Marks(done + more) == Marks(done) + Marks(more)
  {
    Assoc(done, more, rest);
    TextConcat(done, more);
    CountsConcat(done, more);
  }

  lemma PlusAssoc(a: map<string, nat>, b: map<string, nat>, c: map<string, nat>)
    ensures Plus(Plus(a, b), c) == Plus(a, Plus(b, c))
  {
    var left, right := Plus(Plus(a, b), c), Plus(a, Plus(b, c));
    assert left.Keys == right.Keys;
    forall k | k in left
      ensures left[k] == right[k]
    {
      assert Get(Plus(a, b), k) == Get(a, k) + Get(b, k) && Get(Plus(b, c), k) == Get(b, k) + Get(c, k);
    }
  }

  // Redact a text that arrives in chunks, through the window stream. The output joins what
  // every feed and the final flush return; `held` is the most that was held back after a feed.
  method RedactChunks(r: Redactor, chunks: seq<string>) returns (out: string, held: nat)
    requires r.Valid()
    modifies r
    ensures var pieces := StreamPieces("", chunks, r.matchers, r.window, 0);
      && out == Text(pieces)
      && r.byKind == Plus(old(r.byKind), Counts(pieces)) && r.total == old(r.total) + Marks(pieces)
    ensures NeverClosedTooEarly(Concat(chunks), r.matchers, r.window) ==>
      var whole := OneShot(Concat(chunks), r.matchers);
      && out == Text(whole)
      && r.byKind == Plus(old(r.byKind), Counts(whole)) && r.total == old(r.total) + Marks(whole)
    ensures NestedOrDisjoint(Cands(Concat(chunks), r.matchers)) ==> held <= r.window
  {
    hide StreamPieces, FeedPieces, FlushPieces, FinalCut, Text, Counts, Marks, OneShot, NeverClosedTooEarly, HeldInPlace, NestedOrDisjoint, Cands;
    var stream := new StreamingRedactor(r);
    ghost var done: seq<Piece> := [];
    ghost var all := StreamPieces("", chunks, r.matchers, r.window, 0);
    out, held := "", 0;
    NothingDone(r.byKind);
    NothingHeld(chunks, r.matchers);
    for i := 0 to |chunks|
      invariant stream.redactor == r && fresh(stream)
      invariant out == Text(done)
      invariant r.byKind == Plus(old(r.byKind), Counts(done)) && r.total == old(r.total) + Marks(done)
      invariant all == done + StreamPieces(stream.buf, chunks[i..], r.matchers, r.window, stream.emitted)
      invariant NestedOrDisjoint(Cands(Concat(chunks), r.matchers)) ==>
        held <= r.window && HeldInPlace(Concat(chunks), chunks[i..], r.matchers, stream.buf, stream.emitted)
    {
      StreamNext(stream.buf, chunks[i..], r.matchers, r.window, stream.emitted);
      assert chunks[i..][1..] == chunks[i + 1..];
      ghost var b := stream.buf + chunks[i];
      ghost var more := FeedPieces(b, r.matchers, r.window, stream.emitted);
      ghost var f := FinalCut(b, r.matchers, r.window);
      PartsJoin(done, more, StreamPieces(b[f..], chunks[i + 1..], r.matchers, r.window, stream.emitted + f));
      PlusAssoc(old(r.byKind), Counts(done), Counts(more));
      if NestedOrDisjoint(Cands(Concat(chunks), r.matchers)) {
        HeldNext(Concat(chunks), chunks[i..], r.matchers, r.window, stream.buf, stream.emitted);
      }
      var part := stream.Feed(chunks[i]);
      out := out + part;
      done := done + more;
      held := if |stream.buf| > held then |stream.buf| else held;
    }
    StreamLast(stream.buf, chunks[|chunks|..], r.matchers, r.window, stream.emitted);
    ghost var rest := FlushPieces(stream.buf, r.matchers, stream.emitted);
    PartsJoin(done, rest, []);
    PlusAssoc(old(r.byKind), Counts(done), Counts(rest));
    var part := stream.Flush();
    out := out + part;
    if NeverClosedTooEarly(Concat(chunks), r.matchers, r.window) {
      StreamIsOneShot(Concat(chunks), r.matchers, r.window);
      assert all == OneShot(Concat(chunks), r.matchers);
    }
  }

  lemma NothingDone(a: map<string, nat>)
    ensures Text([]) == "" && Marks([]) == 0 && Plus(a, Counts([])) == a
  {}

  // What is held is the text's own next stretch, from a position no match reaches over, and the
  // chunks to come are the rest.
  ghost predicate HeldInPlace(text: string, chunks: seq<string>, ms: seq<Matcher>, buf: string, base: nat) {
    && base + |buf| <= |text| && buf == text[base..base + |buf|] && !Straddled(Cands(text, ms), base)
    && Concat(chunks) == text[base + |buf|..]
  }

  lemma NothingHeld(chunks: seq<string>, ms: seq<Matcher>)
    requires ValidMatchers(ms)
    ensures HeldInPlace(Concat(chunks), chunks[0..], ms, "", 0)
  {
    CandsEndInside(Concat(chunks), ms);
    assert chunks[0..] == chunks;
  }

  lemma HeldNext(text: string, chunks: seq<string>, ms: seq<Matcher>, window: nat, buf: string, base: nat)
    requires ValidMatchers(ms) && WindowCovers(ms, window) && chunks != [] && HeldInPlace(text, chunks, ms, buf, base)
    requires NestedOrDisjoint(Cands(text, ms))
    ensures var b := buf + chunks[0];
      var f := FinalCut(b, ms, window);
      |b[f..]| <= window && HeldInPlace(text, chunks[1..], ms, b[f..], base + f)
  {
    hide Cands, FinalCut, NestedOrDisjoint, Straddled, FeedPieces;
    NestedRunsFit(text, ms, window);
    ShortRunsNeverClosedTooEarly(text, ms, window);
    var n := base + |buf|;
    ChunkArrives(text, base, n, chunks);
    var m := n + |chunks[0]|;
    assert buf + chunks[0] == text[base..m];
    FeedIsPart(text, ms, window, base, m);
    HeldFits(text, ms, window, base, m);
  }

  lemma StreamNext(buf: string, chunks: seq<string>, ms: seq<Matcher>, window: nat, base: nat)
    requires ValidMatchers(ms) && window >= 1 && chunks != []
    ensures var b := buf + chunks[0];
      var f := FinalCut(b, ms, window);
      StreamPieces(buf, chunks, ms, window, base) ==
        FeedPieces(b, ms, window, base) + StreamPieces(b[f..], chunks[1..], ms, window, base + f)
  {}

  lemma StreamLast(buf: string, chunks: seq<string>, ms: seq<Matcher>, window: nat, base: nat)
    requires ValidMatchers(ms) && window >= 1 && chunks == []
    ensures StreamPieces(buf, chunks, ms, window, base) == FlushPieces(buf, ms, base)
  {}

  // The same through the transcript guard.
  method GuardChunks(r: Redactor, chunks: seq<string>) returns (out: string)
    requires r.Valid()
    modifies r
    ensures var pieces := GuardPieces("", chunks, r.matchers, 0);
      && out == Text(pieces)
      && r.byKind == Plus(old(r.byKind), Counts(pieces)) && r.total == old(r.total) + Marks(pieces)
    ensures !SomethingTears(r.matchers) ==>
      var whole := OneShot(Concat(chunks), r.matchers);
      && out == Text(whole)
      && r.byKind == Plus(old(r.byKind), Counts(whole)) && r.total == old(r.total) + Marks(whole)
  {
    hide GuardPieces, FlushPieces, GuardCut, Text, Counts, Marks, OneShot, SomethingTears, WindowCovers;
    var guard := new StreamGuard(r);
    ghost var done: seq<Piece> := [];
    ghost var all := GuardPieces("", chunks, r.matchers, 0);
    out := "";
    NothingDone(r.byKind);
    for i := 0 to |chunks|
      invariant guard.redactor == r && fresh(guard)
      invariant out == Text(done)
      invariant r.byKind == Plus(old(r.byKind), Counts(done)) && r.total == old(r.total) + Marks(done)
      invariant all == done + GuardPieces(guard.held, chunks[i..], r.matchers, guard.emitted)
    {
      GuardNext(guard.held, chunks[i..], r.matchers, guard.emitted);
      assert chunks[i..][1..] == chunks[i + 1..];
      ghost var b := guard.held + chunks[i];
      ghost var g := GuardCut(b, r.matchers);
      ghost var more := FlushPieces(b[..g], r.matchers, guard.emitted);
      PartsJoin(done, more, GuardPieces(b[g..], chunks[i + 1..], r.matchers, guard.emitted + g));
      PlusAssoc(old(r.byKind), Counts(done), Counts(more));
      var part := guard.Feed(chunks[i]);
      out := out + part;
      done := done + more;
    }
    GuardLast(guard.held, chunks[|chunks|..], r.matchers, guard.emitted);
    ghost var rest := FlushPieces(guard.held, r.matchers, guard.emitted);
    PartsJoin(done, rest, []);
    PlusAssoc(old(r.byKind), Counts(done), Counts(rest));
    var part := guard.Flush();
    out := out + part;
    if !SomethingTears(r.matchers) {
      NothingTearsIsOneShot(chunks, r.matchers);
    }
  }

  lemma GuardNext(held: string, chunks: seq<string>, ms: seq<Matcher>, base: nat)
    requires ValidMatchers(ms) && chunks != []
    ensures var b := held + chunks[0];
      var g := GuardCut(b, ms);
      GuardPieces(held, chunks, ms, base) ==
        FlushPieces(b[..g], ms, base) + GuardPieces(b[g..], chunks[1..], ms, base + g)
  {}

  lemma GuardLast(held: string, chunks: seq<string>, ms: seq<Matcher>, base: nat)
    requires ValidMatchers(ms) && chunks == []
    ensures GuardPieces(held, chunks, ms, base) == FlushPieces(held, ms, base)
  {}
}
