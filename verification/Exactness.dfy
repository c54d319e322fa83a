// When chunk-wise redaction emits what one-shot redaction would: text and counts, for every
// text and every way of cutting it into chunks.
//
// Where a strategy cuts through a span, the span's own text is a witness: one-shot redaction
// makes it a single marker, the strategy at least two pieces, and then the emitted texts or the
// counts differ.
module Exactness {
  import opened Seqs
  import opened Maps
  import opened Spans
  import opened Streaming

  ghost predicate SameOutput(a: seq<Piece>, b: seq<Piece>) {
    Text(a) == Text(b) && Counts(a) == Counts(b)
  }

  // ---------------------------------------------------------------- one marker against more pieces

  lemma {:induction false} CountsArePositive(ps: seq<Piece>, k: string)
    requires k in Counts(ps)
    ensures Counts(ps)[k] >= 1
    decreases |ps|
  {
    if ps != [] && k in Counts(ps[..|ps| - 1]) {
      CountsArePositive(ps[..|ps| - 1], k);
    }
  }

  lemma {:induction false} NoMarksOneCharEach(ps: seq<Piece>)
    requires Counts(ps) == map[]
    ensures |Text(ps)| == |ps|
    decreases |ps|
  {
    if ps != [] {
      NoMarksOneCharEach(ps[..|ps| - 1]);
    }
  }

  lemma {:induction false} OneMarkLength(ps: seq<Piece>, kind: string)
    requires Counts(ps) == map[kind := 1]
    ensures ps != [] && |Text(ps)| == |Marker(kind)| + |ps| - 1
    decreases |ps|
  {
    assert kind in Counts(ps);
    var front, last := ps[..|ps| - 1], ps[|ps| - 1];
    if last.Mark? {
      assert last.kind in Counts(ps);
      assert Get(Counts(front), kind) == 0;
      forall k | k in Counts(front)
        ensures false
      {
        assert k in Counts(ps);
        CountsArePositive(front, k);
      }
      NoMarksOneCharEach(front);
    } else {
      OneMarkLength(front, kind);
    }
  }

  // An output of two pieces or more is never one marker alone.
  lemma OneMarkOrMore(ps: seq<Piece>, m: Piece)
    requires m.Mark? && |ps| >= 2
    ensures !SameOutput(ps, [m])
  {
    OnePiece(m);
    assert Text([m]) == Marker(m.kind) && Counts([m]) == map[m.kind := 1];
    if Counts(ps) == map[m.kind := 1] {
      OneMarkLength(ps, m.kind);
    }
  }

  // A text held together by its matches from end to end is one marker.
  lemma WholeTextIsOneSpan(text: string, ms: seq<Matcher>)
    requires ValidMatchers(ms) && text != "" && Starts(Cands(text, ms), 0)
    requires forall x :: 0 < x < |text| ==> Straddled(Cands(text, ms), x)
    ensures |OneShot(text, ms)| == 1 && OneShot(text, ms)[0].Mark?
  {
    CandsEndInside(text, ms);
    hide Cands, Straddled, Starts;
    var cs := Cands(text, ms);
    UpIs(cs, 1, |text|, |text|);
    assert Scan(cs, ms, text, |text|, |text|, 0) == [];
  }

  // ---------------------------------------------------------------- the window strategy

  lemma {:induction false} StreamSaysSomething(buf: string, chunks: seq<string>, ms: seq<Matcher>, window: nat, base: nat)
    requires ValidMatchers(ms) && window >= 1 && buf + Concat(chunks) != ""
    ensures StreamPieces(buf, chunks, ms, window, base) != []
    decreases |chunks|
  {
    hide FinalCut, Cands;
    if chunks == [] {
      CandsEndInside(buf, ms);
    } else {
      var b := buf + chunks[0];
      var f := FinalCut(b, ms, window);
      assert buf + Concat(chunks) == b + Concat(chunks[1..]);
      if f == 0 {
        assert b[f..] == b;
        StreamSaysSomething(b, chunks[1..], ms, window, base);
      }
    }
  }

  // The span of the text around a position inside it.
  lemma SpanAround(text: string, ms: seq<Matcher>, e: nat) returns (s: nat, t: nat)
    requires ValidMatchers(ms) && e <= |text| && Straddled(Cands(text, ms), e)
    ensures s < e < t <= |text| && !Straddled(Cands(text, ms), s) && !Straddled(Cands(text, ms), t)
    ensures forall x :: s < x < t ==> Straddled(Cands(text, ms), x)
    ensures |OneShot(text[s..t], ms)| == 1 && OneShot(text[s..t], ms)[0].Mark?
  {
    var cs := Cands(text, ms);
    CandsEndInside(text, ms);
    s, t := Down(cs, e), Up(cs, e, |text|);
    DownSkips(cs, e);
    UpSkips(cs, e, |text|);
    SpanAlone(text, ms, s, t);
  }

  lemma SpanAlone(text: string, ms: seq<Matcher>, s: nat, t: nat)
    requires ValidMatchers(ms) && s + 1 < t <= |text|
    requires !Straddled(Cands(text, ms), s) && !Straddled(Cands(text, ms), t)
    requires forall x :: s < x < t ==> Straddled(Cands(text, ms), x)
    ensures |OneShot(text[s..t], ms)| == 1 && OneShot(text[s..t], ms)[0].Mark?
  {
    var part, whole := Cands(text[s..t], ms), Cands(text, ms);
    CandsEndInside(text, ms);
    CandsEndInside(text[s..t], ms);
    CandsLocal(text, ms, s, t);
    forall x | 0 < x < t - s
      ensures Straddled(part, x)
    {
      assert Straddled(whole, s + x);
      var c :| c in whole && c.start < s + x < c.end;
      StraddledLocal(part, whole, 0, t - s, s, x);
    }
    assert Straddled(part, 1);
    WholeTextIsOneSpan(text[s..t], ms);
  }

  // The span a window closes too early, alone as a text, comes out differently.
  lemma {:induction false} EarlyCloseShows(text: string, ms: seq<Matcher>, window: nat, n: nat, e: nat) returns (chunks: seq<string>)
    requires ValidMatchers(ms) && WindowCovers(ms, window) && ClosedTooEarly(text, ms, window, n, e)
    ensures !SameOutput(StreamPieces("", chunks, ms, window, 0), OneShot(Concat(chunks), ms))
  {
    hide SameOutput, Cands, Straddled, Scan, FlushPieces;
    var s, t := SpanAround(text, ms, e);
    EarlyCloseInside(text, ms, window, n, e, s, t);
    var b, rest := text[s..n], text[n..t];
    chunks := [b, rest];
    TwoParts(b, rest);
    assert b + rest == text[s..t];
    assert "" + b == b;
    ScanHasPieces(b, ms, e - s);
    assert chunks[1..] == [rest] && [rest][1..] == [];
    StreamSaysSomething(b[e - s..], [rest], ms, window, 0 + (e - s));
    var all := StreamPieces("", chunks, ms, window, 0);
    assert all == FeedPieces(b, ms, window, 0) + StreamPieces(b[e - s..], [rest], ms, window, 0 + (e - s));
    var one := OneShot(text[s..t], ms);
    assert one == [one[0]];
    OneMarkOrMore(all, one[0]);
  }

  lemma TwoParts(a: string, b: string)
    ensures Concat([a, b]) == a + b && Concat([b]) == b
  {
    assert [a, b][1..] == [b] && [b][1..] == [];
    assert Concat([b]) == b + Concat([]);
  }

  lemma ScanHasPieces(buf: string, ms: seq<Matcher>, f: nat)
    requires ValidMatchers(ms) && 0 < f <= |buf| && !Straddled(Cands(buf, ms), f)
    ensures Scan(Cands(buf, ms), ms, buf, 0, f, 0) != []
  {}

  // A span closed too early begins before the window and ends after what had arrived, and the
  // same cut is made when only the span's text arrives.
  lemma EarlyCloseInside(text: string, ms: seq<Matcher>, window: nat, n: nat, e: nat, s: nat, t: nat)
    requires ValidMatchers(ms) && WindowCovers(ms, window) && ClosedTooEarly(text, ms, window, n, e)
    requires s < e < t <= |text| && !Straddled(Cands(text, ms), s) && !Straddled(Cands(text, ms), t)
    requires forall x :: s < x < t ==> Straddled(Cands(text, ms), x)
    ensures s + window < n <= t && FinalCut(text[s..n], ms, window) == e - s
  {
    hide Cands, Straddled;
    if n - window <= s {
      PrefixIsWhole(text, ms, n, s);
    }
    SpanOutlasts(text, ms, n, e, t);
    WindowInPrefix(text, ms, s, n, e);
    CandsEndInside(text[s..n], ms);
    var part := Cands(text[s..n], ms);
    forall x | n - s - window <= x < e - s
      ensures Straddled(part, x)
    {
      assert Straddled(Cands(text[..n], ms), x + s);
      WindowInPrefix(text, ms, s, n, x + s);
    }
    UpIs(part, n - s - window, n - s, e - s);
  }

  lemma PrefixIsWhole(text: string, ms: seq<Matcher>, n: nat, x: nat)
    requires ValidMatchers(ms) && x <= n <= |text| && Straddled(Cands(text[..n], ms), x)
    ensures Straddled(Cands(text, ms), x)
  {
    CandsEndInside(text, ms);
    assert text[0..n] == text[..n] && x - 0 == x;
    PartIsWhole(text, ms, 0, n, x);
  }

  // A span that goes on past a position free in the prefix ends after the prefix.
  lemma SpanOutlasts(text: string, ms: seq<Matcher>, n: nat, e: nat, t: nat)
    requires ValidMatchers(ms) && e < n <= |text| && e < t && !Straddled(Cands(text, ms), t)
    requires Straddled(Cands(text, ms), e) && !Straddled(Cands(text[..n], ms), e)
    ensures n <= t
  {
    hide Cands;
    assert text[0..n] == text[..n];
    CandsEndInside(text, ms);
    var c :| c in Cands(text, ms) && c.start < e < c.end;
    FreeReachesOver(text, ms, 0, n, e, c);
  }

  // The window strategy emits the one-shot text and counts on every text and chunking exactly
  // when no text has a span closed before a later overlapping match arrives.
  lemma StreamIsExactIff(ms: seq<Matcher>, window: nat)
    requires ValidMatchers(ms) && WindowCovers(ms, window)
    ensures (forall chunks :: SameOutput(StreamPieces("", chunks, ms, window, 0), OneShot(Concat(chunks), ms)))
            <==> forall text :: NeverClosedTooEarly(text, ms, window)
  {
    hide SameOutput, StreamPieces, OneShot, ClosedTooEarly;
    if forall text :: NeverClosedTooEarly(text, ms, window) {
      forall chunks
        ensures SameOutput(StreamPieces("", chunks, ms, window, 0), OneShot(Concat(chunks), ms))
      {
        assert NeverClosedTooEarly(Concat(chunks), ms, window);
        StreamIsOneShot(Concat(chunks), ms, window);
        SamePieces(StreamPieces("", chunks, ms, window, 0), OneShot(Concat(chunks), ms));
      }
    }
    if text: string :| !NeverClosedTooEarly(text, ms, window) {
      var n: nat, e: nat :| ClosedTooEarly(text, ms, window, n, e);
      var chunks := EarlyCloseShows(text, ms, window, n, e);
    }
  }

  lemma SamePieces(a: seq<Piece>, b: seq<Piece>)
    requires a == b
    ensures SameOutput(a, b)
  {}

  // A non-empty proper prefix of one secret that is a proper suffix of another.
  predicate Border(p: string, s: string, k: int) {
    0 < k < |p| && k < |s| && p[..k] == s[|s| - k..]
  }

  ghost predicate NoCrossBorders(ms: seq<Matcher>) {
    forall i, j, k :: 0 <= i < |ms| && 0 <= j < |ms| && i != j ==> !Border(ms[i].value, ms[j].value, k)
  }

  // Secrets that never continue one another match nested or apart, in every text.
  lemma NoCrossBordersNest(text: string, ms: seq<Matcher>)
    requires ValidMatchers(ms) && NoCrossBorders(ms)
    ensures NestedOrDisjoint(Cands(text, ms))
  {
    forall c, d | c in Cands(text, ms) && d in Cands(text, ms) && c.prio != d.prio && c.start < d.start < c.end
      ensures d.end <= c.end
    {
      OverlapIsBorder(text, ms, c, d);
    }
  }

  lemma OverlapIsBorder(text: string, ms: seq<Matcher>, c: Cand, d: Cand)
    requires ValidMatchers(ms) && c in Cands(text, ms) && d in Cands(text, ms) && c.start < d.start < c.end
    ensures 0 <= c.prio < |ms| && 0 <= d.prio < |ms|
    ensures c.end < d.end ==> Border(ms[d.prio].value, ms[c.prio].value, c.end - d.start)
  {
    hide Cands;
    CandShape(text, ms, c);
    CandShape(text, ms, d);
    InCands(text, ms, c.prio, c.start);
    InCands(text, ms, d.prio, d.start);
    var q, m, k := ms[c.prio].value, ms[d.prio].value, c.end - d.start;
    assert text[c.start..c.end] == q && text[d.start..d.end] == m;
    if c.end < d.end {
      SliceSlice(text, d.start, d.end, 0, k);
      SliceSlice(text, c.start, c.end, |q| - k, |q|);
    }
  }

  // So the window stream is exact on every text and chunking for such secrets.
  lemma NoCrossBordersStreamIsExact(chunks: seq<string>, ms: seq<Matcher>, window: nat)
    requires ValidMatchers(ms) && WindowCovers(ms, window) && NoCrossBorders(ms)
    ensures SameOutput(StreamPieces("", chunks, ms, window, 0), OneShot(Concat(chunks), ms))
  {
    hide Cands, StreamPieces, OneShot, NestedOrDisjoint, NoCrossBorders;
    NoCrossBordersNest(Concat(chunks), ms);
    NestedStreamIsOneShot(Concat(chunks), chunks, ms, window);
  }

  function Fill(ch: char, n: nat): (s: string)
    ensures |s| == n && forall i :: 0 <= i < n ==> s[i] == ch
  {
    seq(n, _ => ch)
  }

  // The first 560 characters of the example are one secret; the second starts at the last of them.
  lemma OverlapMatches(text: string, ms: seq<Matcher>, long: string)
    requires long == "a" + Fill('b', 558) + "c" && text == long + "de"
    requires ms == [Matcher("first", long), Matcher("second", "cde")]
    ensures ValidMatchers(ms) && WindowCovers(ms, 560)
    ensures Cand(0, 560, 0) in Cands(text[..561], ms) && Cand(0, 560, 0) in Cands(text, ms)
    ensures Cand(559, 562, 1) in Cands(text, ms)
    ensures forall c :: c in Cands(text[..561], ms) ==> c == Cand(0, 560, 0)
  {
    var prefix := text[..561];
    assert ms[0].value == long && ms[1].value == "cde" && |long| == 560 && |text| == 562;
    assert text[0] == 'a' && text[559..562] == "cde" && forall i :: 1 <= i < 559 ==> text[i] == 'b';
    assert long <= text && long <= prefix;
    MatchAtFront(prefix, ms, 0);
    MatchAtFront(text, ms, 0);
    forall q: nat | 556 < q < 559
      ensures !Taken(text, "cde", q)
    {
      assert text[q..q + 3][0] == 'b';
    }
    TakenIfFree(text, "cde", 559);
    InCands(text, ms, 1, 559);
    forall c | c in Cands(prefix, ms)
      ensures c == Cand(0, 560, 0)
    {
      CandShape(prefix, ms, c);
      InCands(prefix, ms, c.prio, c.start);
      assert prefix[c.start..c.end][0] == prefix[c.start];
    }
  }

  // Reading up to f when one match covers exactly that.
  lemma OneMatchRead(buf: string, ms: seq<Matcher>, f: nat, base: nat)
    requires ValidMatchers(ms) && ms != [] && 1 < f <= |buf| && Cand(0, f, 0) in Cands(buf, ms)
    requires !Straddled(Cands(buf, ms), f)
    ensures Scan(Cands(buf, ms), ms, buf, 0, f, base) == [Mark(base, base + f, ms[0].kind)]
  {
    CandsEndInside(buf, ms);
    hide Cands;
    OneMatchSpan(Cands(buf, ms), ms, buf, f, base);
  }

  // The same of any set of matches with one that covers exactly [0, f).
  lemma OneMatchSpan(cs: set<Cand>, ms: seq<Matcher>, buf: string, f: nat, base: nat)
    requires ms != [] && 1 < f <= |buf| && Cand(0, f, 0) in cs && !Straddled(cs, f)
    ensures Scan(cs, ms, buf, 0, f, base) == [Mark(base, base + f, ms[0].kind)]
  {
    forall x | 1 <= x < f
      ensures Straddled(cs, x)
    {
      assert Cand(0, f, 0).start < x < Cand(0, f, 0).end;
    }
    assert Cand(0, f, 0).start == 0 && Starts(cs, 0);
    assert Contributes(cs, 0, f, 0);
    hide Straddled, Starts, Contributes;
    UpIs(cs, 1, f, f);
    assert Scan(cs, ms, buf, f, f, base) == [];
  }

  // Two overlapping secrets, at the window the built-in patterns impose, and a text of 562
  // characters they cover from end to end: one-shot redaction gives the first secret's marker,
  // the window stream that marker and then the last two characters of the second secret in
  // clear. The counts agree.
  lemma OverlapLeaks()
    ensures var long := "a" + Fill('b', 558) + "c";
      var ms := [Matcher("first", long), Matcher("second", "cde")];
      var text := long + "de";
      var chunks := [text[..561], text[561..]];
      && ValidMatchers(ms) && WindowCovers(ms, 560) && Concat(chunks) == text
      && Text(StreamPieces("", chunks, ms, 560, 0)) == Marker("first") + "de"
      && Text(OneShot(text, ms)) == Marker("first")
      && Counts(StreamPieces("", chunks, ms, 560, 0)) == Counts(OneShot(text, ms)) == map["first" := 1]
  {
    hide Text, Counts, Cands, StreamPieces, OneShot;
    var long := "a" + Fill('b', 558) + "c";
    var ms := [Matcher("first", long), Matcher("second", "cde")];
    var text := long + "de";
    OverlapMatches(text, ms, long);
    TwoParts(text[..561], text[561..]);
    OverlapOneShot(text, ms);
    OverlapStream(text, ms);
    OnePiece(Mark(0, 562, "first"));
  }

  lemma OverlapStream(text: string, ms: seq<Matcher>)
    requires ValidMatchers(ms) && |ms| == 2 && ms[0].kind == "first" && |ms[0].value| > 2 && |ms[1].value| > 2
    requires |text| == 562 && text[560..] == "de"
    requires Cand(0, 560, 0) in Cands(text[..561], ms) && forall c :: c in Cands(text[..561], ms) ==> c == Cand(0, 560, 0)
    ensures var pieces := StreamPieces("", [text[..561], text[561..]], ms, 560, 0);
      Text(pieces) == Marker("first") + "de" && Counts(pieces) == map["first" := 1]
  {
    hide Text, Counts, Cands, FinalCut, Straddled, FlushPieces, FeedPieces;
    var chunks, head := [text[..561], text[561..]], text[..561];
    OverlapFirstChunk(head, ms);
    var tail := head[560..];
    assert tail + text[561..] == text[560..] && "" + chunks[0] == head;
    assert chunks[1..] == [text[561..]];
    OverlapRest(ms, tail, text[561..]);
    var first, rest := [Mark(0, 560, "first")], FlushPieces("de", ms, 560);
    assert StreamPieces("", chunks, ms, 560, 0) == first + StreamPieces(tail, chunks[1..], ms, 560, 0 + 560);
    hide StreamPieces;
    ShorterThanAll("de", ms, 560);
    OnePiece(first[0]);
    TextConcat(first, rest);
    CountsConcat(first, rest);
    assert Plus(map["first" := 1], map[]) == map["first" := 1];
  }

  lemma OverlapOneShot(text: string, ms: seq<Matcher>)
    requires ValidMatchers(ms) && |ms| == 2 && ms[0].kind == "first" && |text| == 562
    requires Cand(0, 560, 0) in Cands(text, ms) && Cand(559, 562, 1) in Cands(text, ms)
    ensures OneShot(text, ms) == [Mark(0, 562, "first")]
  {
    var cs := Cands(text, ms);
    CandsEndInside(text, ms);
    hide Cands;
    assert Cand(0, 560, 0) in cs && Cand(559, 562, 1) in cs;
    forall x | 1 <= x < 562
      ensures Straddled(cs, x)
    {}
    UpIs(cs, 1, 562, 562);
    assert Contributes(cs, 0, 562, 0);
    assert Scan(cs, ms, text, 562, 562, 0) == [];
  }

  lemma OverlapFirstChunk(buf: string, ms: seq<Matcher>)
    requires ValidMatchers(ms) && |ms| == 2 && ms[0].kind == "first" && |buf| == 561
    requires Cand(0, 560, 0) in Cands(buf, ms) && forall c :: c in Cands(buf, ms) ==> c == Cand(0, 560, 0)
    ensures FinalCut(buf, ms, 560) == 560 && FeedPieces(buf, ms, 560, 0) == [Mark(0, 560, "first")]
  {
    var cs := Cands(buf, ms);
    CandsEndInside(buf, ms);
    hide Cands;
    assert !Straddled(cs, 560);
    UpIs(cs, 1, 561, 560);
    OneMatchRead(buf, ms, 560, 0);
  }

  lemma OverlapRest(ms: seq<Matcher>, held: string, chunk: string)
    requires ValidMatchers(ms) && |held + chunk| <= 560
    ensures StreamPieces(held, [chunk], ms, 560, 560) == FlushPieces(held + chunk, ms, 560)
  {
    var b := held + chunk;
    assert [chunk][1..] == [] && b[0..] == b;
    assert FeedPieces(b, ms, 560, 560) == [];
  }

  // ---------------------------------------------------------------- the guard

  lemma {:induction false} GuardSaysSomething(held: string, chunks: seq<string>, ms: seq<Matcher>, base: nat)
    requires ValidMatchers(ms) && held + Concat(chunks) != ""
    ensures GuardPieces(held, chunks, ms, base) != []
    decreases |chunks|
  {
    hide GuardCut, Cands;
    if chunks == [] {
      CandsEndInside(held, ms);
    } else {
      var b := held + chunks[0];
      var g := GuardCut(b, ms);
      assert held + Concat(chunks) == b + Concat(chunks[1..]);
      if g == 0 {
        assert b[g..] == b;
        GuardSaysSomething(b, chunks[1..], ms, base);
      } else {
        CandsEndInside(b[..g], ms);
      }
    }
  }

  // Secret m, starting inside secret q, makes the guard cut q in two: the last k characters of q
  // begin m, j more characters of m have arrived but not all of it, and no tail from further
  // left in q could still grow.
  ghost predicate Tears(ms: seq<Matcher>, q: string, m: string, k: nat, j: nat) {
    && 0 < k < |q| && k + j < |m| && m[..k] == q[|q| - k..]
    && NoTailGrows(q + m[k..k + j], ms, |q| - k)
  }

  ghost predicate NoTailGrows(text: string, ms: seq<Matcher>, g: int) {
    forall i :: 0 <= i < g ==> !Growing(text, ms, i)
  }

  ghost predicate SomethingTears(ms: seq<Matcher>) {
    exists a, b, k: nat, j: nat :: 0 <= a < |ms| && 0 <= b < |ms| && Tears(ms, ms[a].value, ms[b].value, k, j)
  }

  // After q and j more characters of m, the cut falls inside q.
  lemma {:induction false} TearCut(ms: seq<Matcher>, a: nat, b: nat, k: nat, j: nat)
    requires a < |ms| && b < |ms| && Tears(ms, ms[a].value, ms[b].value, k, j)
    ensures GuardCut(ms[a].value + ms[b].value[k..k + j], ms) == |ms[a].value| - k
  {
    var q, m := ms[a].value, ms[b].value;
    var text, g := q + m[k..k + j], |q| - k;
    assert text[g..] == q[g..] + m[k..k + j] == m[..k] + m[k..k + j] == m[..k + j];
    assert GrowsInto(text, ms[b].value, g);
    GuardCutIs(text, ms, 0, g);
  }

  // A text that is one span, fed so that the guard cuts inside it, comes out differently.
  lemma {:induction false} CutSpanShows(head: string, tail: string, ms: seq<Matcher>)
    requires ValidMatchers(ms) && 0 < GuardCut(head, ms) < |head|
    requires |OneShot(head + tail, ms)| == 1 && OneShot(head + tail, ms)[0].Mark?
    ensures Concat([head, tail]) == head + tail
    ensures !SameOutput(GuardPieces("", [head, tail], ms, 0), OneShot(Concat([head, tail]), ms))
  {
    hide SameOutput, Cands, OneShot, GuardCut;
    TwoParts(head, tail);
    var g, chunks := GuardCut(head, ms), [head, tail];
    assert "" + head == head && chunks[1..] == [tail];
    CandsEndInside(head[..g], ms);
    ScanHasPieces(head[..g], ms, g);
    GuardSaysSomething(head[g..], [tail], ms, 0 + g);
    var all := GuardPieces("", chunks, ms, 0);
    assert all == FlushPieces(head[..g], ms, 0) + GuardPieces(head[g..], [tail], ms, 0 + g);
    var one := OneShot(head + tail, ms);
    assert one == [one[0]];
    OneMarkOrMore(all, one[0]);
  }

  lemma MatchAtFront(text: string, ms: seq<Matcher>, a: nat)
    requires ValidMatchers(ms) && a < |ms| && ms[a].value <= text
    ensures Cand(0, |ms[a].value|, a) in Cands(text, ms) && Starts(Cands(text, ms), 0)
  {
    assert OccursAt(text, ms[a].value, 0);
    TakenIfFree(text, ms[a].value, 0);
    InCands(text, ms, a, 0);
  }

  // A secret that is torn with nothing after it.
  lemma {:induction false} TornAtOnce(ms: seq<Matcher>, a: nat, b: nat, k: nat)
    requires ValidMatchers(ms) && a < |ms| && b < |ms| && Tears(ms, ms[a].value, ms[b].value, k, 0)
    ensures !SameOutput(GuardPieces("", [ms[a].value, ""], ms, 0), OneShot(Concat([ms[a].value, ""]), ms))
  {
    hide SameOutput, Cands, OneShot, Growing, GuardPieces, GuardCut;
    var q, m := ms[a].value, ms[b].value;
    TearCut(ms, a, b, k, 0);
    assert q + m[k..k + 0] == q && q + "" == q;
    MatchAtFront(q, ms, a);
    forall x | 0 < x < |q|
      ensures Straddled(Cands(q, ms), x)
    {
      assert Cand(0, |q|, a) in Cands(q, ms);
    }
    WholeTextIsOneSpan(q, ms);
    CutSpanShows(q, "", ms);
  }

  function Longest(ms: seq<Matcher>): (r: nat)
    ensures forall i :: 0 <= i < |ms| ==> |ms[i].value| <= r
  {
    if ms == [] then 0
    else
      var rest := Longest(ms[..|ms| - 1]);
      if |Last(ms).value| > rest then |Last(ms).value| else rest
  }

  lemma GrowingShift(text: string, ms: seq<Matcher>, p: nat, i: nat)
    requires p + i <= |text|
    ensures Growing(text[p..], ms, i) <==> Growing(text, ms, p + i)
  {
    assert text[p..][i..] == text[p + i..];
    forall m | 0 <= m < |ms|
      ensures GrowsInto(text[p..], ms[m].value, i) <==> GrowsInto(text, ms[m].value, p + i)
    {}
  }

  // Torn at g with m incomplete: once the rest of m arrives, q and m together are one span,
  // unless m already occurs across g.
  lemma {:induction false} TornWhenCompleted(ms: seq<Matcher>, a: nat, b: nat, k: nat, j: nat) returns (chunks: seq<string>)
    requires ValidMatchers(ms) && a < |ms| && b < |ms| && Tears(ms, ms[a].value, ms[b].value, k, j)
    requires var q, m := ms[a].value, ms[b].value;
      forall p: nat :: p < |q| - k < p + |m| ==> !OccursAt(q + m[k..], m, p)
    ensures !SameOutput(GuardPieces("", chunks, ms, 0), OneShot(Concat(chunks), ms))
  {
    hide SameOutput, Cands, OneShot, Growing, GuardPieces, GuardCut;
    var q, m := ms[a].value, ms[b].value;
    var head, tail, g := q + m[k..k + j], m[k + j..], |q| - k;
    var text := q + m[k..];
    assert head + tail == text by {
      assert m[k..] == m[k..k + j] + m[k + j..];
    }
    TearCut(ms, a, b, k, j);
    MatchAtFront(text, ms, a);
    assert text[g..] == q[g..] + m[k..] == m[..k] + m[k..] == m;
    assert OccursAt(text, m, g) && forall p: nat :: p < g < p + |m| ==> !Taken(text, m, p);
    TakenIfFree(text, m, g);
    InCands(text, ms, b, g);
    forall x | 0 < x < |text|
      ensures Straddled(Cands(text, ms), x)
    {
      assert Cand(0, |q|, a) in Cands(text, ms) && Cand(g, |text|, b) in Cands(text, ms);
    }
    WholeTextIsOneSpan(text, ms);
    CutSpanShows(head, tail, ms);
    chunks := [head, tail];
  }

  // If m occurs across g, it is torn by itself.
  lemma {:induction false} TornAlone(ms: seq<Matcher>, q: string, b: nat, k: nat, j: nat, p: nat) returns (k2: nat, j2: nat)
    requires b < |ms| && Tears(ms, q, ms[b].value, k, j)
    requires p < |q| - k < p + |ms[b].value| && OccursAt(q + ms[b].value[k..], ms[b].value, p)
    ensures Tears(ms, ms[b].value, ms[b].value, k2, j2)
  {
    hide Growing;
    var m, g := ms[b].value, |q| - k;
    var text := q + m[k..k + j];
    assert text == (q + m[k..])[..|text|];
    assert text[g..] == m[..k + j] by {
      assert text[g..] == q[g..] + m[k..k + j];
    }
    if p + |m| > |text| {
      assert text[p..] == (q + m[k..])[p..p + |m|][..|text| - p] == m[..|text| - p];
      StillGrowing(ms, text, b, p);
    }
    k2, j2 := p + |m| - g, |text| - (p + |m|);
    assert text[p..p + |m|] == m;
    TornInside(ms, text, m, g, p);
  }

  lemma {:induction false} TornInside(ms: seq<Matcher>, text: string, m: string, g: nat, p: nat)
    requires p < g < p + |m| <= |text| < g + |m| && text[p..p + |m|] == m && text[g..] == m[..|text| - g]
    requires NoTailGrows(text, ms, g)
    ensures Tears(ms, m, m, p + |m| - g, |text| - (p + |m|))
  {
    hide Growing;
    var k, j, e := p + |m| - g, |text| - (p + |m|), p + |m|;
    assert m[..k] == m[..|text| - g][..k] == text[g..][..k] == text[g..e];
    assert m[|m| - k..] == text[p..e][|m| - k..] == text[g..e];
    assert m[k..k + j] == m[..|text| - g][k..k + j] == text[g..][k..k + j] == text[e..];
    assert m + m[k..k + j] == text[p..];
    forall i | 0 <= i < g - p
      ensures !Growing(text[p..], ms, i)
    {
      GrowingShift(text, ms, p, i);
      assert !Growing(text, ms, p + i);
    }
  }

  lemma StillGrowing(ms: seq<Matcher>, text: string, b: nat, p: nat)
    requires b < |ms| && p < |text| < p + |ms[b].value| && text[p..] == ms[b].value[..|text| - p]
    ensures Growing(text, ms, p)
  {
    assert GrowsInto(text, ms[b].value, p);
  }

  // Wherever some secret can be torn, some text and chunking come out differently. If m is torn
  // only by itself and only later, a longer secret begins with m, and that one is torn instead.
  lemma {:induction false} TearShows(ms: seq<Matcher>, a: nat, b: nat, k: nat, j: nat) returns (chunks: seq<string>)
    requires ValidMatchers(ms) && a < |ms| && b < |ms| && Tears(ms, ms[a].value, ms[b].value, k, j)
    ensures !SameOutput(GuardPieces("", chunks, ms, 0), OneShot(Concat(chunks), ms))
    decreases Longest(ms) - |ms[b].value|
  {
    hide SameOutput, OneShot, Growing, GuardPieces, NoTailGrows;
    var q, m := ms[a].value, ms[b].value;
    if forall p: nat :: p < |q| - k < p + |m| ==> !OccursAt(q + m[k..], m, p) {
      chunks := TornWhenCompleted(ms, a, b, k, j);
    } else {
      var p: nat :| p < |q| - k < p + |m| && OccursAt(q + m[k..], m, p);
      var k2, j2 := TornAlone(ms, q, b, k, j, p);
      var i := GuardCut(m, ms);
      if i >= |m| - k2 {
        TornNow(ms, m, m, k2, j2);
        TornAtOnce(ms, b, b, k2);
        chunks := [m, ""];
      } else {
        var d := GrowsBy(ms, m, i);
        if i > 0 {
          TornAtFirst(ms, m, ms[d].value, i);
          TornAtOnce(ms, b, d, |m| - i);
          chunks := [m, ""];
        } else {
          TornByLonger(ms, m, ms[d].value, k2, j2);
          chunks := TearShows(ms, b, d, k2, j2);
        }
      }
    }
  }

  lemma GrowsBy(ms: seq<Matcher>, m: string, i: nat) returns (d: nat)
    requires i == GuardCut(m, ms) < |m|
    ensures d < |ms| && GrowsInto(m, ms[d].value, i) && NoTailGrows(m, ms, i)
  {
    d :| 0 <= d < |ms| && GrowsInto(m, ms[d].value, i);
  }

  lemma TornNow(ms: seq<Matcher>, q: string, m: string, k: nat, j: nat)
    requires Tears(ms, q, m, k, j) && GuardCut(q, ms) >= |q| - k
    ensures Tears(ms, q, m, k, 0)
  {
    hide Growing;
    assert q + m[k..k + 0] == q;
  }

  lemma TornAtFirst(ms: seq<Matcher>, m: string, x: string, i: nat)
    requires 0 < i < |m| && GrowsInto(m, x, i) && NoTailGrows(m, ms, i)
    ensures Tears(ms, m, x, |m| - i, 0)
  {
    hide Growing;
    var k := |m| - i;
    assert m + x[k..k + 0] == m;
  }

  lemma TornByLonger(ms: seq<Matcher>, m: string, x: string, k: nat, j: nat)
    requires Tears(ms, m, m, k, j) && GrowsInto(m, x, 0)
    ensures Tears(ms, m, x, k, j) && |x| > |m|
  {
    hide NoTailGrows;
    assert m[0..] == m && x[0..|m|] == x[..|m|];
    assert x[0..|m|] == m;
    SliceSlice(x, 0, |m|, 0, k);
    SliceSlice(x, 0, |m|, k, k + j);
    assert x[0..k] == x[..k] && m[0..k] == m[..k];
  }

  // A cut inside a match happens after the match is complete, where another secret begins.
  lemma {:induction false} BadCutTears(text: string, ms: seq<Matcher>, n: nat)
    requires ValidMatchers(ms) && n <= |text| && Straddled(Cands(text, ms), GuardCut(text[..n], ms))
    ensures SomethingTears(ms)
  {
    hide Cands, SomethingTears;
    var c :| c in Cands(text, ms) && c.start < GuardCut(text[..n], ms) < c.end;
    CutInMatchTears(text, ms, n, c);
  }

  lemma {:induction false} CutInMatchTears(text: string, ms: seq<Matcher>, n: nat, c: Cand)
    requires ValidMatchers(ms) && n <= |text| && c in Cands(text, ms) && c.start < GuardCut(text[..n], ms) < c.end
    ensures SomethingTears(ms)
  {
    hide Cands, Growing, Tears;
    var arrived := text[..n];
    var g := GuardCut(arrived, ms);
    CandShape(text, ms, c);
    InCands(text, ms, c.prio, c.start);
    var q := ms[c.prio].value;
    assert text[c.start..c.end] == q;
    if c.end > n {
      IncompleteIsGrowing(text, ms, n, c);
    }
    assert arrived[c.start..c.end] == q;
    var b := GrowsBy(ms, arrived, g);
    TearsAt(ms, arrived, c.start, g, c.end, q, ms[b].value);
    assert Tears(ms, ms[c.prio].value, ms[b].value, c.end - g, n - c.end);
  }

  lemma {:induction false} TearsAt(ms: seq<Matcher>, text: string, s: nat, g: nat, e: nat, q: string, m: string)
    requires s < g < e <= |text| && text[s..e] == q && GrowsInto(text, m, g) && NoTailGrows(text, ms, g)
    ensures Tears(ms, q, m, e - g, |text| - e)
  {
    hide Growing;
    var n, k, j := |text|, e - g, |text| - e;
    assert text[g..] == text[g..n] && text[s..] == text[s..n];
    SliceSlice(text, g, n, 0, k);
    SliceSlice(text, g, n, k, n - g);
    SliceSlice(text, s, e, |q| - k, e - s);
    assert m[..n - g][0..k] == m[..k] && m[..n - g][k..n - g] == m[k..k + j];
    assert q + m[k..k + j] == text[s..];
    forall i | 0 <= i < |q| - k
      ensures !Growing(text[s..], ms, i)
    {
      GrowingShift(text, ms, s, i);
    }
  }

  lemma NothingTearsNothingCut(text: string, ms: seq<Matcher>)
    requires ValidMatchers(ms) && !SomethingTears(ms)
    ensures GuardCutsAreFree(text, ms)
  {
    forall n: nat | n <= |text|
      ensures !Straddled(Cands(text, ms), GuardCut(text[..n], ms))
    {
      if Straddled(Cands(text, ms), GuardCut(text[..n], ms)) {
        BadCutTears(text, ms, n);
      }
    }
  }

  lemma NothingTearsIsOneShot(chunks: seq<string>, ms: seq<Matcher>)
    requires ValidMatchers(ms) && !SomethingTears(ms)
    ensures GuardPieces("", chunks, ms, 0) == OneShot(Concat(chunks), ms)
  {
    hide GuardPieces, OneShot, SomethingTears;
    NothingTearsNothingCut(Concat(chunks), ms);
    GuardIsOneShot(Concat(chunks), ms);
  }

  // The guard emits the one-shot text and counts on every text and chunking exactly when no
  // secret can tear another, or itself.
  lemma GuardIsExactIff(ms: seq<Matcher>)
    requires ValidMatchers(ms)
    ensures (forall chunks :: SameOutput(GuardPieces("", chunks, ms, 0), OneShot(Concat(chunks), ms)))
            <==> !SomethingTears(ms)
  {
    hide SameOutput, GuardPieces, OneShot, Tears;
    if !SomethingTears(ms) {
      forall chunks
        ensures SameOutput(GuardPieces("", chunks, ms, 0), OneShot(Concat(chunks), ms))
      {
        NothingTearsIsOneShot(chunks, ms);
        SamePieces(GuardPieces("", chunks, ms, 0), OneShot(Concat(chunks), ms));
      }
    } else {
      var a, b, k: nat, j: nat :| 0 <= a < |ms| && 0 <= b < |ms| && Tears(ms, ms[a].value, ms[b].value, k, j);
      var chunks := TearShows(ms, a, b, k, j);
    }
  }

  // No non-empty proper prefix of a secret is a proper suffix of a secret.
  ghost predicate BorderFree(ms: seq<Matcher>) {
    forall i, j, k :: 0 <= i < |ms| && 0 <= j < |ms| ==> !Border(ms[i].value, ms[j].value, k)
  }

  // Then nothing tears, and every text is streamed exactly, whatever the chunks.
  lemma BorderFreeGuardIsOneShot(chunks: seq<string>, ms: seq<Matcher>)
    requires ValidMatchers(ms) && BorderFree(ms)
    ensures GuardPieces("", chunks, ms, 0) == OneShot(Concat(chunks), ms)
    ensures SameOutput(GuardPieces("", chunks, ms, 0), OneShot(Concat(chunks), ms))
  {
    hide GuardPieces, OneShot;
    forall a, b, k: nat, j: nat | 0 <= a < |ms| && 0 <= b < |ms|
      ensures !Tears(ms, ms[a].value, ms[b].value, k, j)
    {
      assert !Border(ms[b].value, ms[a].value, k);
    }
    NothingTearsIsOneShot(chunks, ms);
  }

  // ---------------------------------------------------------------- one secret that overlaps itself

  lemma ShorterThanAll(text: string, ms: seq<Matcher>, base: nat)
    requires ValidMatchers(ms) && forall i :: 0 <= i < |ms| ==> |ms[i].value| > |text|
    ensures Text(FlushPieces(text, ms, base)) == text && Counts(FlushPieces(text, ms, base)) == map[]
  {
    var cs := Cands(text, ms);
    CandsEndInside(text, ms);
    forall x | 0 <= x < |text|
      ensures !Starts(cs, x)
    {}
    ScanClear(cs, ms, text, 0, |text|, base);
    assert text[0..|text|] == text;
  }

  // A secret with a border, fed as one chunk and flushed, leaves in clear and uncounted, where
  // one-shot redaction gives its marker.
  lemma SelfOverlapLeaks(kind: string, q: string, k: nat)
    requires Border(q, q, k)
    ensures var ms := [Matcher(kind, q)];
      && ValidMatchers(ms)
      && Text(GuardPieces("", [q], ms, 0)) == q && Counts(GuardPieces("", [q], ms, 0)) == map[]
      && Text(OneShot(q, ms)) == Marker(kind) && Counts(OneShot(q, ms)) == map[kind := 1]
  {
    var ms := [Matcher(kind, q)];
    var g := GuardCut(q, ms);
    assert ms[0].value == q;
    assert GrowsInto(q, ms[0].value, |q| - k) && Growing(q, ms, |q| - k);
    assert forall m :: 0 <= m < |ms| ==> !GrowsInto(q, ms[m].value, 0);
    assert !Growing(q, ms, 0);
    LeaksInTwo(ms, q, g);
    OneSecretOneMarker(kind, q);
  }

  lemma LeaksInTwo(ms: seq<Matcher>, q: string, g: nat)
    requires ValidMatchers(ms) && (forall i :: 0 <= i < |ms| ==> |ms[i].value| >= |q|)
    requires 0 < g < |q| && g == GuardCut(q, ms)
    ensures Text(GuardPieces("", [q], ms, 0)) == q && Counts(GuardPieces("", [q], ms, 0)) == map[]
  {
    hide GuardCut, FlushPieces, Text, Counts;
    assert "" + q == q && [q][1..] == [];
    var first, second := FlushPieces(q[..g], ms, 0), FlushPieces(q[g..], ms, 0 + g);
    assert GuardPieces("", [q], ms, 0) == first + second;
    ShorterThanAll(q[..g], ms, 0);
    ShorterThanAll(q[g..], ms, 0 + g);
    TextConcat(first, second);
    CountsConcat(first, second);
    assert q[..g] + q[g..] == q;
  }

  lemma OneSecretOneMarker(kind: string, q: string)
    requires q != ""
    ensures var ms := [Matcher(kind, q)];
      Text(OneShot(q, ms)) == Marker(kind) && Counts(OneShot(q, ms)) == map[kind := 1]
  {
    hide Text, Counts;
    var ms := [Matcher(kind, q)];
    var cs := Cands(q, ms);
    MatchAtFront(q, ms, 0);
    forall x | 0 < x < |q|
      ensures Straddled(cs, x)
    {
      assert Cand(0, |q|, 0) in cs;
    }
    WholeTextIsOneSpan(q, ms);
    CandsEndInside(q, ms);
    UpIs(cs, 1, |q|, |q|);
    assert Contributes(cs, 0, |q|, 0);
    var one := OneShot(q, ms)[0];
    assert one.kind == kind;
    assert OneShot(q, ms) == [one];
    OnePiece(one);
  }

  // For a single secret: exact on every text and chunking if and only if it has no border.
  lemma SingleSecretIff(kind: string, q: string)
    requires q != ""
    ensures var ms := [Matcher(kind, q)];
      && ValidMatchers(ms)
      && ((forall chunks :: SameOutput(GuardPieces("", chunks, ms, 0), OneShot(Concat(chunks), ms)))
          <==> forall k :: !Border(q, q, k))
  {
    hide GuardPieces, OneShot, Text, Counts;
    var ms := [Matcher(kind, q)];
    if forall k :: !Border(q, q, k) {
      forall chunks
        ensures SameOutput(GuardPieces("", chunks, ms, 0), OneShot(Concat(chunks), ms))
      {
        BorderFreeGuardIsOneShot(chunks, ms);
      }
    } else {
      var k: nat :| Border(q, q, k);
      SelfOverlapLeaks(kind, q, k);
      assert Concat([q]) == q by {
        assert [q][1..] == [];
      }
      assert kind in Counts(OneShot(Concat([q]), ms));
      assert !SameOutput(GuardPieces("", [q], ms, 0), OneShot(Concat([q]), ms));
    }
  }

  // The shortest such leak worth naming: a six-letter secret that ends as it begins.
  lemma LeakExample()
    ensures var ms := [Matcher("key", "abcdea")];
      && ValidMatchers(ms)
      && Text(GuardPieces("", ["abcdea"], ms, 0)) == "abcdea"
      && Text(OneShot("abcdea", ms)) == Marker("key")
  {
    SelfOverlapLeaks("key", "abcdea", 1);
  }

  // Border-freeness is more than the guard needs: `bc` begins where `ab` ends, but the guard
  // holds `ab` back as a beginning of `abx`.
  lemma BordersMayBeHarmless()
    ensures var ms := [Matcher("x", "abx"), Matcher("y", "ab"), Matcher("z", "bc")];
      ValidMatchers(ms) && !BorderFree(ms) && !SomethingTears(ms)
  {
    var ms := [Matcher("x", "abx"), Matcher("y", "ab"), Matcher("z", "bc")];
    assert Border(ms[2].value, ms[1].value, 1);
    hide Border, Tears;
    forall a, b, k: nat, j: nat | 0 <= a < |ms| && 0 <= b < |ms|
      ensures !Tears(ms, ms[a].value, ms[b].value, k, j)
    {
      assert ms[a].value in ["abx", "ab", "bc"] && ms[b].value in ["abx", "ab", "bc"];
      HarmlessPair(ms, ms[a].value, ms[b].value, k, j);
    }
  }

  lemma HarmlessPair(ms: seq<Matcher>, q: string, m: string, k: nat, j: nat)
    requires |ms| == 3 && ms[0].value == "abx" && q in ["abx", "ab", "bc"] && m in ["abx", "ab", "bc"]
    ensures !Tears(ms, q, m, k, j)
  {
    hide Growing;
    if Border(m, q, k) && k + j < |m| {
      OnlyBorder(q, m, k, j);
      HoldsAb(ms);
    }
  }

  lemma HoldsAb(ms: seq<Matcher>)
    requires |ms| == 3 && ms[0].value == "abx"
    ensures Growing("ab", ms, 0)
  {
    assert GrowsInto("ab", ms[0].value, 0);
  }

  // Of these three secrets only bc continues one, namely ab, and by one character.
  lemma OnlyBorder(q: string, m: string, k: nat, j: nat)
    requires q in ["abx", "ab", "bc"] && m in ["abx", "ab", "bc"] && Border(m, q, k) && k + j < |m|
    ensures q == "ab" && m == "bc" && k == 1 && j == 0 && q + m[k..k + j] == "ab"
  {
    assert m[..k][0] == m[0] && q[|q| - k..][0] == q[|q| - k];
  }

  // ---------------------------------------------------------------- what never leaves

  // Whatever the chunks: a secret no marker can be mistaken for does not occur in the joined
  // output of the window stream, when no secret ends as another begins.
  lemma NoSecretLeavesTheStream(chunks: seq<string>, ms: seq<Matcher>, window: nat, i: nat)
    requires ValidMatchers(ms) && WindowCovers(ms, window) && NoCrossBorders(ms)
    requires i < |ms| && ApartFromMarkers(ms, ms[i].value)
    ensures !Contains(Text(StreamPieces("", chunks, ms, window, 0)), ms[i].value)
  {
    hide StreamPieces, OneShot, Contains, NoCrossBorders, ApartFromMarkers;
    NoCrossBordersStreamIsExact(chunks, ms, window);
    NoSecretComesOut(Concat(chunks), ms, i);
  }

  // Nor in that of the guard, when no secret tears another or itself.
  lemma NoSecretLeavesTheGuard(chunks: seq<string>, ms: seq<Matcher>, i: nat)
    requires ValidMatchers(ms) && !SomethingTears(ms)
    requires i < |ms| && ApartFromMarkers(ms, ms[i].value)
    ensures !Contains(Text(GuardPieces("", chunks, ms, 0)), ms[i].value)
  {
    hide GuardPieces, OneShot, Contains, SomethingTears, ApartFromMarkers;
    NothingTearsIsOneShot(chunks, ms);
    NoSecretComesOut(Concat(chunks), ms, i);
  }
}
