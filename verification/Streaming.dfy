// Chunk-wise redaction against one-shot redaction.
//
// Two hold-back strategies read a text that arrives in arbitrary chunks. The window
// strategy always keeps the last `window` characters; the guard keeps only a tail that
// could still grow into a secret. Both are compared, piece by piece and location by
// location, with the one-shot reading of the whole text.
module Streaming {
  import opened Seqs
  import opened Spans

  // ---------------------------------------------------------------- fixed window

  ghost predicate WindowCovers(ms: seq<Matcher>, window: nat) {
    window >= 1 && forall i :: 0 <= i < |ms| ==> |ms[i].value| <= window
  }

  // How much of the buffer one feed finalises: everything before the window, moved past a
  // span that reaches into it, or back to the start of a span that reaches the buffer's end.
  ghost function FinalCut(buf: string, ms: seq<Matcher>, window: nat): (f: nat)
    requires ValidMatchers(ms) && window >= 1
    ensures f <= |buf| && !Straddled(Cands(buf, ms), f)
  {
    CandsEndInside(buf, ms);
    var cs := Cands(buf, ms);
    if |buf| <= window then 0
    else
      var cut := |buf| - window;
      var e := Up(cs, cut, |buf|);
      if e == |buf| then Down(cs, cut) else e
  }

  ghost function FeedPieces(buf: string, ms: seq<Matcher>, window: nat, base: nat): seq<Piece>
    requires ValidMatchers(ms) && window >= 1
  {
    Scan(Cands(buf, ms), ms, buf, 0, FinalCut(buf, ms, window), base)
  }

  ghost function FlushPieces(buf: string, ms: seq<Matcher>, base: nat): seq<Piece>
    requires ValidMatchers(ms)
  {
    CandsEndInside(buf, ms);
    Scan(Cands(buf, ms), ms, buf, 0, |buf|, base)
  }

  // A whole stream: `base` characters are already out, `buf` is held, `chunks` will come.
  ghost function StreamPieces(buf: string, chunks: seq<string>, ms: seq<Matcher>, window: nat, base: nat): seq<Piece>
    requires ValidMatchers(ms) && window >= 1
    decreases |chunks|
  {
    if chunks == [] then FlushPieces(buf, ms, base)
    else
      var b := buf + chunks[0];
      var f := FinalCut(b, ms, window);
      FeedPieces(b, ms, window, base) + StreamPieces(b[f..], chunks[1..], ms, window, base + f)
  }

  // After n characters, the window has closed a span [.., e) although a later match will
  // still overlap it: the cut at e goes through a span of the whole text.
  ghost predicate ClosedTooEarly(text: string, ms: seq<Matcher>, window: nat, n: nat, e: nat)
    requires ValidMatchers(ms)
  {
    && window < n <= |text| && n - window <= e < n
    && !Straddled(Cands(text[..n], ms), e)
    && (forall x :: n - window <= x < e ==> Straddled(Cands(text[..n], ms), x))
    && Straddled(Cands(text, ms), e)
  }

  ghost predicate NeverClosedTooEarly(text: string, ms: seq<Matcher>, window: nat)
    requires ValidMatchers(ms)
  {
    forall n, e :: !ClosedTooEarly(text, ms, window, n, e)
  }

  // Before the cut, a prefix and a window of it disagree on nothing the cut depends on.
  lemma WindowInPrefix(text: string, ms: seq<Matcher>, a: nat, n: nat, x: nat)
    requires ValidMatchers(ms) && a <= x <= n <= |text| && !Straddled(Cands(text, ms), a)
    ensures Straddled(Cands(text[a..n], ms), x - a) <==> Straddled(Cands(text[..n], ms), x)
  {
    CandsEndInside(text, ms);
    CandsEndInside(text[a..n], ms);
    CandsEndInside(text[..n], ms);
    CandsLocal(text, ms, a, n);
    CandsLocal(text, ms, 0, n);
    assert text[0..n] == text[..n];
    StraddledLocal(Cands(text[a..n], ms), Cands(text, ms), 0, n - a, a, x - a);
    StraddledLocal(Cands(text[..n], ms), Cands(text, ms), 0, n, 0, x);
  }

  // Where a cut can be: not past the window's edge, or at the end of a span over that edge.
  lemma CutShape(buf: string, ms: seq<Matcher>, window: nat)
    requires ValidMatchers(ms) && window >= 1
    ensures var f := FinalCut(buf, ms, window);
      f == 0 || f <= |buf| - window
      || (window < |buf| && f < |buf| && forall x :: |buf| - window <= x < f ==> Straddled(Cands(buf, ms), x))
  {
    CandsEndInside(buf, ms);
    if |buf| > window {
      UpSkips(Cands(buf, ms), |buf| - window, |buf|);
    }
  }

  // A cut through a span of the whole text was made at the end of a span closed too early.
  lemma BadCut(text: string, ms: seq<Matcher>, window: nat, a: nat, n: nat)
    requires ValidMatchers(ms) && WindowCovers(ms, window)
    requires a <= n <= |text| && !Straddled(Cands(text, ms), a)
    requires Straddled(Cands(text, ms), a + FinalCut(text[a..n], ms, window))
    ensures ClosedTooEarly(text, ms, window, n, a + FinalCut(text[a..n], ms, window))
  {
    var f := FinalCut(text[a..n], ms, window);
    OverTheEdge(text, ms, window, a, n, f);
    CutShape(text[a..n], ms, window);
    WindowInPrefix(text, ms, a, n, a + f);
    forall x | n - window <= x < a + f
      ensures Straddled(Cands(text[..n], ms), x)
    {
      WindowInPrefix(text, ms, a, n, x);
    }
  }

  // A match of the whole text over a position that the buffer finds free ends past the
  // buffer, so it starts inside the window.
  lemma OverTheEdge(text: string, ms: seq<Matcher>, window: nat, a: nat, n: nat, f: nat)
    requires ValidMatchers(ms) && WindowCovers(ms, window) && a + f <= n <= |text|
    requires !Straddled(Cands(text, ms), a) && !Straddled(Cands(text[a..n], ms), f)
    requires Straddled(Cands(text, ms), a + f)
    ensures a + f > n - window && f > 0
  {
    var c :| c in Cands(text, ms) && c.start < a + f < c.end;
    CandShape(text, ms, c);
    FreeReachesOver(text, ms, a, n, f, c);
  }

  // A match of the whole text over a position the buffer finds free ends past the buffer.
  lemma FreeReachesOver(text: string, ms: seq<Matcher>, a: nat, n: nat, f: nat, c: Cand)
    requires ValidMatchers(ms) && a + f <= n <= |text|
    requires !Straddled(Cands(text, ms), a) && !Straddled(Cands(text[a..n], ms), f)
    requires c in Cands(text, ms) && c.start < a + f < c.end
    ensures c.end > n
  {
    CandsEndInside(text[a..n], ms);
    CandsLocal(text, ms, a, n);
    StraddledLocal(Cands(text[a..n], ms), Cands(text, ms), 0, n - a, a, f);
  }

  lemma {:induction false} StreamFrom(text: string, a: nat, n: nat, chunks: seq<string>, ms: seq<Matcher>, window: nat)
    requires ValidMatchers(ms) && WindowCovers(ms, window) && NeverClosedTooEarly(text, ms, window)
    requires a <= n <= |text| && !Straddled(Cands(text, ms), a)
    requires Concat(chunks) == text[n..]
    ensures !Straddled(Cands(text, ms), |text|)
    ensures StreamPieces(text[a..n], chunks, ms, window, a) == Scan(Cands(text, ms), ms, text, a, |text|, 0)
    decreases |chunks|
  {
    hide Cands, Scan, FinalCut, Straddled, NeverClosedTooEarly, ValidMatchers;
    CandsEndInside(text, ms);
    if chunks == [] {
      assert n == |text|;
      calc {
        StreamPieces(text[a..n], chunks, ms, window, a);
        FlushPieces(text[a..n], ms, a);
        { FlushIsPart(text, ms, a); }
        Scan(Cands(text, ms), ms, text, a, |text|, 0);
      }
    } else {
      var m := n + |chunks[0]|;
      ChunkArrives(text, a, n, chunks);
      var f := FinalCut(text[a..m], ms, window);
      FeedIsPart(text, ms, window, a, m);
      calc {
        StreamPieces(text[a..n], chunks, ms, window, a);
        { assert text[a..n] + chunks[0] == text[a..m]; }
        FeedPieces(text[a..m], ms, window, a) + StreamPieces(text[a..m][f..], chunks[1..], ms, window, a + f);
        { StreamFrom(text, a + f, m, chunks[1..], ms, window); }
        Scan(Cands(text, ms), ms, text, a, a + f, 0) + Scan(Cands(text, ms), ms, text, a + f, |text|, 0);
        { ScanConcat(Cands(text, ms), ms, text, a, a + f, |text|, 0); }
        Scan(Cands(text, ms), ms, text, a, |text|, 0);
      }
    }
  }

  lemma FlushIsPart(text: string, ms: seq<Matcher>, a: nat)
    requires ValidMatchers(ms) && a <= |text| && !Straddled(Cands(text, ms), a)
    ensures !Straddled(Cands(text, ms), |text|)
    ensures FlushPieces(text[a..|text|], ms, a) == Scan(Cands(text, ms), ms, text, a, |text|, 0)
  {
    CandsEndInside(text, ms);
    ScanPart(text, ms, a, |text|, |text| - a);
  }

  // One feed of a buffer text[a..m] outputs the whole text's reading up to its cut.
  lemma FeedIsPart(text: string, ms: seq<Matcher>, window: nat, a: nat, m: nat)
    requires ValidMatchers(ms) && WindowCovers(ms, window) && NeverClosedTooEarly(text, ms, window)
    requires a <= m <= |text| && !Straddled(Cands(text, ms), a)
    ensures var f := FinalCut(text[a..m], ms, window);
      && !Straddled(Cands(text, ms), a + f)
      && FeedPieces(text[a..m], ms, window, a) == Scan(Cands(text, ms), ms, text, a, a + f, 0)
      && text[a..m][f..] == text[a + f..m]
  {
    var f := FinalCut(text[a..m], ms, window);
    if Straddled(Cands(text, ms), a + f) {
      BadCut(text, ms, window, a, m);
    }
    ScanPart(text, ms, a, m, f);
    SliceSlice(text, a, m, f, m - a);
  }

  lemma ChunkArrives(text: string, a: nat, n: nat, chunks: seq<string>)
    requires a <= n <= |text| && chunks != [] && Concat(chunks) == text[n..]
    ensures n + |chunks[0]| <= |text| && text[a..n] + chunks[0] == text[a..n + |chunks[0]|]
    ensures Concat(chunks[1..]) == text[n + |chunks[0]|..]
  {}

  // The window strategy reproduces the one-shot reading for every way of cutting the text
  // into chunks exactly when no span is closed before a later overlapping match arrives. This
  // speaks of located pieces; `Exactness` turns it into emitted text and counts.
  lemma StreamIsOneShot(text: string, ms: seq<Matcher>, window: nat)
    requires ValidMatchers(ms) && WindowCovers(ms, window)
    ensures (forall chunks | Concat(chunks) == text :: StreamPieces("", chunks, ms, window, 0) == OneShot(text, ms))
            <==> NeverClosedTooEarly(text, ms, window)
  {
    hide StreamPieces, OneShot, ClosedTooEarly;
    if NeverClosedTooEarly(text, ms, window) {
      forall chunks | Concat(chunks) == text
        ensures StreamPieces("", chunks, ms, window, 0) == OneShot(text, ms)
      {
        NeverEarlyIsOneShot(text, chunks, ms, window);
      }
    } else {
      var n: nat, e: nat :| ClosedTooEarly(text, ms, window, n, e);
      EarlyInRange(text, ms, window, n, e);
      TwoChunks(text, n);
      SplitsSpan(text, ms, window, n, e);
      assert StreamPieces("", [text[..n], text[n..]], ms, window, 0) != OneShot(text, ms);
    }
  }

  lemma NeverEarlyIsOneShot(text: string, chunks: seq<string>, ms: seq<Matcher>, window: nat)
    requires ValidMatchers(ms) && WindowCovers(ms, window) && NeverClosedTooEarly(text, ms, window) && Concat(chunks) == text
    ensures StreamPieces("", chunks, ms, window, 0) == OneShot(text, ms)
  {
    hide Cands, StreamPieces, Scan, NeverClosedTooEarly;
    CandsEndInside(text, ms);
    assert text[0..0] == "" && text[0..] == text;
    StreamFrom(text, 0, 0, chunks, ms, window);
  }

  lemma EarlyInRange(text: string, ms: seq<Matcher>, window: nat, n: nat, e: nat)
    requires ValidMatchers(ms) && ClosedTooEarly(text, ms, window, n, e)
    ensures n <= |text|
  {}

  // Fed as text[..n] and the rest, the stream ends a piece at e; the one-shot reading never does.
  lemma SplitsSpan(text: string, ms: seq<Matcher>, window: nat, n: nat, e: nat)
    requires ValidMatchers(ms) && WindowCovers(ms, window) && ClosedTooEarly(text, ms, window, n, e)
    ensures StreamPieces("", [text[..n], text[n..]], ms, window, 0) != OneShot(text, ms)
  {
    var chunks := [text[..n], text[n..]];
    var b := "" + chunks[0];
    assert b == text[..n];
    CandsEndInside(b, ms);
    UpIs(Cands(b, ms), n - window, n, e);
    assert FinalCut(b, ms, window) == e;
    ScanEnds(Cands(b, ms), ms, b, 0, e, 0);
    var first := FeedPieces(b, ms, window, 0);
    assert e > 0 && Last(first) in first;
    var all := StreamPieces("", chunks, ms, window, 0);
    assert all == first + StreamPieces(b[e..], chunks[1..], ms, window, 0 + e);
    assert Last(first) in all && Last(first).End() == e;
    CandsEndInside(text, ms);
    ScanEnds(Cands(text, ms), ms, text, 0, |text|, 0);
    assert Last(first) !in OneShot(text, ms);
  }

  // ---------------------------------------------------------------- when nothing closes early

  // A stretch held together by overlapping matches.
  ghost predicate Solid(cs: set<Cand>, s: int, e: int) {
    s < e && forall x :: s < x < e ==> Straddled(cs, x)
  }

  ghost predicate RunsWithin(cs: set<Cand>, limit: int) {
    forall s, e :: Solid(cs, s, e) ==> e - s <= limit
  }

  // Matches of different secrets are nested or disjoint.
  ghost predicate NestedOrDisjoint(cs: set<Cand>) {
    forall c, d :: c in cs && d in cs && c.prio != d.prio && c.start < d.start < c.end ==> d.end <= c.end
  }

  // No span is closed early when no run of overlapping matches outgrows the window by two.
  lemma ShortRunsNeverClosedTooEarly(text: string, ms: seq<Matcher>, window: nat)
    requires ValidMatchers(ms) && WindowCovers(ms, window)
    requires RunsWithin(Cands(text, ms), window + 1)
    ensures NeverClosedTooEarly(text, ms, window)
  {
    forall n: nat, e: nat
      ensures !ClosedTooEarly(text, ms, window, n, e)
    {
      if ClosedTooEarly(text, ms, window, n, e) {
        EarlyCloseIsLong(text, ms, window, n, e);
      }
    }
  }

  lemma EarlyCloseIsLong(text: string, ms: seq<Matcher>, window: nat, n: nat, e: nat)
    requires ValidMatchers(ms) && WindowCovers(ms, window) && ClosedTooEarly(text, ms, window, n, e)
    ensures exists s, t :: Solid(Cands(text, ms), s, t) && t - s >= window + 2
  {
    var whole, prefix := Cands(text, ms), Cands(text[..n], ms);
    CandsEndInside(text, ms);
    var c :| c in whole && c.start < e < c.end;
    assert text[0..n] == text[..n];
    FreeReachesOver(text, ms, 0, n, e, c);
    CandShape(text, ms, c);
    assert c.end - c.start <= window;
    assert Straddled(prefix, n - window);
    PrefixIsWhole(text, ms, n, n - window);
    var d :| d in whole && d.start < n - window < d.end;
    forall x | d.start < x < c.end
      ensures Straddled(whole, x)
    {
      if n - window <= x < e {
        assert Straddled(prefix, x);
        PrefixIsWhole(text, ms, n, x);
      }
    }
    assert Solid(whole, d.start, c.end);
  }

  lemma PrefixIsWhole(text: string, ms: seq<Matcher>, n: nat, x: nat)
    requires ValidMatchers(ms) && x <= n <= |text| && Straddled(Cands(text[..n], ms), x)
    ensures Straddled(Cands(text, ms), x)
  {
    CandsEndInside(text, ms);
    CandsEndInside(text[..n], ms);
    assert text[0..n] == text[..n];
    CandsLocal(text, ms, 0, n);
    StraddledLocal(Cands(text[..n], ms), Cands(text, ms), 0, n, 0, x);
  }

  // Two matches of the same secret never overlap.
  lemma SameSecretDisjoint(text: string, ms: seq<Matcher>, c: Cand, d: Cand)
    requires ValidMatchers(ms) && c in Cands(text, ms) && d in Cands(text, ms)
    requires c.prio == d.prio && c.start < d.start
    ensures c.end <= d.start
  {}

  // Nested-or-disjoint matches make every run one match, so runs fit the window.
  lemma NestedRunsFit(text: string, ms: seq<Matcher>, window: nat)
    requires ValidMatchers(ms) && WindowCovers(ms, window) && NestedOrDisjoint(Cands(text, ms))
    ensures RunsWithin(Cands(text, ms), window)
  {
    forall s, e | Solid(Cands(text, ms), s, e)
      ensures e - s <= window
    {
      if s + 1 < e {
        assert Straddled(Cands(text, ms), s + 1);
        var c :| c in Cands(text, ms) && c.start < s + 1 < c.end;
        RunInsideMatch(text, ms, window, s, e, c);
      }
    }
  }

  lemma {:induction false} RunInsideMatch(text: string, ms: seq<Matcher>, window: nat, s: int, e: int, c: Cand)
    requires ValidMatchers(ms) && WindowCovers(ms, window) && NestedOrDisjoint(Cands(text, ms))
    requires Solid(Cands(text, ms), s, e) && c in Cands(text, ms) && c.start <= s < c.end <= |text|
    ensures e - s <= window
    decreases |text| - c.end
  {
    CandShape(text, ms, c);
    if c.end < e {
      assert Straddled(Cands(text, ms), c.end);
      var d :| d in Cands(text, ms) && d.start < c.end < d.end;
      CandShape(text, ms, d);
      if c.prio == d.prio && c.start < d.start {
        SameSecretDisjoint(text, ms, c, d);
      }
      RunInsideMatch(text, ms, window, s, e, d);
    }
  }

  // For nested-or-disjoint matches every chunking gives the one-shot output, text and counts,
  // and never holds back more than the window.
  lemma NestedStreamIsOneShot(text: string, chunks: seq<string>, ms: seq<Matcher>, window: nat)
    requires ValidMatchers(ms) && WindowCovers(ms, window) && NestedOrDisjoint(Cands(text, ms))
    requires Concat(chunks) == text
    ensures StreamPieces("", chunks, ms, window, 0) == OneShot(text, ms)
    ensures Text(StreamPieces("", chunks, ms, window, 0)) == Text(OneShot(text, ms))
    ensures Counts(StreamPieces("", chunks, ms, window, 0)) == Counts(OneShot(text, ms))
    ensures forall a, n | 0 <= a <= n <= |text| && !Straddled(Cands(text, ms), a) ::
      n - a - FinalCut(text[a..n], ms, window) <= window
  {
    hide Cands, Scan, FinalCut, OneShot, NestedOrDisjoint;
    NestedRunsFit(text, ms, window);
    ShortRunsNeverClosedTooEarly(text, ms, window);
    StreamIsOneShot(text, ms, window);
    forall a, n | 0 <= a <= n <= |text| && !Straddled(Cands(text, ms), a)
      ensures n - a - FinalCut(text[a..n], ms, window) <= window
    {
      HeldFits(text, ms, window, a, n);
    }
  }

  // The held tail outgrows the window only under a run of matches longer than the window.
  lemma HeldFits(text: string, ms: seq<Matcher>, window: nat, a: nat, n: nat)
    requires ValidMatchers(ms) && window >= 1 && RunsWithin(Cands(text, ms), window)
    requires a <= n <= |text| && !Straddled(Cands(text, ms), a)
    ensures n - a - FinalCut(text[a..n], ms, window) <= window
  {
    var buf := text[a..n];
    CandsEndInside(buf, ms);
    hide Cands, Straddled;
    var part, f := Cands(buf, ms), FinalCut(buf, ms, window);
    if |buf| > window && f < |buf| - window {
      var cut := |buf| - window;
      UpSkips(part, cut, |buf|);
      DownSkips(part, cut);
      SolidPartIsWhole(text, ms, a, n, f);
    }
  }

  lemma SolidPartIsWhole(text: string, ms: seq<Matcher>, a: nat, n: nat, f: nat)
    requires ValidMatchers(ms) && a + f < n <= |text| && !Straddled(Cands(text, ms), a)
    requires forall x :: f < x < n - a ==> Straddled(Cands(text[a..n], ms), x)
    ensures Solid(Cands(text, ms), a + f, n)
  {
    hide Cands, Straddled;
    forall x | a + f < x < n
      ensures Straddled(Cands(text, ms), x)
    {
      assert Straddled(Cands(text[a..n], ms), x - a);
      PartIsWhole(text, ms, a, n, x);
    }
  }

  lemma {:induction false} DownSkips(cs: set<Cand>, p: nat)
    requires !Straddled(cs, 0)
    ensures forall x :: Down(cs, p) < x <= p ==> Straddled(cs, x)
    decreases p
  {
    if Straddled(cs, p) {
      DownSkips(cs, p - 1);
    }
  }

  lemma PartIsWhole(text: string, ms: seq<Matcher>, a: nat, n: nat, x: nat)
    requires ValidMatchers(ms) && a <= x <= n <= |text| && !Straddled(Cands(text, ms), a)
    requires Straddled(Cands(text[a..n], ms), x - a)
    ensures Straddled(Cands(text, ms), x)
  {
    CandsEndInside(text[a..n], ms);
    CandsLocal(text, ms, a, n);
    StraddledLocal(Cands(text[a..n], ms), Cands(text, ms), 0, n - a, a, x - a);
  }

  // ---------------------------------------------------------------- the guard

  // The tail from i could still grow into a secret.
  predicate Growing(buf: string, ms: seq<Matcher>, i: nat) {
    i < |buf| && exists m :: 0 <= m < |ms| && GrowsInto(buf, ms[m].value, i)
  }

  predicate GrowsInto(buf: string, value: string, i: nat) {
    i < |buf| && |buf| - i < |value| && value[..|buf| - i] == buf[i..]
  }

  // The guard emits everything before the first tail that could still grow.
  function GuardCut(buf: string, ms: seq<Matcher>, from: nat := 0): (g: nat)
    requires from <= |buf|
    ensures from <= g <= |buf| && (g == |buf| || Growing(buf, ms, g))
    ensures forall i :: from <= i < g ==> !Growing(buf, ms, i)
    decreases |buf| - from
  {
    if from == |buf| || Growing(buf, ms, from) then from else GuardCut(buf, ms, from + 1)
  }

  ghost function GuardPieces(held: string, chunks: seq<string>, ms: seq<Matcher>, base: nat): seq<Piece>
    requires ValidMatchers(ms)
    decreases |chunks|
  {
    if chunks == [] then FlushPieces(held, ms, base)
    else
      var b := held + chunks[0];
      var g := GuardCut(b, ms);
      FlushPieces(b[..g], ms, base) + GuardPieces(b[g..], chunks[1..], ms, base + g)
  }

  ghost predicate GuardCutsAreFree(text: string, ms: seq<Matcher>)
    requires ValidMatchers(ms)
  {
    forall n: nat | n <= |text| :: !Straddled(Cands(text, ms), GuardCut(text[..n], ms))
  }

  // Where the guard cuts depends only on how much has arrived, not on how it arrived.
  lemma GuardCutLocal(text: string, ms: seq<Matcher>, a: nat, n: nat)
    requires a <= n <= |text| && forall i :: 0 <= i < a ==> !Growing(text[..n], ms, i)
    ensures a + GuardCut(text[a..n], ms) == GuardCut(text[..n], ms)
  {
    forall i | a <= i <= n
      ensures Growing(text[..n], ms, i) <==> Growing(text[a..n], ms, i - a)
    {
      assert text[..n][i..] == text[i..n] == text[a..n][i - a..];
      forall m | 0 <= m < |ms|
        ensures GrowsInto(text[..n], ms[m].value, i) <==> GrowsInto(text[a..n], ms[m].value, i - a)
      {}
    }
    GuardCutIs(text[..n], ms, 0, a + GuardCut(text[a..n], ms));
  }

  lemma {:induction false} GuardCutIs(buf: string, ms: seq<Matcher>, from: nat, g: nat)
    requires from <= g <= |buf| && (g == |buf| || Growing(buf, ms, g))
    requires forall i :: from <= i < g ==> !Growing(buf, ms, i)
    ensures GuardCut(buf, ms, from) == g
    decreases g - from
  {}

  // A tail that has stopped growing never grows again.
  lemma StopsGrowing(text: string, ms: seq<Matcher>, n: nat, m: nat, i: nat)
    requires i < n <= m <= |text| && Growing(text[..m], ms, i)
    ensures Growing(text[..n], ms, i)
  {
    var k :| 0 <= k < |ms| && GrowsInto(text[..m], ms[k].value, i);
    assert text[..m][i..] == text[i..m] && text[..n][i..] == text[i..n];
    assert ms[k].value[..n - i] == ms[k].value[..m - i][..n - i] == text[i..m][..n - i] == text[i..n];
    assert GrowsInto(text[..n], ms[k].value, i);
  }

  lemma {:induction false} GuardFrom(text: string, a: nat, n: nat, chunks: seq<string>, ms: seq<Matcher>)
    requires ValidMatchers(ms) && GuardCutsAreFree(text, ms)
    requires a <= n <= |text| && !Straddled(Cands(text, ms), a)
    requires forall i :: 0 <= i < a ==> !Growing(text[..n], ms, i)
    requires Concat(chunks) == text[n..]
    ensures !Straddled(Cands(text, ms), |text|)
    ensures GuardPieces(text[a..n], chunks, ms, a) == Scan(Cands(text, ms), ms, text, a, |text|, 0)
    decreases |chunks|
  {
    hide Cands, Scan, Straddled, ValidMatchers, FlushPieces, Growing, GuardCut, GuardCutsAreFree;
    CandsEndInside(text, ms);
    if chunks == [] {
      assert n == |text|;
      FlushIsPart(text, ms, a);
    } else {
      var m := n + |chunks[0]|;
      ChunkArrives(text, a, n, chunks);
      var g := GuardCut(text[a..m], ms);
      GuardStep(text, a, n, m, ms);
      calc {
        GuardPieces(text[a..n], chunks, ms, a);
        { assert text[a..n] + chunks[0] == text[a..m]; }
        FlushPieces(text[a..m][..g], ms, a) + GuardPieces(text[a..m][g..], chunks[1..], ms, a + g);
        { GuardFrom(text, a + g, m, chunks[1..], ms); }
        Scan(Cands(text, ms), ms, text, a, a + g, 0) + Scan(Cands(text, ms), ms, text, a + g, |text|, 0);
        { ScanConcat(Cands(text, ms), ms, text, a, a + g, |text|, 0); }
        Scan(Cands(text, ms), ms, text, a, |text|, 0);
      }
    }
  }

  // The first m characters have arrived, those up to e are out, and they came out as they read.
  ghost predicate GuardStepped(text: string, a: nat, e: nat, m: nat, ms: seq<Matcher>)
    requires ValidMatchers(ms) && a <= e <= m <= |text|
  {
    && !Straddled(Cands(text, ms), e)
    && (forall i :: 0 <= i < e ==> !Growing(text[..m], ms, i))
    && FlushPieces(text[a..e], ms, a) == Scan(Cands(text, ms), ms, text, a, e, 0)
  }

  lemma GuardStep(text: string, a: nat, n: nat, m: nat, ms: seq<Matcher>)
    requires ValidMatchers(ms) && GuardCutsAreFree(text, ms)
    requires a <= n <= m <= |text| && !Straddled(Cands(text, ms), a)
    requires forall i :: 0 <= i < a ==> !Growing(text[..n], ms, i)
    ensures var g := GuardCut(text[a..m], ms);
      && a + g <= m && text[a..m][..g] == text[a..a + g] && text[a..m][g..] == text[a + g..m]
      && GuardStepped(text, a, a + g, m, ms)
  {
    hide Cands, Scan, Straddled, Growing;
    forall i | 0 <= i < a
      ensures !Growing(text[..m], ms, i)
    {
      if Growing(text[..m], ms, i) {
        StopsGrowing(text, ms, n, m, i);
      }
    }
    GuardCutLocal(text, ms, a, m);
    var g := GuardCut(text[a..m], ms);
    SliceSlice(text, a, m, g, m - a);
    SliceSlice(text, a, m, 0, g);
    assert text[a..m][..g] == text[a..a + g];
    ScanPart(text, ms, a, a + g, g);
  }

  // The guard reproduces the one-shot reading for every chunking of a text, piece by piece and
  // place by place, exactly when none of its cuts goes through a span of that text. `Exactness`
  // says which secrets allow that, and that otherwise emitted text or counts differ.
  lemma GuardIsOneShot(text: string, ms: seq<Matcher>)
    requires ValidMatchers(ms)
    ensures (forall chunks | Concat(chunks) == text :: GuardPieces("", chunks, ms, 0) == OneShot(text, ms))
            <==> GuardCutsAreFree(text, ms)
  {
    hide GuardPieces, OneShot, Straddled, Cands, GuardCut;
    if GuardCutsAreFree(text, ms) {
      forall chunks | Concat(chunks) == text
        ensures GuardPieces("", chunks, ms, 0) == OneShot(text, ms)
      {
        FreeCutsAreOneShot(text, chunks, ms);
      }
    } else {
      var n: nat :| n <= |text| && Straddled(Cands(text, ms), GuardCut(text[..n], ms));
      TwoChunks(text, n);
      GuardSplits(text, ms, n);
    }
  }

  lemma FreeCutsAreOneShot(text: string, chunks: seq<string>, ms: seq<Matcher>)
    requires ValidMatchers(ms) && GuardCutsAreFree(text, ms) && Concat(chunks) == text
    ensures GuardPieces("", chunks, ms, 0) == OneShot(text, ms)
  {
    hide GuardPieces, Cands, Scan, GuardCutsAreFree;
    CandsEndInside(text, ms);
    assert text[0..0] == "" && text[0..] == text;
    GuardFrom(text, 0, 0, chunks, ms);
  }

  lemma TwoChunks(text: string, n: nat)
    requires n <= |text|
    ensures Concat([text[..n], text[n..]]) == text
  {
    var chunks := [text[..n], text[n..]];
    assert chunks[1..][1..] == [];
    assert Concat(chunks[1..]) == text[n..];
    assert Concat(chunks) == text[..n] + text[n..];
  }

  lemma GuardSplits(text: string, ms: seq<Matcher>, n: nat)
    requires ValidMatchers(ms) && n <= |text|
    requires Straddled(Cands(text, ms), GuardCut(text[..n], ms))
    ensures GuardPieces("", [text[..n], text[n..]], ms, 0) != OneShot(text, ms)
  {
    hide Cands, Scan, Straddled, GuardCut, FlushPieces;
    var chunks, g := [text[..n], text[n..]], GuardCut(text[..n], ms);
    var b := "" + chunks[0];
    assert b == text[..n];
    CandsEndInside(text, ms);
    NotAtZero(text, ms, g);
    EndsAt(b[..g], ms);
    var first := FlushPieces(b[..g], ms, 0);
    assert GuardPieces("", chunks, ms, 0) == first + GuardPieces(b[g..], chunks[1..], ms, 0 + g);
    assert Last(first) in GuardPieces("", chunks, ms, 0);
    ScanEnds(Cands(text, ms), ms, text, 0, |text|, 0);
    assert Last(first) !in OneShot(text, ms);
  }

  lemma NotAtZero(text: string, ms: seq<Matcher>, g: nat)
    requires ValidMatchers(ms) && Straddled(Cands(text, ms), g)
    ensures g > 0
  {
    CandsEndInside(text, ms);
  }

  // What is flushed ends with a piece that ends where the text does.
  lemma EndsAt(buf: string, ms: seq<Matcher>)
    requires ValidMatchers(ms) && buf != ""
    ensures var ps := FlushPieces(buf, ms, 0);
      ps != [] && Last(ps) in ps && Last(ps).End() == |buf|
  {
    hide Cands, Scan, Straddled;
    CandsEndInside(buf, ms);
    ScanEnds(Cands(buf, ms), ms, buf, 0, |buf|, 0);
  }

  lemma IncompleteIsGrowing(text: string, ms: seq<Matcher>, n: nat, c: Cand)
    requires ValidMatchers(ms) && c in Cands(text, ms) && 0 <= c.start < n < c.end && n <= |text|
    ensures Growing(text[..n], ms, c.start)
  {}
}
