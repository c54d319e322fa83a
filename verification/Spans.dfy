// Literal secret matching: the declarative side.
//
// A redactor owns a list of literal secrets. Each secret proposes the spans found by
// a greedy left-to-right search, and overlapping proposals are merged. This module
// says what that means without an algorithm: which positions lie strictly inside a
// proposal, and a left-to-right reading of the text (`Scan`) that jumps from one such
// free position to the next. The sort-and-merge code is proved against it in `Redactor`.
module Spans {
  import opened Seqs
  import opened Maps

  datatype Matcher = Matcher(kind: string, value: string)

  // A span proposed by the matcher with index `prio`.
  datatype Cand = Cand(start: int, end: int, prio: int)

  // One piece of redacted output, located in the original text.
  datatype Piece = Keep(at: nat, ch: char) | Mark(start: nat, end: nat, kind: string)
  {
    function End(): nat {
      match this
      case Keep(at, _) => at + 1
      case Mark(_, end, _) => end
    }
  }

  predicate ValidMatchers(ms: seq<Matcher>) {
    forall i :: 0 <= i < |ms| ==> ms[i].value != ""
  }

  predicate OccursAt(text: string, value: string, p: nat) {
    p + |value| <= |text| && text[p..p + |value|] == value
  }

  // Greedy leftmost search: an occurrence counts unless an earlier counted one of the
  // same secret overlaps it.
  ghost predicate Taken(text: string, value: string, p: nat)
    decreases p
  {
    && OccursAt(text, value, p)
    && forall q: nat :: q < p < q + |value| ==> !Taken(text, value, q)
  }

  ghost function Cands(text: string, ms: seq<Matcher>): set<Cand>
  {
    set p: nat, i: nat | p <= |text| && i < |ms| && Taken(text, ms[i].value, p)
      :: Cand(p, p + |ms[i].value|, i)
  }

  ghost predicate Straddled(cs: set<Cand>, p: int) {
    exists c :: c in cs && c.start < p < c.end
  }

  ghost predicate Starts(cs: set<Cand>, p: int) {
    exists c :: c in cs && c.start == p
  }

  ghost predicate Covered(cs: set<Cand>, p: int) {
    exists c :: c in cs && c.start <= p < c.end
  }

  // The first free position at or after p.
  ghost function Up(cs: set<Cand>, p: nat, limit: nat): (r: nat)
    requires p <= limit && !Straddled(cs, limit)
    ensures p <= r <= limit && !Straddled(cs, r)
    decreases limit - p
  {
    if Straddled(cs, p) then Up(cs, p + 1, limit) else p
  }

  lemma {:induction false} UpSkips(cs: set<Cand>, p: nat, limit: nat)
    requires p <= limit && !Straddled(cs, limit)
    ensures forall x :: p <= x < Up(cs, p, limit) ==> Straddled(cs, x)
    decreases limit - p
  {
    if Straddled(cs, p) {
      UpSkips(cs, p + 1, limit);
    }
  }

  lemma {:induction false} UpIs(cs: set<Cand>, p: nat, limit: nat, r: nat)
    requires p <= r <= limit && !Straddled(cs, limit) && !Straddled(cs, r)
    requires forall x :: p <= x < r ==> Straddled(cs, x)
    ensures Up(cs, p, limit) == r
    decreases r - p
  {
    if p < r {
      UpIs(cs, p + 1, limit, r);
    }
  }

  // The last free position at or before p.
  ghost function Down(cs: set<Cand>, p: nat): (r: nat)
    requires !Straddled(cs, 0)
    ensures r <= p && !Straddled(cs, r)
  {
    if Straddled(cs, p) then Down(cs, p - 1) else p
  }

  ghost predicate Contributes(cs: set<Cand>, s: int, e: int, i: int) {
    exists c :: c in cs && s <= c.start && c.end <= e && c.prio == i
  }

  // The most specific matcher contributing to [s, e): the least index.
  ghost function BestPrio(cs: set<Cand>, s: int, e: int, i: nat, n: nat): (r: nat)
    requires i <= n
    ensures i <= r <= n
    ensures forall j :: i <= j < r ==> !Contributes(cs, s, e, j)
    ensures r < n ==> Contributes(cs, s, e, r)
    decreases n - i
  {
    if i == n || Contributes(cs, s, e, i) then i else BestPrio(cs, s, e, i + 1, n)
  }

  ghost function Label(cs: set<Cand>, ms: seq<Matcher>, s: int, e: int): string {
    var i := BestPrio(cs, s, e, 0, |ms|);
    if i < |ms| then ms[i].kind else ""
  }

  // The piece at a free position p, and the free position after it.
  ghost function Next(cs: set<Cand>, p: nat, q: nat): (r: nat)
    requires p < q && !Straddled(cs, q)
    ensures p < r <= q
  {
    if Starts(cs, p) then Up(cs, p + 1, q) else p + 1
  }

  ghost function PieceAt(cs: set<Cand>, ms: seq<Matcher>, text: string, p: nat, q: nat, base: nat): Piece
    requires p < q <= |text| && !Straddled(cs, q)
  {
    if Starts(cs, p) then
      var e := Up(cs, p + 1, q);
      Mark(base + p, base + e, Label(cs, ms, p, e))
    else Keep(base + p, text[p])
  }

  // The reference reading of text[p..q]: copy characters until a proposal starts, then
  // emit one marker and jump to the next free position. Locations are shifted by base.
  ghost function Scan(cs: set<Cand>, ms: seq<Matcher>, text: string, p: nat, q: nat, base: nat): seq<Piece>
    requires p <= q <= |text| && !Straddled(cs, q)
    decreases q - p
  {
    if p == q then []
    else [PieceAt(cs, ms, text, p, q, base)] + Scan(cs, ms, text, Next(cs, p, q), q, base)
  }

  // One-shot redaction of a whole text.
  ghost function OneShot(text: string, ms: seq<Matcher>): seq<Piece>
    requires ValidMatchers(ms)
  {
    CandsEndInside(text, ms);
    Scan(Cands(text, ms), ms, text, 0, |text|, 0)
  }

  function Marker(kind: string): string {
    "[REDACTED:" + kind + "]"
  }

  function PieceText(p: Piece): string {
    match p
    case Keep(_, ch) => [ch]
    case Mark(_, _, kind) => Marker(kind)
  }

  function Text(ps: seq<Piece>): string {
    if ps == [] then "" else Text(ps[..|ps| - 1]) + PieceText(ps[|ps| - 1])
  }

  function Bump(m: map<string, nat>, k: string): map<string, nat> {
    m[k := Get(m, k) + 1]
  }

  // Markers per kind.
  function Counts(ps: seq<Piece>): map<string, nat> {
    if ps == [] then map[]
    else
      var last := ps[|ps| - 1];
      if last.Mark? then Bump(Counts(ps[..|ps| - 1]), last.kind) else Counts(ps[..|ps| - 1])
  }

  function Plus(a: map<string, nat>, b: map<string, nat>): map<string, nat> {
    map k | k in a.Keys + b.Keys :: Get(a, k) + Get(b, k)
  }

  function Marks(ps: seq<Piece>): nat {
    if ps == [] then 0
    else Marks(ps[..|ps| - 1]) + (if ps[|ps| - 1].Mark? then 1 else 0)
  }

  // ---------------------------------------------------------------- candidates

  lemma CandsEndInside(text: string, ms: seq<Matcher>)
    requires ValidMatchers(ms)
    ensures forall c :: c in Cands(text, ms) ==>
      0 <= c.start < c.end <= |text| && 0 <= c.prio < |ms| && Taken(text, ms[c.prio].value, c.start)
      && c.end == c.start + |ms[c.prio].value|
    ensures !Straddled(Cands(text, ms), 0) && !Straddled(Cands(text, ms), |text|)
  {}

  lemma CandShape(text: string, ms: seq<Matcher>, c: Cand)
    requires ValidMatchers(ms) && c in Cands(text, ms)
    ensures 0 <= c.start < c.end <= |text| && 0 <= c.prio < |ms| && c.end == c.start + |ms[c.prio].value|
  {}

  lemma InCands(text: string, ms: seq<Matcher>, i: nat, p: nat)
    requires ValidMatchers(ms) && i < |ms|
    ensures Taken(text, ms[i].value, p) <==> Cand(p, p + |ms[i].value|, i) in Cands(text, ms)
  {
    if Cand(p, p + |ms[i].value|, i) in Cands(text, ms) {
      CandsEndInside(text, ms);
    }
  }

  // Restricting the text to [a, n) with a free for this secret keeps exactly the
  // proposals that fit.
  lemma {:induction false} TakenLocal(text: string, value: string, a: nat, n: nat, p: nat)
    requires value != "" && a <= n <= |text| && a <= p && p + |value| <= n
    requires forall q: nat :: q < a < q + |value| ==> !Taken(text, value, q)
    ensures Taken(text[a..n], value, p - a) <==> Taken(text, value, p)
    decreases p
  {
    SliceSlice(text, a, n, p - a, p - a + |value|);
    forall q: nat | a <= q < p && p < q + |value|
      ensures Taken(text[a..n], value, q - a) <==> Taken(text, value, q)
    {
      TakenLocal(text, value, a, n, q);
    }
    if Taken(text, value, p) {
      forall q: nat | q < p - a < q + |value|
        ensures !Taken(text[a..n], value, q)
      {
        assert !Taken(text, value, q + a);
        assert Taken(text[a..n], value, q + a - a) <==> Taken(text, value, q + a);
      }
    }
    if Taken(text[a..n], value, p - a) {
      forall q: nat | q < p < q + |value|
        ensures !Taken(text, value, q)
      {
        if a <= q {
          assert !Taken(text[a..n], value, q - a);
        }
      }
    }
  }

  function Shift(c: Cand, d: int): Cand {
    Cand(c.start + d, c.end + d, c.prio)
  }

  // The proposals of `part` inside [p, q] are those of `whole`, moved back by d.
  ghost predicate Agree(part: set<Cand>, whole: set<Cand>, p: int, q: int, d: int) {
    forall c: Cand :: p <= c.start && c.end <= q ==> (c in part <==> Shift(c, d) in whole)
  }

  ghost predicate Ordered(cs: set<Cand>) {
    forall c :: c in cs ==> c.start < c.end
  }

  // Restricting a text to a window that starts at a free position.
  lemma CandsLocal(text: string, ms: seq<Matcher>, a: nat, n: nat)
    requires ValidMatchers(ms) && a <= n <= |text| && !Straddled(Cands(text, ms), a)
    ensures Agree(Cands(text[a..n], ms), Cands(text, ms), 0, n - a, a)
  {
    forall c: Cand | 0 <= c.start && c.end <= n - a
      ensures c in Cands(text[a..n], ms) <==> Shift(c, a) in Cands(text, ms)
    {
      CandLocal(text, ms, a, n, c);
    }
  }

  lemma CandLocal(text: string, ms: seq<Matcher>, a: nat, n: nat, c: Cand)
    requires ValidMatchers(ms) && a <= n <= |text| && !Straddled(Cands(text, ms), a)
    requires 0 <= c.start && c.end <= n - a
    ensures c in Cands(text[a..n], ms) <==> Shift(c, a) in Cands(text, ms)
  {
    hide Taken, Cands;
    if c in Cands(text[a..n], ms) {
      CandShape(text[a..n], ms, c);
    }
    if Shift(c, a) in Cands(text, ms) {
      CandShape(text, ms, Shift(c, a));
    }
    if 0 <= c.prio < |ms| && c.end == c.start + |ms[c.prio].value| {
      var v := ms[c.prio].value;
      forall q: nat | q < a < q + |v|
        ensures !Taken(text, v, q)
      {
        InCands(text, ms, c.prio, q);
      }
      TakenLocal(text, v, a, n, c.start + a);
      InCands(text, ms, c.prio, c.start + a);
      InCands(text[a..n], ms, c.prio, c.start);
    }
  }

  // ---------------------------------------------------------------- scanning

  lemma NextFree(cs: set<Cand>, p: nat, q: nat)
    requires p < q && !Straddled(cs, p) && !Straddled(cs, q)
    ensures !Straddled(cs, Next(cs, p, q))
  {}

  lemma UpLimit(cs: set<Cand>, p: nat, r: nat, q: nat)
    requires p <= r <= q && !Straddled(cs, r) && !Straddled(cs, q)
    ensures Up(cs, p, q) == Up(cs, p, r)
  {
    UpSkips(cs, p, r);
    UpIs(cs, p, q, Up(cs, p, r));
  }

  lemma {:induction false} ScanConcat(cs: set<Cand>, ms: seq<Matcher>, text: string, p: nat, r: nat, q: nat, base: nat)
    requires p <= r <= q <= |text| && !Straddled(cs, r) && !Straddled(cs, q)
    ensures Scan(cs, ms, text, p, q, base) == Scan(cs, ms, text, p, r, base) + Scan(cs, ms, text, r, q, base)
    decreases r - p
  {
    if p < r {
      UpLimit(cs, p + 1, r, q);
      var p' := Next(cs, p, r);
      assert Next(cs, p, q) == p' && PieceAt(cs, ms, text, p, q, base) == PieceAt(cs, ms, text, p, r, base);
      ScanConcat(cs, ms, text, p', r, q, base);
      Assoc([PieceAt(cs, ms, text, p, r, base)], Scan(cs, ms, text, p', r, base), Scan(cs, ms, text, r, q, base));
    }
  }

  // A position of the window is free exactly when only proposals reaching over the
  // window's ends could straddle it.
  lemma StraddledLocal(part: set<Cand>, whole: set<Cand>, p: int, q: int, d: int, x: int)
    requires p <= x <= q && Agree(part, whole, p, q, d)
    requires !Straddled(part, p) && !Straddled(part, q) && !Straddled(whole, p + d)
    ensures Straddled(part, x) <==> exists c :: c in whole && c.start < x + d < c.end <= q + d
  {
    if Straddled(part, x) {
      var c :| c in part && c.start < x < c.end;
      assert Shift(c, d) in whole;
    }
    if exists c :: c in whole && c.start < x + d < c.end <= q + d {
      var c :| c in whole && c.start < x + d < c.end <= q + d;
      assert Shift(Shift(c, -d), d) == c;
      assert Shift(c, -d) in part;
    }
  }

  lemma StartsLocal(part: set<Cand>, whole: set<Cand>, p: int, q: int, d: int)
    requires p < q && Agree(part, whole, p, q, d) && Ordered(part) && Ordered(whole)
    requires !Straddled(part, q) && !Straddled(whole, q + d)
    ensures Starts(part, p) <==> Starts(whole, p + d)
  {
    if Starts(part, p) {
      var c :| c in part && c.start == p;
      assert Shift(c, d) in whole;
    }
    if Starts(whole, p + d) {
      var c :| c in whole && c.start == p + d;
      assert Shift(Shift(c, -d), d) == c;
      assert Shift(c, -d) in part;
    }
  }

  lemma LabelLocal(part: set<Cand>, whole: set<Cand>, ms: seq<Matcher>, s: int, e: int, d: int)
    requires Agree(part, whole, s, e, d)
    ensures Label(part, ms, s, e) == Label(whole, ms, s + d, e + d)
  {
    forall i: nat
      ensures Contributes(part, s, e, i) <==> Contributes(whole, s + d, e + d, i)
    {
      if Contributes(part, s, e, i) {
        var c :| c in part && s <= c.start && c.end <= e && c.prio == i;
        assert Shift(c, d) in whole;
      }
      if Contributes(whole, s + d, e + d, i) {
        var c :| c in whole && s + d <= c.start && c.end <= e + d && c.prio == i;
        assert Shift(Shift(c, -d), d) == c;
        assert Shift(c, -d) in part;
      }
    }
    var i, j := BestPrio(part, s, e, 0, |ms|), BestPrio(whole, s + d, e + d, 0, |ms|);
    assert Contributes(part, s, e, i) <==> Contributes(whole, s + d, e + d, i);
    assert Contributes(part, s, e, j) <==> Contributes(whole, s + d, e + d, j);
  }

  // Everything two readings share between p and q, up to a shift by d.
  ghost predicate Corresponds(part: set<Cand>, whole: set<Cand>, p: int, q: int, d: int) {
    && !Straddled(part, p) && !Straddled(part, q)
    && !Straddled(whole, p + d) && !Straddled(whole, q + d)
    && Ordered(part) && Ordered(whole) && Agree(part, whole, p, q, d)
  }

  // One step of the reading is the same on both sides.
  lemma StepLocal(
    part: set<Cand>, buf: string, whole: set<Cand>, text: string, ms: seq<Matcher>, p: nat, q: nat, d: nat)
    requires p < q <= |buf| && q + d <= |text| && buf[p] == text[p + d]
    requires Corresponds(part, whole, p, q, d)
    ensures Next(whole, p + d, q + d) == Next(part, p, q) + d
    ensures PieceAt(part, ms, buf, p, q, d) == PieceAt(whole, ms, text, p + d, q + d, 0)
    ensures Corresponds(part, whole, Next(part, p, q), q, d)
  {
    hide Agree, Straddled, Starts, Up, Label;
    NextLocal(part, whole, p, q, d);
    NextFree(part, p, q);
    NextFree(whole, p + d, q + d);
    AgreeNarrow(part, whole, p, q, d, p, Next(part, p, q));
    AgreeNarrow(part, whole, p, q, d, Next(part, p, q), q);
    LabelLocal(part, whole, ms, p, Next(part, p, q), d);
  }

  // Both readings make the same step.
  lemma NextLocal(part: set<Cand>, whole: set<Cand>, p: nat, q: nat, d: nat)
    requires p < q && Corresponds(part, whole, p, q, d)
    ensures Starts(part, p) <==> Starts(whole, p + d)
    ensures Next(whole, p + d, q + d) == Next(part, p, q) + d
  {
    hide Agree, Straddled, Starts, Up;
    StartsLocal(part, whole, p, q, d);
    UpLocal(part, whole, p, q, d);
    assert p + d + 1 == p + 1 + d;
  }

  // Two readings agree when the texts and the proposals agree up to a shift by d.
  lemma {:induction false} ScanLocal(
    part: set<Cand>, buf: string, whole: set<Cand>, text: string, ms: seq<Matcher>, p: nat, q: nat, d: nat)
    requires p <= q <= |buf| && q + d <= |text|
    requires forall x :: p <= x < q ==> buf[x] == text[x + d]
    requires Corresponds(part, whole, p, q, d)
    ensures Scan(part, ms, buf, p, q, d) == Scan(whole, ms, text, p + d, q + d, 0)
    decreases q - p
  {
    hide Corresponds, Straddled, Next, PieceAt;
    CorrespondsFree(part, whole, p, q, d);
    if p < q {
      StepLocal(part, buf, whole, text, ms, p, q, d);
      ScanLocal(part, buf, whole, text, ms, Next(part, p, q), q, d);
    }
  }

  lemma CorrespondsFree(part: set<Cand>, whole: set<Cand>, p: int, q: int, d: int)
    requires Corresponds(part, whole, p, q, d)
    ensures !Straddled(part, q) && !Straddled(whole, q + d)
  {}

  lemma AgreeNarrow(part: set<Cand>, whole: set<Cand>, p: int, q: int, d: int, from: int, to: int)
    requires Agree(part, whole, p, q, d) && p <= from && to <= q
    ensures Agree(part, whole, from, to, d)
  {}

  lemma UpLocal(part: set<Cand>, whole: set<Cand>, p: nat, q: nat, d: nat)
    requires p < q && Agree(part, whole, p, q, d)
    requires !Straddled(part, p) && !Straddled(part, q)
    requires !Straddled(whole, p + d) && !Straddled(whole, q + d)
    ensures Up(whole, p + 1 + d, q + d) == Up(part, p + 1, q) + d
  {
    var e := Up(part, p + 1, q);
    UpSkips(part, p + 1, q);
    forall x | p < x <= e
      ensures Straddled(part, x) <==> Straddled(whole, x + d)
    {
      StraddledLocal(part, whole, p, q, d, x);
    }
    forall x | p + 1 + d <= x < e + d
      ensures Straddled(whole, x)
    {
      assert Straddled(part, x - d);
    }
    UpIs(whole, p + 1 + d, q + d, e + d);
  }

  // Reading a buffer that starts at a free position a of the whole text gives the whole
  // text's reading of that stretch, located where it belongs.
  lemma ScanPart(text: string, ms: seq<Matcher>, a: nat, n: nat, f: nat)
    requires ValidMatchers(ms) && a <= n <= |text| && f <= n - a
    requires !Straddled(Cands(text, ms), a) && !Straddled(Cands(text, ms), a + f)
    ensures !Straddled(Cands(text[a..n], ms), f)
    ensures Scan(Cands(text[a..n], ms), ms, text[a..n], 0, f, a) == Scan(Cands(text, ms), ms, text, a, a + f, 0)
  {
    var part, whole := Cands(text[a..n], ms), Cands(text, ms);
    CandsEndInside(text, ms);
    CandsEndInside(text[a..n], ms);
    CandsLocal(text, ms, a, n);
    StraddledLocal(part, whole, 0, n - a, a, f);
    ScanLocal(part, text[a..n], whole, text, ms, 0, f, a);
  }

  // Every piece ends at a free position, and the last one ends where the reading stops.
  lemma {:induction false} ScanEnds(cs: set<Cand>, ms: seq<Matcher>, text: string, p: nat, q: nat, base: nat)
    requires p <= q <= |text| && !Straddled(cs, p) && !Straddled(cs, q)
    ensures forall x :: x in Scan(cs, ms, text, p, q, base) ==>
      base + p < x.End() <= base + q && !Straddled(cs, x.End() - base)
    ensures p < q ==> Scan(cs, ms, text, p, q, base) != [] && Last(Scan(cs, ms, text, p, q, base)).End() == base + q
    decreases q - p
  {
    if p < q {
      NextFree(cs, p, q);
      ScanEnds(cs, ms, text, Next(cs, p, q), q, base);
    }
  }

  // ---------------------------------------------------------------- text and counts

  lemma {:induction false} TextConcat(a: seq<Piece>, b: seq<Piece>)
    ensures Text(a + b) == Text(a) + Text(b)
    decreases |b|
  {
    if b == [] {
      assert a + b == a;
    } else {
      var b', x := b[..|b| - 1], Last(b);
      calc {
        Text(a + b);
        { SplitLast(b); }
        Text(a + (b' + [x]));
        { TextConcat(a, b'); TextStep(a, b', x); }
        Text(a) + Text(b' + [x]);
        { SplitLast(b); }
        Text(a) + Text(b);
      }
    }
  }

  lemma TextStep(a: seq<Piece>, b: seq<Piece>, x: Piece)
    requires Text(a + b) == Text(a) + Text(b)
    ensures Text(a + (b + [x])) == Text(a) + Text(b + [x])
  {
    calc {
      Text(a + (b + [x]));
      { Assoc(a, b, [x]); }
      Text(a + b + [x]);
      { TextSnoc(a + b, x); }
      Text(a) + Text(b) + PieceText(x);
      { Assoc(Text(a), Text(b), PieceText(x)); }
      Text(a) + (Text(b) + PieceText(x));
      { TextSnoc(b, x); }
      Text(a) + Text(b + [x]);
    }
  }

  lemma TextSnoc(a: seq<Piece>, x: Piece)
    ensures Text(a + [x]) == Text(a) + PieceText(x)
  {
    assert (a + [x])[..|a|] == a;
  }

  lemma BumpPlus(a: map<string, nat>, b: map<string, nat>, k: string)
    ensures Plus(a, Bump(b, k)) == Bump(Plus(a, b), k)
  {}

  lemma {:induction false} CountsConcat(a: seq<Piece>, b: seq<Piece>)
    ensures Counts(a + b) == Plus(Counts(a), Counts(b))
    ensures Marks(a + b) == Marks(a) + Marks(b)
    decreases |b|
  {
    if b == [] {
      assert a + b == a;
    } else {
      var b', last := b[..|b| - 1], b[|b| - 1];
      assert (a + b)[..|a + b| - 1] == a + b' && (a + b)[|a + b| - 1] == last;
      CountsConcat(a, b');
      if last.Mark? {
        BumpPlus(Counts(a), Counts(b'), last.kind);
      }
    }
  }

  // Two outputs that differ only in where their pieces are located.
  ghost predicate SameContent(a: seq<Piece>, b: seq<Piece>) {
    && |a| == |b|
    && forall i :: 0 <= i < |a| ==>
         a[i].Mark? == b[i].Mark? && (if a[i].Mark? then a[i].kind == b[i].kind else a[i].ch == b[i].ch)
  }

  lemma {:induction false} SameContentSameText(a: seq<Piece>, b: seq<Piece>)
    requires SameContent(a, b)
    ensures Text(a) == Text(b) && Counts(a) == Counts(b) && Marks(a) == Marks(b)
    decreases |a|
  {
    if a != [] {
      SameContentSameText(a[..|a| - 1], b[..|b| - 1]);
    }
  }

  lemma {:induction false} BaseIrrelevant(cs: set<Cand>, ms: seq<Matcher>, text: string, p: nat, q: nat, b: nat, b': nat)
    requires p <= q <= |text| && !Straddled(cs, q)
    ensures SameContent(Scan(cs, ms, text, p, q, b), Scan(cs, ms, text, p, q, b'))
    decreases q - p
  {
    if p < q {
      BaseIrrelevant(cs, ms, text, Next(cs, p, q), q, b, b');
    }
  }

  lemma OnePiece(x: Piece)
    ensures Text([x]) == PieceText(x)
    ensures Counts([x]) == if x.Mark? then map[x.kind := 1] else map[]
    ensures Marks([x]) == if x.Mark? then 1 else 0
  {
    assert [x][..0] == [];
  }

  // A stretch in which no proposal starts is copied verbatim.
  lemma ScanClear(cs: set<Cand>, ms: seq<Matcher>, text: string, p: nat, q: nat, base: nat)
    requires p <= q <= |text| && !Straddled(cs, q)
    requires forall x :: p <= x < q ==> !Starts(cs, x)
    ensures Text(Scan(cs, ms, text, p, q, base)) == text[p..q]
    ensures Counts(Scan(cs, ms, text, p, q, base)) == map[] && Marks(Scan(cs, ms, text, p, q, base)) == 0
  {
    ScanKeeps(cs, ms, text, p, q, base);
    KeepsText(Scan(cs, ms, text, p, q, base), text[p..q]);
  }

  lemma {:induction false} ScanKeeps(cs: set<Cand>, ms: seq<Matcher>, text: string, p: nat, q: nat, base: nat)
    requires p <= q <= |text| && !Straddled(cs, q)
    requires forall x :: p <= x < q ==> !Starts(cs, x)
    ensures |Scan(cs, ms, text, p, q, base)| == q - p
    ensures forall i :: 0 <= i < q - p ==> Scan(cs, ms, text, p, q, base)[i] == Keep(base + p + i, text[p + i])
    decreases q - p
  {
    hide Straddled, Starts, Up, Label;
    if p < q {
      ScanKeeps(cs, ms, text, p + 1, q, base);
      var rest := Scan(cs, ms, text, p + 1, q, base);
      var all := Scan(cs, ms, text, p, q, base);
      assert all == [Keep(base + p, text[p])] + rest;
      forall i | 0 <= i < q - p
        ensures all[i] == Keep(base + p + i, text[p + i])
      {
        if i > 0 {
          assert all[i] == rest[i - 1];
        }
      }
    }
  }

  lemma {:induction false} KeepsText(ps: seq<Piece>, s: string)
    requires |ps| == |s| && forall i :: 0 <= i < |s| ==> ps[i].Keep? && ps[i].ch == s[i]
    ensures Text(ps) == s && Counts(ps) == map[] && Marks(ps) == 0
    decreases |ps|
  {
    if ps != [] {
      KeepsText(ps[..|ps| - 1], s[..|s| - 1]);
      SplitLast(s);
    }
  }

  ghost function Sum(m: map<string, nat>): nat {
    if m == map[] then 0
    else
      var k :| k in m;
      m[k] + Sum(m - {k})
  }

  lemma {:induction false} SumPick(m: map<string, nat>, k: string)
    requires k in m
    ensures Sum(m) == m[k] + Sum(m - {k})
    decreases |m|
  {
    var p :| p in m && Sum(m) == m[p] + Sum(m - {p});
    if p != k {
      SumPick(m - {p}, k);
      SumPick(m - {k}, p);
      assert m - {p} - {k} == m - {k} - {p};
    }
  }

  lemma {:induction false} SumCounts(ps: seq<Piece>)
    ensures Sum(Counts(ps)) == Marks(ps)
    decreases |ps|
  {
    if ps != [] {
      var front, last := ps[..|ps| - 1], ps[|ps| - 1];
      SumCounts(front);
      if last.Mark? {
        var c, k := Counts(front), last.kind;
        SumPick(Bump(c, k), k);
        assert Bump(c, k) - {k} == c - {k};
        if k in c {
          SumPick(c, k);
        } else {
          assert c - {k} == c;
        }
      }
    }
  }

  // ---------------------------------------------------------------- coverage

  lemma TakenIfFree(text: string, value: string, p: nat)
    requires OccursAt(text, value, p)
    requires forall q: nat :: q < p < q + |value| ==> !Taken(text, value, q)
    ensures Taken(text, value, p)
  {}

  // No occurrence of a secret escapes: it shares a character with a proposal.
  lemma NoSecretUncovered(text: string, ms: seq<Matcher>, i: nat, p: nat)
    requires ValidMatchers(ms) && i < |ms| && OccursAt(text, ms[i].value, p)
    ensures exists x :: p <= x < p + |ms[i].value| && Covered(Cands(text, ms), x)
  {
    var v := ms[i].value;
    if forall q: nat :: q < p < q + |v| ==> !Taken(text, v, q) {
      TakenIfFree(text, v, p);
      InCands(text, ms, i, p);
      assert Covered(Cands(text, ms), p);
    } else {
      var q: nat :| q < p < q + |v| && Taken(text, v, q);
      InCands(text, ms, i, q);
      assert Cand(q, q + |v|, i) in Cands(text, ms);
      assert Covered(Cands(text, ms), p);
    }
  }

  // Adding secrets, in any order, only grows what is covered.
  lemma CoverageGrows(text: string, ms: seq<Matcher>, more: seq<Matcher>, x: nat)
    requires ValidMatchers(ms) && ValidMatchers(more)
    requires forall m :: m in ms ==> exists m' :: m' in more && m'.value == m.value
    requires Covered(Cands(text, ms), x)
    ensures Covered(Cands(text, more), x)
  {
    hide Cands, Taken;
    var c :| c in Cands(text, ms) && c.start <= x < c.end;
    CandShape(text, ms, c);
    InCands(text, ms, c.prio, c.start);
    assert ms[c.prio] in ms;
    var m' :| m' in more && m'.value == ms[c.prio].value;
    var j :| 0 <= j < |more| && more[j] == m';
    InCands(text, more, j, c.start);
    assert Cand(c.start, c.end, j) in Cands(text, more);
  }

  // A marker's span is covered throughout; a kept character is not covered.
  lemma {:induction false} PiecesMatchCoverage(cs: set<Cand>, ms: seq<Matcher>, text: string, p: nat, q: nat)
    requires p <= q <= |text| && !Straddled(cs, p) && !Straddled(cs, q)
    requires forall c :: c in cs ==> c.start < c.end
    ensures forall x :: x in Scan(cs, ms, text, p, q, 0) ==>
      match x
      case Keep(at, ch) => at < |text| && ch == text[at] && !Covered(cs, at)
      case Mark(s, e, _) => s < e && forall y :: s <= y < e ==> Covered(cs, y)
    decreases q - p
  {
    if p < q {
      if Starts(cs, p) {
        UpSkips(cs, p + 1, q);
        forall y | p <= y < Up(cs, p + 1, q)
          ensures Covered(cs, y)
        {
          if y > p {
            assert Straddled(cs, y);
          }
        }
      } else {
        assert !Covered(cs, p);
      }
      NextFree(cs, p, q);
      PiecesMatchCoverage(cs, ms, text, Next(cs, p, q), q);
    }
  }

  // How many markers there are of one kind.
  function MarksOf(ps: seq<Piece>, kind: string): nat {
    |set i | 0 <= i < |ps| && ps[i].Mark? && ps[i].kind == kind|
  }

  lemma MarksOfSnoc(front: seq<Piece>, x: Piece, kind: string)
    ensures MarksOf(front + [x], kind) == MarksOf(front, kind) + (if x.Mark? && x.kind == kind then 1 else 0)
  {
    var ps, n := front + [x], |front|;
    var before, now := set i | 0 <= i < |front| && front[i].Mark? && front[i].kind == kind,
                       set i | 0 <= i < |ps| && ps[i].Mark? && ps[i].kind == kind;
    assert now == if x.Mark? && x.kind == kind then before + {n} else before;
  }

  lemma NoMarksInNothing(kind: string)
    ensures MarksOf([], kind) == 0
  {}

  // Each kind is counted by its own markers, and only kinds with markers are counted.
  lemma {:induction false} CountsByKind(ps: seq<Piece>, kind: string)
    ensures Get(Counts(ps), kind) == MarksOf(ps, kind)
    ensures kind in Counts(ps) <==> MarksOf(ps, kind) > 0
    decreases |ps|
  {
    hide MarksOf;
    if ps == [] {
      NoMarksInNothing(kind);
    } else {
      var front, x := ps[..|ps| - 1], Last(ps);
      CountsByKind(front, kind);
      MarksOfSnoc(front, x, kind);
      SplitLast(ps);
    }
  }

  // ---------------------------------------------------------------- what comes out

  // The pieces lie end to end from p to q.
  ghost predicate Tiles(ps: seq<Piece>, p: nat, q: nat) {
    if ps == [] then p == q
    else (if ps[0].Keep? then ps[0].at else ps[0].start) == p < ps[0].End() && Tiles(ps[1..], ps[0].End(), q)
  }

  // The matcher that names [s, e): no earlier one proposed anything inside.
  ghost predicate NamedBy(cs: set<Cand>, ms: seq<Matcher>, s: nat, e: nat, kind: string) {
    exists i :: 0 <= i < |ms| && kind == ms[i].kind && Contributes(cs, s, e, i) && forall j :: 0 <= j < i ==> !Contributes(cs, s, e, j)
  }

  // Nothing is skipped or repeated, and each marker stands for a whole run of overlapping matches,
  // from one free position to the next, under the name of the most specific of them.
  lemma {:induction false} PiecesTile(cs: set<Cand>, ms: seq<Matcher>, text: string, p: nat, q: nat)
    requires p <= q <= |text| && !Straddled(cs, p) && !Straddled(cs, q)
    requires forall c :: c in cs ==> c.start < c.end && 0 <= c.prio < |ms|
    ensures Tiles(Scan(cs, ms, text, p, q, 0), p, q)
    ensures forall x :: x in Scan(cs, ms, text, p, q, 0) && x.Mark? ==>
      && !Straddled(cs, x.start) && !Straddled(cs, x.end) && (forall y :: x.start < y < x.end ==> Straddled(cs, y))
      && NamedBy(cs, ms, x.start, x.end, x.kind)
    decreases q - p
  {
    hide Straddled, Label, Contributes, NamedBy;
    if p < q {
      NextFree(cs, p, q);
      PiecesTile(cs, ms, text, Next(cs, p, q), q);
      if Starts(cs, p) {
        UpSkips(cs, p + 1, q);
        MarkNamed(cs, ms, p, q);
      }
      var rest := Scan(cs, ms, text, Next(cs, p, q), q, 0);
      assert Scan(cs, ms, text, p, q, 0)[1..] == rest;
    }
  }

  lemma MarkNamed(cs: set<Cand>, ms: seq<Matcher>, p: nat, q: nat)
    requires p < q && Starts(cs, p) && !Straddled(cs, q)
    requires forall c :: c in cs ==> c.start < c.end && 0 <= c.prio < |ms|
    ensures NamedBy(cs, ms, p, Up(cs, p + 1, q), Label(cs, ms, p, Up(cs, p + 1, q)))
  {
    var e := Up(cs, p + 1, q);
    var c :| c in cs && c.start == p;
    assert c.end <= e;
    assert Contributes(cs, p, e, c.prio);
    var i := BestPrio(cs, p, e, 0, |ms|);
    assert i <= c.prio;
  }

  ghost predicate Contains(text: string, value: string) {
    exists k: nat :: OccursAt(text, value, k)
  }

  // The secret cannot be told apart from no marker: it has no bracket and is no part of one.
  ghost predicate ApartFromMarkers(ms: seq<Matcher>, value: string) {
    '[' !in value && ']' !in value && forall j :: 0 <= j < |ms| ==> !Contains(Marker(ms[j].kind), value)
  }

  // Where an occurrence in a concatenation lies.
  lemma OccursInParts(m: string, rest: string, value: string, k: nat)
    requires m != "" && value != "" && OccursAt(m + rest, value, k)
    ensures |m| <= k ==> OccursAt(rest, value, k - |m|)
    ensures k + |value| <= |m| ==> OccursAt(m, value, k)
    ensures k < |m| < k + |value| ==> Last(m) in value
  {
    var s := m + rest;
    if |m| <= k {
      assert rest[k - |m|..k - |m| + |value|] == s[k..k + |value|];
    } else if k + |value| <= |m| {
      assert m[k..k + |value|] == s[k..k + |value|];
    } else {
      assert value[|m| - 1 - k] == s[k..k + |value|][|m| - 1 - k] == s[|m| - 1];
    }
  }

  lemma AfterMarker(kind: string, rest: string, value: string)
    requires value != "" && ']' !in value && !Contains(Marker(kind), value) && !Contains(rest, value)
    ensures !Contains(Marker(kind) + rest, value)
  {
    var m := Marker(kind);
    assert Last(m) == ']';
    forall k: nat | OccursAt(m + rest, value, k)
      ensures false
    {
      OccursInParts(m, rest, value, k);
    }
  }

  // The output from a free position on: a marker or the character there, and then the rest.
  lemma TextHead(cs: set<Cand>, ms: seq<Matcher>, text: string, p: nat, q: nat)
    requires p < q <= |text| && !Straddled(cs, q)
    ensures var rest := Text(Scan(cs, ms, text, Next(cs, p, q), q, 0));
      Text(Scan(cs, ms, text, p, q, 0)) ==
      if Starts(cs, p) then Marker(Label(cs, ms, p, Next(cs, p, q))) + rest else [text[p]] + rest
  {
    hide Scan, Text, Starts, Straddled, Label, Up;
    var x := PieceAt(cs, ms, text, p, q, 0);
    ScanUnfold(cs, ms, text, p, q);
    TextConcat([x], Scan(cs, ms, text, Next(cs, p, q), q, 0));
    OnePiece(x);
  }

  lemma ScanUnfold(cs: set<Cand>, ms: seq<Matcher>, text: string, p: nat, q: nat)
    requires p < q <= |text| && !Straddled(cs, q)
    ensures Scan(cs, ms, text, p, q, 0) == [PieceAt(cs, ms, text, p, q, 0)] + Scan(cs, ms, text, Next(cs, p, q), q, 0)
  {}

  lemma NothingToScan(cs: set<Cand>, ms: seq<Matcher>, text: string, p: nat)
    requires p <= |text| && !Straddled(cs, p)
    ensures Text(Scan(cs, ms, text, p, p, 0)) == ""
  {}

  lemma NotCovered(cs: set<Cand>, p: nat)
    requires !Straddled(cs, p) && !Starts(cs, p)
    ensures !Covered(cs, p) && !Straddled(cs, p + 1)
  {}

  // A beginning of the output without a bracket was copied from the text as it stood.
  lemma {:induction false} KeptPrefix(cs: set<Cand>, ms: seq<Matcher>, text: string, p: nat, q: nat, u: string)
    requires p <= q <= |text| && !Straddled(cs, p) && !Straddled(cs, q)
    requires '[' !in u && u <= Text(Scan(cs, ms, text, p, q, 0))
    ensures OccursAt(text, u, p) && forall x :: p <= x < p + |u| ==> !Covered(cs, x)
    decreases |u|
  {
    hide Scan, Text, Starts, Straddled, Covered, Label, Up;
    if u != "" {
      if p == q {
        NothingToScan(cs, ms, text, p);
      } else {
        TextHead(cs, ms, text, p, q);
        BeginsWith(u, Text(Scan(cs, ms, text, p, q, 0)));
        if !Starts(cs, p) {
          NotCovered(cs, p);
          var rest := Text(Scan(cs, ms, text, p + 1, q, 0));
          assert ([text[p]] + rest)[1..] == rest;
          KeptPrefix(cs, ms, text, p + 1, q, u[1..]);
          assert text[p..p + |u|] == [text[p]] + text[p + 1..p + 1 + |u[1..]|];
        }
      }
    }
  }

  lemma BeginsWith(u: string, s: string)
    requires u != "" && u <= s
    ensures u[0] == s[0] && u[0] in u && u[1..] <= s[1..] && u == [u[0]] + u[1..]
  {}

  lemma KeptThen(text: string, ms: seq<Matcher>, i: nat, p: nat, rest: string)
    requires ValidMatchers(ms) && i < |ms| && '[' !in ms[i].value
    requires p < |text| && !Straddled(Cands(text, ms), p) && !Straddled(Cands(text, ms), |text|)
    requires Text(Scan(Cands(text, ms), ms, text, p, |text|, 0)) == [text[p]] + rest
    requires !Contains(rest, ms[i].value)
    ensures !Contains([text[p]] + rest, ms[i].value)
  {
    hide Scan, Text, Cands, Straddled, Covered;
    var cs, v := Cands(text, ms), ms[i].value;
    forall k: nat | OccursAt([text[p]] + rest, v, k)
      ensures false
    {
      OccursInParts([text[p]], rest, v, k);
      if k == 0 {
        KeptPrefix(cs, ms, text, p, |text|, v);
        NoSecretUncovered(text, ms, i, p);
      }
    }
  }

  lemma {:induction false} NothingOfItLeft(text: string, ms: seq<Matcher>, i: nat, p: nat)
    requires ValidMatchers(ms) && i < |ms| && ApartFromMarkers(ms, ms[i].value)
    requires p <= |text| && !Straddled(Cands(text, ms), p) && !Straddled(Cands(text, ms), |text|)
    ensures !Contains(Text(Scan(Cands(text, ms), ms, text, p, |text|, 0)), ms[i].value)
    decreases |text| - p
  {
    hide Scan, Text, Cands, Starts, Straddled, Label, Contributes;
    var cs, v, q := Cands(text, ms), ms[i].value, |text|;
    if p == q {
      NothingToScan(cs, ms, text, p);
    } else {
      CandsNumbered(text, ms);
      TextHead(cs, ms, text, p, q);
      NextFree(cs, p, q);
      NothingOfItLeft(text, ms, i, Next(cs, p, q));
      var rest := Text(Scan(cs, ms, text, Next(cs, p, q), q, 0));
      if Starts(cs, p) {
        MarkNamed(cs, ms, p, q);
        AfterMarker(Label(cs, ms, p, Next(cs, p, q)), rest, v);
      } else {
        KeptThen(text, ms, i, p, rest);
      }
    }
  }

  lemma CandsNumbered(text: string, ms: seq<Matcher>)
    requires ValidMatchers(ms)
    ensures forall c :: c in Cands(text, ms) ==> c.start < c.end && 0 <= c.prio < |ms|
  {
    CandsEndInside(text, ms);
  }

  // A secret that cannot be mistaken for a part of a marker does not occur in what comes out.
  lemma NoSecretComesOut(text: string, ms: seq<Matcher>, i: nat)
    requires ValidMatchers(ms) && i < |ms| && ApartFromMarkers(ms, ms[i].value)
    ensures !Contains(Text(OneShot(text, ms)), ms[i].value)
  {
    CandsEndInside(text, ms);
    NothingOfItLeft(text, ms, i, 0);
  }
}
