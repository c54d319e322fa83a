// Restricted prompt templates: the token grammar, validation, and rendering in one pass.
module Templates {
  import opened Wrappers
  import opened Seqs
  import opened Workflows

  datatype Namespace = Vars | Inputs

  // A reference a template makes.
  datatype Ref = Ref(ns: Namespace, name: string)

  // ---------------------------------------------------------------- the grammar

  function Word(ns: Namespace): string {
    match ns
    case Vars => "vars."
    case Inputs => "inputs."
  }

  predicate IsSpace(c: char) {
    || '\t' <= c <= '\r' || '\U{1c}' <= c <= ' ' || c == '\U{85}' || c == '\U{a0}' || c == '\U{1680}'
    || '\U{2000}' <= c <= '\U{200a}' || c == '\U{2028}' || c == '\U{2029}' || c == '\U{202f}'
    || c == '\U{205f}' || c == '\U{3000}'
  }

  predicate IsNameStart(c: char) {
    'a' <= c <= 'z' || 'A' <= c <= 'Z' || c == '_'
  }

  predicate IsNameChar(c: char) {
    IsNameStart(c) || '0' <= c <= '9'
  }

  predicate IsBlank(s: string) {
    forall c :: c in s ==> IsSpace(c)
  }

  predicate IsName(s: string) {
    s != "" && IsNameStart(s[0]) && forall c :: c in s ==> IsNameChar(c)
  }

  // {{ vars.name }} or {{ inputs.name }}, with any blanks inside the braces.
  ghost predicate IsToken(s: string, r: Ref) {
    exists before, after :: IsTokenWith(s, r, before, after)
  }

  ghost predicate IsTokenWith(s: string, r: Ref, before: string, after: string) {
    && IsBlank(before) && IsBlank(after) && IsName(r.name)
    && s == "{{" + (before + (Word(r.ns) + (r.name + (after + "}}"))))
  }

  // ---------------------------------------------------------------- matching one token

  datatype Token = Token(length: nat, r: Ref)

  // The first position at or after `i` whose character is not in the class.
  function Skip(s: string, i: nat, keep: char -> bool): (r: nat)
    requires i <= |s|
    ensures i <= r <= |s|
    decreases |s| - i
  {
    if i < |s| && keep(s[i]) then Skip(s, i + 1, keep) else i
  }

  predicate HasAt(s: string, i: nat, word: string) {
    i + |word| <= |s| && s[i..i + |word|] == word
  }

  // The token at the front of the text, if one is there.
  function TokenAt(s: string): Option<Token> {
    if !HasAt(s, 0, "{{") then None
    else
      var a := Skip(s, 2, IsSpace);
      if HasAt(s, a, Word(Vars)) then NameAt(s, a + 5, Vars)
      else if HasAt(s, a, Word(Inputs)) then NameAt(s, a + 7, Inputs)
      else None
  }

  function NameAt(s: string, n: nat, ns: Namespace): Option<Token>
    requires n <= |s|
  {
    if n < |s| && IsNameStart(s[n]) then
      var e := Skip(s, n, IsNameChar);
      var b := Skip(s, e, IsSpace);
      if HasAt(s, b, "}}") then Some(Token(b + 2, Ref(ns, s[n..e]))) else None
    else None
  }

  lemma {:induction false} SkipFinds(s: string, i: nat, j: nat, keep: char -> bool)
    requires i <= j <= |s| && (forall k :: i <= k < j ==> keep(s[k])) && (j == |s| || !keep(s[j]))
    ensures Skip(s, i, keep) == j
    decreases j - i
  {
    if i < j {
      SkipFinds(s, i + 1, j, keep);
    }
  }

  lemma {:induction false} SkipKept(s: string, i: nat, keep: char -> bool)
    requires i <= |s|
    ensures forall k :: i <= k < Skip(s, i, keep) ==> keep(s[k])
    decreases |s| - i
  {
    if i < |s| && keep(s[i]) {
      SkipKept(s, i + 1, keep);
    }
  }

  // A slice that reads as two parts is cut between them.
  lemma Peel(s: string, i: nat, len: nat, u: string, v: string)
    requires i <= len <= |s| && s[i..len] == u + v
    ensures HasAt(s, i, u) && i + |u| <= len && s[i + |u|..len] == v
  {
    assert (u + v)[..|u|] == u && (u + v)[|u|..] == v;
    assert s[i..len][..|u|] == s[i..i + |u|];
    assert s[i..len][|u|..] == s[i + |u|..len];
  }

  lemma NameShape(s: string, n: nat, ns: Namespace)
    requires n <= |s| && NameAt(s, n, ns).Some?
    ensures var e := Skip(s, n, IsNameChar);
      var b := Skip(s, e, IsSpace);
      IsName(s[n..e]) && IsBlank(s[e..b]) && HasAt(s, b, "}}")
  {
    var e := Skip(s, n, IsNameChar);
    SkipKept(s, n, IsNameChar);
    SkipKept(s, e, IsSpace);
    assert s[n..e][0] == s[n];
  }

  // What the matcher accepts is a token of the grammar.
  lemma NameSound(s: string, a: nat, n: nat, ns: Namespace)
    requires HasAt(s, 0, "{{") && 2 <= a <= n <= |s| && IsBlank(s[2..a]) && HasAt(s, a, Word(ns)) && n == a + |Word(ns)|
    requires NameAt(s, n, ns).Some?
    ensures var t := NameAt(s, n, ns).value;
      0 < t.length <= |s| && IsToken(s[..t.length], t.r)
  {
    hide Skip, IsSpace, IsNameStart, IsNameChar, IsName, IsBlank;
    NameShape(s, n, ns);
    var t := NameAt(s, n, ns).value;
    var e := Skip(s, n, IsNameChar);
    var b := Skip(s, e, IsSpace);
    JoinToken(s, a, n, e, b, Word(ns));
    assert IsTokenWith(s[..t.length], t.r, s[2..a], s[e..b]);
  }

  lemma JoinToken(s: string, a: nat, n: nat, e: nat, b: nat, word: string)
    requires 2 <= a && n == a + |word| && n <= e <= b && b + 2 <= |s|
    requires HasAt(s, 0, "{{") && HasAt(s, a, word) && HasAt(s, b, "}}")
    ensures s[..b + 2] == "{{" + (s[2..a] + (word + (s[n..e] + (s[e..b] + "}}"))))
  {
    assert s[..2] == "{{" && s[a..n] == word && s[b..b + 2] == "}}";
    assert s[e..b + 2] == s[e..b] + s[b..b + 2];
    assert s[n..b + 2] == s[n..e] + s[e..b + 2];
    assert s[a..b + 2] == s[a..n] + s[n..b + 2];
    assert s[2..b + 2] == s[2..a] + s[a..b + 2];
    assert s[..b + 2] == s[..2] + s[2..b + 2];
  }

  lemma TokenSound(s: string)
    requires TokenAt(s).Some?
    ensures var t := TokenAt(s).value;
      0 < t.length <= |s| && IsToken(s[..t.length], t.r)
  {
    hide NameAt, IsToken;
    var a := Skip(s, 2, IsSpace);
    SkipKept(s, 2, IsSpace);
    if HasAt(s, a, Word(Vars)) {
      NameSound(s, a, a + 5, Vars);
    } else {
      NameSound(s, a, a + 7, Inputs);
    }
  }

  lemma SkipSlice(s: string, i: nat, part: string, keep: char -> bool)
    requires HasAt(s, i, part) && (forall c :: c in part ==> keep(c))
    requires i + |part| < |s| && !keep(s[i + |part|])
    ensures Skip(s, i, keep) == i + |part|
  {
    forall k | i <= k < i + |part|
      ensures keep(s[k])
    {
      assert s[k] == part[k - i];
    }
    SkipFinds(s, i, i + |part|, keep);
  }

  lemma NameComplete(s: string, n: nat, ns: Namespace, name: string, after: string)
    requires IsName(name) && IsBlank(after)
    requires HasAt(s, n, name) && HasAt(s, n + |name|, after) && HasAt(s, n + |name| + |after|, "}}")
    ensures NameAt(s, n, ns) == Some(Token(n + |name| + |after| + 2, Ref(ns, name)))
  {
    hide Skip;
    var e := n + |name|;
    var b := e + |after|;
    assert s[n] == name[0];
    assert s[b] == "}}"[0];
    assert after != "" ==> s[e] == after[0] && after[0] in after;
    SkipSlice(s, n, name, IsNameChar);
    SkipSlice(s, e, after, IsSpace);
  }

  lemma TokenSlices(s: string, len: nat, r: Ref, before: string, after: string)
    requires len <= |s| && IsTokenWith(s[..len], r, before, after)
    ensures var a := 2 + |before|;
      var n := a + |Word(r.ns)|;
      var e := n + |r.name|;
      && HasAt(s, 0, "{{") && HasAt(s, 2, before) && HasAt(s, a, Word(r.ns)) && HasAt(s, n, r.name)
      && HasAt(s, e, after) && HasAt(s, e + |after|, "}}") && len == e + |after| + 2
  {
    hide IsBlank, IsName, Word, HasAt;
    assert s[0..len] == s[..len];
    var a := 2 + |before|;
    var n := a + |Word(r.ns)|;
    var e := n + |r.name|;
    Peel(s, 0, len, "{{", before + (Word(r.ns) + (r.name + (after + "}}"))));
    Peel(s, 2, len, before, Word(r.ns) + (r.name + (after + "}}")));
    Peel(s, a, len, Word(r.ns), r.name + (after + "}}"));
    Peel(s, n, len, r.name, after + "}}");
    Peel(s, e, len, after, "}}");
    Peel(s, e + |after|, len, "}}", "");
  }

  lemma BlanksThenWord(s: string, before: string, ns: Namespace)
    requires IsBlank(before) && HasAt(s, 2, before) && HasAt(s, 2 + |before|, Word(ns))
    ensures 2 <= |s| && Skip(s, 2, IsSpace) == 2 + |before|
    ensures HasAt(s, 2 + |before|, Word(Vars)) <==> ns == Vars
  {
    WordBegins(s, 2 + |before|, ns);
    hide Skip, HasAt;
    SkipSlice(s, 2, before, IsSpace);
  }

  lemma WordBegins(s: string, a: nat, ns: Namespace)
    requires HasAt(s, a, Word(ns))
    ensures a < |s| && !IsSpace(s[a])
    ensures HasAt(s, a, Word(Vars)) <==> ns == Vars
  {
    assert s[a] == Word(ns)[0];
    assert HasAt(s, a, Word(Vars)) ==> s[a] == Word(Vars)[0];
  }

  // Every token of the grammar at the front of the text is matched, whatever follows.
  lemma TokenComplete(s: string, len: nat, r: Ref, before: string, after: string)
    requires len <= |s| && IsTokenWith(s[..len], r, before, after)
    ensures TokenAt(s) == Some(Token(len, r))
  {
    hide Skip, NameAt, IsBlank, IsName, IsSpace;
    TokenSlices(s, len, r, before, after);
    var a := 2 + |before|;
    BlanksThenWord(s, before, r.ns);
    NameComplete(s, a + |Word(r.ns)|, r.ns, r.name, after);
  }

  // The matcher and the grammar agree: one token at most starts a text, and it is the one found.
  lemma TokenAtIff(s: string, len: nat, r: Ref)
    ensures TokenAt(s) == Some(Token(len, r)) <==> len <= |s| && IsToken(s[..len], r)
  {
    hide TokenAt, IsTokenWith;
    if TokenAt(s) == Some(Token(len, r)) {
      TokenSound(s);
    }
    if len <= |s| && IsToken(s[..len], r) {
      var before, after :| IsTokenWith(s[..len], r, before, after);
      TokenComplete(s, len, r, before, after);
    }
  }

  // ---------------------------------------------------------------- splitting a template

  datatype Piece = Literal(c: char) | Reference(raw: string, r: Ref)

  function Tokenize(text: string): seq<Piece>
    decreases |text|
  {
    if text == "" then []
    else
      match TokenAt(text)
      case Some(t) =>
        TokenSound(text);
        [Reference(text[..t.length], t.r)] + Tokenize(text[t.length..])
      case None => [Literal(text[0])] + Tokenize(text[1..])
  }

  function PieceText(p: Piece): string {
    match p
    case Literal(c) => [c]
    case Reference(raw, _) => raw
  }

  function SourceText(pieces: seq<Piece>): string {
    if pieces == [] then "" else PieceText(pieces[0]) + SourceText(pieces[1..])
  }

  ghost predicate NoTokenStarts(s: string) {
    forall len, r :: 0 <= len <= |s| ==> !IsToken(s[..len], r)
  }

  // Left to right, tokens wherever one starts and single characters elsewhere.
  ghost predicate IsSplit(text: string, pieces: seq<Piece>)
    decreases |pieces|
  {
    if pieces == [] then text == ""
    else
      match pieces[0]
      case Literal(c) => text != "" && text[0] == c && NoTokenStarts(text) && IsSplit(text[1..], pieces[1..])
      case Reference(raw, r) =>
        |raw| <= |text| && text[..|raw|] == raw && IsToken(raw, r) && IsSplit(text[|raw|..], pieces[1..])
  }

  lemma NoTokenIff(s: string)
    ensures TokenAt(s).None? <==> NoTokenStarts(s)
  {
    hide TokenAt, IsToken;
    forall len, r | 0 <= len <= |s|
      ensures TokenAt(s) == Some(Token(len, r)) <==> IsToken(s[..len], r)
    {
      TokenAtIff(s, len, r);
    }
    if TokenAt(s).Some? {
      TokenSound(s);
      var t := TokenAt(s).value;
      assert IsToken(s[..t.length], t.r);
    }
  }

  lemma {:induction false} TokenizeSplits(text: string)
    ensures IsSplit(text, Tokenize(text))
    decreases |text|
  {
    hide TokenAt, IsToken, NoTokenStarts;
    if text != "" {
      NoTokenIff(text);
      if TokenAt(text).Some? {
        TokenSound(text);
        var t := TokenAt(text).value;
        TokenizeSplits(text[t.length..]);
        SplitReference(text, text[..t.length], t.r, Tokenize(text[t.length..]));
      } else {
        TokenizeSplits(text[1..]);
        SplitLiteral(text, Tokenize(text[1..]));
      }
    }
  }

  lemma SplitReference(text: string, raw: string, r: Ref, rest: seq<Piece>)
    requires |raw| <= |text| && text[..|raw|] == raw && IsToken(raw, r) && IsSplit(text[|raw|..], rest)
    ensures IsSplit(text, [Reference(raw, r)] + rest)
  {}

  lemma SplitLiteral(text: string, rest: seq<Piece>)
    requires text != "" && NoTokenStarts(text) && IsSplit(text[1..], rest)
    ensures IsSplit(text, [Literal(text[0])] + rest)
  {}

  lemma {:induction false} SplitIsTokenize(text: string, pieces: seq<Piece>)
    requires IsSplit(text, pieces)
    ensures pieces == Tokenize(text)
    decreases |pieces|
  {
    hide TokenAt, IsToken, NoTokenStarts;
    if pieces != [] {
      SplitHead(pieces);
      match pieces[0] {
        case Literal(c) =>
          NoTokenIff(text);
          SplitIsTokenize(text[1..], pieces[1..]);
        case Reference(raw, r) =>
          TokenAtIff(text, |raw|, r);
          TokenSound(text);
          SplitIsTokenize(text[|raw|..], pieces[1..]);
      }
    }
  }

  lemma SplitHead<T>(s: seq<T>)
    requires s != []
    ensures s == [s[0]] + s[1..]
  {}

  // The tokenizer computes the split, the only one there is.
  lemma TokenizeIsTheSplit(text: string, pieces: seq<Piece>)
    ensures pieces == Tokenize(text) <==> IsSplit(text, pieces)
  {
    hide Tokenize, IsSplit;
    TokenizeSplits(text);
    if IsSplit(text, pieces) {
      SplitIsTokenize(text, pieces);
    }
  }

  // Splitting loses nothing.
  lemma {:induction false} TokenizeIsLossless(text: string)
    ensures SourceText(Tokenize(text)) == text
    decreases |text|
  {
    hide TokenAt;
    if text != "" {
      if TokenAt(text).Some? {
        TokenSound(text);
        var t := TokenAt(text).value;
        TokenizeIsLossless(text[t.length..]);
        assert text == text[..t.length] + text[t.length..];
      } else {
        TokenizeIsLossless(text[1..]);
        assert text == [text[0]] + text[1..];
      }
    }
  }

  // ---------------------------------------------------------------- tokens in place

  datatype Match = Match(start: nat, end: nat, r: Ref)

  function Located(pieces: seq<Piece>, at: nat): seq<Match> {
    if pieces == [] then []
    else
      match pieces[0]
      case Literal(_) => Located(pieces[1..], at + 1)
      case Reference(raw, r) => [Match(at, at + |raw|, r)] + Located(pieces[1..], at + |raw|)
  }

  // All tokens of the text, leftmost first and without overlap.
  function FindAll(text: string): seq<Match> {
    Located(Tokenize(text), 0)
  }

  ghost function Refs(text: string): set<Ref> {
    set m | m in FindAll(text) :: m.r
  }

  ghost predicate CoveredBy(ms: seq<Match>, k: nat, i: int) {
    exists j :: 0 <= j < k <= |ms| && ms[j].start <= i < ms[j].end
  }

  ghost predicate Covered(text: string, i: int) {
    CoveredBy(FindAll(text), |FindAll(text)|, i)
  }

  lemma {:induction false} LocatedInRange(pieces: seq<Piece>, at: nat)
    ensures forall m :: m in Located(pieces, at) ==> at <= m.start <= m.end <= at + |SourceText(pieces)|
    decreases |pieces|
  {
    if pieces != [] {
      match pieces[0] {
        case Literal(_) => LocatedInRange(pieces[1..], at + 1);
        case Reference(raw, r) => LocatedInRange(pieces[1..], at + |raw|);
      }
    }
  }

  lemma FoundInRange(text: string)
    ensures forall m :: m in FindAll(text) ==> 0 <= m.start <= m.end <= |text|
  {
    hide Tokenize, Located;
    LocatedInRange(Tokenize(text), 0);
    TokenizeIsLossless(text);
  }

  // The matches lie one behind the other, each on a token of the text.
  ghost predicate OnTokens(text: string, ms: seq<Match>, at: nat) {
    (forall m :: m in ms ==> OnToken(text, m, at)) && Apart(ms)
  }

  ghost predicate Apart(ms: seq<Match>) {
    forall i, j :: 0 <= i < j < |ms| ==> ms[i].end <= ms[j].start
  }

  // The match covers a token of the text, whose first character stands at position `at`.
  ghost predicate OnToken(text: string, m: Match, at: nat) {
    at <= m.start < m.end <= at + |text| && IsToken(text[m.start - at..m.end - at], m.r)
  }

  ghost predicate IsInside(ms: seq<Match>, i: int) {
    exists m :: m in ms && m.start <= i < m.end
  }

  // Nothing is missed: outside the matches no token starts.
  ghost predicate Missed(text: string, ms: seq<Match>, at: nat, i: nat) {
    i < |text| && !IsInside(ms, at + i) && !NoTokenStarts(text[i..])
  }

  ghost predicate NothingMissed(text: string, ms: seq<Match>, at: nat) {
    forall i: nat :: !Missed(text, ms, at, i)
  }

  lemma {:induction false} LocatedOnTokens(text: string, pieces: seq<Piece>, at: nat)
    requires IsSplit(text, pieces)
    ensures OnTokens(text, Located(pieces, at), at) && NothingMissed(text, Located(pieces, at), at)
    decreases |pieces|
  {
    hide IsToken, NoTokenStarts, OnTokens, NothingMissed;
    if pieces == [] {
      NothingLocated(text, at);
    } else {
      match pieces[0] {
        case Literal(_) =>
          LocatedOnTokens(text[1..], pieces[1..], at + 1);
          AfterLiteral(text, Located(pieces[1..], at + 1), at);
        case Reference(raw, r) =>
          LocatedOnTokens(text[|raw|..], pieces[1..], at + |raw|);
          TokenHasLength(raw, r);
          AfterToken(text, raw, r, Located(pieces[1..], at + |raw|), at);
      }
    }
  }

  lemma NothingLocated(text: string, at: nat)
    requires text == ""
    ensures OnTokens(text, [], at) && NothingMissed(text, [], at)
  {}

  lemma TokenHasLength(raw: string, r: Ref)
    requires IsToken(raw, r)
    ensures raw != ""
  {}

  lemma {:induction false} ShiftedMatch(text: string, m: Match, at: nat, n: nat)
    requires n <= |text| && OnToken(text[n..], m, at + n)
    ensures OnToken(text, m, at)
  {
    assert text[n..|text|] == text[n..];
    SliceSlice(text, n, |text|, m.start - at - n, m.end - at - n);
  }

  lemma AfterLiteral(text: string, ms: seq<Match>, at: nat)
    requires text != "" && NoTokenStarts(text) && OnTokens(text[1..], ms, at + 1)
    requires NothingMissed(text[1..], ms, at + 1)
    ensures OnTokens(text, ms, at) && NothingMissed(text, ms, at)
  {
    hide IsToken, NoTokenStarts, OnToken, IsInside, Apart;
    forall m | m in ms
      ensures OnToken(text, m, at)
    {
      assert OnToken(text[1..], m, at + 1);
      ShiftedMatch(text, m, at, 1);
    }
    forall i: nat
      ensures !Missed(text, ms, at, i)
    {
      assert text[0..] == text;
      if 0 < i < |text| {
        assert !Missed(text[1..], ms, at + 1, i - 1);
        assert text[1..][i - 1..] == text[i..];
      }
    }
  }

  lemma AfterToken(text: string, raw: string, r: Ref, ms: seq<Match>, at: nat)
    requires raw != "" && |raw| <= |text| && text[..|raw|] == raw && IsToken(raw, r) && OnTokens(text[|raw|..], ms, at + |raw|)
    requires NothingMissed(text[|raw|..], ms, at + |raw|)
    ensures var all := [Match(at, at + |raw|, r)] + ms;
      OnTokens(text, all, at) && NothingMissed(text, all, at)
  {
    TokenThenMatches(text, raw, r, ms, at);
    hide IsToken, NoTokenStarts, OnTokens, IsInside;
    var here, n := Match(at, at + |raw|, r), |raw|;
    forall i: nat
      ensures !Missed(text, [here] + ms, at, i)
    {
      InsideEither(here, ms, at + i);
      if n <= i < |text| {
        assert !Missed(text[n..], ms, at + n, i - n);
        assert text[n..][i - n..] == text[i..];
      }
    }
  }

  lemma InsideEither(m: Match, ms: seq<Match>, i: int)
    ensures IsInside([m] + ms, i) <==> m.start <= i < m.end || IsInside(ms, i)
  {
    var all := [m] + ms;
    assert m == all[0] && forall x :: x in all <==> x == m || x in ms;
  }

  lemma TokenThenMatches(text: string, raw: string, r: Ref, ms: seq<Match>, at: nat)
    requires raw != "" && |raw| <= |text| && text[..|raw|] == raw && IsToken(raw, r) && OnTokens(text[|raw|..], ms, at + |raw|)
    ensures OnTokens(text, [Match(at, at + |raw|, r)] + ms, at)
  {
    hide IsToken;
    var here := Match(at, at + |raw|, r);
    FirstMatch(text, here);
    forall m | m in ms
      ensures OnToken(text, m, at) && here.end <= m.start
    {
      BehindFirst(text, |raw|, m, at);
    }
    hide OnToken, Apart;
    StillApart(here, ms);
    forall m | m in [here] + ms
      ensures OnToken(text, m, at)
    {
      assert m == here || m in ms;
    }
  }

  lemma {:induction false} FirstMatch(text: string, m: Match)
    requires m.start < m.end <= m.start + |text| && IsToken(text[..m.end - m.start], m.r)
    ensures OnToken(text, m, m.start)
  {
    hide IsToken;
    assert text[0..m.end - m.start] == text[..m.end - m.start];
  }

  lemma {:induction false} BehindFirst(text: string, n: nat, m: Match, at: nat)
    requires n <= |text| && OnToken(text[n..], m, at + n)
    ensures OnToken(text, m, at) && at + n <= m.start
  {
    hide IsToken;
    ShiftedMatch(text, m, at, n);
  }

  lemma StillApart(here: Match, ms: seq<Match>)
    requires Apart(ms) && forall m :: m in ms ==> here.end <= m.start
    ensures Apart([here] + ms)
  {
    var all := [here] + ms;
    forall i, j | 0 <= i < j < |all|
      ensures all[i].end <= all[j].start
    {
      assert all[j] == ms[j - 1] && ms[j - 1] in ms;
      assert i > 0 ==> all[i] == ms[i - 1];
    }
  }

  // Finding all tokens: each match is one, none overlaps another, and no token starts outside
  // them.
  lemma FindAllFinds(text: string)
    ensures OnTokens(text, FindAll(text), 0) && NothingMissed(text, FindAll(text), 0)
  {
    hide IsSplit, Located, OnTokens, NothingMissed;
    TokenizeSplits(text);
    LocatedOnTokens(text, Tokenize(text), 0);
  }

  // ---------------------------------------------------------------- validation

  predicate IsSuspect(a: char, b: char) {
    (a == '{' && (b == '{' || b == '%')) || (a == '%' && b == '}')
  }

  // Brace syntax that no token explains.
  ghost predicate SuspectAt(text: string, i: nat) {
    i < |text| - 1 && IsSuspect(text[i], text[i + 1]) && !Covered(text, i) && !Covered(text, i + 1)
  }

  predicate IsDeclared(r: Ref, vars: set<string>, inputs: set<string>) {
    match r.ns
    case Vars => r.name in vars
    case Inputs => r.name in inputs
  }

  // Every token names something declared, and the text between tokens holds no brace syntax.
  ghost predicate IsAcceptable(prompt: string, vars: set<string>, inputs: set<string>) {
    && (forall r :: r in Refs(prompt) ==> IsDeclared(r, vars, inputs))
    && forall i: nat :: !SuspectAt(prompt, i)
  }

  datatype Problem = Undeclared(r: Ref) | Unsupported(at: nat)

  // Left-over syntax is two characters that open or close something, both outside every token.
  lemma SuspectAtIff(text: string, i: nat)
    ensures SuspectAt(text, i) <==>
      && i + 2 <= |text| && text[i..i + 2] in ["{{", "{%", "%}"]
      && !IsInside(FindAll(text), i) && !IsInside(FindAll(text), i + 1)
  {
    hide FindAll;
    var ms := FindAll(text);
    forall x: int
      ensures IsInside(ms, x) <==> CoveredBy(ms, |ms|, x)
    {
      if j :| 0 <= j < |ms| && ms[j].start <= x < ms[j].end {
        assert ms[j] in ms;
      }
    }
    if i + 2 <= |text| {
      var two := text[i..i + 2];
      assert two == [text[i], text[i + 1]];
    }
  }

  // Left-over syntax is reported where it starts, or by the report just before it.
  predicate IsReported(problems: seq<Problem>, at: nat) {
    Unsupported(at) in problems || (at > 0 && Unsupported(at - 1) in problems)
  }

  // The text with the first k tokens blanked, and the next one up to `upTo`.
  ghost predicate Scrubbed(prompt: string, now: string, ms: seq<Match>, k: nat, start: nat, upTo: nat) {
    && |now| == |prompt|
    && forall i :: 0 <= i < |now| ==> now[i] == if CoveredBy(ms, k, i) || start <= i < upTo then ' ' else prompt[i]
  }

  lemma BlankOne(prompt: string, now: string, ms: seq<Match>, k: nat, start: nat, at: nat)
    requires Scrubbed(prompt, now, ms, k, start, at) && start <= at < |now|
    ensures Scrubbed(prompt, now[at := ' '], ms, k, start, at + 1)
  {}

  lemma BlankedToken(prompt: string, now: string, ms: seq<Match>, k: nat)
    requires k < |ms| && Scrubbed(prompt, now, ms, k, ms[k].start, ms[k].end)
    ensures Scrubbed(prompt, now, ms, k + 1, 0, 0)
  {}

  // Blank every token in place and collect those that name nothing declared.
  method Scrub(prompt: string, vars: set<string>, inputs: set<string>) returns (remainder: string, problems: seq<Problem>)
    ensures Scrubbed(prompt, remainder, FindAll(prompt), |FindAll(prompt)|, 0, 0)
    ensures forall p :: p in problems <==> p.Undeclared? && p.r in Refs(prompt) && !IsDeclared(p.r, vars, inputs)
  {
    hide FindAll, CoveredBy;
    FoundInRange(prompt);
    var ms := FindAll(prompt);
    problems := [];
    var scrubbed := new char[|prompt|](i requires 0 <= i < |prompt| => prompt[i]);
    NothingBlanked(prompt, scrubbed[..], ms);
    for k := 0 to |ms|
      invariant Scrubbed(prompt, scrubbed[..], ms, k, 0, 0)
      invariant forall p :: p in problems <==> p.Undeclared? && ReferredTo(ms, k, p.r) && !IsDeclared(p.r, vars, inputs)
    {
      var m := ms[k];
      assert m in ms;
      if !IsDeclared(m.r, vars, inputs) {
        problems := problems + [Undeclared(m.r)];
      }
      ReferredNext(ms, k);
      for index := m.start to m.end
        invariant Scrubbed(prompt, scrubbed[..], ms, k, m.start, index)
      {
        BlankOne(prompt, scrubbed[..], ms, k, m.start, index);
        ghost var before := scrubbed[..];
        scrubbed[index] := ' ';
        assert scrubbed[..] == before[index := ' '];
      }
      BlankedToken(prompt, scrubbed[..], ms, k);
    }
    remainder := scrubbed[..];
    forall r
      ensures ReferredTo(ms, |ms|, r) <==> r in Refs(prompt)
    {}
  }

  ghost predicate ReferredTo(ms: seq<Match>, k: nat, r: Ref) {
    k <= |ms| && exists m :: m in ms[..k] && m.r == r
  }

  lemma ReferredNext(ms: seq<Match>, k: nat)
    requires k < |ms|
    ensures forall r :: ReferredTo(ms, k + 1, r) <==> ReferredTo(ms, k, r) || r == ms[k].r
  {
    var next := ms[..k + 1];
    assert next == ms[..k] + [ms[k]];
    forall r
      ensures ReferredTo(ms, k + 1, r) <==> ReferredTo(ms, k, r) || r == ms[k].r
    {
      if r == ms[k].r {
        assert next[k] == ms[k] && next[k] in next;
      }
      if m :| m in ms[..k] && m.r == r {
        assert m in next;
      }
      if m :| m in next && m.r == r {
        assert m in ms[..k] || m == ms[k];
      }
    }
  }

  lemma NothingBlanked(prompt: string, now: string, ms: seq<Match>)
    requires now == prompt
    ensures Scrubbed(prompt, now, ms, 0, 0, 0)
  {}

  // Accept exactly the acceptable templates; otherwise name every undeclared reference and
  // every place where brace syntax is left over.
  method ValidateTemplate(prompt: string, vars: set<string>, inputs: set<string>) returns (r: Result<(), seq<Problem>>)
    ensures r.Ok? <==> IsAcceptable(prompt, vars, inputs)
    ensures r.Err? ==> forall ref :: Undeclared(ref) in r.error <==> ref in Refs(prompt) && !IsDeclared(ref, vars, inputs)
    ensures r.Err? ==> forall i: nat :: Unsupported(i) in r.error ==> SuspectAt(prompt, i)
    ensures r.Err? ==> forall i: nat :: SuspectAt(prompt, i) ==> IsReported(r.error, i)
  {
    hide Refs, SuspectAt, Scrubbed;
    var remainder, problems := Scrub(prompt, vars, inputs);
    ScrubShows(prompt, remainder);
    var i := 0;
    ghost var undeclared := problems;
    while i < |remainder| - 1
      invariant 0 <= i
      invariant undeclared <= problems
      invariant forall p :: p in problems && p.Undeclared? ==> p in undeclared
      invariant forall at: nat :: Unsupported(at) in problems ==> SuspectAt(prompt, at)
      invariant forall at: nat :: at < i && SuspectAt(prompt, at) ==> IsReported(problems, at)
    {
      if IsSuspect(remainder[i], remainder[i + 1]) {
        ghost var was := problems;
        problems := problems + [Unsupported(i)];
        assert Unsupported(i) in problems && forall p :: p in was ==> p in problems;
        assert IsReported(problems, i) && IsReported(problems, i + 1);
        assert forall at: nat :: IsReported(was, at) ==> IsReported(problems, at);
        i := i + 2;
      } else {
        i := i + 1;
      }
    }
    SomeProblem(prompt, vars, inputs, undeclared, problems);
    r := if problems == [] then Ok(()) else Err(problems);
  }

  lemma SomeProblem(prompt: string, vars: set<string>, inputs: set<string>, undeclared: seq<Problem>, problems: seq<Problem>)
    requires forall p :: p in undeclared <==> p.Undeclared? && p.r in Refs(prompt) && !IsDeclared(p.r, vars, inputs)
    requires forall p :: p in problems && p.Undeclared? <==> p in undeclared
    requires forall at: nat :: Unsupported(at) in problems ==> SuspectAt(prompt, at)
    requires forall at: nat :: SuspectAt(prompt, at) ==> IsReported(problems, at)
    ensures problems == [] <==> IsAcceptable(prompt, vars, inputs)
  {
    hide Refs, Covered;
    if problems == [] {
      forall r | r in Refs(prompt)
        ensures IsDeclared(r, vars, inputs)
      {
        assert Undeclared(r) !in undeclared;
      }
      forall i: nat
        ensures !SuspectAt(prompt, i)
      {
        assert !IsReported(problems, i);
      }
    } else {
      var p := problems[0];
      assert p in problems;
      if p.Undeclared? {
        assert p.r in Refs(prompt) && !IsDeclared(p.r, vars, inputs);
      } else {
        assert SuspectAt(prompt, p.at);
      }
    }
  }

  lemma ScrubShows(prompt: string, remainder: string)
    requires Scrubbed(prompt, remainder, FindAll(prompt), |FindAll(prompt)|, 0, 0)
    ensures |remainder| == |prompt|
    ensures forall i :: 0 <= i < |remainder| - 1 ==> (IsSuspect(remainder[i], remainder[i + 1]) <==> SuspectAt(prompt, i))
    ensures forall i: nat :: SuspectAt(prompt, i) ==> i < |prompt| - 1
  {}
}
