// The delimiters around one step's output in another step's prompt.
module Untrusted {
  import opened Wrappers
  import opened Seqs

  const SIGIL: string := "<<<ziggy:"
  const NEUTRALIZED: string := "<<<ziggy-neutralized:"

  // Rewrite every delimiter sigil, left to right.
  function Neutralize(value: string): string
    decreases |value|
  {
    if value == "" then ""
    else if SIGIL <= value then NEUTRALIZED + Neutralize(value[|SIGIL|..])
    else [value[0]] + Neutralize(value[1..])
  }

  datatype Attribute = Attribute(key: string, value: string)

  function Attributes(attrs: seq<Attribute>): string {
    if attrs == [] then ">>>"
    else attrs[0].key + (['"'] + (attrs[0].value + (['"'] + Attributes(attrs[1..]))))
  }

  function Marker(tag: char, word: string, attrs: seq<Attribute>): string {
    SIGIL + [tag] + (word + Attributes(attrs))
  }

  function NonceAttribute(nonce: string): seq<Attribute> {
    if nonce == "" then [] else [Attribute(" id=", nonce)]
  }

  function OpenAttributes(name: string, source: string, nonce: string): seq<Attribute> {
    NonceAttribute(nonce) + [Attribute(" name=", name), Attribute(" source=", source)]
  }

  function CloseAttributes(name: string, nonce: string): seq<Attribute> {
    NonceAttribute(nonce) + [Attribute(" name=", name)]
  }

  // <<<ziggy:untrusted-input id="..." name="..." source="...">>>
  function OpenMarker(name: string, source: string, nonce: string): string {
    Marker('u', "ntrusted-input", OpenAttributes(name, source, nonce))
  }

  // <<<ziggy:end-untrusted-input id="..." name="...">>>
  function CloseMarker(name: string, nonce: string): string {
    Marker('e', "nd-untrusted-input", CloseAttributes(name, nonce))
  }

  function Enclose(open: string, body: string, close: string): string {
    open + "\n" + body + "\n" + close
  }

  predicate Holds(s: string, part: string) {
    part <= s || (s != "" && Holds(s[1..], part))
  }

  // None when the value holds the run's nonce: the wrap is refused. An empty nonce means none
  // was given.
  function WrapUntrusted(name: string, source: string, value: string, nonce: string): Option<string> {
    var safe := Neutralize(value);
    if nonce != "" && Holds(safe, nonce) then None
    else Some(Enclose(OpenMarker(name, source, nonce), safe, CloseMarker(name, nonce)))
  }

  // ---------------------------------------------------------------- counting sigils

  predicate SigilAt(s: string, i: int) {
    0 <= i <= |s| - |SIGIL| && s[i..i + |SIGIL|] == SIGIL
  }

  // How many times the sigil occurs.
  function Sigils(s: string): nat {
    if s == "" then 0 else (if SigilAt(s, 0) then 1 else 0) + Sigils(s[1..])
  }

  predicate InSigil(c: char) {
    c in SIGIL
  }

  // One wrong character rules the sigil out.
  lemma NoSigilAt(s: string, k: nat)
    requires k < |SIGIL| && k < |s| && s[k] != SIGIL[k]
    ensures !SigilAt(s, 0)
  {}

  // No occurrence crosses a character the sigil does not have.
  lemma {:induction false} SigilsAcross(a: string, c: char, b: string)
    requires !InSigil(c)
    ensures Sigils(a + [c] + b) == Sigils(a) + Sigils(b)
    decreases |a|
  {
    var s := a + [c] + b;
    if a == "" {
      assert s[0] == c && s[1..] == b;
      NoSigilAt(s, 0);
    } else {
      assert s[1..] == a[1..] + [c] + b;
      SigilsAcross(a[1..], c, b);
      if |SIGIL| <= |a| {
        assert s[0..|SIGIL|] == a[0..|SIGIL|];
      } else {
        assert s[|a|] == c;
        NoSigilAt(s, |a|);
      }
    }
  }

  lemma {:induction false} NoAngleNoSigil(a: string, b: string)
    requires '<' !in a
    ensures Sigils(a + b) == Sigils(b)
    decreases |a|
  {
    if a == "" {
      assert a + b == b;
    } else {
      assert (a + b)[1..] == a[1..] + b;
      NoAngleNoSigil(a[1..], b);
      NoSigilAt(a + b, 0);
    }
  }

  lemma {:induction false} TooShort(s: string)
    requires |s| < |SIGIL|
    ensures Sigils(s) == 0
    decreases |s|
  {
    if s != "" {
      TooShort(s[1..]);
    }
  }

  // ---------------------------------------------------------------- neutralised values

  // Neutralising never completes a sigil out of its surroundings.
  lemma {:induction false} SuffixWasThere(j: nat, w: string)
    requires 1 <= j <= |SIGIL|
    ensures SIGIL[j..] <= Neutralize(w) ==> SIGIL[j..] <= w
    decreases |w|
  {
    if j < |SIGIL| && w != "" {
      if SIGIL <= w {
        MarkerDiffers(j, w);
      } else {
        SuffixWasThere(j + 1, w[1..]);
        assert SIGIL[j..][1..] == SIGIL[j + 1..];
        if SIGIL[j..] <= Neutralize(w) {
          PrefixTail(SIGIL[j..], Neutralize(w));
          assert Neutralize(w)[1..] == Neutralize(w[1..]);
          PrefixCons(SIGIL[j..], w);
        }
      }
    }
  }

  // A neutralised sigil begins with "<<<z" and no later part of a sigil does.
  lemma MarkerDiffers(j: nat, w: string)
    requires 1 <= j < |SIGIL| && SIGIL <= w
    ensures !(SIGIL[j..] <= Neutralize(w))
  {
    var k := if j < 3 then 3 - j else 0;
    assert SIGIL[j..][k] == SIGIL[j + k] != '<';
    assert Neutralize(w)[k] == NEUTRALIZED[k] == '<';
  }

  lemma PrefixTail(a: string, b: string)
    requires a != "" && a <= b
    ensures a[0] == b[0] && a[1..] <= b[1..]
  {}

  lemma PrefixCons(a: string, b: string)
    requires a != "" && b != "" && a[0] == b[0] && a[1..] <= b[1..]
    ensures a <= b
  {}

  lemma MarkerIsInert(rest: string)
    ensures Sigils(NEUTRALIZED + rest) == Sigils(rest)
  {
    hide Sigils;
    var head, tail := "<<<ziggy", "neutralized:";
    assert NEUTRALIZED == head + ['-'] + tail;
    assert NEUTRALIZED + rest == head + ['-'] + (tail + rest);
    SigilsAcross(head, '-', tail + rest);
    TooShort(head);
    NoAngleNoSigil(tail, rest);
  }

  // A neutralised value holds no sigil.
  lemma {:induction false} NeutralizeDisarms(value: string)
    ensures Sigils(Neutralize(value)) == 0
    decreases |value|
  {
    if value != "" {
      if SIGIL <= value {
        NeutralizeDisarms(value[|SIGIL|..]);
        MarkerIsInert(Neutralize(value[|SIGIL|..]));
      } else {
        var out, rest := Neutralize(value), Neutralize(value[1..]);
        NeutralizeDisarms(value[1..]);
        SuffixWasThere(1, value[1..]);
        assert out[1..] == rest;
        if SigilAt(out, 0) {
          assert out[0..|SIGIL|] == out[..|SIGIL|];
          PrefixTail(SIGIL, out);
          PrefixCons(SIGIL, value);
        }
      }
    }
  }

  lemma SigilHere(s: string)
    ensures SigilAt(s, 0) <==> SIGIL <= s
  {
    if |SIGIL| <= |s| {
      assert s[0..|SIGIL|] == s[..|SIGIL|];
    }
  }

  lemma SigilInTail(s: string, j: nat)
    requires s != ""
    ensures SigilAt(s[1..], j) <==> SigilAt(s, j + 1)
  {
    if j + 1 + |SIGIL| <= |s| {
      SliceSlice(s, 1, |s|, j, j + |SIGIL|);
    }
  }

  lemma CopiesHead(value: string)
    requires value != "" && !(SIGIL <= value)
    ensures Neutralize(value) == [value[0]] + Neutralize(value[1..])
  {}

  lemma RewritesHead(value: string)
    requires SIGIL <= value
    ensures Neutralize(value) == NEUTRALIZED + Neutralize(value[|SIGIL|..])
  {}

  ghost predicate FirstSigil(s: string, i: nat) {
    SigilAt(s, i) && forall j :: 0 <= j < i ==> !SigilAt(s, j)
  }

  lemma FirstInTail(s: string, i: nat)
    requires FirstSigil(s, i) && i > 0
    ensures s != "" && !(SIGIL <= s) && FirstSigil(s[1..], i - 1)
  {
    SigilFits(s, i);
    SigilHere(s);
    hide SigilAt;
    forall j: nat | j < i
      ensures SigilAt(s[1..], j) <==> SigilAt(s, j + 1)
    {
      SigilInTail(s, j);
    }
    assert SigilAt(s[1..], i - 1);
  }

  ghost predicate RewrittenAt(value: string, i: nat)
    requires i + |SIGIL| <= |value|
  {
    Neutralize(value) == value[..i] + (NEUTRALIZED + Neutralize(value[i + |SIGIL|..]))
  }

  lemma RewrittenHere(value: string)
    requires SIGIL <= value
    ensures RewrittenAt(value, 0)
  {
    RewritesHead(value);
    hide Neutralize, NEUTRALIZED;
    assert value[..0] == "";
  }

  lemma RewrittenBehind(value: string, i: nat)
    requires 0 < i && i + |SIGIL| <= |value| && !(SIGIL <= value) && RewrittenAt(value[1..], i - 1)
    ensures RewrittenAt(value, i)
  {
    CopiesHead(value);
    hide Neutralize, NEUTRALIZED, SIGIL;
    var rest, behind := value[1..], value[i + |SIGIL|..];
    assert rest[i - 1 + |SIGIL|..] == behind;
    assert value[..i] == [value[0]] + rest[..i - 1];
    Assoc([value[0]], rest[..i - 1], NEUTRALIZED + Neutralize(behind));
  }

  // The first sigil is rewritten, what precedes it stays, and the rest is rewritten likewise.
  lemma {:induction false} NeutralizeFirst(value: string, i: nat)
    requires FirstSigil(value, i)
    ensures i + |SIGIL| <= |value| && RewrittenAt(value, i)
    decreases i
  {
    SigilFits(value, i);
    SigilHere(value);
    if i == 0 {
      hide RewrittenAt;
      RewrittenHere(value);
    } else {
      FirstInTail(value, i);
      hide FirstSigil, RewrittenAt;
      NeutralizeFirst(value[1..], i - 1);
      RewrittenBehind(value, i);
    }
  }

  lemma SigilFits(s: string, i: nat)
    requires SigilAt(s, i)
    ensures i + |SIGIL| <= |s|
  {}

  // ---------------------------------------------------------------- wrapped values

  function ValueSigils(attrs: seq<Attribute>): nat {
    if attrs == [] then 0 else Sigils(attrs[0].value) + ValueSigils(attrs[1..])
  }

  ghost predicate PlainKeys(attrs: seq<Attribute>) {
    forall x :: x in attrs ==> '<' !in x.key
  }

  lemma QuoteNotInSigil()
    ensures !InSigil('"') && !InSigil('\n') && !InSigil('u') && !InSigil('e') && !InSigil('-')
  {}

  lemma {:induction false} SigilsOfAttributes(attrs: seq<Attribute>)
    requires PlainKeys(attrs)
    ensures Sigils(Attributes(attrs)) == ValueSigils(attrs)
    decreases |attrs|
  {
    hide Sigils, InSigil;
    if attrs == [] {
      TooShort(">>>");
    } else {
      var x, rest := attrs[0], Attributes(attrs[1..]);
      SigilsOfAttributes(attrs[1..]);
      QuoteNotInSigil();
      assert '<' !in x.key;
      var tail := x.value + (['"'] + rest);
      Assoc(x.key, ['"'], tail);
      SigilsAcross(x.key, '"', tail);
      Assoc(x.value, ['"'], rest);
      SigilsAcross(x.value, '"', rest);
      NoAngleNoSigil(x.key, "");
      assert x.key + "" == x.key;
      TooShort("");
    }
  }

  lemma SigilsOfMarker(tag: char, word: string, attrs: seq<Attribute>)
    requires !InSigil(tag) && '<' !in word && PlainKeys(attrs)
    ensures Sigils(Marker(tag, word, attrs)) == 1 + ValueSigils(attrs)
  {
    hide Sigils, InSigil;
    SigilsAcross(SIGIL, tag, word + Attributes(attrs));
    NoAngleNoSigil(word, Attributes(attrs));
    SigilsOfAttributes(attrs);
    SigilsOfSigil();
  }

  lemma SigilsOfSigil()
    ensures Sigils(SIGIL) == 1
  {}

  lemma SigilsOfOpen(name: string, source: string, nonce: string)
    ensures Sigils(OpenMarker(name, source, nonce)) == 1 + Sigils(nonce) + Sigils(name) + Sigils(source)
  {
    hide Sigils, InSigil, Marker;
    QuoteNotInSigil();
    TooShort("");
    var attrs := OpenAttributes(name, source, nonce);
    var named := [Attribute(" name=", name), Attribute(" source=", source)];
    SigilsOfMarker('u', "ntrusted-input", attrs);
    assert named[1..][1..] == [];
    assert ValueSigils(named[1..]) == Sigils(named[1].value) + ValueSigils(named[1..][1..]);
    assert ValueSigils(named) == Sigils(name) + Sigils(source);
    if nonce == "" {
      assert attrs == named;
    } else {
      assert attrs[1..] == named;
    }
  }

  lemma SigilsOfClose(name: string, nonce: string)
    ensures Sigils(CloseMarker(name, nonce)) == 1 + Sigils(nonce) + Sigils(name)
  {
    hide Sigils, InSigil, Marker;
    QuoteNotInSigil();
    TooShort("");
    var attrs := CloseAttributes(name, nonce);
    var named := [Attribute(" name=", name)];
    SigilsOfMarker('e', "nd-untrusted-input", attrs);
    assert named[1..] == [];
    assert ValueSigils(named) == Sigils(name);
    if nonce == "" {
      assert attrs == named;
    } else {
      assert attrs[1..] == named;
    }
  }

  lemma SigilsOfEnclosed(open: string, body: string, close: string)
    ensures Sigils(Enclose(open, body, close)) == Sigils(open) + Sigils(body) + Sigils(close)
  {
    assert Enclose(open, body, close) == open + ['\n'] + (body + ['\n'] + close);
    SigilsAcross(open, '\n', body + ['\n'] + close);
    SigilsAcross(body, '\n', close);
  }

  // The value adds no sigil: a wrapped value holds its two markers' own, plus whatever its
  // name, source and nonce bring. So exactly two when those are free of it.
  lemma WrappedSigils(name: string, source: string, value: string, nonce: string)
    requires WrapUntrusted(name, source, value, nonce).Some?
    ensures Sigils(WrapUntrusted(name, source, value, nonce).value)
      == 2 + 2 * Sigils(nonce) + 2 * Sigils(name) + Sigils(source)
  {
    hide Sigils, Neutralize;
    SigilsOfOpen(name, source, nonce);
    SigilsOfClose(name, nonce);
    NeutralizeDisarms(value);
    SigilsOfEnclosed(OpenMarker(name, source, nonce), Neutralize(value), CloseMarker(name, nonce));
  }

  lemma MarkerStarts(tag: char, word: string, attrs: seq<Attribute>)
    ensures SigilAt(Marker(tag, word, attrs), 0)
  {}

  lemma {:induction false} SigilsFrom(s: string, i: nat)
    requires i < |s|
    ensures Sigils(s) >= (if SigilAt(s, i) then 1 else 0) + Sigils(s[i + 1..])
    decreases i
  {
    if i > 0 {
      SigilsFrom(s[1..], i - 1);
      assert s[1..][i..] == s[i + 1..];
      if SigilAt(s, i) {
        assert s[1..][i - 1..i - 1 + |SIGIL|] == s[i..i + |SIGIL|];
      }
    }
  }

  lemma SigilShift(s: string, k: nat, i: nat)
    requires k <= i && SigilAt(s, i)
    ensures SigilAt(s[k..], i - k)
  {}

  lemma SigilInside(s: string, i: nat)
    requires SigilAt(s, i)
    ensures i < |s|
  {}

  lemma ThreeSigils(s: string, i: nat, j: nat, k: nat)
    requires i < j < k && SigilAt(s, i) && SigilAt(s, j) && SigilAt(s, k)
    ensures Sigils(s) >= 3
  {
    hide SigilAt, Sigils;
    SigilInside(s, k);
    SigilsFrom(s, i);
    SigilShift(s, i + 1, j);
    var t := s[i + 1..];
    SigilsFrom(t, j - i - 1);
    SigilShift(s, j + 1, k);
    assert t[j - i..] == s[j + 1..];
    SigilsFrom(s[j + 1..], k - j - 1);
  }

  // A wrapped value whose name, source and nonce are free of the sigil holds it at the start of
  // its opening marker, at the start of its closing marker, and nowhere else.
  lemma SigilsExactlyAtMarkers(name: string, source: string, value: string, nonce: string, i: nat)
    requires WrapUntrusted(name, source, value, nonce).Some?
    requires Sigils(name) == 0 && Sigils(source) == 0 && Sigils(nonce) == 0
    ensures var close := |OpenMarker(name, source, nonce)| + 1 + |Neutralize(value)| + 1;
      SigilAt(WrapUntrusted(name, source, value, nonce).value, i) <==> i == 0 || i == close
  {
    hide Sigils, Neutralize, SigilAt, Attributes, Holds;
    var open, body, end := OpenMarker(name, source, nonce), Neutralize(value), CloseMarker(name, nonce);
    var w := Enclose(open, body, end);
    var close := |open| + 1 + |body| + 1;
    WrappedSigils(name, source, value, nonce);
    MarkerStarts('u', "ntrusted-input", OpenAttributes(name, source, nonce));
    MarkerStarts('e', "nd-untrusted-input", CloseAttributes(name, nonce));
    MarkersPlaced(open, body, end);
    if SigilAt(w, i) && i != 0 && i != close {
      NeverThree(w, close, i);
    }
  }

  lemma MarkersPlaced(open: string, body: string, end: string)
    requires SigilAt(open, 0) && SigilAt(end, 0)
    ensures var w := Enclose(open, body, end);
      SigilAt(w, 0) && SigilAt(w, |open| + 1 + |body| + 1)
  {}

  lemma NeverThree(w: string, close: nat, i: nat)
    requires SigilAt(w, 0) && SigilAt(w, close) && SigilAt(w, i) && close > 0 && i > 0 && i != close
    ensures Sigils(w) > 2
  {
    hide SigilAt, Sigils;
    if i < close {
      ThreeSigils(w, 0, i, close);
    } else {
      ThreeSigils(w, 0, close, i);
    }
  }

  // ---------------------------------------------------------------- unwrapping

  function FirstNewline(s: string): (r: nat)
    ensures r <= |s|
  {
    if s == "" || s[0] == '\n' then 0 else 1 + FirstNewline(s[1..])
  }

  function LastNewline(s: string): (r: nat)
    ensures r <= |s|
  {
    if s == "" || s[|s| - 1] == '\n' then |s| else LastNewline(s[..|s| - 1])
  }

  // The text between the first line and the last.
  function Unwrap(s: string): Option<string> {
    var from, to := FirstNewline(s) + 1, LastNewline(s) - 1;
    if from <= to then Some(s[from..to]) else None
  }

  lemma {:induction false} FirstNewlineAfter(a: string, b: string)
    requires '\n' !in a
    ensures FirstNewline(a + ['\n'] + b) == |a|
    decreases |a|
  {
    if a != "" {
      assert (a + ['\n'] + b)[1..] == a[1..] + ['\n'] + b;
      FirstNewlineAfter(a[1..], b);
    }
  }

  lemma {:induction false} LastNewlineBefore(a: string, b: string)
    requires '\n' !in b
    ensures LastNewline(a + ['\n'] + b) == |a| + 1
    decreases |b|
  {
    if b == "" {
      assert a + ['\n'] + b == a + ['\n'];
    } else {
      assert (a + ['\n'] + b)[..|a| + |b|] == a + ['\n'] + b[..|b| - 1];
      LastNewlineBefore(a, b[..|b| - 1]);
    }
  }

  lemma {:induction false} AttributesOneLine(attrs: seq<Attribute>)
    requires forall x :: x in attrs ==> '\n' !in x.key && '\n' !in x.value
    ensures '\n' !in Attributes(attrs)
    decreases |attrs|
  {
    if attrs != [] {
      AttributesOneLine(attrs[1..]);
      assert '\n' !in attrs[0].key && '\n' !in attrs[0].value;
    }
  }

  lemma MarkerOneLine(tag: char, word: string, attrs: seq<Attribute>)
    requires tag != '\n' && '\n' !in word && forall x :: x in attrs ==> '\n' !in x.key && '\n' !in x.value
    ensures '\n' !in Marker(tag, word, attrs)
  {
    AttributesOneLine(attrs);
  }

  // Unwrapping gives back the neutralised value, for every value.
  lemma UnwrapGivesTheValue(name: string, source: string, value: string, nonce: string)
    requires WrapUntrusted(name, source, value, nonce).Some?
    requires '\n' !in name && '\n' !in source && '\n' !in nonce
    ensures Unwrap(WrapUntrusted(name, source, value, nonce).value) == Some(Neutralize(value))
  {
    hide Neutralize, Marker, Unwrap, Holds;
    MarkerOneLine('u', "ntrusted-input", OpenAttributes(name, source, nonce));
    MarkerOneLine('e', "nd-untrusted-input", CloseAttributes(name, nonce));
    UnwrapEnclosed(OpenMarker(name, source, nonce), Neutralize(value), CloseMarker(name, nonce));
  }

  lemma UnwrapEnclosed(open: string, body: string, close: string)
    requires '\n' !in open && '\n' !in close
    ensures Unwrap(Enclose(open, body, close)) == Some(body)
  {
    var w := Enclose(open, body, close);
    assert w == open + ['\n'] + (body + "\n" + close);
    FirstNewlineAfter(open, body + "\n" + close);
    assert w == (open + "\n" + body) + ['\n'] + close;
    LastNewlineBefore(open + "\n" + body, close);
    assert w[|open| + 1..|open| + 1 + |body|] == body;
  }

  // A value without the sigil is passed on unchanged; any other is not.
  lemma {:induction false} NeutralizeKeeps(value: string)
    ensures Neutralize(value) == value <==> Sigils(value) == 0
    decreases |value|
  {
    NeutralizeDisarms(value);
    if SIGIL <= value {
      assert value[0..|SIGIL|] == SIGIL;
    } else if value != "" {
      NeutralizeKeeps(value[1..]);
    }
  }
}
