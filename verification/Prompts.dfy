// Rendering a step's prompt, what it depends on, and the gate on secret variables.
module Prompts {
  import opened Wrappers
  import opened Seqs
  import opened Workflows
  import opened Templates
  import opened Untrusted

  datatype Failure =
    | NoValue(r: Ref)
    | NoVariable(input: string, source: string)
    | NoUpstream(input: string, source: string)
    | NonceCollision(input: string)

  // ---------------------------------------------------------------- one pass over a template

  function ValueOf(r: Ref, vars: map<string, string>, inputs: map<string, string>): Option<string> {
    var values := if r.ns == Vars then vars else inputs;
    if r.name in values then Some(values[r.name]) else None
  }

  // Substitute every reference once; values are not looked at again. The first reference
  // without a value fails.
  function Substitute(pieces: seq<Piece>, vars: map<string, string>, inputs: map<string, string>): Result<string, Failure> {
    if pieces == [] then Ok("")
    else
      match pieces[0]
      case Literal(c) =>
        var rest := Substitute(pieces[1..], vars, inputs);
        if rest.Ok? then Ok([c] + rest.value) else rest
      case Reference(_, r) =>
        match ValueOf(r, vars, inputs)
        case None => Err(NoValue(r))
        case Some(v) =>
          var rest := Substitute(pieces[1..], vars, inputs);
          if rest.Ok? then Ok(v + rest.value) else rest
  }

  function Render(prompt: string, vars: map<string, string>, inputs: map<string, string>): Result<string, Failure> {
    Substitute(Tokenize(prompt), vars, inputs)
  }

  ghost predicate Refers(pieces: seq<Piece>, r: Ref) {
    exists p :: p in pieces && p.Reference? && p.r == r
  }

  lemma RefersHead(pieces: seq<Piece>, r: Ref)
    requires pieces != []
    ensures Refers(pieces, r) <==> (pieces[0].Reference? && pieces[0].r == r) || Refers(pieces[1..], r)
  {}

  lemma {:induction false} LocatedRefs(pieces: seq<Piece>, at: nat, r: Ref)
    ensures (exists m :: m in Located(pieces, at) && m.r == r) <==> Refers(pieces, r)
    decreases |pieces|
  {
    if pieces != [] {
      RefersHead(pieces, r);
      match pieces[0] {
        case Literal(_) =>
          LocatedRefs(pieces[1..], at + 1, r);
        case Reference(raw, ref) =>
          LocatedRefs(pieces[1..], at + |raw|, r);
          var here := Match(at, at + |raw|, ref);
          assert forall m :: m in Located(pieces, at) <==> m == here || m in Located(pieces[1..], at + |raw|);
          if ref == r {
            assert here in Located(pieces, at);
          }
      }
    }
  }

  lemma RefsAreReferences(prompt: string, r: Ref)
    ensures r in Refs(prompt) <==> Refers(Tokenize(prompt), r)
  {
    LocatedRefs(Tokenize(prompt), 0, r);
  }

  lemma {:induction false} SubstituteOkIff(pieces: seq<Piece>, vars: map<string, string>, inputs: map<string, string>)
    ensures Substitute(pieces, vars, inputs).Ok? <==>
      forall r :: Refers(pieces, r) ==> ValueOf(r, vars, inputs).Some?
    ensures var got := Substitute(pieces, vars, inputs);
      got.Err? ==> got.error.NoValue? && Refers(pieces, got.error.r) && ValueOf(got.error.r, vars, inputs).None?
    decreases |pieces|
  {
    hide ValueOf;
    if pieces != [] {
      forall r
        ensures Refers(pieces, r) <==> (pieces[0].Reference? && pieces[0].r == r) || Refers(pieces[1..], r)
      {
        RefersHead(pieces, r);
      }
      SubstituteOkIff(pieces[1..], vars, inputs);
    }
  }

  // Rendering succeeds exactly when every name the template refers to has a value.
  lemma RenderOkIff(prompt: string, vars: map<string, string>, inputs: map<string, string>)
    ensures Render(prompt, vars, inputs).Ok? <==> forall r :: r in Refs(prompt) ==> ValueOf(r, vars, inputs).Some?
  {
    hide ValueOf, Refs, Refers;
    SubstituteOkIff(Tokenize(prompt), vars, inputs);
    forall r
      ensures r in Refs(prompt) <==> Refers(Tokenize(prompt), r)
    {
      RefsAreReferences(prompt, r);
    }
  }

  // An accepted template renders whenever all declared names have values.
  lemma AcceptedTemplateRenders(prompt: string, declaredVars: set<string>, declaredInputs: set<string>, vars: map<string, string>, inputs: map<string, string>)
    requires IsAcceptable(prompt, declaredVars, declaredInputs)
    requires declaredVars <= vars.Keys && declaredInputs <= inputs.Keys
    ensures Render(prompt, vars, inputs).Ok?
  {
    hide Refs, Covered, Render;
    RenderOkIff(prompt, vars, inputs);
  }

  lemma {:induction false} SubstituteConcat(a: seq<Piece>, b: seq<Piece>, vars: map<string, string>, inputs: map<string, string>)
    requires Substitute(a + b, vars, inputs).Ok?
    ensures Substitute(a, vars, inputs).Ok? && Substitute(b, vars, inputs).Ok?
    ensures Substitute(a + b, vars, inputs).value == Substitute(a, vars, inputs).value + Substitute(b, vars, inputs).value
    decreases |a|
  {
    hide ValueOf;
    if a == [] {
      assert a + b == b;
    } else {
      assert (a + b)[0] == a[0] && (a + b)[1..] == a[1..] + b;
      SubstituteConcat(a[1..], b, vars, inputs);
    }
  }

  // What one piece puts into the prompt: its character, or the value its name has where the
  // reference looks.
  ghost predicate Shows(p: Piece, vars: map<string, string>, inputs: map<string, string>, text: string) {
    match p
    case Literal(c) => text == [c]
    case Reference(_, r) =>
      if r.ns == Vars then r.name in vars && text == vars[r.name] else r.name in inputs && text == inputs[r.name]
  }

  ghost predicate ShowsEach(pieces: seq<Piece>, vars: map<string, string>, inputs: map<string, string>, parts: seq<string>) {
    |parts| == |pieces| && forall i :: 0 <= i < |pieces| ==> Shows(pieces[i], vars, inputs, parts[i])
  }

  // Substituting is showing the pieces one after the other, each once.
  lemma SubstituteIff(pieces: seq<Piece>, vars: map<string, string>, inputs: map<string, string>, text: string)
    ensures Substitute(pieces, vars, inputs) == Ok(text) <==> exists parts :: ShowsEach(pieces, vars, inputs, parts) && Concat(parts) == text
  {
    hide Substitute, ShowsEach, Concat;
    if Substitute(pieces, vars, inputs) == Ok(text) {
      var parts := PartsShown(pieces, vars, inputs);
    }
    if parts :| ShowsEach(pieces, vars, inputs, parts) && Concat(parts) == text {
      ShownIsSubstituted(pieces, vars, inputs, parts);
    }
  }

  lemma {:induction false} PartsShown(pieces: seq<Piece>, vars: map<string, string>, inputs: map<string, string>) returns (parts: seq<string>)
    requires Substitute(pieces, vars, inputs).Ok?
    ensures ShowsEach(pieces, vars, inputs, parts) && Concat(parts) == Substitute(pieces, vars, inputs).value
    decreases |pieces|
  {
    parts := [];
    if pieces != [] {
      var rest := PartsShown(pieces[1..], vars, inputs);
      var head := if pieces[0].Literal? then [pieces[0].c] else ValueOf(pieces[0].r, vars, inputs).value;
      parts := [head] + rest;
      assert parts[1..] == rest;
    }
  }

  lemma {:induction false} ShownIsSubstituted(pieces: seq<Piece>, vars: map<string, string>, inputs: map<string, string>, parts: seq<string>)
    requires ShowsEach(pieces, vars, inputs, parts)
    ensures Substitute(pieces, vars, inputs) == Ok(Concat(parts))
    decreases |pieces|
  {
    if pieces != [] {
      ShowsTail(pieces, vars, inputs, parts);
      ShownIsSubstituted(pieces[1..], vars, inputs, parts[1..]);
    }
  }

  lemma ShowsTail(pieces: seq<Piece>, vars: map<string, string>, inputs: map<string, string>, parts: seq<string>)
    requires pieces != [] && ShowsEach(pieces, vars, inputs, parts)
    ensures ShowsEach(pieces[1..], vars, inputs, parts[1..]) && Shows(pieces[0], vars, inputs, parts[0])
  {}

  // A value lands in the prompt verbatim, whatever it contains: the text before it and the text
  // after it are rendered as if the value were not there.
  lemma ValueLandsVerbatim(prompt: string, k: nat, vars: map<string, string>, inputs: map<string, string>)
    requires k < |Tokenize(prompt)| && Tokenize(prompt)[k].Reference?
    requires Render(prompt, vars, inputs).Ok?
    ensures var pieces := Tokenize(prompt);
      var before, after := Substitute(pieces[..k], vars, inputs), Substitute(pieces[k + 1..], vars, inputs);
      && before.Ok? && after.Ok?
      && (pieces[k].r.ns == Vars ==>
            pieces[k].r.name in vars && Render(prompt, vars, inputs).value == before.value + vars[pieces[k].r.name] + after.value)
      && (pieces[k].r.ns == Inputs ==>
            pieces[k].r.name in inputs && Render(prompt, vars, inputs).value == before.value + inputs[pieces[k].r.name] + after.value)
  {
    hide Tokenize;
    var pieces := Tokenize(prompt);
    assert pieces == pieces[..k] + pieces[k..];
    SubstituteConcat(pieces[..k], pieces[k..], vars, inputs);
    assert pieces[k..][1..] == pieces[k + 1..];
  }

  // ---------------------------------------------------------------- a step's prompt

  const VAR_PREFIX: string := "vars."

  // The variable an input takes its value from, if it is not another step's output.
  function VarOf(source: string): Option<string> {
    if VAR_PREFIX <= source then Some(source[|VAR_PREFIX|..]) else None
  }

  lemma VarOfIff(source: string, v: string)
    ensures VarOf(source) == Some(v) <==> source == "vars." + v
  {
    assert ("vars." + v)[|VAR_PREFIX|..] == v;
    if VarOf(source) == Some(v) {
      assert source == source[..|VAR_PREFIX|] + source[|VAR_PREFIX|..];
    }
  }

  // The text of one declared input: a variable verbatim, or an upstream output wrapped.
  function InputText(x: Input, vars: map<string, string>, upstream: map<string, string>, nonce: string): Result<string, Failure> {
    match VarOf(x.source)
    case Some(v) => if v in vars then Ok(vars[v]) else Err(NoVariable(x.name, x.source))
    case None =>
      if x.name !in upstream then Err(NoUpstream(x.name, x.source))
      else
        match WrapUntrusted(x.name, x.source, upstream[x.name], nonce)
        case None => Err(NonceCollision(x.name))
        case Some(text) => Ok(text)
  }

  // All inputs' texts; the first input without one fails.
  function InputTexts(inputs: seq<Input>, vars: map<string, string>, upstream: map<string, string>, nonce: string): Result<map<string, string>, Failure> {
    if inputs == [] then Ok(map[])
    else
      match InputTexts(inputs[..|inputs| - 1], vars, upstream, nonce)
      case Err(e) => Err(e)
      case Ok(texts) =>
        match InputText(Last(inputs), vars, upstream, nonce)
        case Err(e) => Err(e)
        case Ok(text) => Ok(texts[Last(inputs).name := text])
  }

  function Prompt(step: StepDef, vars: map<string, string>, upstream: map<string, string>, nonce: string): Result<string, Failure> {
    match InputTexts(step.inputs, vars, upstream, nonce)
    case Err(e) => Err(e)
    case Ok(texts) => Render(step.prompt, vars, texts)
  }

  // Compose one step's prompt. Variable values are their canonical texts.
  method RenderPrompt(step: StepDef, vars: map<string, string>, upstream: map<string, string>, nonce: string) returns (r: Result<string, Failure>)
    ensures r == Prompt(step, vars, upstream, nonce)
  {
    hide InputText, Render;
    var texts: map<string, string> := map[];
    for i := 0 to |step.inputs|
      invariant InputTexts(step.inputs[..i], vars, upstream, nonce) == Ok(texts)
    {
      assert step.inputs[..i + 1][..i] == step.inputs[..i];
      var text := InputText(step.inputs[i], vars, upstream, nonce);
      if text.Err? {
        FailsEarly(step.inputs, i + 1, vars, upstream, nonce);
        return Err(text.error);
      }
      texts := texts[step.inputs[i].name := text.value];
    }
    assert step.inputs[..|step.inputs|] == step.inputs;
    r := Render(step.prompt, vars, texts);
  }

  lemma {:induction false} FailsEarly(inputs: seq<Input>, n: nat, vars: map<string, string>, upstream: map<string, string>, nonce: string)
    requires n <= |inputs| && InputTexts(inputs[..n], vars, upstream, nonce).Err?
    ensures InputTexts(inputs, vars, upstream, nonce) == InputTexts(inputs[..n], vars, upstream, nonce)
    decreases |inputs|
  {
    if n < |inputs| {
      assert inputs[..|inputs| - 1][..n] == inputs[..n];
      FailsEarly(inputs[..|inputs| - 1], n, vars, upstream, nonce);
    } else {
      assert inputs[..n] == inputs;
    }
  }

  // The first input without a text, and why it has none.
  ghost predicate FailsAt(step: StepDef, vars: map<string, string>, upstream: map<string, string>, nonce: string, i: nat, e: Failure)
    requires i < |step.inputs|
  {
    var x := step.inputs[i];
    && InputTexts(step.inputs[..i], vars, upstream, nonce).Ok?
    && match e
       case NoVariable(name, source) =>
         name == x.name && source == x.source && exists v :: source == "vars." + v && v !in vars
       case NoUpstream(name, source) =>
         name == x.name && source == x.source && (forall v :: source != "vars." + v) && name !in upstream
       case NonceCollision(name) =>
         && name == x.name && (forall v :: x.source != "vars." + v) && name in upstream
         && nonce != "" && Holds(Neutralize(upstream[name]), nonce)
       case NoValue(_) => false
  }

  // The first reference without a value.
  ghost predicate LacksAt(pieces: seq<Piece>, vars: map<string, string>, texts: map<string, string>, k: nat, r: Ref) {
    && k < |pieces| && pieces[k].Reference? && pieces[k].r == r
    && (if r.ns == Vars then r.name !in vars else r.name !in texts)
    && Substitute(pieces[..k], vars, texts).Ok?
  }

  lemma {:induction false} InputTextsFail(step: StepDef, n: nat, vars: map<string, string>, upstream: map<string, string>, nonce: string)
    requires n <= |step.inputs| && InputTexts(step.inputs[..n], vars, upstream, nonce).Err?
    ensures exists i: nat :: i < n && FailsAt(step, vars, upstream, nonce, i, InputTexts(step.inputs[..n], vars, upstream, nonce).error)
    decreases n
  {
    hide VarOf;
    assert n > 0 && step.inputs[..n][..n - 1] == step.inputs[..n - 1];
    if InputTexts(step.inputs[..n - 1], vars, upstream, nonce).Err? {
      InputTextsFail(step, n - 1, vars, upstream, nonce);
    } else {
      var x := step.inputs[n - 1];
      forall v
        ensures VarOf(x.source) == Some(v) <==> x.source == "vars." + v
      {
        VarOfIff(x.source, v);
      }
      assert FailsAt(step, vars, upstream, nonce, n - 1, InputTexts(step.inputs[..n], vars, upstream, nonce).error);
    }
  }

  lemma {:induction false} SubstituteFails(pieces: seq<Piece>, n: nat, vars: map<string, string>, texts: map<string, string>)
    requires n <= |pieces| && Substitute(pieces[..n], vars, texts).Ok? && Substitute(pieces, vars, texts).Err?
    ensures exists k: nat, r :: Substitute(pieces, vars, texts) == Err(NoValue(r)) && LacksAt(pieces, vars, texts, k, r)
    decreases |pieces| - n
  {
    assert pieces[..|pieces|] == pieces;
    if Substitute(pieces[..n + 1], vars, texts).Ok? {
      SubstituteFails(pieces, n + 1, vars, texts);
    } else {
      assert pieces[..n + 1] == pieces[..n] + [pieces[n]] && pieces == pieces[..n] + pieces[n..];
      FailsBehind(pieces[..n], [pieces[n]], vars, texts);
      FailsBehind(pieces[..n], pieces[n..], vars, texts);
      assert [pieces[n]][1..] == [];
      assert LacksAt(pieces, vars, texts, n, pieces[n].r);
    }
  }

  lemma {:induction false} FailsBehind(a: seq<Piece>, b: seq<Piece>, vars: map<string, string>, texts: map<string, string>)
    requires Substitute(a, vars, texts).Ok?
    ensures Substitute(a + b, vars, texts).Err? <==> Substitute(b, vars, texts).Err?
    ensures Substitute(b, vars, texts).Err? ==> Substitute(a + b, vars, texts) == Substitute(b, vars, texts)
    decreases |a|
  {
    hide ValueOf;
    if a == [] {
      assert a + b == b;
    } else {
      assert (a + b)[0] == a[0] && (a + b)[1..] == a[1..] + b;
      FailsBehind(a[1..], b, vars, texts);
    }
  }

  // A prompt that cannot be composed names the first thing missing: an input without a text, in
  // declaration order, and only if there is none a reference without a value, in text order.
  lemma FirstFailureFirst(step: StepDef, vars: map<string, string>, upstream: map<string, string>, nonce: string)
    requires Prompt(step, vars, upstream, nonce).Err?
    ensures var e, texts := Prompt(step, vars, upstream, nonce).error, InputTexts(step.inputs, vars, upstream, nonce);
      if texts.Err? then exists i: nat :: i < |step.inputs| && FailsAt(step, vars, upstream, nonce, i, e)
      else exists k: nat, r :: e == NoValue(r) && LacksAt(Tokenize(step.prompt), vars, texts.value, k, r)
  {
    hide InputTexts, Tokenize, Substitute, FailsAt, LacksAt;
    var texts := InputTexts(step.inputs, vars, upstream, nonce);
    if texts.Err? {
      assert step.inputs[..|step.inputs|] == step.inputs;
      InputTextsFail(step, |step.inputs|, vars, upstream, nonce);
    } else {
      EmptyRenders(vars, texts.value);
      assert Tokenize(step.prompt)[..0] == [];
      SubstituteFails(Tokenize(step.prompt), 0, vars, texts.value);
    }
  }

  lemma EmptyRenders(vars: map<string, string>, texts: map<string, string>)
    ensures Substitute([], vars, texts) == Ok("")
  {}

  // ---------------------------------------------------------------- what a prompt depends on

  // The variable a reference brings in: directly, or through a declared input.
  function RefVariable(step: StepDef, r: Ref): Option<string> {
    match r.ns
    case Vars => Some(r.name)
    case Inputs =>
      match Source(step.inputs, r.name)
      case None => None
      case Some(source) => VarOf(source)
  }

  ghost predicate IsReferenced(step: StepDef, v: string) {
    exists r :: r in Refs(step.prompt) && RefVariable(step, r) == Some(v)
  }

  // The variables whose values reach the step's prompt.
  method VarsReferencedByStep(step: StepDef) returns (names: set<string>)
    ensures forall v :: v in names <==> IsReferenced(step, v)
  {
    hide RefVariable, FindAll;
    names := {};
    var ms := FindAll(step.prompt);
    for k := 0 to |ms|
      invariant forall v :: v in names <==> exists r :: ReferredTo(ms, k, r) && RefVariable(step, r) == Some(v)
    {
      ReferredNext(ms, k);
      var v := RefVariable(step, ms[k].r);
      assert ReferredTo(ms, k + 1, ms[k].r);
      if v.Some? {
        names := names + {v.value};
      }
    }
    forall r
      ensures ReferredTo(ms, |ms|, r) <==> r in Refs(step.prompt)
    {
      assert ms[..|ms|] == ms;
    }
  }

  lemma {:induction false} InputTextsOf(inputs: seq<Input>, vars: map<string, string>, upstream: map<string, string>, nonce: string, i: nat)
    requires DistinctNames(inputs) && InputTexts(inputs, vars, upstream, nonce).Ok? && i < |inputs|
    ensures inputs[i].name in InputTexts(inputs, vars, upstream, nonce).value
    ensures InputText(inputs[i], vars, upstream, nonce) == Ok(InputTexts(inputs, vars, upstream, nonce).value[inputs[i].name])
    decreases |inputs|
  {
    hide InputText;
    if i < |inputs| - 1 {
      assert inputs[..|inputs| - 1][i] == inputs[i];
      InputTextsOf(inputs[..|inputs| - 1], vars, upstream, nonce, i);
    }
  }

  lemma {:induction false} InputTextsKeys(inputs: seq<Input>, vars: map<string, string>, upstream: map<string, string>, nonce: string, name: string)
    requires InputTexts(inputs, vars, upstream, nonce).Ok?
    ensures name in InputTexts(inputs, vars, upstream, nonce).value <==> Source(inputs, name).Some?
    decreases |inputs|
  {
    hide InputText;
    if inputs != [] {
      var front := inputs[..|inputs| - 1];
      InputTextsKeys(front, vars, upstream, nonce, name);
      SourceSnoc(front, Last(inputs), name);
      SplitLast(inputs);
    }
  }

  lemma SourceSnoc(front: seq<Input>, x: Input, name: string)
    ensures Source(front + [x], name).Some? <==> Source(front, name).Some? || x.name == name
  {
    if Source(front, name).Some? {
      var i :| 0 <= i < |front| && front[i].name == name;
      assert (front + [x])[i].name == name;
    }
    if x.name == name {
      assert (front + [x])[|front|].name == name;
    }
    if Source(front + [x], name).Some? {
      var i :| 0 <= i < |front + [x]| && (front + [x])[i].name == name;
      assert i < |front| ==> front[i].name == name;
    }
  }

  // The text a reference to an input gets is that of the input's declaration.
  lemma DeclaredText(step: StepDef, vars: map<string, string>, upstream: map<string, string>, nonce: string, name: string)
    requires DistinctNames(step.inputs) && InputTexts(step.inputs, vars, upstream, nonce).Ok?
    ensures var texts := InputTexts(step.inputs, vars, upstream, nonce).value;
      match Source(step.inputs, name)
      case None => name !in texts
      case Some(source) => name in texts && Ok(texts[name]) == InputText(Input(name, source), vars, upstream, nonce)
  {
    hide InputText, InputTexts;
    InputTextsKeys(step.inputs, vars, upstream, nonce, name);
    if Source(step.inputs, name).Some? {
      var i :| 0 <= i < |step.inputs| && step.inputs[i] == Input(name, Source(step.inputs, name).value);
      InputTextsOf(step.inputs, vars, upstream, nonce, i);
    }
  }

  // What a reference to a declared input puts into the prompt: a variable's text verbatim, or
  // another step's output between its own delimiters, from which it can be read back.
  lemma InputLandsAsDeclared(step: StepDef, vars: map<string, string>, upstream: map<string, string>, nonce: string, k: nat)
    requires DistinctNames(step.inputs) && Prompt(step, vars, upstream, nonce).Ok?
    requires k < |Tokenize(step.prompt)| && Tokenize(step.prompt)[k].Reference? && Tokenize(step.prompt)[k].r.ns == Inputs
    ensures var name := Tokenize(step.prompt)[k].r.name;
      && Source(step.inputs, name).Some?
      && var source := Source(step.inputs, name).value;
      && (VarOf(source).Some? ==> VarOf(source).value in vars && Lands(step, vars, upstream, nonce, k, vars[VarOf(source).value]))
      && (VarOf(source).None? ==>
            && name in upstream && WrapUntrusted(name, source, upstream[name], nonce).Some?
            && var wrapped := WrapUntrusted(name, source, upstream[name], nonce).value;
            && Lands(step, vars, upstream, nonce, k, wrapped)
            && ('\n' !in name && '\n' !in source && '\n' !in nonce ==> Unwrap(wrapped) == Some(Neutralize(upstream[name]))))
  {
    hide InputTexts, WrapUntrusted, VarOf, Tokenize, Source;
    var name := Tokenize(step.prompt)[k].r.name;
    ValueLandsVerbatim(step.prompt, k, vars, InputTexts(step.inputs, vars, upstream, nonce).value);
    DeclaredText(step, vars, upstream, nonce, name);
    var source := Source(step.inputs, name).value;
    if VarOf(source).None? && '\n' !in name && '\n' !in source && '\n' !in nonce {
      UnwrapGivesTheValue(name, source, upstream[name], nonce);
    }
  }

  // The prompt is the text before the k-th piece, this text, and the text after the piece.
  ghost predicate Lands(step: StepDef, vars: map<string, string>, upstream: map<string, string>, nonce: string, k: nat, text: string)
    requires Prompt(step, vars, upstream, nonce).Ok? && k < |Tokenize(step.prompt)|
  {
    var pieces, texts := Tokenize(step.prompt), InputTexts(step.inputs, vars, upstream, nonce).value;
    var before, after := Substitute(pieces[..k], vars, texts), Substitute(pieces[k + 1..], vars, texts);
    before.Ok? && after.Ok? && Prompt(step, vars, upstream, nonce).value == before.value + text + after.value
  }

  lemma {:induction false} SameOutcome(inputs: seq<Input>, vars: map<string, string>, others: map<string, string>, upstream: map<string, string>, nonce: string)
    requires vars.Keys == others.Keys
    ensures var a, b := InputTexts(inputs, vars, upstream, nonce), InputTexts(inputs, others, upstream, nonce);
      a.Ok? == b.Ok? && (a.Err? ==> a == b)
    decreases |inputs|
  {
    hide WrapUntrusted;
    if inputs != [] {
      SameOutcome(inputs[..|inputs| - 1], vars, others, upstream, nonce);
      assert forall v :: v in vars <==> v in others.Keys;
    }
  }

  lemma {:induction false} SubstituteSame(pieces: seq<Piece>, vars: map<string, string>, inputs: map<string, string>, vars2: map<string, string>, inputs2: map<string, string>)
    requires forall r :: Refers(pieces, r) ==> ValueOf(r, vars, inputs) == ValueOf(r, vars2, inputs2)
    ensures Substitute(pieces, vars, inputs) == Substitute(pieces, vars2, inputs2)
    decreases |pieces|
  {
    hide ValueOf;
    if pieces != [] {
      forall r
        ensures Refers(pieces, r) <==> (pieces[0].Reference? && pieces[0].r == r) || Refers(pieces[1..], r)
      {
        RefersHead(pieces, r);
      }
      assert pieces[0].Reference? ==> Refers(pieces, pieces[0].r);
      SubstituteSame(pieces[1..], vars, inputs, vars2, inputs2);
    }
  }

  // Two runs agree on the variables a step refers to.
  ghost predicate AgreeOnReferenced(step: StepDef, vars: map<string, string>, others: map<string, string>) {
    vars.Keys == others.Keys && forall v :: v in vars && IsReferenced(step, v) ==> vars[v] == others[v]
  }

  lemma SameValue(step: StepDef, vars: map<string, string>, others: map<string, string>, upstream: map<string, string>, nonce: string, r: Ref)
    requires DistinctNames(step.inputs) && AgreeOnReferenced(step, vars, others) && r in Refs(step.prompt)
    requires InputTexts(step.inputs, vars, upstream, nonce).Ok? && InputTexts(step.inputs, others, upstream, nonce).Ok?
    ensures ValueOf(r, vars, InputTexts(step.inputs, vars, upstream, nonce).value)
      == ValueOf(r, others, InputTexts(step.inputs, others, upstream, nonce).value)
  {
    hide InputTexts, Refs, WrapUntrusted, VarOf;
    var v := RefVariable(step, r);
    if v.Some? {
      assert IsReferenced(step, v.value);
      assert v.value in vars <==> v.value in others.Keys;
    }
    if r.ns == Inputs {
      DeclaredText(step, vars, upstream, nonce, r.name);
      DeclaredText(step, others, upstream, nonce, r.name);
    }
  }

  // A step's prompt depends on nothing but the variables it refers to and its upstream inputs.
  lemma PromptDependsOnReferenced(step: StepDef, vars: map<string, string>, others: map<string, string>, upstream: map<string, string>, nonce: string)
    requires DistinctNames(step.inputs) && AgreeOnReferenced(step, vars, others)
    ensures Prompt(step, vars, upstream, nonce) == Prompt(step, others, upstream, nonce)
  {
    hide InputTexts, Refs, Refers, IsReferenced, Source, ValueOf;
    SameOutcome(step.inputs, vars, others, upstream, nonce);
    if InputTexts(step.inputs, vars, upstream, nonce).Ok? {
      var a, b := InputTexts(step.inputs, vars, upstream, nonce).value, InputTexts(step.inputs, others, upstream, nonce).value;
      forall r | Refers(Tokenize(step.prompt), r)
        ensures ValueOf(r, vars, a) == ValueOf(r, others, b)
      {
        RefsAreReferences(step.prompt, r);
        SameValue(step, vars, others, upstream, nonce, r);
      }
      SubstituteSame(Tokenize(step.prompt), vars, a, others, b);
    }
  }

  // ---------------------------------------------------------------- and it depends on each of them

  ghost predicate NoShorter(r: Ref, vars: map<string, string>, inputs: map<string, string>, vars2: map<string, string>, inputs2: map<string, string>) {
    var a, b := ValueOf(r, vars, inputs), ValueOf(r, vars2, inputs2);
    a.Some? && b.Some? && |a.value| <= |b.value|
  }

  ghost predicate Longer(r: Ref, vars: map<string, string>, inputs: map<string, string>, vars2: map<string, string>, inputs2: map<string, string>) {
    NoShorter(r, vars, inputs, vars2, inputs2) && ValueOf(r, vars, inputs) != ValueOf(r, vars2, inputs2)
    && |ValueOf(r, vars, inputs).value| < |ValueOf(r, vars2, inputs2).value|
  }

  lemma {:induction false} SubstituteGrows(pieces: seq<Piece>, vars: map<string, string>, inputs: map<string, string>, vars2: map<string, string>, inputs2: map<string, string>)
    requires forall r :: Refers(pieces, r) ==> NoShorter(r, vars, inputs, vars2, inputs2)
    ensures var a, b := Substitute(pieces, vars, inputs), Substitute(pieces, vars2, inputs2);
      && a.Ok? && b.Ok? && |a.value| <= |b.value|
      && ((exists r :: Refers(pieces, r) && Longer(r, vars, inputs, vars2, inputs2)) ==> |a.value| < |b.value|)
    decreases |pieces|
  {
    hide ValueOf;
    if pieces != [] {
      forall r
        ensures Refers(pieces, r) <==> (pieces[0].Reference? && pieces[0].r == r) || Refers(pieces[1..], r)
      {
        RefersHead(pieces, r);
      }
      assert pieces[0].Reference? ==> Refers(pieces, pieces[0].r);
      SubstituteGrows(pieces[1..], vars, inputs, vars2, inputs2);
    }
  }

  // Every variable reported as referenced matters: giving it a longer value makes a longer prompt.
  lemma ReferencedVariablesMatter(step: StepDef, vars: map<string, string>, upstream: map<string, string>, nonce: string, v: string, longer: string)
    requires DistinctNames(step.inputs) && IsReferenced(step, v)
    requires Prompt(step, vars, upstream, nonce).Ok?
    ensures v in vars
    ensures |longer| > |vars[v]| ==>
      var changed := Prompt(step, vars[v := longer], upstream, nonce);
      changed.Ok? && |changed.value| > |Prompt(step, vars, upstream, nonce).value|
  {
    hide InputTexts, Refs, Refers, Source, InputText;
    ReferencedIsDefined(step, vars, upstream, nonce, v);
    if |longer| > |vars[v]| {
      var others := vars[v := longer];
      assert others.Keys == vars.Keys;
      SameOutcome(step.inputs, vars, others, upstream, nonce);
      var a, b := InputTexts(step.inputs, vars, upstream, nonce).value, InputTexts(step.inputs, others, upstream, nonce).value;
      forall r | Refers(Tokenize(step.prompt), r)
        ensures NoShorter(r, vars, a, others, b) && (RefVariable(step, r) == Some(v) ==> Longer(r, vars, a, others, b))
      {
        RefsAreReferences(step.prompt, r);
        LongerValue(step, vars, upstream, nonce, v, longer, r);
      }
      var r :| r in Refs(step.prompt) && RefVariable(step, r) == Some(v);
      RefsAreReferences(step.prompt, r);
      SubstituteGrows(Tokenize(step.prompt), vars, a, others, b);
    }
  }

  lemma ReferencedIsDefined(step: StepDef, vars: map<string, string>, upstream: map<string, string>, nonce: string, v: string)
    requires DistinctNames(step.inputs) && IsReferenced(step, v) && Prompt(step, vars, upstream, nonce).Ok?
    ensures v in vars
  {
    hide InputTexts, Refs, WrapUntrusted, VarOf;
    var r :| r in Refs(step.prompt) && RefVariable(step, r) == Some(v);
    RenderOkIff(step.prompt, vars, InputTexts(step.inputs, vars, upstream, nonce).value);
    if r.ns == Inputs {
      DeclaredText(step, vars, upstream, nonce, r.name);
    }
  }

  lemma LongerValue(step: StepDef, vars: map<string, string>, upstream: map<string, string>, nonce: string, v: string, longer: string, r: Ref)
    requires DistinctNames(step.inputs) && v in vars && |longer| > |vars[v]| && r in Refs(step.prompt)
    requires Prompt(step, vars, upstream, nonce).Ok? && InputTexts(step.inputs, vars[v := longer], upstream, nonce).Ok?
    ensures var a, b := InputTexts(step.inputs, vars, upstream, nonce).value, InputTexts(step.inputs, vars[v := longer], upstream, nonce).value;
      && NoShorter(r, vars, a, vars[v := longer], b)
      && (RefVariable(step, r) == Some(v) ==> Longer(r, vars, a, vars[v := longer], b))
  {
    hide InputTexts, Refs, WrapUntrusted, VarOf;
    RenderOkIff(step.prompt, vars, InputTexts(step.inputs, vars, upstream, nonce).value);
    if r.ns == Inputs {
      DeclaredText(step, vars, upstream, nonce, r.name);
      DeclaredText(step, vars[v := longer], upstream, nonce, r.name);
    }
  }

  // ---------------------------------------------------------------- a whole workflow

  function Names(inputs: seq<Input>): (names: set<string>)
    ensures forall n :: n in names <==> exists x :: x in inputs && x.name == n
  {
    set x | x in inputs :: x.name
  }

  // Every prompt is acceptable and every input taken from a variable names a declared one.
  ghost predicate IsAcceptableStep(wf: WorkflowDef, step: StepDef) {
    && IsAcceptable(step.prompt, wf.variables.Keys, Names(step.inputs))
    && forall x :: x in step.inputs && VarOf(x.source).Some? ==> VarOf(x.source).value in wf.variables
  }

  datatype StepProblem = BadPrompt(step: string, problems: seq<Problem>) | BadInput(step: string, input: string)

  // Accept the workflow exactly when every step is acceptable; a refusal names each input with an
  // undeclared variable.
  method ValidateTemplates(wf: WorkflowDef) returns (r: Result<(), seq<StepProblem>>)
    requires wf.Valid()
    ensures r.Ok? <==> forall id :: id in wf.steps ==> IsAcceptableStep(wf, wf.steps[id])
    ensures r.Err? ==> r.error != []
    ensures r.Err? ==> forall id, name :: BadInput(id, name) in r.error <==> IsBadInput(wf, id, name)
  {
    hide IsAcceptable, VarOf;
    var problems: seq<StepProblem> := [];
    for i := 0 to |wf.declared|
      invariant problems == [] <==> forall id :: id in wf.declared[..i] ==> id in wf.steps && IsAcceptableStep(wf, wf.steps[id])
      invariant forall id, name :: BadInput(id, name) in problems <==> id in wf.declared[..i] && IsBadInput(wf, id, name)
    {
      var id := wf.declared[i];
      assert id in wf.declared;
      assert wf.declared[..i + 1] == wf.declared[..i] + [id];
      var found := StepProblems(wf, id);
      problems := problems + found;
    }
    assert wf.declared[..|wf.declared|] == wf.declared;
    r := if problems == [] then Ok(()) else Err(problems);
  }

  ghost predicate IsBadInput(wf: WorkflowDef, id: string, name: string) {
    id in wf.steps && exists x :: x in wf.steps[id].inputs && x.name == name && HasNoVariable(wf, x)
  }

  predicate HasNoVariable(wf: WorkflowDef, x: Input) {
    VarOf(x.source).Some? && VarOf(x.source).value !in wf.variables
  }

  method StepProblems(wf: WorkflowDef, id: string) returns (problems: seq<StepProblem>)
    requires id in wf.steps
    ensures problems == [] <==> IsAcceptableStep(wf, wf.steps[id])
    ensures forall other, name :: BadInput(other, name) in problems <==> other == id && IsBadInput(wf, id, name)
  {
    hide IsAcceptable, VarOf;
    var step := wf.steps[id];
    var checked := ValidateTemplate(step.prompt, wf.variables.Keys, Names(step.inputs));
    ghost var ok := checked.Ok?;
    problems := [];
    if checked.Err? {
      problems := [BadPrompt(id, checked.error)];
    }
    for k := 0 to |step.inputs|
      invariant problems == [] <==> ok && forall x :: x in step.inputs[..k] ==> !HasNoVariable(wf, x)
      invariant forall other, name :: BadInput(other, name) in problems <==>
        other == id && exists x :: x in step.inputs[..k] && x.name == name && HasNoVariable(wf, x)
    {
      var x := step.inputs[k];
      assert step.inputs[..k + 1] == step.inputs[..k] + [x];
      if HasNoVariable(wf, x) {
        problems := problems + [BadInput(id, x.name)];
      }
    }
    assert step.inputs[..|step.inputs|] == step.inputs;
  }

  // The upstream texts handed to a step: one for each input taken from another step.
  function UpstreamInputs(inputs: seq<Input>, outputs: map<string, string>): map<string, string> {
    if inputs == [] then map[]
    else
      var front, last := UpstreamInputs(inputs[..|inputs| - 1], outputs), Last(inputs);
      match InputSourceStep(last.source)
      case None => front
      case Some(id) => front[last.name := OutputOf(outputs, id)]
  }

  // What upstream texts are, input by input: one for each input taken from a step, empty if that
  // step left none; were a name declared twice, the later declaration would count.
  ghost predicate IsUpstream(inputs: seq<Input>, outputs: map<string, string>, upstream: map<string, string>) {
    && (forall name :: name in upstream <==> DeclaresUpstream(inputs, name))
    && forall i: nat :: i < |inputs| && InputSourceStep(inputs[i].source).Some? && IsLast(inputs, i) ==>
         && inputs[i].name in upstream
         && var id := InputSourceStep(inputs[i].source).value;
            upstream[inputs[i].name] == if id in outputs then outputs[id] else ""
  }

  ghost predicate DeclaresUpstream(inputs: seq<Input>, name: string) {
    exists i :: 0 <= i < |inputs| && inputs[i].name == name && InputSourceStep(inputs[i].source).Some?
  }

  function OutputOf(outputs: map<string, string>, id: string): string {
    if id in outputs then outputs[id] else ""
  }

  ghost predicate IsLast(inputs: seq<Input>, i: nat)
    requires i < |inputs|
  {
    forall j :: i < j < |inputs| && InputSourceStep(inputs[j].source).Some? ==> inputs[j].name != inputs[i].name
  }

  method CollectUpstream(step: StepDef, outputs: map<string, string>) returns (upstream: map<string, string>)
    ensures IsUpstream(step.inputs, outputs, upstream) && upstream == UpstreamInputs(step.inputs, outputs)
  {
    hide InputSourceStep;
    upstream := map[];
    for i := 0 to |step.inputs|
      invariant upstream == UpstreamInputs(step.inputs[..i], outputs)
    {
      assert step.inputs[..i + 1][..i] == step.inputs[..i];
      var id := InputSourceStep(step.inputs[i].source);
      if id.Some? {
        upstream := upstream[step.inputs[i].name := OutputOf(outputs, id.value)];
      }
    }
    assert step.inputs[..|step.inputs|] == step.inputs;
    UpstreamInputsAre(step.inputs, outputs);
  }

  lemma {:induction false} UpstreamNames(inputs: seq<Input>, outputs: map<string, string>, name: string)
    ensures name in UpstreamInputs(inputs, outputs) <==> DeclaresUpstream(inputs, name)
    decreases |inputs|
  {
    hide InputSourceStep;
    if inputs != [] {
      var front, last := inputs[..|inputs| - 1], Last(inputs);
      UpstreamNames(front, outputs, name);
      if i :| 0 <= i < |front| && front[i].name == name && InputSourceStep(front[i].source).Some? {
        assert inputs[i] == front[i];
      }
      if i :| 0 <= i < |inputs| && inputs[i].name == name && InputSourceStep(inputs[i].source).Some? {
        assert i < |front| ==> front[i] == inputs[i];
      }
    }
  }

  lemma {:induction false} UpstreamValue(inputs: seq<Input>, outputs: map<string, string>, i: nat)
    requires i < |inputs| && InputSourceStep(inputs[i].source).Some? && IsLast(inputs, i)
    ensures inputs[i].name in UpstreamInputs(inputs, outputs)
    ensures UpstreamInputs(inputs, outputs)[inputs[i].name] == OutputOf(outputs, InputSourceStep(inputs[i].source).value)
    decreases |inputs|
  {
    hide InputSourceStep;
    if i < |inputs| - 1 {
      var front := inputs[..|inputs| - 1];
      assert forall j :: 0 <= j < |front| ==> front[j] == inputs[j];
      UpstreamValue(front, outputs, i);
    }
  }

  lemma UpstreamInputsAre(inputs: seq<Input>, outputs: map<string, string>)
    ensures IsUpstream(inputs, outputs, UpstreamInputs(inputs, outputs))
  {
    hide InputSourceStep, UpstreamInputs, IsLast, DeclaresUpstream;
    forall name
      ensures name in UpstreamInputs(inputs, outputs) <==> DeclaresUpstream(inputs, name)
    {
      UpstreamNames(inputs, outputs, name);
    }
    forall i: nat | i < |inputs| && InputSourceStep(inputs[i].source).Some? && IsLast(inputs, i)
      ensures inputs[i].name in UpstreamInputs(inputs, outputs)
      ensures UpstreamInputs(inputs, outputs)[inputs[i].name] == OutputOf(outputs, InputSourceStep(inputs[i].source).value)
    {
      UpstreamValue(inputs, outputs, i);
    }
  }

  lemma {:induction false} UpstreamHas(inputs: seq<Input>, outputs: map<string, string>, x: Input)
    requires x in inputs && InputSourceStep(x.source).Some?
    ensures x.name in UpstreamInputs(inputs, outputs)
    decreases |inputs|
  {
    hide InputSourceStep;
    SplitLast(inputs);
    if x != Last(inputs) {
      UpstreamHas(inputs[..|inputs| - 1], outputs, x);
    }
  }

  lemma {:induction false} AllInputsHaveTexts(inputs: seq<Input>, vars: map<string, string>, upstream: map<string, string>)
    requires forall x :: x in inputs ==> InputText(x, vars, upstream, "").Ok?
    ensures InputTexts(inputs, vars, upstream, "").Ok?
    decreases |inputs|
  {
    hide InputText;
    if inputs != [] {
      assert Last(inputs) in inputs;
      AllInputsHaveTexts(inputs[..|inputs| - 1], vars, upstream);
    }
  }

  // Each source is a variable or another step's output, as the schema demands.
  ghost predicate SourcesKnown(inputs: seq<Input>) {
    forall x :: x in inputs ==> VarOf(x.source).Some? || InputSourceStep(x.source).Some?
  }

  lemma {:induction false} TextsMeanInputs(inputs: seq<Input>, vars: map<string, string>, upstream: map<string, string>)
    requires InputTexts(inputs, vars, upstream, "").Ok?
    ensures forall x :: x in inputs ==> InputText(x, vars, upstream, "").Ok?
    decreases |inputs|
  {
    hide InputText;
    if inputs != [] {
      SplitLast(inputs);
      TextsMeanInputs(inputs[..|inputs| - 1], vars, upstream);
    }
  }

  // The variables a step cannot do without: those its prompt names and those its inputs take
  // their values from, used or not.
  ghost predicate Needs(step: StepDef, v: string) {
    Ref(Vars, v) in Refs(step.prompt) || exists x :: x in step.inputs && VarOf(x.source) == Some(v)
  }

  // A step of an accepted workflow gets its prompt, whatever the upstream steps produced,
  // exactly when each variable it needs has a value.
  lemma StepRendersIff(wf: WorkflowDef, step: StepDef, vars: map<string, string>, outputs: map<string, string>)
    requires IsAcceptableStep(wf, step) && SourcesKnown(step.inputs)
    ensures Prompt(step, vars, UpstreamInputs(step.inputs, outputs), "").Ok? <==> forall v :: Needs(step, v) ==> v in vars
  {
    hide IsAcceptable, InputSourceStep, UpstreamInputs, InputTexts, Render, VarOf, Needs;
    var upstream := UpstreamInputs(step.inputs, outputs);
    if forall v :: Needs(step, v) ==> v in vars {
      forall x | x in step.inputs
        ensures InputText(x, vars, upstream, "").Ok?
      {
        if VarOf(x.source).None? {
          UpstreamHas(step.inputs, outputs, x);
        } else {
          InputNeeds(step, x);
        }
      }
      AllInputsHaveTexts(step.inputs, vars, upstream);
      TextsThenPrompt(wf, step, vars, upstream);
    }
    if Prompt(step, vars, upstream, "").Ok? {
      TextsMeanInputs(step.inputs, vars, upstream);
      PromptHasNeeds(step, vars, upstream);
    }
  }

  lemma InputNeeds(step: StepDef, x: Input)
    requires x in step.inputs && VarOf(x.source).Some?
    ensures Needs(step, VarOf(x.source).value)
  {}

  lemma TextsThenPrompt(wf: WorkflowDef, step: StepDef, vars: map<string, string>, upstream: map<string, string>)
    requires IsAcceptableStep(wf, step) && InputTexts(step.inputs, vars, upstream, "").Ok?
    requires forall v :: Needs(step, v) ==> v in vars
    ensures Prompt(step, vars, upstream, "").Ok?
  {
    hide InputTexts, VarOf, Refs, Covered, Render;
    var texts := InputTexts(step.inputs, vars, upstream, "").value;
    RenderOkIff(step.prompt, vars, texts);
    forall r | r in Refs(step.prompt)
      ensures ValueOf(r, vars, texts).Some?
    {
      assert IsDeclared(r, wf.variables.Keys, Names(step.inputs));
      if r.ns == Vars {
        assert r == Ref(Vars, r.name) && Needs(step, r.name);
      } else {
        var x :| x in step.inputs && x.name == r.name;
        var i :| 0 <= i < |step.inputs| && step.inputs[i] == x;
        InputTextsKeys(step.inputs, vars, upstream, "", r.name);
      }
    }
  }

  lemma PromptHasNeeds(step: StepDef, vars: map<string, string>, upstream: map<string, string>)
    requires Prompt(step, vars, upstream, "").Ok?
    requires forall x :: x in step.inputs ==> InputText(x, vars, upstream, "").Ok?
    ensures forall v :: Needs(step, v) ==> v in vars
  {
    hide InputTexts, VarOf, Refs, Render, WrapUntrusted;
    RenderOkIff(step.prompt, vars, InputTexts(step.inputs, vars, upstream, "").value);
    forall v | Needs(step, v)
      ensures v in vars
    {
      if Ref(Vars, v) in Refs(step.prompt) {
        assert ValueOf(Ref(Vars, v), vars, InputTexts(step.inputs, vars, upstream, "").value).Some?;
      }
    }
  }

  // An accepted step needs declared variables only, so values for those are enough.
  lemma AcceptedStepRenders(wf: WorkflowDef, step: StepDef, vars: map<string, string>, outputs: map<string, string>)
    requires IsAcceptableStep(wf, step) && SourcesKnown(step.inputs) && wf.variables.Keys <= vars.Keys
    ensures Prompt(step, vars, UpstreamInputs(step.inputs, outputs), "").Ok?
  {
    hide Refs, Covered, Prompt, VarOf;
    StepRendersIff(wf, step, vars, outputs);
    forall v | Needs(step, v)
      ensures v in vars
    {
      NeedsDeclared(wf, step, v);
      assert v in wf.variables.Keys;
    }
  }

  lemma NeedsDeclared(wf: WorkflowDef, step: StepDef, v: string)
    requires IsAcceptableStep(wf, step) && Needs(step, v)
    ensures v in wf.variables
  {
    hide Refs, Covered, VarOf;
    if Ref(Vars, v) in Refs(step.prompt) {
      assert IsDeclared(Ref(Vars, v), wf.variables.Keys, Names(step.inputs));
    }
  }

  // ---------------------------------------------------------------- the gate on secrets

  datatype Violation = NoProvider(step: string, variable: string) | NotAllowed(step: string, variable: string, provider: string)

  predicate IsSecret(wf: WorkflowDef, v: string) {
    v in wf.variables && wf.variables[v].secret
  }

  predicate IsAllowed(allowances: map<string, seq<string>>, v: string, provider: string) {
    v in allowances && provider in allowances[v]
  }

  function Lookup(providers: map<string, string>, id: string): Option<string> {
    if id in providers then Some(providers[id]) else None
  }

  // May the secret flow to this step's provider?
  predicate MayFlow(providers: map<string, string>, allowances: map<string, seq<string>>, id: string, v: string) {
    var p := Lookup(providers, id);
    p.Some? && IsAllowed(allowances, v, p.value)
  }

  function ViolationFor(providers: map<string, string>, id: string, v: string): Violation {
    match Lookup(providers, id)
    case None => NoProvider(id, v)
    case Some(p) => NotAllowed(id, v, p)
  }

  ghost predicate IsViolated(wf: WorkflowDef, providers: map<string, string>, allowances: map<string, seq<string>>, id: string, v: string) {
    && id in wf.steps && IsReferenced(wf.steps[id], v)
    && v in wf.variables && wf.variables[v].secret
    && (id in providers ==> v !in allowances || providers[id] !in allowances[v])
  }

  // What the report says of such a flow.
  ghost predicate Tells(providers: map<string, string>, id: string, v: string, x: Violation) {
    && x.step == id && x.variable == v
    && (if id in providers then x.NotAllowed? && x.provider == providers[id] else x.NoProvider?)
  }

  // ---- the order of the report

  // Strings compare character by character.
  predicate Precedes(a: string, b: string) {
    b != "" && (a == "" || a[0] < b[0] || (a[0] == b[0] && Precedes(a[1..], b[1..])))
  }

  lemma {:induction false} PrecedesTotal(a: string, b: string)
    ensures a == b || Precedes(a, b) || Precedes(b, a)
    ensures !(Precedes(a, b) && Precedes(b, a)) && !Precedes(a, a)
    decreases |a|
  {
    if a != "" {
      PrecedesTotal(a[1..], a[1..]);
      if b != "" && a[0] == b[0] {
        PrecedesTotal(a[1..], b[1..]);
        assert a == [a[0]] + a[1..] && b == [b[0]] + b[1..];
      }
    }
  }

  lemma {:induction false} PrecedesTransitive(a: string, b: string, c: string)
    requires Precedes(a, b) && Precedes(b, c)
    ensures Precedes(a, c)
    decreases |a|
  {
    if a != "" && a[0] == b[0] == c[0] {
      PrecedesTransitive(a[1..], b[1..], c[1..]);
    }
  }

  // Earlier steps come first, and the variables of one step in ascending order.
  ghost predicate Reports(wf: WorkflowDef, n: nat, problems: seq<Violation>)
    requires n <= |wf.declared|
  {
    && (forall x :: x in problems ==> x.step in wf.declared[..n])
    && forall i, j :: 0 <= i < j < |problems| ==> ReportedBefore(wf, problems[i], problems[j])
  }

  ghost predicate ReportedBefore(wf: WorkflowDef, x: Violation, y: Violation) {
    (x.step == y.step && Precedes(x.variable, y.variable)) || DeclaredBefore(wf.declared, x.step, y.step)
  }

  method FirstName(names: set<string>) returns (first: string)
    requires names != {}
    ensures first in names && forall n :: n in names && n != first ==> Precedes(first, n)
  {
    var left := names;
    first :| first in left;
    left := left - {first};
    while left != {}
      invariant left <= names && first in names
      invariant forall n :: n in names - left && n != first ==> Precedes(first, n)
      decreases left
    {
      var n :| n in left;
      PrecedesTotal(n, first);
      if Precedes(n, first) {
        forall m | m in names - left && m != first
          ensures Precedes(n, m)
        {
          PrecedesTransitive(n, first, m);
        }
        first := n;
      }
      left := left - {n};
    }
  }

  // One step's violations, in ascending order of the variables.
  method ViolationsFor(providers: map<string, string>, id: string, names: set<string>) returns (found: seq<Violation>)
    ensures forall x :: x in found <==> exists v :: v in names && x == ViolationFor(providers, id, v)
    ensures forall i, j :: 0 <= i < j < |found| ==> Precedes(found[i].variable, found[j].variable)
  {
    found := [];
    var left := names;
    while left != {}
      invariant left <= names
      invariant forall x :: x in found <==> exists v :: v in names - left && x == ViolationFor(providers, id, v)
      invariant forall i, j :: 0 <= i < j < |found| ==> Precedes(found[i].variable, found[j].variable)
      invariant forall x, v :: x in found && v in left ==> Precedes(x.variable, v)
      decreases left
    {
      var v := FirstName(left);
      var x := ViolationFor(providers, id, v);
      forall i | 0 <= i < |found|
        ensures Precedes(found[i].variable, v)
      {
        assert found[i] in found;
      }
      found := found + [x];
      assert names - (left - {v}) == (names - left) + {v};
      left := left - {v};
    }
    assert names - left == names;
  }

  lemma ReportsNext(wf: WorkflowDef, n: nat, problems: seq<Violation>, found: seq<Violation>)
    requires n < |wf.declared| && Reports(wf, n, problems)
    requires forall x :: x in found ==> x.step == wf.declared[n]
    requires forall i, j :: 0 <= i < j < |found| ==> Precedes(found[i].variable, found[j].variable)
    ensures Reports(wf, n + 1, problems + found)
  {
    var all := problems + found;
    assert wf.declared[..n + 1] == wf.declared[..n] + [wf.declared[n]];
    forall i, j | 0 <= i < j < |all|
      ensures ReportedBefore(wf, all[i], all[j])
    {
      if i < |problems| <= j {
        assert all[i] in problems && all[j] in found;
        var k :| 0 <= k < n && wf.declared[..n][k] == all[i].step;
        assert wf.declared[k] == all[i].step && wf.declared[n] == all[j].step;
      } else if i >= |problems| {
        assert all[i] in found && all[j] in found;
      }
    }
  }

  // Refuse the workflow when a secret flows to a step whose provider is not allowed it: every
  // such flow, step by step in declaration order and by ascending names within a step.
  method CheckSecretAllowances(wf: WorkflowDef, providers: map<string, string>, allowances: map<string, seq<string>>)
    returns (r: Result<(), seq<Violation>>)
    requires wf.Valid()
    ensures r.Ok? <==> forall id, v :: !IsViolated(wf, providers, allowances, id, v)
    ensures r.Err? ==> forall x ::
      x in r.error <==> exists id, v :: IsViolated(wf, providers, allowances, id, v) && Tells(providers, id, v, x)
    ensures r.Err? ==> Reports(wf, |wf.declared|, r.error)
  {
    hide IsReferenced, MayFlow, IsSecret, ViolationFor, Listed, Reports, Precedes;
    var problems: seq<Violation> := [];
    NothingReported(wf, providers, allowances);
    for i := 0 to |wf.declared|
      invariant Reports(wf, i, problems) && Listed(wf, providers, allowances, i, problems)
    {
      var id := wf.declared[i];
      assert id in wf.declared;
      var names := VarsReferencedByStep(wf.steps[id]);
      var secrets := set v | v in names && IsSecret(wf, v) && !MayFlow(providers, allowances, id, v);
      var found := ViolationsFor(providers, id, secrets);
      SecretsViolated(wf, providers, allowances, id, names, secrets, found);
      ReportsNext(wf, i, problems, found);
      ListedNext(wf, providers, allowances, i, problems, found);
      problems := problems + found;
    }
    AllListed(wf, providers, allowances, problems);
    r := if problems == [] then Ok(()) else Err(problems);
  }

  // The violations of the first n steps.
  ghost predicate Listed(wf: WorkflowDef, providers: map<string, string>, allowances: map<string, seq<string>>, n: nat, problems: seq<Violation>)
    requires n <= |wf.declared|
  {
    forall x :: x in problems <==>
      exists id, v :: id in wf.declared[..n] && IsViolated(wf, providers, allowances, id, v) && Tells(providers, id, v, x)
  }

  lemma ListedNext(wf: WorkflowDef, providers: map<string, string>, allowances: map<string, seq<string>>, n: nat,
                   problems: seq<Violation>, found: seq<Violation>)
    requires n < |wf.declared| && Listed(wf, providers, allowances, n, problems)
    requires forall x :: x in found <==>
      exists v :: IsViolated(wf, providers, allowances, wf.declared[n], v) && Tells(providers, wf.declared[n], v, x)
    ensures Listed(wf, providers, allowances, n + 1, problems + found)
  {
    hide IsViolated, Tells;
    assert wf.declared[..n + 1] == wf.declared[..n] + [wf.declared[n]];
  }

  lemma AllListed(wf: WorkflowDef, providers: map<string, string>, allowances: map<string, seq<string>>, problems: seq<Violation>)
    requires wf.Valid() && Listed(wf, providers, allowances, |wf.declared|, problems)
    ensures forall x ::
      x in problems <==> exists id, v :: IsViolated(wf, providers, allowances, id, v) && Tells(providers, id, v, x)
    ensures problems == [] <==> forall id, v :: !IsViolated(wf, providers, allowances, id, v)
  {
    hide IsViolated, Tells;
    assert wf.declared[..|wf.declared|] == wf.declared;
    forall id, v | IsViolated(wf, providers, allowances, id, v)
      ensures id in wf.declared && ViolationFor(providers, id, v) in problems
    {
      ViolatedStep(wf, providers, allowances, id, v);
      TellsIff(providers, id, v, ViolationFor(providers, id, v));
    }
    if problems != [] {
      assert problems[0] in problems;
    }
  }

  lemma TellsIff(providers: map<string, string>, id: string, v: string, x: Violation)
    ensures Tells(providers, id, v, x) <==> x == ViolationFor(providers, id, v)
  {}

  lemma ViolatedStep(wf: WorkflowDef, providers: map<string, string>, allowances: map<string, seq<string>>, id: string, v: string)
    requires wf.Valid() && IsViolated(wf, providers, allowances, id, v)
    ensures id in wf.declared
  {}

  // One step's findings are its violations.
  lemma SecretsViolated(wf: WorkflowDef, providers: map<string, string>, allowances: map<string, seq<string>>, id: string,
                        names: set<string>, secrets: set<string>, found: seq<Violation>)
    requires id in wf.steps && forall v :: v in names <==> IsReferenced(wf.steps[id], v)
    requires forall v :: v in secrets <==> v in names && IsSecret(wf, v) && !MayFlow(providers, allowances, id, v)
    requires forall x :: x in found <==> exists v :: v in secrets && x == ViolationFor(providers, id, v)
    ensures forall x :: x in found ==> x.step == id
    ensures forall x :: x in found <==> exists v :: IsViolated(wf, providers, allowances, id, v) && Tells(providers, id, v, x)
  {
    hide IsReferenced, ViolationFor, Tells;
    forall v
      ensures v in secrets <==> IsViolated(wf, providers, allowances, id, v)
    {}
    hide IsViolated;
    forall x
      ensures x in found <==> exists v :: IsViolated(wf, providers, allowances, id, v) && Tells(providers, id, v, x)
      ensures x in found ==> x.step == id
    {
      if x in found {
        var v :| v in secrets && x == ViolationFor(providers, id, v);
        TellsIff(providers, id, v, x);
        OfStep(providers, id, v);
      }
      if v :| IsViolated(wf, providers, allowances, id, v) && Tells(providers, id, v, x) {
        TellsIff(providers, id, v, x);
        assert v in secrets;
      }
    }
  }

  lemma OfStep(providers: map<string, string>, id: string, v: string)
    ensures ViolationFor(providers, id, v).step == id
  {}

  lemma NothingReported(wf: WorkflowDef, providers: map<string, string>, allowances: map<string, seq<string>>)
    ensures Reports(wf, 0, []) && Listed(wf, providers, allowances, 0, [])
  {}

  // Two runs differ only in secrets that may not flow to the step's provider.
  ghost predicate DifferInBarredSecrets(wf: WorkflowDef, providers: map<string, string>, allowances: map<string, seq<string>>, id: string,
                                        vars: map<string, string>, others: map<string, string>) {
    && vars.Keys == others.Keys
    && forall v :: v in vars && vars[v] != others[v] ==>
         v in wf.variables && wf.variables[v].secret && (id in providers ==> v !in allowances || providers[id] !in allowances[v])
  }

  // Once the gate passes, a secret not allowed for a step's provider cannot influence the
  // prompt that step sends.
  lemma BarredSecretsStayOut(wf: WorkflowDef, providers: map<string, string>, allowances: map<string, seq<string>>, id: string,
                             vars: map<string, string>, others: map<string, string>, upstream: map<string, string>, nonce: string)
    requires wf.Valid() && id in wf.steps
    requires forall id, v :: !IsViolated(wf, providers, allowances, id, v)
    requires DifferInBarredSecrets(wf, providers, allowances, id, vars, others)
    ensures Prompt(wf.steps[id], vars, upstream, nonce) == Prompt(wf.steps[id], others, upstream, nonce)
  {
    hide IsReferenced, MayFlow, Prompt;
    forall v | v in vars && IsReferenced(wf.steps[id], v)
      ensures vars[v] == others[v]
    {
      assert !IsViolated(wf, providers, allowances, id, v);
    }
    PromptDependsOnReferenced(wf.steps[id], vars, others, upstream, nonce);
  }
}
