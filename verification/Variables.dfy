// Resolving a workflow's typed variables, and when an accepted workflow is left without a value.
module Variables {
  import opened Wrappers
  import opened Seqs
  import opened Workflows
  import opened Utf8
  import Templates
  import Prompts

  // JSON parsing is the library's: it gives the value's dump, or nothing.
  type JsonParser = string -> Option<string>

  datatype Problem =
    | Unknown(name: string)
    | TooLong(name: string, bytes: nat)
    | NotOfType(name: string)
    | DefaultNotOfType(name: string)
    | DefaultTooLong(name: string, bytes: nat)
    | Missing(name: string)

  // ---------------------------------------------------------------- texts and types

  predicate IsDigit(c: char) {
    '0' <= c <= '9'
  }

  function Unsigned(s: string): nat
    requires forall c :: c in s ==> IsDigit(c)
  {
    if s == "" then 0
    else
      assert Last(s) in s && IsDigit(Last(s));
      Unsigned(s[..|s| - 1]) * 10 + (Last(s) - '0') as nat
  }

  function Decimal(n: nat): (s: string)
    ensures s != "" && forall c :: c in s ==> IsDigit(c)
  {
    var last := '0' + (n % 10) as char;
    if n < 10 then [last] else Decimal(n / 10) + [last]
  }

  // A strict decimal, with one sign at most and a final line break tolerated.
  function ParseInt(raw: string): Option<int> {
    var s := if raw != "" && Last(raw) == '\n' then raw[..|raw| - 1] else raw;
    var digits := if s != "" && (s[0] == '+' || s[0] == '-') then s[1..] else s;
    if digits != "" && forall c :: c in digits ==> IsDigit(c) then
      var n: int := Unsigned(digits);
      Some(if s[0] == '-' then -n else n)
    else None
  }

  function ParseTyped(kind: VarType, raw: string, json: JsonParser): Option<Value> {
    match kind
    case STRING => Some(StringValue(raw))
    case INTEGER =>
      var n := ParseInt(raw);
      if n.Some? then Some(IntValue(n.value)) else None
    case BOOLEAN => if raw == "true" then Some(BoolValue(true)) else if raw == "false" then Some(BoolValue(false)) else None
    case JSON =>
      var v := json(raw);
      if v.Some? then Some(JsonValue(v.value)) else None
  }

  // The text a value is inserted as.
  function ValueToText(v: Value): string {
    match v
    case StringValue(s) => s
    case BoolValue(b) => if b then "true" else "false"
    case IntValue(n) => if n < 0 then "-" + Decimal(-n) else Decimal(n)
    case JsonValue(dump) => dump
  }

  predicate HasType(kind: VarType, v: Value) {
    match kind
    case STRING => v.StringValue?
    case INTEGER => v.IntValue?
    case BOOLEAN => v.BoolValue?
    case JSON => true
  }

  lemma {:induction false} DecimalReadsBack(n: nat)
    ensures Unsigned(Decimal(n)) == n
    decreases n
  {
    if n >= 10 {
      DecimalReadsBack(n / 10);
      var s, last := Decimal(n), '0' + (n % 10) as char;
      assert s[..|s| - 1] == Decimal(n / 10);
    } else {
      assert Decimal(n)[..0] == "";
    }
  }

  // What an integer or a boolean is inserted as parses back to it; so does a string.
  lemma TextReadsBack(kind: VarType, v: Value, json: JsonParser)
    requires kind != JSON && HasType(kind, v)
    ensures ParseTyped(kind, ValueToText(v), json) == Some(v)
  {
    hide ParseInt, Decimal;
    if v.IntValue? {
      DecimalReadsBack(if v.n < 0 then -v.n else v.n);
      DigitsReadBack(Decimal(if v.n < 0 then -v.n else v.n), v.n < 0);
    }
  }

  // A row of digits, with or without a minus sign, is parsed as the number it spells.
  lemma {:induction false} DigitsReadBack(digits: string, negative: bool)
    requires digits != "" && forall c :: c in digits ==> IsDigit(c)
    ensures ParseInt(if negative then "-" + digits else digits)
         == Some(if negative then -(Unsigned(digits) as int) else Unsigned(digits))
  {
    hide Unsigned;
    assert digits[0] in digits && Last(digits) in digits;
    assert ("-" + digits)[1..] == digits && Last("-" + digits) == Last(digits);
  }

  // ---------------------------------------------------------------- resolution

  // What the command line or the declaration gives one variable.
  datatype Resolved = Given(v: Value) | Absent | Refused(p: Problem)

  function Resolve(name: string, decl: VariableDef, cli: map<string, string>, json: JsonParser): Resolved {
    if name in cli then
      var bytes := Bytes(cli[name]);
      if bytes > decl.maxBytes then Refused(TooLong(name, bytes))
      else
        var v := ParseTyped(decl.kind, cli[name], json);
        if v.Some? then Given(v.value) else Refused(NotOfType(name))
    else if decl.default.Some? then
      var v := decl.default.value;
      if !HasType(decl.kind, v) then Refused(DefaultNotOfType(name))
      else if Bytes(ValueToText(v)) > decl.maxBytes then Refused(DefaultTooLong(name, Bytes(ValueToText(v))))
      else Given(v)
    else if decl.required then Refused(Missing(name))
    else Absent
  }

  // What is wrong with one declared variable: its text is too long or not of its type, its default
  // is not of its type or too long, or it is required and nothing gives it a value.
  ghost predicate IsWrong(decl: VariableDef, cli: map<string, string>, json: JsonParser, p: Problem) {
    match p
    case Unknown(_) => false
    case TooLong(name, bytes) => name in cli && bytes == Bytes(cli[name]) > decl.maxBytes
    case NotOfType(name) =>
      name in cli && Bytes(cli[name]) <= decl.maxBytes && forall v :: ParseTyped(decl.kind, cli[name], json) != Some(v)
    case DefaultNotOfType(name) => name !in cli && decl.default.Some? && !HasType(decl.kind, decl.default.value)
    case DefaultTooLong(name, bytes) =>
      && name !in cli && decl.default.Some? && HasType(decl.kind, decl.default.value)
      && bytes == Bytes(ValueToText(decl.default.value)) > decl.maxBytes
    case Missing(name) => name !in cli && decl.default.None? && decl.required
  }

  ghost predicate IsProblem(wf: WorkflowDef, cli: map<string, string>, json: JsonParser, p: Problem) {
    if p.Unknown? then p.name in cli && p.name !in wf.variables
    else p.name in wf.variables && IsWrong(wf.variables[p.name], cli, json, p)
  }

  lemma RefusedIffWrong(name: string, decl: VariableDef, cli: map<string, string>, json: JsonParser, p: Problem)
    ensures Resolve(name, decl, cli, json) == Refused(p) <==> p.name == name && IsWrong(decl, cli, json, p)
  {
    hide ParseTyped, HasType, ValueToText, Bytes;
    if name in cli {
      assert ParseTyped(decl.kind, cli[name], json).Some? ==>
          ParseTyped(decl.kind, cli[name], json) == Some(ParseTyped(decl.kind, cli[name], json).value);
    }
  }

  // Where a value comes from: the text given for it, read as its type, or else its default.
  ghost predicate ComesFrom(name: string, decl: VariableDef, cli: map<string, string>, json: JsonParser, v: Value) {
    if name in cli then ParseTyped(decl.kind, cli[name], json) == Some(v) else decl.default == Some(v)
  }

  // A resolved value is of the declared type and within the declared size.
  lemma GivenIsSound(name: string, decl: VariableDef, cli: map<string, string>, json: JsonParser, v: Value)
    requires Resolve(name, decl, cli, json) == Given(v)
    ensures ComesFrom(name, decl, cli, json, v) && HasType(decl.kind, v)
    ensures Bytes(if name in cli then cli[name] else ValueToText(v)) <= decl.maxBytes
  {
    hide ValueToText, Bytes, ParseInt;
  }

  // A text is read as a string as it stands, as a boolean only where it is what a boolean is
  // inserted as, and as an integer exactly where it spells one.
  lemma ReadsExactly(kind: VarType, raw: string, json: JsonParser, v: Value)
    ensures kind == STRING ==> (ParseTyped(kind, raw, json) == Some(v) <==> v == StringValue(raw))
    ensures kind == BOOLEAN ==> (ParseTyped(kind, raw, json) == Some(v) <==> v.BoolValue? && raw == ValueToText(v))
    ensures kind == INTEGER ==> (ParseTyped(kind, raw, json) == Some(v) <==> v.IntValue? && Spells(raw, v.n))
  {
    hide Spells, ParseInt;
    if v.IntValue? {
      ParseIntIff(raw, v.n);
    }
  }

  // At most one sign, then digits, then at most one line break.
  ghost predicate Spells(raw: string, n: int) {
    exists sign, digits, end :: SpelledBy(raw, n, sign, digits, end)
  }

  ghost predicate SpelledBy(raw: string, n: int, sign: string, digits: string, end: string) {
    && (sign == "" || sign == "+" || sign == "-") && (end == "" || end == "\n")
    && digits != "" && (forall c :: c in digits ==> IsDigit(c))
    && raw == sign + digits + end && n == if sign == "-" then -(Unsigned(digits) as int) else Unsigned(digits)
  }

  lemma ParseIntIff(raw: string, n: int)
    ensures ParseInt(raw) == Some(n) <==> Spells(raw, n)
  {
    hide Unsigned;
    if ParseInt(raw) == Some(n) {
      var s := if Last(raw) == '\n' then raw[..|raw| - 1] else raw;
      var end := if Last(raw) == '\n' then "\n" else "";
      var sign := if s[0] == '+' then "+" else if s[0] == '-' then "-" else "";
      assert raw == s + end && s == sign + s[|sign|..];
      assert SpelledBy(raw, n, sign, s[|sign|..], end);
    }
    if sign, digits, end :| SpelledBy(raw, n, sign, digits, end) {
      Reread(raw, n, sign, digits, end);
    }
  }

  lemma Reread(raw: string, n: int, sign: string, digits: string, end: string)
    requires SpelledBy(raw, n, sign, digits, end)
    ensures ParseInt(raw) == Some(n)
  {
    hide Unsigned;
    var s := sign + digits;
    assert digits[0] in digits && Last(digits) in digits;
    assert Last(s) == Last(digits);
    if end == "" {
      assert raw == s;
    } else {
      assert Last(raw) == '\n' && raw[..|raw| - 1] == s;
    }
    if sign != "" {
      assert s[0] == sign[0] && s[1..] == digits;
    } else {
      assert s == digits;
    }
  }

  // Typed values for the declared variables, or everything that is wrong. Names are visited in
  // no particular order.
  method ValidateVariables(wf: WorkflowDef, cli: map<string, string>, json: JsonParser) returns (r: Result<map<string, Value>, seq<Problem>>)
    ensures r.Ok? <==> forall p :: !IsProblem(wf, cli, json, p)
    ensures r.Err? ==> forall p :: p in r.error <==> IsProblem(wf, cli, json, p)
    ensures r.Ok? ==> forall name ::
      && (name in r.value <==> name in wf.variables && (name in cli || wf.variables[name].default.Some?))
      && (name in r.value ==>
            && ComesFrom(name, wf.variables[name], cli, json, r.value[name])
            && HasType(wf.variables[name].kind, r.value[name]))
  {
    hide ParseTyped, HasType, ValueToText, Bytes, IsWrong;
    var problems: seq<Problem> := [];
    var values: map<string, Value> := map[];
    var unknown := cli.Keys - wf.variables.Keys;
    while unknown != {}
      invariant unknown <= cli.Keys - wf.variables.Keys
      invariant forall p :: p in problems <==> p.Unknown? && p.name in cli.Keys - wf.variables.Keys - unknown
      decreases unknown
    {
      var name :| name in unknown;
      problems := problems + [Unknown(name)];
      unknown := unknown - {name};
    }
    ghost var unknowns := problems;
    var left := wf.variables.Keys;
    while left != {}
      invariant left <= wf.variables.Keys
      invariant forall p :: p in problems <==> p in unknowns || exists name ::
        name in wf.variables.Keys - left && Resolve(name, wf.variables[name], cli, json) == Refused(p)
      invariant forall name :: name in values <==>
        name in wf.variables.Keys - left && Resolve(name, wf.variables[name], cli, json).Given?
      invariant forall name :: name in values ==> Resolve(name, wf.variables[name], cli, json) == Given(values[name])
      invariant problems == [] ==> forall name :: name in wf.variables.Keys - left ==>
        !Resolve(name, wf.variables[name], cli, json).Refused?
      decreases left
    {
      var name :| name in left;
      match Resolve(name, wf.variables[name], cli, json) {
        case Given(v) => values := values[name := v];
        case Refused(p) => problems := problems + [p];
        case Absent =>
      }
      left := left - {name};
    }
    assert wf.variables.Keys - left == wf.variables.Keys;
    forall p
      ensures p in problems <==> IsProblem(wf, cli, json, p)
    {
      if p.name in wf.variables {
        RefusedIffWrong(p.name, wf.variables[p.name], cli, json, p);
      }
      if name :| name in wf.variables && Resolve(name, wf.variables[name], cli, json) == Refused(p) {
        RefusedIffWrong(name, wf.variables[name], cli, json, p);
      }
      if p.Unknown? {
        NeverUnknown(wf, cli, json, p);
      }
    }
    if problems != [] {
      assert problems[0] in problems && IsProblem(wf, cli, json, problems[0]);
      return Err(problems);
    }
    forall name | name in values
      ensures ComesFrom(name, wf.variables[name], cli, json, values[name]) && HasType(wf.variables[name].kind, values[name])
    {
      GivenIsSound(name, wf.variables[name], cli, json, values[name]);
    }
    r := Ok(values);
  }

  lemma NeverUnknown(wf: WorkflowDef, cli: map<string, string>, json: JsonParser, p: Problem)
    requires p.Unknown?
    ensures forall name :: name in wf.variables ==> Resolve(name, wf.variables[name], cli, json) != Refused(p)
  {}

  // The texts of resolved values.
  function TextsOf(values: map<string, Value>): map<string, string> {
    map name | name in values :: ValueToText(values[name])
  }

  // A declared variable that nothing gives a value.
  predicate IsUnset(wf: WorkflowDef, cli: map<string, string>, v: string) {
    v in wf.variables && v !in cli && wf.variables[v].default.None? && !wf.variables[v].required
  }

  // An accepted workflow with accepted variables can still fail to render a step: exactly when
  // the step needs an optional variable that has no default and was not given.
  lemma StepLeftWithoutValueIff(
    wf: WorkflowDef, step: StepDef, cli: map<string, string>, json: JsonParser, values: map<string, Value>, outputs: map<string, string>)
    requires Prompts.IsAcceptableStep(wf, step) && Prompts.SourcesKnown(step.inputs)
    requires forall p :: !IsProblem(wf, cli, json, p)
    requires forall name :: name in values <==> name in wf.variables && (name in cli || wf.variables[name].default.Some?)
    ensures Prompts.Prompt(step, TextsOf(values), Prompts.UpstreamInputs(step.inputs, outputs), "").Err? <==>
      exists v :: IsUnset(wf, cli, v) && Prompts.Needs(step, v)
  {
    hide Prompts.Prompt, Prompts.IsAcceptableStep, Prompts.SourcesKnown, Prompts.Needs, ParseTyped, HasType;
    Prompts.StepRendersIff(wf, step, TextsOf(values), outputs);
    forall v | Prompts.Needs(step, v)
      ensures v !in TextsOf(values) <==> IsUnset(wf, cli, v)
    {
      Prompts.NeedsDeclared(wf, step, v);
      assert !IsProblem(wf, cli, json, Missing(v));
    }
  }

  // A workflow that loads, variables that validate, and a prompt that cannot be rendered.
  lemma OptionalVariableExample(json: JsonParser)
    ensures var step := StepDef("agent", "{{vars.x}}", [], []);
      var wf := WorkflowDef(map["x" := VariableDef(STRING, false, None, false, DEFAULT_VAR_MAX_BYTES)], ["s"], map["s" := step]);
      && wf.Valid() && Prompts.IsAcceptableStep(wf, step)
      && (forall p :: !IsProblem(wf, map[], json, p))
      && Prompts.Prompt(step, TextsOf(map[]), map[], "") == Err(Prompts.NoValue(Templates.Ref(Templates.Vars, "x")))
  {
    var prompt, r := "{{vars.x}}", Templates.Ref(Templates.Vars, "x");
    var step := StepDef("agent", prompt, [], []);
    var wf := WorkflowDef(map["x" := VariableDef(STRING, false, None, false, DEFAULT_VAR_MAX_BYTES)], ["s"], map["s" := step]);
    ExampleToken();
    OneToken(prompt, r);
    OneReference(wf, step, r);
    NothingRefused(wf, json);
  }

  lemma ExampleToken()
    ensures Templates.TokenAt("{{vars.x}}") == Some(Templates.Token(10, Templates.Ref(Templates.Vars, "x")))
  {
    hide Templates.TokenAt;
    var prompt, r := "{{vars.x}}", Templates.Ref(Templates.Vars, "x");
    assert prompt == "{{" + ("" + ("vars." + ("x" + ("" + "}}"))));
    assert Templates.IsTokenWith(prompt, r, "", "");
    assert prompt[..10] == prompt;
    Templates.TokenComplete(prompt, 10, r, "", "");
  }

  lemma NothingRefused(wf: WorkflowDef, json: JsonParser)
    requires wf.variables == map["x" := VariableDef(STRING, false, None, false, DEFAULT_VAR_MAX_BYTES)]
    ensures forall p :: !IsProblem(wf, map[], json, p)
  {}

  lemma OneReference(wf: WorkflowDef, step: StepDef, r: Templates.Ref)
    requires Templates.Tokenize(step.prompt) == [Templates.Reference(step.prompt, r)]
    requires Templates.FindAll(step.prompt) == [Templates.Match(0, |step.prompt|, r)]
    requires forall at: nat :: !Templates.SuspectAt(step.prompt, at)
    requires r.ns == Templates.Vars && r.name in wf.variables && step.inputs == []
    ensures Prompts.IsAcceptableStep(wf, step)
    ensures Prompts.Prompt(step, TextsOf(map[]), map[], "") == Err(Prompts.NoValue(r))
  {
    assert forall m :: m in Templates.FindAll(step.prompt) ==> m.r == r;
  }

  lemma OneToken(prompt: string, r: Templates.Ref)
    requires prompt != "" && Templates.TokenAt(prompt) == Some(Templates.Token(|prompt|, r))
    ensures Templates.Tokenize(prompt) == [Templates.Reference(prompt, r)]
    ensures Templates.FindAll(prompt) == [Templates.Match(0, |prompt|, r)]
    ensures forall at: nat :: !Templates.SuspectAt(prompt, at)
  {
    hide Templates.TokenAt;
    assert prompt[|prompt|..] == "" && prompt[..|prompt|] == prompt;
    assert Templates.Tokenize("") == [];
    var pieces := [Templates.Reference(prompt, r)];
    assert pieces[1..] == [];
    assert Templates.Located([], |prompt|) == [];
    forall i | 0 <= i < |prompt|
      ensures Templates.Covered(prompt, i)
    {
      assert Templates.FindAll(prompt)[0].start <= i < Templates.FindAll(prompt)[0].end;
    }
  }
}
