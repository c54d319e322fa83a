// Workflow definitions: steps, their declared inputs, and the sources inputs come from.
module Workflows {
  import opened Wrappers
  import opened Seqs

  // A step's inputs keep their declaration order; names are unique.
  datatype Input = Input(name: string, source: string)

  datatype StepDef = StepDef(agent: string, prompt: string, inputs: seq<Input>, dependsOn: seq<string>)

  datatype VarType = STRING | INTEGER | BOOLEAN | JSON

  // A typed variable value; of a JSON value only its dump is kept.
  datatype Value = StringValue(s: string) | IntValue(n: int) | BoolValue(b: bool) | JsonValue(dump: string)

  const DEFAULT_VAR_MAX_BYTES: nat := 65536

  datatype VariableDef = VariableDef(kind: VarType, required: bool, default: Option<Value>, secret: bool, maxBytes: nat)

  // `declared` lists the step ids in declaration order.
  datatype WorkflowDef = WorkflowDef(
    variables: map<string, VariableDef>,
    declared: seq<string>,
    steps: map<string, StepDef>)
  {
    ghost predicate Valid() {
      && Distinct(declared)
      && (forall id :: id in declared <==> id in steps)
      && forall id :: id in steps ==> DistinctNames(steps[id].inputs)
    }
  }

  ghost predicate DistinctNames(inputs: seq<Input>) {
    forall i, j :: 0 <= i < j < |inputs| ==> inputs[i].name != inputs[j].name
  }

  function Source(inputs: seq<Input>, name: string): (r: Option<string>)
    ensures r.Some? <==> exists i :: 0 <= i < |inputs| && inputs[i].name == name
    ensures r.Some? ==> Input(name, r.value) in inputs
  {
    if inputs == [] then None
    else if inputs[0].name == name then Some(inputs[0].source)
    else
      var r := Source(inputs[1..], name);
      assert r.Some? ==> exists i :: 0 <= i < |inputs[1..]| && inputs[1..][i].name == name && inputs[i + 1].name == name;
      assert forall i :: 0 < i < |inputs| ==> inputs[i] == inputs[1..][i - 1];
      r
  }

  function Split(s: string, sep: char): (r: seq<string>)
    ensures |r| >= 1
  {
    if s == "" then [""]
    else
      var rest := Split(s[1..], sep);
      if s[0] == sep then [""] + rest else [[s[0]] + rest[0]] + rest[1..]
  }

  lemma {:induction false} SplitFirst(a: string, b: string, sep: char)
    requires sep !in a
    ensures Split(a + [sep] + b, sep) == [a] + Split(b, sep)
    decreases |a|
  {
    var s := a + [sep] + b;
    if a == "" {
      assert s[1..] == b;
    } else {
      assert s[1..] == a[1..] + [sep] + b;
      SplitFirst(a[1..], b, sep);
      assert [a[0]] + a[1..] == a;
    }
  }

  lemma {:induction false} SplitNone(a: string, sep: char)
    requires sep !in a
    ensures Split(a, sep) == [a]
    decreases |a|
  {
    if a != "" {
      SplitNone(a[1..], sep);
      assert [a[0]] + a[1..] == a;
    }
  }

  function Join(parts: seq<string>, sep: char): string {
    if parts == [] then ""
    else if |parts| == 1 then parts[0]
    else parts[0] + [sep] + Join(parts[1..], sep)
  }

  ghost predicate NoneHolds(parts: seq<string>, sep: char) {
    forall p :: p in parts ==> sep !in p
  }

  // Splitting undoes joining, whatever the parts, as long as none holds the separator.
  lemma {:induction false} SplitJoin(parts: seq<string>, sep: char)
    requires parts != [] && NoneHolds(parts, sep)
    ensures Split(Join(parts, sep), sep) == parts
    decreases |parts|
  {
    if |parts| == 1 {
      SplitNone(parts[0], sep);
    } else {
      SplitJoin(parts[1..], sep);
      SplitFirst(parts[0], Join(parts[1..], sep), sep);
    }
  }

  // Joining undoes splitting, for every text, and no part holds the separator.
  lemma {:induction false} JoinSplit(s: string, sep: char)
    ensures Join(Split(s, sep), sep) == s && NoneHolds(Split(s, sep), sep)
    decreases |s|
  {
    if s != "" {
      var rest := Split(s[1..], sep);
      JoinSplit(s[1..], sep);
      assert s == [s[0]] + s[1..];
      if s[0] == sep {
        assert Split(s, sep)[1..] == rest;
      } else {
        assert Split(s, sep) == [[s[0]] + rest[0]] + rest[1..];
        assert Split(s, sep)[1..] == rest[1..];
        JoinHead(s[0], rest, sep);
        forall p | p in Split(s, sep)
          ensures sep !in p
        {
          assert p == [s[0]] + rest[0] || p in rest[1..];
          assert rest[0] in rest;
        }
      }
    }
  }

  lemma JoinHead(c: char, rest: seq<string>, sep: char)
    requires rest != []
    ensures Join([[c] + rest[0]] + rest[1..], sep) == [c] + Join(rest, sep)
  {
    assert ([[c] + rest[0]] + rest[1..])[1..] == rest[1..];
  }

  predicate IsStepSource(source: string) {
    var parts := Split(source, '.');
    |parts| == 4 && parts[0] == "steps" && parts[2] == "outputs"
  }

  // The step whose output a source names; variables create no edge.
  function InputSourceStep(source: string): Option<string> {
    if IsStepSource(source) then Some(Split(source, '.')[1]) else None
  }

  // A source of the form steps.<d>.outputs.<name>, neither part holding a dot.
  ghost predicate NamesOutputOf(source: string, d: string) {
    '.' !in d && exists name :: '.' !in name && source == "steps" + "." + (d + "." + ("outputs" + "." + name))
  }

  lemma JoinFour(a: string, b: string, c: string, d: string)
    ensures Join([a, b, c, d], '.') == a + "." + (b + "." + (c + "." + d))
  {
    var parts := [a, b, c, d];
    assert parts[1..] == [b, c, d] && [b, c, d][1..] == [c, d] && [c, d][1..] == [d];
    assert Join([c, d], '.') == c + ['.'] + Join([d], '.');
    assert Join([b, c, d], '.') == b + ['.'] + Join([c, d], '.');
  }

  // Exactly which sources draw on a step's output.
  lemma InputSourceStepIff(source: string, d: string)
    ensures InputSourceStep(source) == Some(d) <==> NamesOutputOf(source, d)
  {
    var parts := Split(source, '.');
    JoinSplit(source, '.');
    if InputSourceStep(source) == Some(d) {
      assert parts == ["steps", d, "outputs", parts[3]];
      assert parts[1] in parts && parts[3] in parts;
      JoinFour("steps", d, "outputs", parts[3]);
    }
    if NamesOutputOf(source, d) {
      var name :| '.' !in name && source == "steps" + "." + (d + "." + ("outputs" + "." + name));
      JoinFour("steps", d, "outputs", name);
      SplitJoin(["steps", d, "outputs", name], '.');
    }
  }
}
