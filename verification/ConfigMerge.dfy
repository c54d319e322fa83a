// Merging a project's configuration under the user's: nested trees, and rules that may only
// tighten.
module ConfigMerge {
  import opened Wrappers

  datatype Value = Number(n: int) | Text(s: string) | List(items: seq<string>) | Null

  // A path is its sequence of keys; validation has refused keys that hold a dot.
  type Path = seq<string>

  datatype Tree = Leaf(value: Value) | Table(children: map<string, Tree>)

  // ---------------------------------------------------------------- trees

  function Lookup(t: Tree, path: Path): Option<Tree>
    decreases |path|
  {
    if path == [] then Some(t)
    else if t.Table? && path[0] in t.children then Lookup(t.children[path[0]], path[1..])
    else None
  }

  function LeafAt(t: Tree, path: Path): Option<Value> {
    match Lookup(t, path)
    case Some(Leaf(v)) => Some(v)
    case _ => None
  }

  // Every leaf path; empty tables contribute none.
  function Leaves(t: Tree): set<Path> {
    match t
    case Leaf(_) => {[]}
    case Table(children) => set k, rest | k in children && rest in Leaves(children[k]) :: [k] + rest
  }

  lemma {:induction false} LeavesAreLeaves(t: Tree, path: Path)
    ensures path in Leaves(t) <==> LeafAt(t, path).Some?
    decreases |path|
  {
    if path != [] {
      assert path == [path[0]] + path[1..];
      if t.Table? && path[0] in t.children {
        LeavesAreLeaves(t.children[path[0]], path[1..]);
      }
      if path in Leaves(t) {
        var k, rest :| k in t.children && rest in Leaves(t.children[k]) && path == [k] + rest;
        assert k == path[0] && rest == path[1..];
      }
    }
  }

  // Tables on the way are made when missing.
  function SetPath(t: Tree, path: Path, v: Value): Tree
    decreases |path|
  {
    if path == [] then Leaf(v)
    else
      var children := if t.Table? then t.children else map[];
      var child := if path[0] in children then children[path[0]] else Table(map[]);
      Table(children[path[0] := SetPath(child, path[1..], v)])
  }

  lemma {:induction false} SetThenGet(t: Tree, path: Path, v: Value)
    ensures LeafAt(SetPath(t, path, v), path) == Some(v)
    decreases |path|
  {
    if path != [] {
      var children := if t.Table? then t.children else map[];
      SetThenGet(if path[0] in children then children[path[0]] else Table(map[]), path[1..], v);
    }
  }

  // Replacing a leaf leaves every other leaf as it was.
  lemma {:induction false} SetElsewhere(t: Tree, path: Path, v: Value, other: Path)
    requires LeafAt(t, path).Some? && other != path
    ensures LeafAt(SetPath(t, path, v), other) == LeafAt(t, other)
    decreases |path|
  {
    if path != [] && other != [] {
      assert path == [path[0]] + path[1..] && other == [other[0]] + other[1..];
      if other[0] == path[0] {
        SetElsewhere(t.children[path[0]], path[1..], v, other[1..]);
      }
    }
  }

  function DeepMerge(base: Tree, overlay: Tree): Tree
    decreases overlay
  {
    if base.Table? && overlay.Table? then
      Table(map k | k in base.children.Keys + overlay.children.Keys ::
              if k !in overlay.children then base.children[k]
              else if k !in base.children then overlay.children[k]
              else DeepMerge(base.children[k], overlay.children[k]))
    else overlay
  }

  // The overlay says something at the path or stops above it.
  function Covers(overlay: Tree, path: Path): bool
    decreases |path|
  {
    path == [] || overlay.Leaf? || (path[0] in overlay.children && Covers(overlay.children[path[0]], path[1..]))
  }

  lemma {:induction false} NotCovered(overlay: Tree, path: Path)
    ensures !Covers(overlay, path) ==> Lookup(overlay, path).None?
    decreases |path|
  {
    if path != [] && overlay.Table? && path[0] in overlay.children {
      NotCovered(overlay.children[path[0]], path[1..]);
    }
  }

  // Exactly where the overlay has its say: where it has anything, or a leaf further up.
  lemma {:induction false} CoversIff(overlay: Tree, path: Path)
    ensures Covers(overlay, path) <==>
      Lookup(overlay, path).Some? || exists k :: 0 <= k < |path| && LeafAt(overlay, path[..k]).Some?
    decreases |path|
  {
    if path != [] && overlay.Table? && path[0] in overlay.children {
      var child, rest := overlay.children[path[0]], path[1..];
      CoversIff(child, rest);
      forall k | 0 <= k < |rest|
        ensures LeafAt(child, rest[..k]) == LeafAt(overlay, path[..k + 1])
      {
        assert path[..k + 1][0] == path[0] && path[..k + 1][1..] == rest[..k];
      }
      if k :| 0 <= k < |path| && LeafAt(overlay, path[..k]).Some? {
        assert k > 0 && rest[..k - 1] == path[..k][1..];
      }
    } else if path != [] && overlay.Leaf? {
      assert path[..0] == [] && LeafAt(overlay, path[..0]).Some?;
    } else if path != [] {
      forall k | 0 <= k < |path|
        ensures LeafAt(overlay, path[..k]).None?
      {
        if k > 0 {
          assert path[..k][0] == path[0];
        }
      }
    }
  }

  // Leaf by leaf: the overlay's word where it has one, the base's elsewhere.
  lemma {:induction false} DeepMergeByLeaf(base: Tree, overlay: Tree, path: Path)
    ensures LeafAt(DeepMerge(base, overlay), path) ==
      if Covers(overlay, path) then LeafAt(overlay, path) else LeafAt(base, path)
    decreases |path|
  {
    NotCovered(overlay, path);
    if path != [] && base.Table? && overlay.Table? && path[0] in base.children && path[0] in overlay.children {
      DeepMergeByLeaf(base.children[path[0]], overlay.children[path[0]], path[1..]);
    }
  }

  // ---------------------------------------------------------------- merge rules

  datatype MergeRule = USER_ONLY | TIGHTEN_MIN | TIGHTEN_CAPTURE | PROJECT_DENIALS | PROJECT_OK

  const CEILINGS: set<Path> := {
    ["engine", "max_workflow_steps"],
    ["engine", "max_prompt_bytes"],
    ["engine", "default_step_timeout_seconds"],
    ["engine", "default_workflow_timeout_seconds"],
    ["engine", "max_event_bytes_per_step"],
    ["engine", "max_artifact_bytes_per_run"]}
  const CAPTURE: Path := ["results", "capture"]
  const DENIALS: Path := ["permissions", "project_denials"]
  const DEFAULT_NAME: Path := ["workflows", "default_name"]

  // Anything unlisted belongs to the user.
  function MergeRuleFor(path: Path): MergeRule {
    if path in CEILINGS then TIGHTEN_MIN
    else if path == CAPTURE then TIGHTEN_CAPTURE
    else if path == DENIALS then PROJECT_DENIALS
    else if path == DEFAULT_NAME then PROJECT_OK
    else USER_ONLY
  }

  function Rank(profile: string): nat {
    if profile == "metadata" then 0 else if profile == "standard" then 1 else 2
  }

  predicate IsProfile(v: Option<Value>) {
    v.Some? && v.value.Text? && v.value.s in {"metadata", "standard", "debug"}
  }

  // A validated configuration has every field, defaults included.
  ghost predicate HasShape(t: Tree) {
    forall path :: FieldFits(path, LeafAt(t, path))
  }

  predicate FieldFits(path: Path, v: Option<Value>) {
    match MergeRuleFor(path)
    case TIGHTEN_MIN => v.Some? && v.value.Number?
    case TIGHTEN_CAPTURE => IsProfile(v)
    case PROJECT_DENIALS => v.Some?
    case PROJECT_OK => v.Some?
    case USER_ONLY => true
  }

  // What a leaf the project sets becomes.
  function Tightened(path: Path, user: Value, project: Value): Value {
    match MergeRuleFor(path)
    case TIGHTEN_MIN => if user.Number? && project.Number? && project.n < user.n then project else user
    case TIGHTEN_CAPTURE => if user.Text? && project.Text? && Rank(project.s) < Rank(user.s) then project else user
    case PROJECT_DENIALS => project
    case PROJECT_OK => project
    case USER_ONLY => user
  }

  function Merged(path: Path, user: Tree, project: Tree, touched: set<Path>): Option<Value> {
    var u, p := LeafAt(user, path), LeafAt(project, path);
    if path in touched && u.Some? && p.Some? then Some(Tightened(path, u.value, p.value)) else u
  }

  ghost predicate IsMerge(user: Tree, project: Tree, touched: set<Path>, t: Tree) {
    forall path :: LeafAt(t, path) == Merged(path, user, project, touched)
  }

  predicate Raises(path: Path, user: Tree, project: Tree) {
    var u, p := LeafAt(user, path), LeafAt(project, path);
    && MergeRuleFor(path) == TIGHTEN_MIN && u.Some? && p.Some?
    && u.value.Number? && p.value.Number? && p.value.n > u.value.n
  }

  datatype ProjectError =
    | NoSchemaVersion
    | NotAllowed(paths: set<Path>)
    | Invalid
    | RaisesCeilings(paths: set<Path>)

  const SCHEMA_VERSION: Path := ["schema_version"]

  // The leaves a project sets.
  function Touched(raw: Tree): set<Path> {
    Leaves(raw) - {SCHEMA_VERSION}
  }

  // Merge a project's configuration into the user's, or refuse it. `known` says which paths the
  // schema has and `validated` is the project's configuration with defaults, when it is valid;
  // both come from the schema. Paths are visited in no particular order: the result does not
  // depend on it.
  method ApplyProject(raw: Tree, known: Path -> bool, validated: Option<Tree>, user: Tree) returns (r: Result<Tree, ProjectError>)
    requires HasShape(user) && (validated.Some? ==> HasShape(validated.value))
    ensures var barred := set p | p in Touched(raw) && (!known(p) || MergeRuleFor(p) == USER_ONLY);
      if LeafAt(raw, SCHEMA_VERSION) != Some(Number(1)) then r == Err(NoSchemaVersion)
      else if barred != {} then r == Err(NotAllowed(barred))
      else if validated.None? then r == Err(Invalid)
      else
        var raised := set p | p in Touched(raw) && Raises(p, user, validated.value);
        if raised != {} then r == Err(RaisesCeilings(raised))
        else r.Ok? && IsMerge(user, validated.value, Touched(raw), r.value)
  {
    hide HasShape, LeafAt, Tightened, MergeRuleFor, Leaves, SetPath;
    if LeafAt(raw, SCHEMA_VERSION) != Some(Number(1)) {
      return Err(NoSchemaVersion);
    }
    var touched := Touched(raw);
    var barred := set p | p in touched && (!known(p) || MergeRuleFor(p) == USER_ONLY);
    if barred != {} {
      return Err(NotAllowed(barred));
    }
    if validated.None? {
      return Err(Invalid);
    }
    var project := validated.value;
    var t, left := user, touched;
    var raised: set<Path> := {};
    assert touched - left == {};
    while left != {}
      invariant left <= touched
      invariant IsMerge(user, project, touched - left, t)
      invariant raised == set p | p in touched - left && Raises(p, user, project)
      decreases left
    {
      var path :| path in left;
      assert path !in barred;
      ShapeAt(user, path);
      ShapeAt(project, path);
      assert LeafAt(t, path) == Merged(path, user, project, touched - left);
      ghost var before := t;
      var now, over := MergeOne(t, project, path);
      t := now;
      if over {
        raised := raised + {path};
      }
      MergeNext(user, project, touched - left, path, before, t);
      assert touched - (left - {path}) == (touched - left) + {path};
      left := left - {path};
    }
    assert touched - left == touched;
    r := if raised != {} then Err(RaisesCeilings(raised)) else Ok(t);
  }

  lemma ShapeAt(t: Tree, path: Path)
    requires HasShape(t)
    ensures MergeRuleFor(path) != USER_ONLY ==> LeafAt(t, path).Some?
    ensures MergeRuleFor(path) == TIGHTEN_MIN ==> LeafAt(t, path).value.Number?
    ensures MergeRuleFor(path) == TIGHTEN_CAPTURE ==> LeafAt(t, path).value.Text?
  {}

  // One leaf the project sets: lower a ceiling or the capture level, take a denial list or a
  // name, or note that a ceiling would be raised.
  method MergeOne(t: Tree, project: Tree, path: Path) returns (now: Tree, over: bool)
    requires MergeRuleFor(path) != USER_ONLY && LeafAt(t, path).Some? && LeafAt(project, path).Some?
    requires MergeRuleFor(path) == TIGHTEN_MIN ==> LeafAt(t, path).value.Number? && LeafAt(project, path).value.Number?
    requires MergeRuleFor(path) == TIGHTEN_CAPTURE ==> LeafAt(t, path).value.Text? && LeafAt(project, path).value.Text?
    ensures over <==> Raises(path, t, project)
    ensures LeafAt(now, path) == Some(Tightened(path, LeafAt(t, path).value, LeafAt(project, path).value))
    ensures forall other :: other != path ==> LeafAt(now, other) == LeafAt(t, other)
  {
    hide LeafAt, SetPath, MergeRuleFor;
    var rule, value, eff := MergeRuleFor(path), LeafAt(project, path).value, LeafAt(t, path).value;
    now, over := t, false;
    SetThenGet(t, path, value);
    forall other | other != path
      ensures LeafAt(SetPath(t, path, value), other) == LeafAt(t, other)
    {
      SetElsewhere(t, path, value, other);
    }
    if rule == TIGHTEN_MIN {
      if value.n < eff.n {
        now := SetPath(t, path, value);
      } else if value.n > eff.n {
        over := true;
      }
    } else if rule == TIGHTEN_CAPTURE {
      if Rank(value.s) < Rank(eff.s) {
        now := SetPath(t, path, value);
      }
    } else {
      now := SetPath(t, path, value);
    }
  }

  lemma MergeNext(user: Tree, project: Tree, done: set<Path>, path: Path, before: Tree, now: Tree)
    requires IsMerge(user, project, done, before) && path !in done
    requires LeafAt(user, path).Some? && LeafAt(project, path).Some?
    requires LeafAt(now, path) == Some(Tightened(path, LeafAt(before, path).value, LeafAt(project, path).value))
    requires forall other :: other != path ==> LeafAt(now, other) == LeafAt(before, other)
    ensures IsMerge(user, project, done + {path}, now)
  {}

  // ---------------------------------------------------------------- a project may only tighten

  function Allowlisted(): set<Path> {
    CEILINGS + {CAPTURE, DENIALS, DEFAULT_NAME}
  }

  function Min(a: int, b: int): int {
    if a <= b then a else b
  }

  // Outside the four kinds of fields a project may set, the merge is the user's configuration,
  // leaf for leaf.
  lemma OutsideTheListNothingChanges(user: Tree, project: Tree, touched: set<Path>, t: Tree, path: Path)
    requires IsMerge(user, project, touched, t) && path !in Allowlisted()
    ensures LeafAt(t, path) == LeafAt(user, path)
  {}

  // Each ceiling becomes the minimum of what the user set and what the project asks for, and the
  // capture level the lower of the two; what the project does not set stays.
  lemma MergeOnlyTightens(user: Tree, project: Tree, touched: set<Path>, t: Tree, path: Path)
    requires IsMerge(user, project, touched, t) && HasShape(user) && HasShape(project)
    ensures path in CEILINGS ==>
      && LeafAt(t, path) == Some(Number(if path in touched
                                        then Min(LeafAt(user, path).value.n, LeafAt(project, path).value.n)
                                        else LeafAt(user, path).value.n))
      && LeafAt(t, path).value.n <= LeafAt(user, path).value.n
    ensures path == CAPTURE ==>
      && IsProfile(LeafAt(t, path))
      && Rank(LeafAt(t, path).value.s) == if path in touched
                                          then Min(Rank(LeafAt(user, path).value.s), Rank(LeafAt(project, path).value.s))
                                          else Rank(LeafAt(user, path).value.s)
    ensures path !in touched ==> LeafAt(t, path) == LeafAt(user, path)
    ensures HasShape(t)
  {
    hide LeafAt;
    assert LeafAt(t, path) == Merged(path, user, project, touched);
    ShapeAt(user, path);
    ShapeAt(project, path);
    MergeHasShape(user, project, touched, t);
    forall p
      ensures p in CEILINGS ==> MergeRuleFor(p) == TIGHTEN_MIN
    {}
    assert MergeRuleFor(CAPTURE) == TIGHTEN_CAPTURE;
  }

  lemma MergeHasShape(user: Tree, project: Tree, touched: set<Path>, t: Tree)
    requires IsMerge(user, project, touched, t) && HasShape(user) && HasShape(project)
    ensures HasShape(t)
  {}

  // The leaves a project sets are all it holds, apart from the schema version.
  lemma TouchedIff(raw: Tree, path: Path)
    ensures path in Touched(raw) <==> LeafAt(raw, path).Some? && path != ["schema_version"]
  {
    LeavesAreLeaves(raw, path);
  }

  // What a project may freely set is taken over: its denials and its workflow's name. Everything
  // else it sets can only be lowered: a ceiling to its own number, the capture level to its own.
  lemma ProjectIsHeard(user: Tree, project: Tree, touched: set<Path>, t: Tree, path: Path)
    requires IsMerge(user, project, touched, t) && HasShape(user) && HasShape(project) && path in touched
    ensures path == ["permissions", "project_denials"] || path == ["workflows", "default_name"] ==>
      LeafAt(t, path) == LeafAt(project, path)
    ensures path in CEILINGS && LeafAt(project, path).value.n <= LeafAt(user, path).value.n ==>
      LeafAt(t, path) == LeafAt(project, path)
    ensures path == CAPTURE ==>
      && (LeafAt(t, path).value.s == "metadata" <==>
            LeafAt(user, path).value.s == "metadata" || LeafAt(project, path).value.s == "metadata")
      && (LeafAt(t, path).value.s == "debug" <==>
            LeafAt(user, path).value.s == "debug" && LeafAt(project, path).value.s == "debug")
  {
    hide LeafAt;
    assert LeafAt(t, path) == Merged(path, user, project, touched);
    assert FieldFits(path, LeafAt(user, path)) && FieldFits(path, LeafAt(project, path));
  }

  // A project raises a ceiling exactly when it asks for more than the user set.
  lemma RaisesIff(path: Path, user: Tree, project: Tree)
    requires HasShape(user) && HasShape(project)
    ensures Raises(path, user, project) <==>
      path in CEILINGS && LeafAt(project, path).value.n > LeafAt(user, path).value.n
  {
    hide LeafAt;
    assert FieldFits(path, LeafAt(user, path)) && FieldFits(path, LeafAt(project, path));
  }

  // Merging the same project again changes nothing.
  lemma MergeIsIdempotent(user: Tree, project: Tree, touched: set<Path>, t: Tree, again: Tree, path: Path)
    requires IsMerge(user, project, touched, t) && IsMerge(t, project, touched, again)
    ensures LeafAt(again, path) == LeafAt(t, path)
  {}

  // The environment overlay, the user's tree and the project: an environment override the
  // project may not set is what is in force.
  lemma OverrideStands(user: Tree, overlay: Tree, project: Tree, touched: set<Path>, t: Tree, path: Path)
    requires IsMerge(DeepMerge(user, overlay), project, touched, t) && path !in Allowlisted()
    ensures LeafAt(t, path) == if Covers(overlay, path) then LeafAt(overlay, path) else LeafAt(user, path)
  {
    OutsideTheListNothingChanges(DeepMerge(user, overlay), project, touched, t, path);
    DeepMergeByLeaf(user, overlay, path);
  }
}
