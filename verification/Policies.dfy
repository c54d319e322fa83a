// Guarded mediation: deny globs over workspace paths, the decisions on reads, writes and
// permission requests, and the recheck on the path about to be opened.
module Policies {
  import opened Wrappers
  import opened Seqs
  import Workflows

  // A path is its segments below the root. Case folding and single-segment matching are the
  // library's.
  type Path = seq<string>

  datatype Names = Names(fold: string -> string, fits: (string, string) -> bool)

  const ANY: string := "**"

  // ---------------------------------------------------------------- globs

  predicate IsBlank(part: string) {
    part == "" || part == "."
  }

  // The parts of a path that say something.
  function Plain(parts: seq<string>): seq<string> {
    if parts == [] then []
    else if IsBlank(parts[0]) then Plain(parts[1..])
    else [parts[0]] + Plain(parts[1..])
  }

  function Folded(names: Names, path: Path): Path {
    seq(|path|, i requires 0 <= i < |path| => names.fold(path[i]))
  }

  // A pattern without a slash matches the last segment at any depth.
  function PatternSegments(names: Names, pattern: string): Option<seq<string>> {
    var parts := Folded(names, Plain(Workflows.Split(pattern, '/')));
    if parts == [] then None
    else if '/' !in pattern then Some([ANY] + parts)
    else Some(parts)
  }

  predicate Match(names: Names, pattern: seq<string>, segments: Path)
    decreases |pattern|
  {
    if pattern == [] then segments == []
    else if pattern[0] == ANY then
      exists i :: 0 <= i <= |segments| && Match(names, pattern[1..], segments[i..])
    else
      segments != [] && names.fits(segments[0], pattern[0]) && Match(names, pattern[1..], segments[1..])
  }

  predicate GlobMatches(names: Names, pattern: string, path: Path) {
    match PatternSegments(names, pattern)
    case None => false
    case Some(segments) => Match(names, segments, Folded(names, path))
  }

  // The path cut into one part for each piece of the pattern: any number of segments for **,
  // one fitting segment for every other piece.
  ghost predicate Aligned(names: Names, pattern: seq<string>, segments: Path, cuts: seq<nat>) {
    && |cuts| == |pattern| + 1 && cuts[0] == 0 && Last(cuts) == |segments|
    && forall i :: 0 <= i < |pattern| ==> PieceFits(names, pattern[i], segments, cuts[i], cuts[i + 1])
  }

  ghost predicate PieceFits(names: Names, piece: string, segments: Path, from: nat, to: nat) {
    from <= to <= |segments| && (piece != ANY ==> to == from + 1 && names.fits(segments[from], piece))
  }

  function Shifted(cuts: seq<nat>, k: nat): seq<nat> {
    seq(|cuts|, i requires 0 <= i < |cuts| => cuts[i] + k)
  }

  lemma {:induction false} MatchAligns(names: Names, pattern: seq<string>, segments: Path) returns (cuts: seq<nat>)
    requires Match(names, pattern, segments)
    ensures Aligned(names, pattern, segments, cuts)
    decreases |pattern|
  {
    if pattern == [] {
      cuts := [0];
    } else {
      var k := 1;
      if pattern[0] == ANY {
        k :| 0 <= k <= |segments| && Match(names, pattern[1..], segments[k..]);
      }
      var rest := MatchAligns(names, pattern[1..], segments[k..]);
      cuts := [0] + Shifted(rest, k);
      forall i | 0 <= i < |pattern|
        ensures PieceFits(names, pattern[i], segments, cuts[i], cuts[i + 1])
      {
        if i > 0 {
          assert PieceFits(names, pattern[1..][i - 1], segments[k..], rest[i - 1], rest[i]);
        }
      }
    }
  }

  lemma {:induction false} CutsOrdered(names: Names, pattern: seq<string>, segments: Path, cuts: seq<nat>, i: nat)
    requires Aligned(names, pattern, segments, cuts) && 1 <= i < |cuts|
    ensures cuts[1] <= cuts[i] <= |segments|
    decreases i
  {
    assert PieceFits(names, pattern[i - 1], segments, cuts[i - 1], cuts[i]);
    if i > 1 {
      CutsOrdered(names, pattern, segments, cuts, i - 1);
    }
  }

  lemma {:induction false} AlignedMatches(names: Names, pattern: seq<string>, segments: Path, cuts: seq<nat>)
    requires Aligned(names, pattern, segments, cuts)
    ensures Match(names, pattern, segments)
    decreases |pattern|
  {
    if pattern != [] {
      assert PieceFits(names, pattern[0], segments, cuts[0], cuts[1]);
      var k := cuts[1];
      forall i | 1 <= i < |cuts|
        ensures k <= cuts[i]
      {
        CutsOrdered(names, pattern, segments, cuts, i);
      }
      var rest: seq<nat> := seq(|pattern|, i requires 0 <= i < |pattern| => cuts[i + 1] - k);
      forall i | 0 <= i < |pattern| - 1
        ensures PieceFits(names, pattern[1..][i], segments[k..], rest[i], rest[i + 1])
      {
        assert PieceFits(names, pattern[i + 1], segments, cuts[i + 1], cuts[i + 2]);
      }
      AlignedMatches(names, pattern[1..], segments[k..], rest);
    }
  }

  // The recursive matcher finds an alignment exactly when there is one.
  lemma MatchIffAligned(names: Names, pattern: seq<string>, segments: Path)
    ensures Match(names, pattern, segments) <==> exists cuts :: Aligned(names, pattern, segments, cuts)
  {
    if Match(names, pattern, segments) {
      var cuts := MatchAligns(names, pattern, segments);
    }
    if cuts :| Aligned(names, pattern, segments, cuts) {
      AlignedMatches(names, pattern, segments, cuts);
    }
  }

  // ---- patterns as text

  lemma {:induction false} PlainKeeps(parts: seq<string>)
    requires forall p :: p in parts ==> !IsBlank(p)
    ensures Plain(parts) == parts
    decreases |parts|
  {
    if parts != [] {
      assert parts[0] in parts;
      PlainKeeps(parts[1..]);
      assert [parts[0]] + parts[1..] == parts;
    }
  }

  // Blank parts may stand anywhere in a pattern.
  lemma {:induction false} PlainSkips(a: seq<string>, part: string, b: seq<string>)
    requires IsBlank(part)
    ensures Plain(a + [part] + b) == Plain(a + b)
    decreases |a|
  {
    var with, without := a + [part] + b, a + b;
    if a == [] {
      assert with[1..] == b && without == b;
    } else {
      assert with[1..] == a[1..] + [part] + b && without[1..] == a[1..] + b;
      PlainSkips(a[1..], part, b);
    }
  }

  lemma JoinHoldsSlash(parts: seq<string>)
    requires |parts| >= 2
    ensures '/' in Workflows.Join(parts, '/')
  {
    assert Workflows.Join(parts, '/')[|parts[0]|] == '/';
  }

  // A pattern that holds a slash matches exactly the paths that can be cut along its parts, blank
  // parts aside.
  lemma SlashPatternMatches(names: Names, parts: seq<string>, path: Path)
    requires |parts| >= 2 && Workflows.NoneHolds(parts, '/')
    ensures GlobMatches(names, Workflows.Join(parts, '/'), path) <==>
      && Plain(parts) != []
      && exists cuts :: Aligned(names, Folded(names, Plain(parts)), Folded(names, path), cuts)
  {
    hide Match, Aligned;
    JoinHoldsSlash(parts);
    Workflows.SplitJoin(parts, '/');
    MatchIffAligned(names, Folded(names, Plain(parts)), Folded(names, path));
  }

  // A basename pattern looks at the last segment only.
  lemma BasenameMatchesLast(names: Names, pattern: string, path: Path)
    requires '/' !in pattern && !IsBlank(pattern) && names.fold(pattern) != ANY
    ensures GlobMatches(names, pattern, path) <==> path != [] && names.fits(names.fold(Last(path)), names.fold(pattern))
  {
    hide Match;
    Workflows.SplitNone(pattern, '/');
    PlainKeeps([pattern]);
    assert Folded(names, [pattern]) == [names.fold(pattern)];
    assert PatternSegments(names, pattern) == Some([ANY] + [names.fold(pattern)]);
    assert [ANY] + [names.fold(pattern)] == [ANY, names.fold(pattern)];
    LastFits(names, names.fold(pattern), Folded(names, path));
  }

  // One fitting segment for each piece of a pattern without **.
  ghost predicate FitsEach(names: Names, pattern: seq<string>, segments: Path) {
    |segments| == |pattern| && forall k :: 0 <= k < |pattern| ==> names.fits(segments[k], pattern[k])
  }

  lemma {:induction false} FixedFits(names: Names, pattern: seq<string>, segments: Path)
    requires ANY !in pattern
    ensures Match(names, pattern, segments) <==> FitsEach(names, pattern, segments)
    decreases |pattern|
  {
    if pattern != [] && segments != [] {
      assert pattern[0] in pattern;
      FixedFits(names, pattern[1..], segments[1..]);
      FitsHead(names, pattern, segments);
    }
  }

  lemma FitsHead(names: Names, pattern: seq<string>, segments: Path)
    requires pattern != [] && segments != []
    ensures FitsEach(names, pattern, segments) <==>
      names.fits(segments[0], pattern[0]) && FitsEach(names, pattern[1..], segments[1..])
  {
    if names.fits(segments[0], pattern[0]) && FitsEach(names, pattern[1..], segments[1..]) {
      forall k | 0 <= k < |pattern|
        ensures names.fits(segments[k], pattern[k])
      {
        if k > 0 {
          assert names.fits(segments[1..][k - 1], pattern[1..][k - 1]);
        }
      }
    }
  }

  // A pattern of stars and then fixed pieces looks at the end of the path.
  lemma TailFits(names: Names, pattern: seq<string>, segments: Path)
    requires ANY !in pattern
    ensures Match(names, [ANY] + pattern, segments) <==>
      |pattern| <= |segments| && FitsEach(names, pattern, segments[|segments| - |pattern|..])
  {
    var n := |segments| - |pattern|;
    assert ([ANY] + pattern)[1..] == pattern;
    forall i | 0 <= i <= |segments|
      ensures Match(names, pattern, segments[i..]) <==> i == n && FitsEach(names, pattern, segments[i..])
    {
      FixedFits(names, pattern, segments[i..]);
    }
  }

  // The pattern **/x.
  lemma LastFits(names: Names, x: string, segments: Path)
    requires x != ANY
    ensures Match(names, [ANY, x], segments) <==> segments != [] && names.fits(Last(segments), x)
  {
    hide Match;
    TailFits(names, [x], segments);
    assert [ANY] + [x] == [ANY, x];
  }

  // The pattern **/x/y.
  lemma LastTwoFit(names: Names, x: string, y: string, segments: Path)
    requires x != ANY && y != ANY
    ensures Match(names, [ANY, x, y], segments) <==>
      |segments| >= 2 && names.fits(segments[|segments| - 2], x) && names.fits(Last(segments), y)
  {
    hide Match;
    TailFits(names, [x, y], segments);
    assert [ANY] + [x, y] == [ANY, x, y];
    if |segments| >= 2 {
      var tail := segments[|segments| - 2..];
      assert FitsEach(names, [x, y], tail) <==> names.fits(tail[0], x) && names.fits(tail[1], y);
    }
  }

  lemma Anything(names: Names, segments: Path)
    ensures Match(names, [ANY], segments)
  {
    assert [ANY][1..] == [] && segments[|segments|..] == [];
    assert Match(names, [], segments[|segments|..]);
  }

  // The pattern **/x/**.
  lemma SomeFits(names: Names, x: string, segments: Path)
    requires x != ANY
    ensures Match(names, [ANY, x, ANY], segments) <==> exists i :: 0 <= i < |segments| && names.fits(segments[i], x)
  {
    assert [ANY, x, ANY][1..] == [x, ANY] && [x, ANY][1..] == [ANY];
    forall i | 0 <= i <= |segments|
      ensures Match(names, [x, ANY], segments[i..]) <==> i < |segments| && names.fits(segments[i], x)
    {
      if i < |segments| {
        Anything(names, segments[i..][1..]);
      }
    }
  }

  // ---------------------------------------------------------------- policies

  datatype Denial = PathRule(pattern: string) | TerminalRule(command: string, argsPrefix: seq<string>)

  datatype Allowance = Allowance(command: string, argsPrefix: seq<string>)

  datatype Origin = ByDefault | ByUser | ByProjectDenial

  datatype Rule =
    | ReadInWorkspaceAllow
    | WriteInStepdirAllow
    | OutsideStepdirDeny
    | OutsideWorkspaceDeny
    | SensitivePathDeny
    | ProjectDenial(index: nat)
    | TerminalUserAllowlist
    | TerminalDefaultDeny
    | UnmatchedDefaultDeny
    | PathAmbiguityDeny

  datatype Decision = Decision(allowed: bool, rule: Rule, origin: Origin)

  // What resolving a requested path yields; an inside path lies in the workspace.
  datatype Resolution = Inside(path: Path) | Outside | Ambiguous

  const DEFAULT_SENSITIVE_GLOBS: seq<string> := [
    "**/.env", "**/.env.*", "**/*_key", "**/*.pem", "**/id_rsa*", "**/.aws/**", "**/.ssh/**", "**/.ziggy/config.toml"]

  datatype Policy = Policy(
    names: Names, workspace: Path, stepDir: Path, allowlist: seq<Allowance>, denials: seq<Denial>,
    defaultGlobs: seq<string>, userGlobs: seq<string>)
  {
    // Every policy is built on the fixed default globs, for a step directory in the workspace.
    ghost predicate Guarded() {
      defaultGlobs == DEFAULT_SENSITIVE_GLOBS && workspace <= stepDir
    }
  }

  function Below(p: Policy, path: Path): Path
    requires p.workspace <= path
  {
    path[|p.workspace|..]
  }

  predicate Hits(names: Names, d: Denial, rel: Path) {
    d.PathRule? && GlobMatches(names, d.pattern, rel)
  }

  predicate AnyMatches(names: Names, globs: seq<string>, rel: Path) {
    exists g :: g in globs && GlobMatches(names, g, rel)
  }

  function FirstHit(names: Names, denials: seq<Denial>, rel: Path, from: nat): (r: Option<nat>)
    requires from <= |denials|
    ensures r.Some? ==> from <= r.value < |denials| && Hits(names, denials[r.value], rel)
    ensures r.Some? ==> forall i :: from <= i < r.value ==> !Hits(names, denials[i], rel)
    ensures r.None? ==> forall i :: from <= i < |denials| ==> !Hits(names, denials[i], rel)
    decreases |denials| - from
  {
    if from == |denials| then None
    else if Hits(names, denials[from], rel) then Some(from)
    else FirstHit(names, denials, rel, from + 1)
  }

  // The first deny rule a path meets: project denials in order, then the default globs, then
  // the user's.
  function DenialFor(p: Policy, rel: Path): Option<Decision> {
    match FirstHit(p.names, p.denials, rel, 0)
    case Some(i) => Some(Decision(false, ProjectDenial(i), ByProjectDenial))
    case None =>
      if AnyMatches(p.names, p.defaultGlobs, rel) then Some(Decision(false, SensitivePathDeny, ByDefault))
      else if AnyMatches(p.names, p.userGlobs, rel) then Some(Decision(false, SensitivePathDeny, ByUser))
      else None
  }

  method FindDenial(p: Policy, rel: Path) returns (d: Option<Decision>)
    ensures d == DenialFor(p, rel)
  {
    hide GlobMatches;
    for i := 0 to |p.denials|
      invariant forall k :: 0 <= k < i ==> !Hits(p.names, p.denials[k], rel)
    {
      if Hits(p.names, p.denials[i], rel) {
        return Some(Decision(false, ProjectDenial(i), ByProjectDenial));
      }
    }
    for i := 0 to |p.defaultGlobs|
      invariant forall k :: 0 <= k < i ==> !GlobMatches(p.names, p.defaultGlobs[k], rel)
    {
      if GlobMatches(p.names, p.defaultGlobs[i], rel) {
        return Some(Decision(false, SensitivePathDeny, ByDefault));
      }
    }
    assert !AnyMatches(p.names, p.defaultGlobs, rel);
    for i := 0 to |p.userGlobs|
      invariant forall k :: 0 <= k < i ==> !GlobMatches(p.names, p.userGlobs[k], rel)
    {
      if GlobMatches(p.names, p.userGlobs[i], rel) {
        return Some(Decision(false, SensitivePathDeny, ByUser));
      }
    }
    d := None;
  }

  // The decision on reading or writing a path.
  function Decide(p: Policy, where: Resolution, write: bool): Decision {
    match where
    case Outside => Decision(false, OutsideWorkspaceDeny, ByDefault)
    case Ambiguous => Decision(false, PathAmbiguityDeny, ByDefault)
    case Inside(path) =>
      if !(p.workspace <= path) then Decision(false, OutsideWorkspaceDeny, ByDefault)
      else
        var denial := DenialFor(p, Below(p, path));
        if denial.Some? then denial.value
        else if !write then Decision(true, ReadInWorkspaceAllow, ByDefault)
        else if p.stepDir <= path then Decision(true, WriteInStepdirAllow, ByDefault)
        else Decision(false, OutsideStepdirDeny, ByDefault)
  }

  // ---------------------------------------------------------------- what the default globs deny

  const SENSITIVE_FILES: seq<string> := [".env", ".env.*", "*_key", "*.pem", "id_rsa*"]
  const SENSITIVE_DIRS: seq<string> := [".aws", ".ssh"]

  // Case folding makes no other text a run of stars, and leaves that one alone.
  ghost predicate KeepsStars(names: Names) {
    forall s :: names.fold(s) == ANY <==> s == ANY
  }

  ghost predicate Fits(names: Names, segment: string, name: string) {
    names.fits(names.fold(segment), names.fold(name))
  }

  // A sensitive file, at any depth; a sensitive directory or anything below it; or Ziggy's own
  // configuration.
  ghost predicate IsSensitive(names: Names, rel: Path) {
    || (rel != [] && exists name :: name in SENSITIVE_FILES && Fits(names, Last(rel), name))
    || (exists i, name :: 0 <= i < |rel| && name in SENSITIVE_DIRS && Fits(names, rel[i], name))
    || (|rel| >= 2 && Fits(names, rel[|rel| - 2], ".ziggy") && Fits(names, Last(rel), "config.toml"))
  }

  lemma FileGlob(names: Names, name: string, rel: Path)
    requires KeepsStars(names) && !IsBlank(name) && '/' !in name && name != ANY
    ensures GlobMatches(names, "**/" + name, rel) <==> rel != [] && Fits(names, Last(rel), name)
  {
    hide Match;
    var parts := [ANY, name];
    assert parts[1..] == [name] && "**/" + name == ANY + "/" + name;
    assert Folded(names, parts) == [ANY, names.fold(name)];
    PartsOf(names, parts, "**/" + name, rel);
    LastFits(names, names.fold(name), Folded(names, rel));
    if rel != [] {
      assert Last(Folded(names, rel)) == names.fold(Last(rel));
    }
  }

  lemma DirGlob(names: Names, name: string, rel: Path)
    requires KeepsStars(names) && !IsBlank(name) && '/' !in name && name != ANY
    ensures GlobMatches(names, "**/" + name + "/**", rel) <==> exists i :: 0 <= i < |rel| && Fits(names, rel[i], name)
  {
    hide Match;
    var parts := [ANY, name, ANY];
    JoinThree(ANY, name, ANY);
    assert "**/" + name + "/**" == ANY + "/" + (name + "/" + ANY);
    assert Folded(names, parts) == [ANY, names.fold(name), ANY];
    PartsOf(names, parts, "**/" + name + "/**", rel);
    SomeFits(names, names.fold(name), Folded(names, rel));
    assert forall i :: 0 <= i < |rel| ==> Folded(names, rel)[i] == names.fold(rel[i]);
    if i :| 0 <= i < |rel| && Fits(names, rel[i], name) {
      assert names.fits(Folded(names, rel)[i], names.fold(name));
    }
    if i :| 0 <= i < |rel| && names.fits(Folded(names, rel)[i], names.fold(name)) {
      assert Fits(names, rel[i], name);
    }
  }

  lemma FileInDirGlob(names: Names, dir: string, name: string, rel: Path)
    requires KeepsStars(names) && !IsBlank(name) && '/' !in name && name != ANY
    requires !IsBlank(dir) && '/' !in dir && dir != ANY
    ensures GlobMatches(names, "**/" + dir + "/" + name, rel) <==>
      |rel| >= 2 && Fits(names, rel[|rel| - 2], dir) && Fits(names, Last(rel), name)
  {
    hide Match;
    var parts := [ANY, dir, name];
    JoinThree(ANY, dir, name);
    assert "**/" + dir + "/" + name == ANY + "/" + (dir + "/" + name);
    assert Folded(names, parts) == [ANY, names.fold(dir), names.fold(name)];
    PartsOf(names, parts, "**/" + dir + "/" + name, rel);
    LastTwoFit(names, names.fold(dir), names.fold(name), Folded(names, rel));
  }

  lemma JoinThree(a: string, b: string, c: string)
    ensures Workflows.Join([a, b, c], '/') == a + "/" + (b + "/" + c)
  {
    assert [a, b, c][1..] == [b, c] && [b, c][1..] == [c];
    assert Workflows.Join([b, c], '/') == b + ['/'] + Workflows.Join([c], '/');
  }

  lemma PartsOf(names: Names, parts: seq<string>, pattern: string, rel: Path)
    requires |parts| >= 2 && Workflows.NoneHolds(parts, '/') && (forall p :: p in parts ==> !IsBlank(p))
    requires pattern == Workflows.Join(parts, '/')
    ensures GlobMatches(names, pattern, rel) <==> Match(names, Folded(names, parts), Folded(names, rel))
  {
    hide Match;
    JoinHoldsSlash(parts);
    Workflows.SplitJoin(parts, '/');
    PlainKeeps(parts);
  }

  // The default globs deny exactly the sensitive paths.
  lemma SensitiveExactly(names: Names, rel: Path)
    requires KeepsStars(names)
    ensures AnyMatches(names, DEFAULT_SENSITIVE_GLOBS, rel) <==> IsSensitive(names, rel)
  {
    hide GlobMatches, Fits, KeepsStars;
    FilesExactly(names, rel);
    DirsExactly(names, rel);
    FileInDirGlob(names, ".ziggy", "config.toml", rel);
    assert "**/.ziggy/config.toml" == "**/" + ".ziggy" + "/" + "config.toml";
    forall g
      ensures g in DEFAULT_SENSITIVE_GLOBS <==> g in FILE_GLOBS || g in DIR_GLOBS || g == "**/.ziggy/config.toml"
    {}
  }

  const FILE_GLOBS: seq<string> := ["**/.env", "**/.env.*", "**/*_key", "**/*.pem", "**/id_rsa*"]
  const DIR_GLOBS: seq<string> := ["**/.aws/**", "**/.ssh/**"]

  lemma FilesExactly(names: Names, rel: Path)
    requires KeepsStars(names)
    ensures AnyMatches(names, FILE_GLOBS, rel) <==>
      rel != [] && exists name :: name in SENSITIVE_FILES && Fits(names, Last(rel), name)
  {
    hide GlobMatches, Fits, KeepsStars;
    forall i | 0 <= i < |FILE_GLOBS|
      ensures FILE_GLOBS[i] == "**/" + SENSITIVE_FILES[i]
      ensures GlobMatches(names, FILE_GLOBS[i], rel) <==> rel != [] && Fits(names, Last(rel), SENSITIVE_FILES[i])
    {
      FileGlob(names, SENSITIVE_FILES[i], rel);
    }
    AnyByIndex(names, FILE_GLOBS, rel);
    forall name | name in SENSITIVE_FILES
      ensures exists i :: 0 <= i < |FILE_GLOBS| && SENSITIVE_FILES[i] == name
    {}
  }

  lemma DirsExactly(names: Names, rel: Path)
    requires KeepsStars(names)
    ensures AnyMatches(names, DIR_GLOBS, rel) <==>
      exists i, name :: 0 <= i < |rel| && name in SENSITIVE_DIRS && Fits(names, rel[i], name)
  {
    hide GlobMatches, Fits, KeepsStars;
    DirGlob(names, ".aws", rel);
    DirGlob(names, ".ssh", rel);
    assert "**/.aws/**" == "**/" + ".aws" + "/**" && "**/.ssh/**" == "**/" + ".ssh" + "/**";
    assert SENSITIVE_DIRS[0] == ".aws" && SENSITIVE_DIRS[1] == ".ssh";
    assert DIR_GLOBS[0] == "**/.aws/**" && DIR_GLOBS[1] == "**/.ssh/**";
    AnyByIndex(names, DIR_GLOBS, rel);
    forall i, name | 0 <= i < |rel| && name in SENSITIVE_DIRS && Fits(names, rel[i], name)
      ensures AnyMatches(names, DIR_GLOBS, rel)
    {
      assert name == ".aws" || name == ".ssh";
    }
    forall i | 0 <= i < |rel| && (Fits(names, rel[i], ".aws") || Fits(names, rel[i], ".ssh"))
      ensures exists name :: name in SENSITIVE_DIRS && Fits(names, rel[i], name)
    {}
  }

  lemma AnyByIndex(names: Names, globs: seq<string>, rel: Path)
    ensures AnyMatches(names, globs, rel) <==> exists i :: 0 <= i < |globs| && GlobMatches(names, globs[i], rel)
  {}

  // No policy built on the defaults reads or writes a sensitive path, whatever else it holds.
  lemma SensitiveNeverAllowed(p: Policy, where: Resolution, write: bool)
    requires p.Guarded() && KeepsStars(p.names)
    requires where.Inside? && p.workspace <= where.path && IsSensitive(p.names, Below(p, where.path))
    ensures !Decide(p, where, write).allowed
  {
    hide AnyMatches, IsSensitive;
    SensitiveExactly(p.names, Below(p, where.path));
  }

  // ---------------------------------------------------------------- the recheck when serving

  // The refusal, if any, on the path about to be opened.
  method ServeRecheck(p: Policy, path: Path, write: bool) returns (r: Option<Decision>)
    requires p.Guarded()
    ensures r == if Decide(p, Inside(path), write).allowed then None else Some(Rechecked(p, path, write))
  {
    hide GlobMatches;
    if !(p.workspace <= path) {
      return Some(Decision(false, OutsideWorkspaceDeny, ByDefault));
    }
    var rel := Below(p, path);
    for i := 0 to |p.denials|
      invariant forall k :: 0 <= k < i ==> !Hits(p.names, p.denials[k], rel)
    {
      if Hits(p.names, p.denials[i], rel) {
        return Some(Decision(false, ProjectDenial(i), ByProjectDenial));
      }
    }
    AnyOfBoth(p.names, DEFAULT_SENSITIVE_GLOBS, p.userGlobs, rel);
    if AnyMatches(p.names, DEFAULT_SENSITIVE_GLOBS + p.userGlobs, rel) {
      return Some(Decision(false, SensitivePathDeny, ByDefault));
    }
    if write && !(p.stepDir <= path) {
      return Some(Decision(false, OutsideStepdirDeny, ByDefault));
    }
    r := None;
  }

  lemma AnyOfBoth(names: Names, a: seq<string>, b: seq<string>, rel: Path)
    ensures AnyMatches(names, a + b, rel) <==> AnyMatches(names, a, rel) || AnyMatches(names, b, rel)
  {}

  // What the recheck records for a refused path: the decision's own rule, and its origin except
  // that a user glob is put down to the defaults.
  function Rechecked(p: Policy, path: Path, write: bool): Decision {
    var d := Decide(p, Inside(path), write);
    if d.origin == ByUser then d.(origin := ByDefault) else d
  }

  // The recheck of an allowed path never refuses, that of a denied path refuses under the same
  // rule; the recorded origin differs exactly when only a user glob denies the path.
  lemma RecheckAgrees(p: Policy, path: Path, write: bool)
    requires p.Guarded() && p.workspace <= path
    ensures Rechecked(p, path, write).rule == Decide(p, Inside(path), write).rule
    ensures Rechecked(p, path, write).origin != Decide(p, Inside(path), write).origin <==>
      && (forall d :: d in p.denials ==> !Hits(p.names, d, Below(p, path)))
      && !AnyMatches(p.names, p.defaultGlobs, Below(p, path)) && AnyMatches(p.names, p.userGlobs, Below(p, path))
  {}

  // Exact matching without case folding, for the example.
  const EXACT: Names := Names(s => s, (s: string, p: string) => s == p)

  // A policy whose user denies files called notes.
  function NotesDenied(): Policy {
    Policy(EXACT, ["w"], ["w"], [], [], DEFAULT_SENSITIVE_GLOBS, ["notes"])
  }

  lemma NotesNotSensitive()
    ensures !AnyMatches(EXACT, DEFAULT_SENSITIVE_GLOBS, ["notes"])
  {
    hide AnyMatches;
    SensitiveExactly(EXACT, ["notes"]);
  }

  // Reading notes in the workspace: the decision records the user's rule, the recheck the
  // defaults.
  lemma UserDenialReattributed()
    ensures var p := NotesDenied();
      && p.Guarded()
      && Decide(p, Inside(["w", "notes"]), false) == Decision(false, SensitivePathDeny, ByUser)
      && Rechecked(p, ["w", "notes"], false) == Decision(false, SensitivePathDeny, ByDefault)
  {
    hide GlobMatches;
    var p := NotesDenied();
    assert Below(p, ["w", "notes"]) == ["notes"];
    NotesNotSensitive();
    BasenameMatchesLast(EXACT, "notes", ["notes"]);
  }

  // ---------------------------------------------------------------- deny rules only shrink

  // Some deny rule meets the path.
  ghost predicate IsDenied(p: Policy, rel: Path) {
    (exists d :: d in p.denials && Hits(p.names, d, rel)) || AnyMatches(p.names, p.defaultGlobs, rel) || AnyMatches(p.names, p.userGlobs, rel)
  }

  // Exactly what is allowed.
  lemma AllowedIff(p: Policy, where: Resolution, write: bool)
    ensures Decide(p, where, write).allowed <==>
      && where.Inside? && p.workspace <= where.path && !IsDenied(p, Below(p, where.path))
      && (write ==> p.stepDir <= where.path)
  {}

  ghost predicate FirstDenial(p: Policy, rel: Path, i: nat) {
    i < |p.denials| && Hits(p.names, p.denials[i], rel) && forall j :: 0 <= j < i ==> !Hits(p.names, p.denials[j], rel)
  }

  // The recorded rule and origin name the reason: the first project denial met; only without one
  // a default glob, then a user glob; only without any the step directory.
  lemma RuleSaysWhy(p: Policy, path: Path, write: bool)
    requires p.workspace <= path
    ensures var d, rel := Decide(p, Inside(path), write), Below(p, path);
      var met := exists i :: FirstDenial(p, rel, i);
      && p.workspace + rel == path
      && (forall i :: d.rule == ProjectDenial(i) <==> FirstDenial(p, rel, i))
      && (d.origin == ByProjectDenial <==> met)
      && (d == Decision(false, SensitivePathDeny, ByDefault) <==> !met && AnyMatches(p.names, p.defaultGlobs, rel))
      && (d.origin == ByUser <==>
            !met && !AnyMatches(p.names, p.defaultGlobs, rel) && AnyMatches(p.names, p.userGlobs, rel))
      && (d.origin == ByUser ==> d.rule == SensitivePathDeny)
      && (d.rule == OutsideStepdirDeny <==> write && !IsDenied(p, rel) && !(p.stepDir <= path))
      && (d.allowed <==> d.rule == if write then WriteInStepdirAllow else ReadInWorkspaceAllow)
  {
    hide GlobMatches;
    var rel := Below(p, path);
    var hit := FirstHit(p.names, p.denials, rel, 0);
    if hit.Some? {
      assert FirstDenial(p, rel, hit.value);
      forall i | FirstDenial(p, rel, i)
        ensures i == hit.value
      {}
    }
  }

  // q is p with further deny rules, in any places.
  ghost predicate AddsDenials(p: Policy, q: Policy) {
    && q.names == p.names && q.workspace == p.workspace && q.stepDir == p.stepDir && q.defaultGlobs == p.defaultGlobs
    && (forall d :: d in p.denials ==> d in q.denials) && (forall g :: g in p.userGlobs ==> g in q.userGlobs)
  }

  // Adding deny rules takes away exactly the paths the new rules meet, and adds none.
  lemma DenialsOnlyShrink(p: Policy, q: Policy, where: Resolution, write: bool)
    requires AddsDenials(p, q)
    ensures Decide(q, where, write).allowed <==>
      && Decide(p, where, write).allowed
      && (forall d :: d in q.denials && d !in p.denials ==> !Hits(q.names, d, Below(q, where.path)))
      && (forall g :: g in q.userGlobs && g !in p.userGlobs ==> !GlobMatches(q.names, g, Below(q, where.path)))
  {
    hide GlobMatches, Decide;
    AllowedIff(p, where, write);
    AllowedIff(q, where, write);
  }

  // ---------------------------------------------------------------- permission requests

  datatype ToolKind = Read | WriteKind | Execute(command: Option<string>, args: Option<seq<string>>) | OtherKind

  predicate PrefixMatches(prefix: seq<string>, args: seq<string>) {
    prefix <= args
  }

  predicate TerminalDenied(p: Policy, d: Denial, command: string, args: seq<string>) {
    d.TerminalRule? && d.command == command && PrefixMatches(d.argsPrefix, args)
  }

  predicate TerminalAllowed(a: Allowance, command: string, args: seq<string>) {
    a.command == command && PrefixMatches(a.argsPrefix, args)
  }

  // A user rule allows the command and no project denial meets it; a missing command and
  // malformed arguments are refused.
  ghost predicate CommandAllowed(p: Policy, command: Option<string>, args: Option<seq<string>>) {
    && command.Some? && command.value != "" && args.Some?
    && (exists a :: a in p.allowlist && TerminalAllowed(a, command.value, args.value))
    && (forall d :: d in p.denials ==> !TerminalDenied(p, d, command.value, args.value))
  }

  // The command is the rule's and its arguments begin with the rule's.
  ghost predicate Extends(ruleCommand: string, prefix: seq<string>, command: string, args: seq<string>) {
    command == ruleCommand && exists rest :: args == prefix + rest
  }

  // A command runs exactly when it extends a rule of the user's and no denial of the project's.
  lemma CommandRunsIff(p: Policy, command: string, args: seq<string>)
    ensures CommandAllowed(p, Some(command), Some(args)) <==>
      && command != ""
      && (exists a :: a in p.allowlist && Extends(a.command, a.argsPrefix, command, args))
      && (forall d :: d in p.denials && d.TerminalRule? ==> !Extends(d.command, d.argsPrefix, command, args))
  {
    forall prefix: seq<string>
      ensures PrefixMatches(prefix, args) <==> exists rest :: args == prefix + rest
    {
      if PrefixMatches(prefix, args) {
        assert args == prefix + args[|prefix|..];
      }
    }
  }

  // The decision on running a command.
  method DecideTerminal(p: Policy, command: Option<string>, args: Option<seq<string>>) returns (r: Decision)
    ensures r.allowed <==> CommandAllowed(p, command, args)
    ensures r.rule.ProjectDenial? ==>
      && r.rule.index < |p.denials| && command.Some? && args.Some? && !r.allowed
      && TerminalDenied(p, p.denials[r.rule.index], command.value, args.value)
      && forall k :: 0 <= k < r.rule.index ==> !TerminalDenied(p, p.denials[k], command.value, args.value)
    ensures r.allowed ==> r == Decision(true, TerminalUserAllowlist, ByUser)
    ensures !r.allowed && !r.rule.ProjectDenial? ==> r == Decision(false, TerminalDefaultDeny, ByDefault)
    ensures r.origin == ByProjectDenial <==> r.rule.ProjectDenial?
  {
    if command.None? || command.value == "" || args.None? {
      return Decision(false, TerminalDefaultDeny, ByDefault);
    }
    for i := 0 to |p.denials|
      invariant forall k :: 0 <= k < i ==> !TerminalDenied(p, p.denials[k], command.value, args.value)
    {
      if TerminalDenied(p, p.denials[i], command.value, args.value) {
        return Decision(false, ProjectDenial(i), ByProjectDenial);
      }
    }
    for i := 0 to |p.allowlist|
      invariant forall k :: 0 <= k < i ==> !TerminalAllowed(p.allowlist[k], command.value, args.value)
    {
      if TerminalAllowed(p.allowlist[i], command.value, args.value) {
        return Decision(true, TerminalUserAllowlist, ByUser);
      }
    }
    r := Decision(false, TerminalDefaultDeny, ByDefault);
  }

  // Locations: None when the list is malformed.
  method DecidePermission(p: Policy, kind: ToolKind, locations: Option<seq<Resolution>>) returns (r: Decision)
    ensures kind.Read? || kind.WriteKind? ==>
      (r.allowed <==>
        && locations.Some? && locations.value != []
        && forall x :: x in locations.value ==> Decide(p, x, kind.WriteKind?).allowed)
    ensures (kind.Read? || kind.WriteKind?) && locations.Some? && locations.value != [] && !r.allowed ==>
      exists k :: 0 <= k < |locations.value| && r == Decide(p, locations.value[k], kind.WriteKind?)
                  && forall j :: 0 <= j < k ==> Decide(p, locations.value[j], kind.WriteKind?).allowed
    ensures kind.OtherKind? ==> r == Decision(false, UnmatchedDefaultDeny, ByDefault)
    ensures kind.Execute? ==> (r.allowed <==> CommandAllowed(p, kind.command, kind.args))
    ensures kind.Execute? && r.allowed ==> r == Decision(true, TerminalUserAllowlist, ByUser)
    ensures kind.Execute? && !r.allowed ==>
      || r == Decision(false, TerminalDefaultDeny, ByDefault)
      || (&& r.rule.ProjectDenial? && r.origin == ByProjectDenial && r.rule.index < |p.denials|
          && kind.command.Some? && kind.args.Some?
          && TerminalDenied(p, p.denials[r.rule.index], kind.command.value, kind.args.value))
  {
    hide Decide;
    if kind.Execute? {
      if kind.command.None? {
        return Decision(false, TerminalDefaultDeny, ByDefault);
      }
      r := DecideTerminal(p, kind.command, kind.args);
      return;
    }
    if kind.OtherKind? || locations.None? || locations.value == [] {
      return Decision(false, UnmatchedDefaultDeny, ByDefault);
    }
    r := Decision(false, UnmatchedDefaultDeny, ByDefault);
    for i := 0 to |locations.value|
      invariant forall k :: 0 <= k < i ==> Decide(p, locations.value[k], kind.WriteKind?).allowed
      invariant i > 0 ==> r.allowed
    {
      r := Decide(p, locations.value[i], kind.WriteKind?);
      if !r.allowed {
        return;
      }
    }
  }
}
