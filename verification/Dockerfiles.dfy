/** The build inputs of the Dockerfiles: every stage expected and pinned, every outside COPY pinned,
each listed under the audited output that covers it. Lines come already joined and matched. */
module Dockerfiles {
  import opened Options

  datatype Role =
    | Backend | Frontend | Postgres | Pgbouncer
    | BackendBuild | FrontendBuild | FrontendCompilerBuild | PostgresBuild | PgbouncerBuild
    | Service

  const ROLES: seq<Role> := [Backend, Frontend, Postgres, Pgbouncer, BackendBuild, FrontendBuild,
                             FrontendCompilerBuild, PostgresBuild, PgbouncerBuild]

  function Place(role: Role): nat {
    match role
    case Backend => 0
    case Frontend => 1
    case Postgres => 2
    case Pgbouncer => 3
    case BackendBuild => 4
    case FrontendBuild => 5
    case FrontendCompilerBuild => 6
    case PostgresBuild => 7
    case PgbouncerBuild => 8
    case Service => 9
  }

  lemma RolesAreOutputs()
    ensures forall r: Role | r != Service :: Place(r) < |ROLES| && ROLES[Place(r)] == r
    ensures forall r: Role :: r in ROLES <==> r != Service
  {
  }

  /** The outputs that are published under a template reference. */
  type Published = r: Role | r == Backend || r == Frontend || r == Postgres || r == Pgbouncer witness Backend

  const DOCKER_PATHS: seq<string> := ["backend/Dockerfile", "frontend/Dockerfile",
                                     "deploy/postgres/Dockerfile", "deploy/pgbouncer/Dockerfile"]

  /** The stages a Dockerfile must have, and which audited output each one is. */
  function Expected(path: string): map<string, Role> {
    if path == "backend/Dockerfile" then map["runtime" := Backend, "build" := BackendBuild]
    else if path == "frontend/Dockerfile" then
      map["runtime" := Frontend, "build" := FrontendBuild, "typescript-compiler" := FrontendCompilerBuild]
    else if path == "deploy/postgres/Dockerfile" then map["runtime" := Postgres, "build" := PostgresBuild]
    else if path == "deploy/pgbouncer/Dockerfile" then map["runtime" := Pgbouncer, "build" := PgbouncerBuild]
    else map[]
  }

  /** Each audited output is one stage of one Dockerfile. */
  ghost function BuildOutput(role: Role): (string, string)
    requires role != Service
  {
    match role
    case Backend => ("backend/Dockerfile", "runtime")
    case Frontend => ("frontend/Dockerfile", "runtime")
    case Postgres => ("deploy/postgres/Dockerfile", "runtime")
    case Pgbouncer => ("deploy/pgbouncer/Dockerfile", "runtime")
    case BackendBuild => ("backend/Dockerfile", "build")
    case FrontendBuild => ("frontend/Dockerfile", "build")
    case FrontendCompilerBuild => ("frontend/Dockerfile", "typescript-compiler")
    case PostgresBuild => ("deploy/postgres/Dockerfile", "build")
    case PgbouncerBuild => ("deploy/pgbouncer/Dockerfile", "build")
  }

  /** A Dockerfile must have the stages of its outputs, and no Dockerfile without outputs is looked at. */
  lemma ExpectedAreOutputs(path: string, stage: string, role: Role)
    ensures stage in Expected(path) && Expected(path)[stage] == role
       <==> role != Service && BuildOutput(role) == (path, stage)
    ensures path in DOCKER_PATHS <==> exists r: Role :: r != Service && BuildOutput(r).0 == path
  {
    assert BuildOutput(Backend).0 == DOCKER_PATHS[0] && BuildOutput(Frontend).0 == DOCKER_PATHS[1];
    assert BuildOutput(Postgres).0 == DOCKER_PATHS[2] && BuildOutput(Pgbouncer).0 == DOCKER_PATHS[3];
  }

  predicate HexDigits(s: string) { forall c | c in s :: '0' <= c <= '9' || 'a' <= c <= 'f' }

  predicate ImageId(s: string) { |s| == 71 && s[..7] == "sha256:" && HexDigits(s[7..]) }

  /** The reference names its content: it ends in a digest. */
  predicate Pinned(reference: string) {
    |reference| >= 72 && reference[|reference| - 72] == '@' && ImageId(reference[|reference| - 71..])
  }

  /** One joined line: a FROM the grammar accepts or not, a COPY with its --from if it has one, or
      anything else. */
  datatype Instruction =
    | From(reference: string, stage: Option<string>)
    | OddFrom
    | Copy(source: Option<string>)
    | Other

  datatype Base = Base(path: string, reference: string, coveredBy: Role, copied: bool)

  datatype Stage = Stage(reference: string, name: Option<string>)

  /** The stages a file has started, in order. */
  function Stages(lines: seq<Instruction>): seq<Stage> {
    if lines == [] then []
    else
      var last := lines[|lines| - 1];
      Stages(lines[..|lines| - 1]) + (if last.From? then [Stage(last.reference, last.stage)] else [])
  }

  lemma {:induction false} StagesPrefix(lines: seq<Instruction>, i: nat)
    requires i <= |lines|
    ensures Stages(lines[..i]) <= Stages(lines)
    decreases |lines|
  {
    if i < |lines| {
      StagesPrefix(lines[..|lines| - 1], i);
      assert lines[..|lines| - 1][..i] == lines[..i];
    } else {
      assert lines[..i] == lines;
    }
  }

  /** What line i adds to the stages started before it. */
  lemma StagesNext(lines: seq<Instruction>, i: nat)
    requires i < |lines|
    ensures Stages(lines[..i + 1]) ==
      Stages(lines[..i]) + (if lines[i].From? then [Stage(lines[i].reference, lines[i].stage)] else [])
    ensures Stages(lines[..i + 1]) <= Stages(lines)
  {
    assert lines[..i + 1][..i] == lines[..i];
    StagesPrefix(lines, i + 1);
  }

  /** An unnamed last stage is the runtime; any other unnamed stage has no name. */
  function StageName(stages: seq<Stage>, i: nat): Option<string>
    requires i < |stages|
  {
    if stages[i].name.Some? then stages[i].name
    else if i == |stages| - 1 then Some("runtime")
    else None
  }

  predicate Digits(s: string) { forall i | 0 <= i < |s| :: '0' <= s[i] <= '9' }

  function ValueOf(s: string): nat
    requires Digits(s)
  {
    if s == "" then 0 else 10 * ValueOf(s[..|s| - 1]) + (s[|s| - 1] as int - '0' as int)
  }

  /** A COPY from another stage of the same file, by name or number. */
  predicate Internal(stages: seq<Stage>, reference: string) {
    || (exists i | 0 <= i < |stages| :: StageName(stages, i) == Some(reference))
    || (reference != "" && Digits(reference) && ValueOf(reference) < |stages|)
  }

  /** Read as a number in decimal; and by name, the last stage, unnamed, is "runtime". */
  lemma InternalMeans(stages: seq<Stage>, reference: string)
    ensures Internal(stages, reference) <==>
            || (exists s :: s in stages && s.name == Some(reference))
            || (stages != [] && stages[|stages| - 1].name == None && reference == "runtime")
            || (reference != "" && Digits(reference) && ValueOf(reference) < |stages|)
  {
    if s :| s in stages && s.name == Some(reference) {
      var i :| 0 <= i < |stages| && stages[i] == s;
      assert StageName(stages, i) == Some(reference);
    }
    if stages != [] && stages[|stages| - 1].name == None && reference == "runtime" {
      assert StageName(stages, |stages| - 1) == Some(reference);
    }
    if i :| 0 <= i < |stages| && StageName(stages, i) == Some(reference) {
      assert stages[i] in stages;
    }
  }

  lemma DigitsMean(s: string)
    ensures Digits(s) <==> forall i | 0 <= i < |s| :: s[i] in "0123456789"
  {
    forall i | 0 <= i < |s| ensures s[i] in "0123456789" <==> '0' <= s[i] <= '9' { DigitMeans(s[i]); }
  }

  lemma DigitMeans(c: char)
    ensures c in "0123456789" <==> '0' <= c <= '9'
  {
    if '0' <= c <= '9' { assert "0123456789"[c as int - '0' as int] == c; }
  }

  lemma {:induction false} ValueOfMeans(tens: string, unit: string)
    requires Digits(tens) && |unit| == 1 && Digits(unit)
    ensures Digits(tens + unit) && ValueOf(tens + unit) == 10 * ValueOf(tens) + ValueOf(unit)
    ensures exists d: nat :: d < 10 && unit[0] == "0123456789"[d] && ValueOf(unit) == d
  {
    assert (tens + unit)[..|tens|] == tens && unit[..0] == "";
    var d := unit[0] as int - '0' as int;
    assert "0123456789"[d] == unit[0];
  }

  /** A COPY from outside the file. */
  predicate External(lines: seq<Instruction>, i: nat)
    requires i < |lines|
  {
    lines[i].Copy? && lines[i].source.Some? && !Internal(Stages(lines), lines[i].source.value)
  }

  lemma ExternalMeans(lines: seq<Instruction>, i: nat)
    requires i < |lines|
    ensures External(lines, i) <==>
            exists source :: lines[i] == Copy(Some(source)) && !Internal(Stages(lines), source)
  {
  }

  /** The stages are exactly the expected ones, each once, the runtime last. */
  ghost predicate StagesAsExpected(stages: seq<Stage>, expected: map<string, Role>) {
    && stages != []
    && (forall i | 0 <= i < |stages| :: StageName(stages, i).Some? && StageName(stages, i).value in expected)
    && (forall i, j | 0 <= i < j < |stages| :: StageName(stages, i) != StageName(stages, j))
    && (forall name | name in expected :: exists i :: 0 <= i < |stages| && StageName(stages, i) == Some(name))
    && StageName(stages, |stages| - 1) == Some("runtime")
  }

  ghost predicate FromsPinned(lines: seq<Instruction>, upto: nat)
    requires upto <= |lines|
  {
    forall i | 0 <= i < upto :: lines[i] != OddFrom && (lines[i].From? ==> Pinned(lines[i].reference))
  }

  ghost predicate CopiesPinned(lines: seq<Instruction>, upto: nat)
    requires upto <= |lines|
  {
    forall i | 0 <= i < upto && External(lines, i) :: Pinned(lines[i].source.value) && Stages(lines[..i]) != []
  }

  /** A Dockerfile every outside input of which is fixed, and every stage of which is audited. */
  ghost predicate GoodDockerfile(lines: seq<Instruction>, expected: map<string, Role>) {
    && FromsPinned(lines, |lines|)
    && StagesAsExpected(Stages(lines), expected)
    && CopiesPinned(lines, |lines|)
  }

  /** An outside input is listed under the audited output of the stage it goes into. */
  predicate Listed(stages: seq<Stage>, k: int, expected: map<string, Role>, path: string, reference: string,
                   copied: bool, bases: seq<Base>)
  {
    && 0 <= k < |stages| && StageName(stages, k).Some? && StageName(stages, k).value in expected
    && Base(path, reference, expected[StageName(stages, k).value], copied) in bases
  }

  lemma ListedMeans(stages: seq<Stage>, k: nat, expected: map<string, Role>, path: string, reference: string,
                    copied: bool, bases: seq<Base>)
    ensures Listed(stages, k, expected, path, reference, copied, bases) <==>
            k < |stages| && exists name, base ::
              && StageName(stages, k) == Some(name) && name in expected && base in bases
              && base.path == path && base.reference == reference && base.coveredBy == expected[name]
              && base.copied == copied
  {
    if Listed(stages, k, expected, path, reference, copied, bases) {
      var name := StageName(stages, k).value;
      assert Base(path, reference, expected[name], copied) in bases;
    }
  }

  ghost predicate FromsListed(path: string, stages: seq<Stage>, upto: nat, expected: map<string, Role>,
      bases: seq<Base>) {
    forall k | 0 <= k < upto && k < |stages| :: Listed(stages, k, expected, path, stages[k].reference, false, bases)
  }

  ghost predicate CopiesListed(path: string, lines: seq<Instruction>, upto: nat, expected: map<string, Role>,
      bases: seq<Base>)
    requires upto <= |lines|
  {
    forall i | 0 <= i < upto && External(lines, i) ::
      Listed(Stages(lines), |Stages(lines[..i])| - 1, expected, path, lines[i].source.value, true, bases)
  }

  function Names(stages: seq<Stage>): (names: seq<Option<string>>)
    ensures |names| == |stages| && forall i | 0 <= i < |stages| :: names[i] == StageName(stages, i)
  {
    seq(|stages|, i requires 0 <= i < |stages| => StageName(stages, i))
  }

  lemma {:induction false} SizeOfNames(names: seq<Option<string>>)
    ensures |set n | n in names| <= |names|
    ensures |set n | n in names| == |names| <==> forall i, j | 0 <= i < j < |names| :: names[i] != names[j]
  {
    if names != [] {
      var front, last := names[..|names| - 1], names[|names| - 1];
      SizeOfNames(front);
      assert names == front + [last];
      var before := set n | n in front;
      assert (set n | n in names) == before + {last};
      if last in before {
        var i :| 0 <= i < |front| && front[i] == last;
        assert names[i] == names[|front|];
      }
    }
  }

  function KeySet(keys: set<string>): set<Option<string>> { set k | k in keys :: Some(k) }

  lemma {:induction false} SizeOfKeys(keys: set<string>)
    ensures |KeySet(keys)| == |keys|
  {
    if keys != {} {
      var k :| k in keys;
      SizeOfKeys(keys - {k});
      assert KeySet(keys) == KeySet(keys - {k}) + {Some(k)};
    }
  }

  /** The comparison the script makes, of the sets and the lengths. */
  predicate NamesCompare(stages: seq<Stage>, expected: map<string, Role>) {
    && (set n | n in Names(stages)) == KeySet(expected.Keys)
    && |stages| == |expected|
    && stages != [] && StageName(stages, |stages| - 1) == Some("runtime")
  }

  /** It is the one meant. */
  lemma NamesMatch(stages: seq<Stage>, expected: map<string, Role>)
    ensures NamesCompare(stages, expected) <==> StagesAsExpected(stages, expected)
  {
    var names := Names(stages);
    var given := set n | n in names;
    SizeOfNames(names);
    SizeOfKeys(expected.Keys);
    assert |expected| == |expected.Keys|;
    if StagesAsExpected(stages, expected) {
      forall n ensures n in given <==> n in KeySet(expected.Keys) {
        if n in KeySet(expected.Keys) {
          var i :| 0 <= i < |stages| && StageName(stages, i) == n;
          assert names[i] == n;
        }
      }
      assert given == KeySet(expected.Keys);
    }
    if NamesCompare(stages, expected) {
      forall i | 0 <= i < |stages| ensures StageName(stages, i).Some? && StageName(stages, i).value in expected {
        assert names[i] in KeySet(expected.Keys);
      }
      forall name | name in expected ensures exists i :: 0 <= i < |stages| && StageName(stages, i) == Some(name) {
        assert Some(name) in given;
      }
    }
  }

  /** The bases of the FROM lines, stage by stage. */
  method ListFroms(path: string, stages: seq<Stage>, expected: map<string, Role>, before: seq<Base>)
      returns (bases: seq<Base>)
    requires StagesAsExpected(stages, expected)
    ensures before <= bases && FromsListed(path, stages, |stages|, expected, bases)
  {
    bases := before;
    for k := 0 to |stages|
      invariant before <= bases && FromsListed(path, stages, k, expected, bases)
    {
      var role := expected[StageName(stages, k).value];
      bases := bases + [Base(path, stages[k].reference, role, false)];
    }
  }

  /** The lines up to i, when each outside COPY so far was pinned and is listed. */
  ghost predicate CopiesDone(path: string, lines: seq<Instruction>, i: nat, expected: map<string, Role>,
      bases: seq<Base>)
    requires i <= |lines|
  {
    CopiesPinned(lines, i) && CopiesListed(path, lines, i, expected, bases)
  }

  lemma CopiesDoneNext(path: string, lines: seq<Instruction>, i: nat, expected: map<string, Role>, before: seq<Base>,
      bases: seq<Base>)
    requires i < |lines| && CopiesDone(path, lines, i, expected, before) && before <= bases
    requires External(lines, i) ==>
      Pinned(lines[i].source.value) && Stages(lines[..i]) != []
      && Listed(Stages(lines), |Stages(lines[..i])| - 1, expected, path, lines[i].source.value, true, bases)
    ensures CopiesDone(path, lines, i + 1, expected, bases)
  {
    assert forall b | b in before :: b in bases;
  }

  /** The bases of the outside COPY lines; false at the first that is not pinned. */
  method ListCopies(path: string, lines: seq<Instruction>, expected: map<string, Role>, before: seq<Base>)
      returns (bases: seq<Base>, ok: bool)
    requires StagesAsExpected(Stages(lines), expected)
    ensures before <= bases && (ok <==> CopiesPinned(lines, |lines|))
    ensures ok ==> CopiesListed(path, lines, |lines|, expected, bases)
  {
    bases, ok := before, false;
    var stages, current := Stages(lines), -1;
    for i := 0 to |lines|
      invariant current == |Stages(lines[..i])| - 1 < |stages| && before <= bases
      invariant CopiesDone(path, lines, i, expected, bases)
    {
      StagesNext(lines, i);
      if lines[i].From? { current := current + 1; }
      ghost var was := bases;
      if External(lines, i) {
        var reference := lines[i].source.value;
        if current < 0 || !Pinned(reference) { return; }
        assert StageName(stages, current).Some?;
        bases := bases + [Base(path, reference, expected[StageName(stages, current).value], true)];
      }
      CopiesDoneNext(path, lines, i, expected, was, bases);
    }
    ok := true;
  }

  /** One Dockerfile: accepted exactly when it is good, and then every outside input is listed. */
  method AuditDockerfile(path: string, lines: seq<Instruction>, expected: map<string, Role>, before: seq<Base>)
      returns (bases: seq<Base>, ok: bool)
    ensures ok <==> GoodDockerfile(lines, expected)
    ensures before <= bases
    ensures ok ==> FromsListed(path, Stages(lines), |Stages(lines)|, expected, bases)
    ensures ok ==> CopiesListed(path, lines, |lines|, expected, bases)
  {
    bases, ok := before, false;
    var stages: seq<Stage> := [];
    for i := 0 to |lines|
      invariant stages == Stages(lines[..i]) && FromsPinned(lines, i)
    {
      StagesNext(lines, i);
      if lines[i] == OddFrom || (lines[i].From? && !Pinned(lines[i].reference)) { return; }
      if lines[i].From? { stages := stages + [Stage(lines[i].reference, lines[i].stage)]; }
    }
    assert lines[..|lines|] == lines;
    NamesMatch(stages, expected);
    if !NamesCompare(stages, expected) { return; }
    bases := ListFroms(path, stages, expected, bases);
    bases, ok := ListCopies(path, lines, expected, bases);
  }
}
