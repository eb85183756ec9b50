/** Replacing npm's compiler by the qualified rebuild: validate the build output, stage it beside the
target, retain its provenance, rename it into place. The build output may change at any moment of the
install, and the install may be cut off anywhere. */
module CompilerInstall {
  import opened Options

  type Bytes = seq<int>
  type Digest = string

  /** A directory is the names leading to it; a file lies in one. */
  type Dir = seq<string>
  type File = p: seq<string> | p != [] witness ["source.txt"]
  type Tree = map<File, Bytes>

  function Parent(p: File): Dir { p[..|p| - 1] }

  /** What one listing of d shows: the directories in it. */
  function SubDirs(t: Tree, d: Dir): set<Dir> {
    set f | f in t && |f| > |d| + 1 && d <= f :: f[..|d| + 1]
  }

  /** And the files in it. */
  function FilesIn(t: Tree, d: Dir): set<File> {
    set f | f in t && Parent(f) == d
  }

  /** The digest, and how the validation reads the provenance: the digest its manifest names, if it
      names one, and whether the source, toolchain, dependency and notice checks pass. */
  datatype Checks = Checks(sha: Bytes -> Digest, manifest: Tree -> Option<Digest>, qualified: Tree -> bool)

  datatype Output = Output(binary: Bytes, provenance: Tree)

  predicate Valid(c: Checks, out: Output) {
    c.qualified(out.provenance) && c.manifest(out.provenance) == Some(c.sha(out.binary))
  }

  /** The files the install may touch. */
  datatype Disk = Disk(target: Bytes, temp: Option<Bytes>, retained: Option<Tree>)

  /** A walk through the provenance of the build output, directory by directory and file by file:
      what is still to list and to read, what has been read, and whether a copy missed a file. */
  datatype Walk = Walk(copying: bool, dirs: set<Dir>, files: set<File>, read: Tree, missed: bool)

  datatype Phase =
    | Begin
    | Validated                     // the digest is known
    | Staging(all: Bytes)           // the binary has been read; some of it is in the temporary file
    | Staged
    | Checked                       // the staged bytes have the validated digest
    | Runs                          // the staged candidate reports the right version
    | Walking(walk: Walk)           // comparing with, or copying to, the retained provenance
    | Retained
    | Replaced
    | Cleaned                       // the temporary file is gone; the last checks remain
    | Failed
    | Finished
    | Unusable                      // renamed into place, but the last checks failed

  /** `validated` is the output as validation read it. */
  datatype State = State(disk: Disk, out: Output, phase: Phase, validated: Output)

  datatype Action =
    | Rebuild(out: Output)          // someone changes the build output
    | Validate
    | ReadBinary(all: Bytes)        // whatever the read picks up, mid-change or not
    | WriteSome(n: nat)             // the temporary file now holds the first n bytes
    | CheckDigest
    | CheckVersion(ok: bool)
    | StartWalk
    | ListDir(d: Dir)
    | ReadFile(f: File)
    | EndWalk
    | Rename
    | CleanUp                       // finally: remove the temporary file
    | LastChecks(launches: bool)
    | Raise                         // any step before the rename may fail instead

  predicate Enabled(s: State, a: Action) {
    match a
    case Rebuild(_) => true
    case Validate => s.phase == Begin
    case ReadBinary(_) => s.phase == Validated
    case WriteSome(n) => s.phase.Staging? && n <= |s.phase.all|
    case CheckDigest => s.phase == Staged && s.disk.temp.Some?
    case CheckVersion(_) => s.phase == Checked
    case StartWalk => s.phase == Runs
    case ListDir(d) => s.phase.Walking? && d in s.phase.walk.dirs
    case ReadFile(f) => s.phase.Walking? && f in s.phase.walk.files
    case EndWalk => s.phase.Walking? && s.phase.walk.dirs == {} && s.phase.walk.files == {}
    case Rename => s.phase == Retained && s.disk.temp.Some?
    case CleanUp => s.phase == Replaced || s.phase == Failed
    case LastChecks(_) => s.phase == Cleaned
    case Raise => s.phase != Failed && !InPlace(s)
  }

  /** A listing adds the directory's contents as they are now to what is to be walked. */
  function Listed(w: Walk, t: Tree, d: Dir): Walk {
    w.(dirs := w.dirs - {d} + SubDirs(t, d), files := w.files + FilesIn(t, d))
  }

  /** A file is read as it is now. One that has gone is skipped by the comparison, and makes the
      copy fail when it is through. */
  function Visited(w: Walk, t: Tree, f: File): Walk {
    if f in t then w.(files := w.files - {f}, read := w.read[f := t[f]])
    else w.(files := w.files - {f}, missed := true)
  }

  function Next(c: Checks, s: State, a: Action): State
    requires Enabled(s, a)
  {
    match a
    case Rebuild(out) => s.(out := out)
    case Validate =>
      if Valid(c, s.out) then s.(phase := Validated, validated := s.out) else s.(phase := Failed)
    case ReadBinary(all) => s.(phase := Staging(all), disk := s.disk.(temp := Some([])))
    case WriteSome(n) =>
      s.(disk := s.disk.(temp := Some(s.phase.all[..n])), phase := if n == |s.phase.all| then Staged else s.phase)
    case CheckDigest =>
      s.(phase := if c.sha(s.disk.temp.value) == c.sha(s.validated.binary) then Checked else Failed)
    case CheckVersion(ok) => s.(phase := if ok then Runs else Failed)
    case StartWalk =>
      var walk := Walk(s.disk.retained.None?, {[]}, {}, map[], false);
      s.(phase := Walking(walk), disk := if walk.copying then s.disk.(retained := Some(map[])) else s.disk)
    case ListDir(d) => s.(phase := Walking(Listed(s.phase.walk, s.out.provenance, d)))
    case ReadFile(f) =>
      var walk := Visited(s.phase.walk, s.out.provenance, f);
      s.(phase := Walking(walk), disk := if walk.copying then s.disk.(retained := Some(walk.read)) else s.disk)
    case EndWalk =>
      var walk := s.phase.walk;
      var agree := if walk.copying then !walk.missed else s.disk.retained == Some(walk.read);
      s.(phase := if agree then Retained else Failed)
    case Rename => s.(disk := s.disk.(target := s.disk.temp.value, temp := None), phase := Replaced)
    case CleanUp => s.(disk := s.disk.(temp := None), phase := if s.phase == Replaced then Cleaned else Failed)
    case LastChecks(launches) =>
      s.(phase := if c.sha(s.disk.target) == c.sha(s.validated.binary) && launches then Finished else Unusable)
    case Raise => s.(phase := Failed)
  }

  ghost predicate IsRun(c: Checks, run: seq<State>, acts: seq<Action>) {
    && |run| == |acts| + 1
    && run[0].phase == Begin
    && forall i | 0 <= i < |acts| :: Enabled(run[i], acts[i]) && run[i + 1] == Next(c, run[i], acts[i])
  }

  /** The new bytes are in the target. */
  predicate InPlace(s: State) {
    s.phase == Replaced || s.phase == Cleaned || s.phase == Finished || s.phase == Unusable
  }

  predicate PastValidation(s: State) {
    s.phase != Begin && s.phase != Failed
  }

  predicate DigestChecked(s: State) {
    s.phase == Checked || s.phase == Runs || s.phase.Walking? || s.phase == Retained
  }

  // ---- The target -------------------------------------------------------------------------------

  /** What holds of the binary whatever happens, for an install that found `old_` in the target. */
  ghost predicate Inv(c: Checks, old_: Bytes, s: State) {
    && (PastValidation(s) ==> Valid(c, s.validated))
    && (DigestChecked(s) ==> s.disk.temp.Some? && c.sha(s.disk.temp.value) == c.sha(s.validated.binary))
    && (if InPlace(s) then c.sha(s.disk.target) == c.sha(s.validated.binary) else s.disk.target == old_)
  }

  lemma {:induction false} InvAlways(c: Checks, run: seq<State>, acts: seq<Action>, k: nat)
    requires IsRun(c, run, acts) && k < |run|
    ensures Inv(c, run[0].disk.target, run[k])
  {
    if k > 0 {
      InvAlways(c, run, acts, k - 1);
      assert Enabled(run[k - 1], acts[k - 1]) && run[k] == Next(c, run[k - 1], acts[k - 1]);
    }
  }

  ghost predicate CollisionFree(sha: Bytes -> Digest) { forall x, y :: sha(x) == sha(y) ==> x == y }

  /** Cut off after any step, the target holds its old bytes or exactly the validated ones, whatever
      became of the build output since and whatever was read of it; it is never a partial file. */
  lemma TargetNeverPartial(c: Checks, run: seq<State>, acts: seq<Action>, k: nat)
    requires IsRun(c, run, acts) && k < |run| && CollisionFree(c.sha)
    ensures run[k].disk.target == if InPlace(run[k]) then run[k].validated.binary else run[0].disk.target
    ensures InPlace(run[k]) ==>
      var v := run[k].validated;
      c.qualified(v.provenance) && c.manifest(v.provenance) == Some(c.sha(v.binary))
  {
    InvAlways(c, run, acts, k);
  }

  /** The staged candidate has been found to report the right version. */
  predicate PastVersion(s: State) { s.phase == Runs || s.phase.Walking? || s.phase == Retained || InPlace(s) }

  /** Nothing is put in place that was not first run: at some step before, the very bytes now in the
      target stood in the temporary file and reported the right version. */
  lemma {:induction false} RunBeforeRename(c: Checks, run: seq<State>, acts: seq<Action>, k: nat) returns (j: nat)
    requires IsRun(c, run, acts) && k < |run| && PastVersion(run[k])
    ensures j < k && acts[j] == CheckVersion(true)
    ensures run[j].disk.temp == if InPlace(run[k]) then Some(run[k].disk.target) else run[k].disk.temp
  {
    var s, a := run[k - 1], acts[k - 1];
    assert Enabled(s, a) && run[k] == Next(c, s, a);
    if PastVersion(s) { j := RunBeforeRename(c, run, acts, k - 1); } else { j := k - 1; }
  }

  /** Any step before the rename may fail, none after it; cleaning up follows a failure or the rename. */
  lemma StopsMean(s: State)
    ensures Enabled(s, Raise) <==>
            s.phase !in {Failed, Replaced, Cleaned, Finished, Unusable}
    ensures Enabled(s, CleanUp) <==> s.phase in {Failed, Replaced}
  {
  }

  /** Writing goes on until the temporary file holds all that was read. */
  lemma StagedMeans(c: Checks, s: State, n: nat)
    requires s.phase.Staging? && n <= |s.phase.all|
    ensures Enabled(s, WriteSome(n)) && Next(c, s, WriteSome(n)).disk.temp == Some(s.phase.all[..n])
    ensures Next(c, s, WriteSome(n)).phase == if n < |s.phase.all| then s.phase else Staged
  {
  }

  /** An install that has renamed can always finish, with the target as it is and nothing else left. */
  lemma RenamedCanFinish(c: Checks, before: seq<State>, done: seq<Action>)
      returns (run: seq<State>, acts: seq<Action>)
    requires IsRun(c, before, done) && before[|done|].phase == Replaced
    ensures IsRun(c, run, acts) && before <= run && done <= acts && run[|acts|].phase == Finished
    ensures run[|acts|].disk == before[|done|].disk.(temp := None)
  {
    InvAlways(c, before, done, |done|);
    run, acts := Extended(c, before, done, CleanUp);
    run, acts := Extended(c, run, acts, LastChecks(true));
  }

  /** What is known of an install from its phase, told from its actions. */
  ghost predicate Ended(s: State, acts: seq<Action>) {
    && (s.phase == Cleaned || s.phase == Finished || s.phase == Unusable ==> s.disk.temp == None && CleanUp in acts)
    && (s.phase == Finished ==> LastChecks(true) in acts)
    && (s.phase == Unusable ==> LastChecks(false) in acts)
    && (acts != [] && acts[|acts| - 1] == CleanUp ==> s.disk.temp == None)
  }

  lemma EndedNext(c: Checks, old_: Bytes, s: State, done: seq<Action>, a: Action)
    requires Enabled(s, a) && Inv(c, old_, s) && Ended(s, done)
    ensures Ended(Next(c, s, a), done + [a])
  {
  }

  /** Finished means that the last checks launched it from its place, and that no temporary file is
      left; nor is one left when they fail, or once a failed install has been cleaned up. */
  lemma {:induction false} FinishedMeans(c: Checks, run: seq<State>, acts: seq<Action>, k: nat)
    requires IsRun(c, run, acts) && k < |run|
    ensures Ended(run[k], acts[..k])
  {
    if k > 0 {
      FinishedMeans(c, run, acts, k - 1);
      InvAlways(c, run, acts, k - 1);
      assert Enabled(run[k - 1], acts[k - 1]) && run[k] == Next(c, run[k - 1], acts[k - 1]);
      EndedNext(c, run[0].disk.target, run[k - 1], acts[..k - 1], acts[k - 1]);
      assert acts[..k] == acts[..k - 1] + [acts[k - 1]];
    }
  }

  // ---- The provenance ---------------------------------------------------------------------------

  /** The build output's provenance before step i. */
  function Live(run: seq<State>, i: nat): Tree
    requires i < |run|
  {
    run[i].out.provenance
  }

  /** What a walk saw: the build output's provenance at the moment it listed each directory, and at
      the moment it came to each file. */
  datatype Sight = Sight(dirs: map<Dir, Tree>, files: map<File, Tree>)

  /** The steps of the run at which it did. */
  datatype Log = Log(dirs: map<Dir, nat>, files: map<File, nat>)

  ghost predicate SeenAt(run: seq<State>, acts: seq<Action>, k: nat, sight: Sight, log: Log)
    requires |run| == |acts| + 1 && k <= |acts|
  {
    ListedAt(run, acts, k, sight.dirs, log.dirs) && MetAt(run, acts, k, sight.files, log.files)
  }

  ghost predicate ListedAt(run: seq<State>, acts: seq<Action>, k: nat, seen: map<Dir, Tree>, steps: map<Dir, nat>)
    requires |run| == |acts| + 1 && k <= |acts|
  {
    steps.Keys == seen.Keys &&
    forall d | d in steps :: steps[d] < k && acts[steps[d]] == ListDir(d) && seen[d] == Live(run, steps[d])
  }

  ghost predicate MetAt(run: seq<State>, acts: seq<Action>, k: nat, met: map<File, Tree>, steps: map<File, nat>)
    requires |run| == |acts| + 1 && k <= |acts|
  {
    steps.Keys == met.Keys &&
    forall f | f in steps :: steps[f] < k && acts[steps[f]] == ReadFile(f) && met[f] == Live(run, steps[f])
  }

  /** A walk comes to the root, and to whatever the listing of its parent showed. */
  predicate ReachesDir(seen: map<Dir, Tree>, d: Dir) {
    d == [] || (Parent(d) in seen && d in SubDirs(seen[Parent(d)], Parent(d)))
  }

  predicate ReachesFile(seen: map<Dir, Tree>, f: File) {
    Parent(f) in seen && f in seen[Parent(f)]
  }

  /** What the walk read: each file that was still there when it came to it, as it then was. */
  function Collected(files: map<File, Tree>): Tree {
    map f | f in files && f in files[f] :: files[f][f]
  }

  predicate AllThere(files: map<File, Tree>) { forall f | f in files :: f in files[f] }

  ghost predicate DirsMatch(dirs: set<Dir>, seen: map<Dir, Tree>) {
    seen.Keys !! dirs && forall d :: d in seen || d in dirs <==> ReachesDir(seen, d)
  }

  ghost predicate FilesMatch(files: set<File>, seen: map<Dir, Tree>, turns: map<File, Tree>) {
    turns.Keys !! files && forall f: File :: f in turns || f in files <==> ReachesFile(seen, f)
  }

  /** The walk so far is what was seen. */
  ghost predicate WalkMatches(walk: Walk, sight: Sight) {
    && DirsMatch(walk.dirs, sight.dirs)
    && FilesMatch(walk.files, sight.dirs, sight.files)
    && walk.read == Collected(sight.files)
    && (walk.missed <==> !AllThere(sight.files))
  }

  lemma ChildrenOnly(t: Tree, d: Dir, e: Dir)
    requires e in SubDirs(t, d)
    ensures e != [] && Parent(e) == d
  {
  }

  lemma ReachesLater(seen: map<Dir, Tree>, d: Dir, t: Tree, e: Dir)
    requires d !in seen
    ensures ReachesDir(seen[d := t], e) <==> ReachesDir(seen, e) || e in SubDirs(t, d)
    ensures e in SubDirs(t, d) ==> !ReachesDir(seen, e)
  {
    if e in SubDirs(t, d) { ChildrenOnly(t, d, e); }
  }

  lemma ListDirs(dirs: set<Dir>, seen: map<Dir, Tree>, d: Dir, t: Tree)
    requires DirsMatch(dirs, seen) && d in dirs
    ensures DirsMatch(dirs - {d} + SubDirs(t, d), seen[d := t])
  {
    var kids, later := SubDirs(t, d), seen[d := t];
    forall e: Dir
      ensures ReachesDir(later, e) <==> ReachesDir(seen, e) || e in kids
      ensures e in kids ==> e !in seen && e != d
    {
      ReachesLater(seen, d, t, e);
      if e in kids { ChildrenOnly(t, d, e); assert |Parent(e)| < |e|; }
    }
    assert forall e: Dir :: e in later || e in dirs - {d} + kids <==> e in seen || e in dirs || e in kids;
  }

  lemma ListFiles(files: set<File>, seen: map<Dir, Tree>, turns: map<File, Tree>, d: Dir, t: Tree)
    requires FilesMatch(files, seen, turns) && d !in seen
    ensures FilesMatch(files + FilesIn(t, d), seen[d := t], turns)
  {
    forall f: File ensures ReachesFile(seen[d := t], f) <==> ReachesFile(seen, f) || f in FilesIn(t, d) {}
    forall f | f in FilesIn(t, d) ensures !ReachesFile(seen, f) {}
  }

  lemma ListStep(walk: Walk, sight: Sight, d: Dir, t: Tree)
    requires WalkMatches(walk, sight) && d in walk.dirs
    ensures WalkMatches(Listed(walk, t, d), sight.(dirs := sight.dirs[d := t]))
  {
    ListDirs(walk.dirs, sight.dirs, d, t);
    ListFiles(walk.files, sight.dirs, sight.files, d, t);
  }

  lemma CollectedNext(turns: map<File, Tree>, f: File, t: Tree)
    requires f !in turns
    ensures Collected(turns[f := t]) == if f in t then Collected(turns)[f := t[f]] else Collected(turns)
    ensures AllThere(turns[f := t]) <==> f in t && AllThere(turns)
  {
    var later := turns[f := t];
    assert later[f] == t && forall g | g in turns :: g in later && later[g] == turns[g];
  }

  lemma ReadStep(walk: Walk, sight: Sight, f: File, t: Tree)
    requires WalkMatches(walk, sight) && f in walk.files
    ensures WalkMatches(Visited(walk, t, f), sight.(files := sight.files[f := t]))
  {
    CollectedNext(sight.files, f, t);
  }

  predicate WalkOver(s: State) { s.phase == Retained || InPlace(s) }

  /** The walk of a state, when one is under way, or what the one just over retained. */
  ghost predicate WalkOf(s: State, walk: Walk) {
    && (walk.copying ==> s.disk.retained == Some(walk.read))
    && if s.phase.Walking? then walk == s.phase.walk
       else walk.dirs == {} && walk.files == {} && s.disk.retained == Some(walk.read)
            && (walk.copying ==> !walk.missed)
  }

  lemma StepWalk(c: Checks, s: State, a: Action, walk: Walk)
    requires Enabled(s, a) && (s.phase.Walking? || WalkOver(s)) && WalkOf(s, walk)
    requires Next(c, s, a).phase.Walking? || WalkOver(Next(c, s, a))
    ensures WalkOf(Next(c, s, a), match a case ListDir(d) => Listed(walk, s.out.provenance, d)
                                          case ReadFile(f) => Visited(walk, s.out.provenance, f)
                                          case _ => walk)
  {
  }

  lemma SeenLater(run: seq<State>, acts: seq<Action>, k: nat, sight: Sight, log: Log)
    requires |run| == |acts| + 1 && k < |acts| && SeenAt(run, acts, k, sight, log)
    ensures SeenAt(run, acts, k + 1, sight, log)
  {
  }

  lemma SeenListing(run: seq<State>, acts: seq<Action>, k: nat, sight: Sight, log: Log, d: Dir)
    requires |run| == |acts| + 1 && k < |acts| && SeenAt(run, acts, k, sight, log) && acts[k] == ListDir(d)
    ensures SeenAt(run, acts, k + 1, sight.(dirs := sight.dirs[d := Live(run, k)]), log.(dirs := log.dirs[d := k]))
  {
    SeenLater(run, acts, k, sight, log);
  }

  lemma SeenReading(run: seq<State>, acts: seq<Action>, k: nat, sight: Sight, log: Log, f: File)
    requires |run| == |acts| + 1 && k < |acts| && SeenAt(run, acts, k, sight, log) && acts[k] == ReadFile(f)
    ensures SeenAt(run, acts, k + 1, sight.(files := sight.files[f := Live(run, k)]), log.(files := log.files[f := k]))
  {
    SeenLater(run, acts, k, sight, log);
  }

  /** The walk of the state before step k, what it saw and when. */
  ghost predicate Walked(
    run: seq<State>, acts: seq<Action>, k: nat, walk: Walk, sight: Sight, log: Log)
    requires |run| == |acts| + 1 && k <= |acts|
  {
    WalkOf(run[k], walk) && WalkMatches(walk, sight) && SeenAt(run, acts, k, sight, log)
  }

  predicate WalksOn(s: State) { s.phase.Walking? || WalkOver(s) }

  /** One step of a walk, and what it adds to what was seen. */
  lemma WalkNext(c: Checks, run: seq<State>, acts: seq<Action>, k: nat, walk: Walk, sight: Sight, log: Log)
    returns (walk': Walk, sight': Sight, log': Log)
    requires IsRun(c, run, acts) && k < |acts|
    requires WalksOn(run[k]) && WalksOn(run[k + 1]) && Walked(run, acts, k, walk, sight, log)
    ensures Walked(run, acts, k + 1, walk', sight', log')
  {
    var t := Live(run, k);
    assert Enabled(run[k], acts[k]) && run[k + 1] == Next(c, run[k], acts[k]);
    StepWalk(c, run[k], acts[k], walk);
    SeenLater(run, acts, k, sight, log);
    walk', sight', log' := walk, sight, log;
    match acts[k]
    case ListDir(d) =>
      ListStep(walk, sight, d, t);
      SeenListing(run, acts, k, sight, log, d);
      walk', sight', log' := Listed(walk, t, d), sight.(dirs := sight.dirs[d := t]), log.(dirs := log.dirs[d := k]);
    case ReadFile(f) =>
      ReadStep(walk, sight, f, t);
      SeenReading(run, acts, k, sight, log, f);
      walk', sight', log' := Visited(walk, t, f), sight.(files := sight.files[f := t]),
          log.(files := log.files[f := k]);
    case _ =>
  }

  lemma WalkStarts(c: Checks, s: State, a: Action)
    requires Enabled(s, a) && !s.phase.Walking? && !WalkOver(s)
    requires Next(c, s, a).phase.Walking? || WalkOver(Next(c, s, a))
    ensures var t := Next(c, s, a);
            t.phase.Walking? && WalkOf(t, t.phase.walk) && WalkMatches(t.phase.walk, Sight(map[], map[]))
  {
    forall d: Dir ensures ReachesDir(map[], d) <==> d == [] {}
    forall f: File ensures !ReachesFile(map[], f) {}
  }

  lemma NothingSeen(run: seq<State>, acts: seq<Action>, k: nat)
    requires |run| == |acts| + 1 && k <= |acts|
    ensures SeenAt(run, acts, k, Sight(map[], map[]), Log(map[], map[]))
  {
  }

  /** Every walk of every run, with what it saw and when. */
  lemma {:induction false} WalkLogged(c: Checks, run: seq<State>, acts: seq<Action>, k: nat)
    returns (walk: Walk, sight: Sight, log: Log)
    requires IsRun(c, run, acts) && k < |run| && WalksOn(run[k])
    ensures Walked(run, acts, k, walk, sight, log)
    decreases k, 1
  {
    NotAtTheStart(c, run, acts, k);
    if WalksOn(run[k - 1]) {
      walk, sight, log := WalkContinues(c, run, acts, k);
    } else {
      walk, sight, log := FirstWalk(c, run, acts, k);
    }
  }

  lemma {:induction false} WalkContinues(c: Checks, run: seq<State>, acts: seq<Action>, k: nat)
    returns (walk: Walk, sight: Sight, log: Log)
    requires IsRun(c, run, acts) && 0 < k < |run| && WalksOn(run[k - 1]) && WalksOn(run[k])
    ensures Walked(run, acts, k, walk, sight, log)
    decreases k, 0
  {
    var was, saw, logged := WalkLogged(c, run, acts, k - 1);
    walk, sight, log := WalkNext(c, run, acts, k - 1, was, saw, logged);
  }

  lemma NotAtTheStart(c: Checks, run: seq<State>, acts: seq<Action>, k: nat)
    requires IsRun(c, run, acts) && k < |run| && WalksOn(run[k])
    ensures k > 0
  {
  }

  lemma FirstWalk(c: Checks, run: seq<State>, acts: seq<Action>, k: nat)
    returns (walk: Walk, sight: Sight, log: Log)
    requires IsRun(c, run, acts) && 0 < k < |run| && !WalksOn(run[k - 1]) && WalksOn(run[k])
    ensures Walked(run, acts, k, walk, sight, log)
  {
    assert Enabled(run[k - 1], acts[k - 1]) && run[k] == Next(c, run[k - 1], acts[k - 1]);
    WalkStarts(c, run[k - 1], acts[k - 1]);
    NothingSeen(run, acts, k);
    walk, sight, log := run[k].phase.walk, Sight(map[], map[]), Log(map[], map[]);
  }

  lemma {:induction false} ValidatedAt(c: Checks, run: seq<State>, acts: seq<Action>, k: nat) returns (i: nat)
    requires IsRun(c, run, acts) && k < |run| && PastValidation(run[k])
    ensures i < k && acts[i] == Validate && run[i].out == run[k].validated
  {
    var s, a := run[k - 1], acts[k - 1];
    assert Enabled(s, a) && run[k] == Next(c, s, a);
    if PastValidation(s) { i := ValidatedAt(c, run, acts, k - 1); } else { i := k - 1; }
  }

  /** What the walk met of one file agrees with the tree t: there with the same bytes when the walk
      came to it, or in neither. */
  predicate AsIn(turns: map<File, Tree>, t: Tree, f: File) {
    if f in t then f in turns && f in turns[f] && turns[f][f] == t[f]
    else f in turns ==> f !in turns[f]
  }

  lemma CollectedExactWhen(turns: map<File, Tree>, t: Tree)
    ensures Collected(turns) == t <==> forall f | f in t.Keys + turns.Keys :: AsIn(turns, t, f)
  {
    if Collected(turns) == t {
      forall f | f in t.Keys + turns.Keys ensures AsIn(turns, t, f) {
        assert f in Collected(turns) <==> f in t;
      }
    }
    if forall f | f in t.Keys + turns.Keys :: AsIn(turns, t, f) {
      forall f ensures f in Collected(turns) <==> f in t {
        if f in t.Keys + turns.Keys { assert AsIn(turns, t, f); }
      }
      forall f | f in t ensures Collected(turns)[f] == t[f] { assert AsIn(turns, t, f); }
    }
  }

  /** With the new bytes in place, the retained provenance is what the build output held file by
      file: each file the listings led to, as it was when the walk came to it. It is the provenance
      validated at step i exactly when every file of either was met as it had been at step i. Unlike
      the binary, nothing of it is checked a second time. */
  lemma RetainedProvenanceExactWhen(c: Checks, run: seq<State>, acts: seq<Action>, k: nat)
    returns (i: nat, sight: Sight, log: Log)
    requires IsRun(c, run, acts) && k < |run| && InPlace(run[k])
    ensures i < k && acts[i] == Validate && run[i].out == run[k].validated
    ensures SeenAt(run, acts, k, sight, log)
    ensures forall d :: d in sight.dirs <==> ReachesDir(sight.dirs, d)
    ensures forall f: File :: f in sight.files <==> ReachesFile(sight.dirs, f)
    ensures run[k].disk.retained == Some(Collected(sight.files))
    ensures run[k].disk.retained == Some(Live(run, i)) <==>
            forall f | f in Live(run, i).Keys + sight.files.Keys :: AsIn(sight.files, Live(run, i), f)
  {
    i := ValidatedAt(c, run, acts, k);
    var walk;
    walk, sight, log := WalkLogged(c, run, acts, k);
    CollectedExactWhen(sight.files, Live(run, i));
  }

  /** The provenance is as it was at step i whenever the walk looks. */
  ghost predicate Undisturbed(run: seq<State>, acts: seq<Action>, i: nat, k: nat)
    requires |run| == |acts| + 1 && i <= |acts| && k <= |acts|
  {
    forall j | 0 <= j < k && (acts[j].ListDir? || acts[j].ReadFile?) :: Live(run, j) == Live(run, i)
  }

  lemma SawOnly(run: seq<State>, acts: seq<Action>, i: nat, k: nat, sight: Sight, log: Log)
    requires |run| == |acts| + 1 && i <= |acts| && k <= |acts|
    requires SeenAt(run, acts, k, sight, log) && Undisturbed(run, acts, i, k)
    ensures forall d | d in sight.dirs :: sight.dirs[d] == Live(run, i)
    ensures forall f | f in sight.files :: sight.files[f] == Live(run, i)
  {
    forall d | d in sight.dirs ensures sight.dirs[d] == Live(run, i) { assert acts[log.dirs[d]].ListDir?; }
    forall f | f in sight.files ensures sight.files[f] == Live(run, i) { assert acts[log.files[f]].ReadFile?; }
  }

  lemma WholeTree(sight: Sight, v: Tree)
    requires forall d | d in sight.dirs :: sight.dirs[d] == v
    requires forall f | f in sight.files :: sight.files[f] == v
    requires forall d :: d in sight.dirs <==> ReachesDir(sight.dirs, d)
    requires forall f: File :: f in sight.files <==> ReachesFile(sight.dirs, f)
    ensures Collected(sight.files) == v
  {
    forall f | f in v ensures f in sight.files {
      AllListed(sight.dirs, v, f, |f| - 1);
      assert ReachesFile(sight.dirs, f);
    }
  }

  /** So it is enough that the build output holds its validated provenance at each of those moments. */
  lemma UndisturbedIsRetained(c: Checks, run: seq<State>, acts: seq<Action>, k: nat, i: nat)
    requires IsRun(c, run, acts) && k < |run| && InPlace(run[k])
    requires i < k && acts[i] == Validate && Undisturbed(run, acts, i, k)
    ensures run[k].disk.retained == Some(Live(run, i)) == Some(run[k].validated.provenance)
  {
    var j, sight, log := RetainedProvenanceExactWhen(c, run, acts, k);
    OneValidation(c, run, acts, i, j);
    SawOnly(run, acts, i, k, sight, log);
    WholeTree(sight, Live(run, i));
  }

  lemma {:induction false} NeverBeginsAgain(c: Checks, run: seq<State>, acts: seq<Action>, k: nat)
    requires IsRun(c, run, acts) && k < |run|
    ensures run[k].phase == Begin ==> forall j | 0 <= j < k :: acts[j].Rebuild?
  {
    if k > 0 {
      NeverBeginsAgain(c, run, acts, k - 1);
      assert Enabled(run[k - 1], acts[k - 1]) && run[k] == Next(c, run[k - 1], acts[k - 1]);
    }
  }

  lemma OneValidation(c: Checks, run: seq<State>, acts: seq<Action>, i: nat, j: nat)
    requires IsRun(c, run, acts) && i < |acts| && j < |acts| && acts[i] == Validate && acts[j] == Validate
    ensures i == j
  {
    assert Enabled(run[i], acts[i]) && Enabled(run[j], acts[j]);
    NeverBeginsAgain(c, run, acts, i);
    NeverBeginsAgain(c, run, acts, j);
  }

  /** Where every listing shows the tree v, every directory on the way to a file of v is listed. */
  lemma {:induction false} AllListed(seen: map<Dir, Tree>, v: Tree, f: File, n: nat)
    requires forall d | d in seen :: seen[d] == v
    requires forall d :: d in seen <==> ReachesDir(seen, d)
    requires f in v && n < |f|
    ensures f[..n] in seen
  {
    if n == 0 {
      assert ReachesDir(seen, f[..0]);
    } else {
      AllListed(seen, v, f, n - 1);
      var d := f[..n];
      assert Parent(d) == f[..n - 1] && f[..|Parent(d)| + 1] == d && Parent(d) <= f;
      assert d in SubDirs(v, Parent(d));
      assert ReachesDir(seen, d);
    }
  }

  /** No one touches the build output during the run. */
  predicate Quiet(acts: seq<Action>) { forall i | 0 <= i < |acts| :: !acts[i].Rebuild? }

  lemma {:induction false} QuietOutput(c: Checks, run: seq<State>, acts: seq<Action>, k: nat)
    requires IsRun(c, run, acts) && Quiet(acts) && k < |run|
    ensures run[k].out == run[0].out
  {
    if k > 0 {
      QuietOutput(c, run, acts, k - 1);
      assert Enabled(run[k - 1], acts[k - 1]) && run[k] == Next(c, run[k - 1], acts[k - 1]);
    }
  }

  /** On a build output left alone, binary and provenance in place are both the validated ones. */
  lemma QuietInstallRetainsValidated(c: Checks, run: seq<State>, acts: seq<Action>, k: nat)
    requires IsRun(c, run, acts) && Quiet(acts) && k < |run| && InPlace(run[k]) && CollisionFree(c.sha)
    ensures run[k].disk.target == run[0].out.binary && run[k].disk.retained == Some(run[0].out.provenance)
  {
    var i := ValidatedAt(c, run, acts, k);
    forall j | 0 <= j <= |acts| ensures run[j].out == run[0].out { QuietOutput(c, run, acts, j); }
    TargetNeverPartial(c, run, acts, k);
    UndisturbedIsRetained(c, run, acts, k, i);
  }

  /** Provenance found on the disk, from a finished install or an interrupted copy, is never
      rewritten; and the install goes through only where it is, byte for byte, what the comparison
      read of the build output. */
  lemma {:induction false} RetainedNeverRewritten(
    c: Checks, run: seq<State>, acts: seq<Action>, k: nat, found: Tree)
    requires IsRun(c, run, acts) && run[0].disk.retained == Some(found) && k < |run|
    ensures run[k].disk.retained == Some(found) && (run[k].phase.Walking? ==> !run[k].phase.walk.copying)
  {
    if k > 0 {
      RetainedNeverRewritten(c, run, acts, k - 1, found);
      assert Enabled(run[k - 1], acts[k - 1]) && run[k] == Next(c, run[k - 1], acts[k - 1]);
    }
  }

  // ---- Two runs in which the retained provenance is not the validated one -----------------------

  /** The provenance is swapped after validation, the binary is not: the install completes with
      provenance nobody validated. */
  lemma SwappedProvenanceIsRetained(c: Checks, out: Output, old_: Bytes, name: string, content: Bytes)
      returns (run: seq<State>, acts: seq<Action>)
    requires Valid(c, out) && out.provenance != map[[name] := content]
    ensures IsRun(c, run, acts) && run[0].out == out && run[0].disk.target == old_
    ensures InPlace(run[|acts|]) && run[|acts|].validated == out && run[|acts|].disk.target == out.binary
    ensures run[|acts|].disk.retained == Some(map[[name] := content]) != Some(out.provenance)
  {
    var swapped: Tree := map[[name] := content];
    run, acts := ReachesRuns(c, out, old_);
    run, acts := Extended(c, run, acts, Rebuild(Output(out.binary, swapped)));
    run, acts := OneFileCopied(c, run, acts, name);
  }

  lemma OneFileCopied(c: Checks, before: seq<State>, done: seq<Action>, name: string)
      returns (run: seq<State>, acts: seq<Action>)
    requires IsRun(c, before, done) && before[|done|].phase == Runs && before[|done|].out.provenance.Keys == {[name]}
    requires before[|done|].disk.temp.Some? && before[|done|].disk.retained == None
    ensures IsRun(c, run, acts) && run[0] == before[0] && InPlace(run[|acts|])
    ensures run[|acts|].disk ==
            Disk(before[|done|].disk.temp.value, None, Some(before[|done|].out.provenance))
    ensures run[|acts|].validated == before[|done|].validated
  {
    var live := before[|done|].out.provenance;
    run, acts := Extended(c, before, done, StartWalk);
    assert SubDirs(live, []) == {} && FilesIn(live, []) == {[name]};
    run, acts := Extended(c, run, acts, ListDir([]));
    assert run[|acts|].phase == Walking(Walk(true, {}, {[name]}, map[], false));
    run, acts := LastFileCopied(c, run, acts, [name]);
  }

  lemma LastFileCopied(c: Checks, before: seq<State>, done: seq<Action>, f: File)
      returns (run: seq<State>, acts: seq<Action>)
    requires IsRun(c, before, done) && before[|done|].phase == Walking(Walk(true, {}, {f}, map[], false))
    requires before[|done|].disk.temp.Some? && before[|done|].out.provenance.Keys == {f}
    ensures IsRun(c, run, acts) && run[0] == before[0]
    ensures run[|acts|] == before[|done|].(phase := Replaced, disk :=
              Disk(before[|done|].disk.temp.value, None, Some(before[|done|].out.provenance)))
  {
    var live := before[|done|].out.provenance;
    run, acts := Extended(c, before, done, ReadFile(f));
    assert map[][f := live[f]] == live && {f} - {f} == {};
    run, acts := Extended(c, run, acts, EndWalk);
    run, acts := Extended(c, run, acts, Rename);
  }

  /** Both files change between the copy of one and the copy of the other: the install completes with
      a mixture that no build output ever held. */
  lemma MixtureIsRetained(c: Checks, out: Output, old_: Bytes, a: string, b: string, later: Tree)
      returns (run: seq<State>, acts: seq<Action>)
    requires Valid(c, out) && a != b && out.provenance.Keys == later.Keys == {[a], [b]}
    requires out.provenance[[a]] != later[[a]] && out.provenance[[b]] != later[[b]]
    ensures IsRun(c, run, acts) && InPlace(run[|acts|]) && run[|acts|].validated == out
    ensures run[|acts|].disk.retained == Some(map[[a] := out.provenance[[a]], [b] := later[[b]]])
    ensures forall j | 0 <= j < |run| :: run[|acts|].disk.retained != Some(run[j].out.provenance)
  {
    var was := out.provenance;
    run, acts := ReachesRuns(c, out, old_);
    run, acts := Extended(c, run, acts, StartWalk);
    assert SubDirs(was, []) == {} && FilesIn(was, []) == {[a], [b]};
    run, acts := Extended(c, run, acts, ListDir([]));
    assert run[|acts|].phase == Walking(Walk(true, {}, {[a], [b]}, map[], false));
    run, acts := TwoFilesCopied(c, run, acts, a, b, later);
  }

  lemma TwoFilesCopied(c: Checks, before: seq<State>, done: seq<Action>, a: string, b: string, later: Tree)
      returns (run: seq<State>, acts: seq<Action>)
    requires IsRun(c, before, done) && a != b && later.Keys == {[a], [b]}
    requires forall j | 0 <= j < |before| :: before[j].out == before[|done|].out
    requires var s := before[|done|];
             && s.phase == Walking(Walk(true, {}, {[a], [b]}, map[], false)) && s.disk.temp.Some?
             && s.out.provenance.Keys == {[a], [b]}
             && s.out.provenance[[a]] != later[[a]] && s.out.provenance[[b]] != later[[b]]
    ensures IsRun(c, run, acts) && InPlace(run[|acts|]) && run[|acts|].validated == before[|done|].validated
    ensures run[|acts|].disk.retained ==
            Some(map[[a] := before[|done|].out.provenance[[a]], [b] := later[[b]]])
    ensures forall j | 0 <= j < |run| :: run[|acts|].disk.retained != Some(run[j].out.provenance)
  {
    var was := before[|done|].out.provenance;
    run, acts := Extended(c, before, done, ReadFile([a]));
    var half: Tree := map[][[a] := was[[a]]];
    assert {[a], [b]} - {[a]} == {[b]};
    assert run[|acts|].phase == Walking(Walk(true, {}, {[b]}, half, false));
    run, acts := Extended(c, run, acts, Rebuild(Output(before[|done|].out.binary, later)));
    run, acts := Extended(c, run, acts, ReadFile([b]));
    var mixed: Tree := half[[b] := later[[b]]];
    assert {[b]} - {[b]} == {};
    assert run[|acts|].phase == Walking(Walk(true, {}, {}, mixed, false));
    run, acts := Extended(c, run, acts, EndWalk);
    run, acts := Extended(c, run, acts, Rename);
    assert run[|acts|].disk.retained == Some(mixed) && mixed == map[[a] := was[[a]], [b] := later[[b]]];
    assert mixed[[a]] != later[[a]] && mixed[[b]] != was[[b]];
  }

  /** An undisturbed first half: validated, staged, checked, run; nothing retained yet. */
  lemma ReachesRuns(c: Checks, out: Output, old_: Bytes) returns (run: seq<State>, acts: seq<Action>)
    requires Valid(c, out)
    ensures IsRun(c, run, acts) && run[0].disk.target == old_ && forall j | 0 <= j < |run| :: run[j].out == out
    ensures run[|acts|] == State(Disk(old_, Some(out.binary), None), out, Runs, out)
  {
    run, acts := [State(Disk(old_, None, None), out, Begin, out)], [];
    run, acts := Extended(c, run, acts, Validate);
    run, acts := Extended(c, run, acts, ReadBinary(out.binary));
    assert out.binary[..|out.binary|] == out.binary;
    run, acts := Extended(c, run, acts, WriteSome(|out.binary|));
    run, acts := Extended(c, run, acts, CheckDigest);
    run, acts := Extended(c, run, acts, CheckVersion(true));
  }

  lemma Extended(c: Checks, run: seq<State>, acts: seq<Action>, a: Action)
      returns (more: seq<State>, done: seq<Action>)
    requires IsRun(c, run, acts) && Enabled(run[|acts|], a)
    ensures done == acts + [a] && more == run + [Next(c, run[|acts|], a)] && IsRun(c, more, done)
    ensures more[0] == run[0] && more[|done|] == Next(c, run[|acts|], a)
  {
    done, more := acts + [a], run + [Next(c, run[|acts|], a)];
  }

  // ---- The install, start to finish -------------------------------------------------------------

  /** Refused before the rename, installed, or renamed into place and then found not to launch. */
  datatype Result = Refused | Installed | FoundUnusable

  /** The files, changed in place by an install nothing interrupts. What it reads of the build output
      after validating it is given, since someone may have changed it meanwhile: the binary, and the
      provenance its walk collects, with whether a listed file had gone. */
  class Files {
    var target: Bytes
    var temp: Option<Bytes>
    var retained: Option<Tree>

    constructor (target: Bytes, retained: Option<Tree>)
      ensures this.target == target && temp == None && this.retained == retained
    {
      this.target, temp, this.retained := target, None, retained;
    }

    method Install(c: Checks, output: Output, binary: Bytes, provenance: Tree, missed: bool, runs: bool, launches: bool)
      returns (result: Result)
      requires temp == None
      modifies this
      ensures temp == None
      ensures var staged := c.qualified(output.provenance)
                            && c.manifest(output.provenance) == Some(c.sha(output.binary))
                            && c.sha(binary) == c.sha(output.binary) && runs;
              var agrees := if old(retained).Some? then old(retained).value == provenance else !missed;
              && result == (if !staged || !agrees then Refused else if launches then Installed else FoundUnusable)
              && target == (if staged && agrees then binary else old(target))
              && retained == if staged && old(retained).None? then Some(provenance) else old(retained)
    {
      if !Valid(c, output) { return Refused; }
      temp := Some(binary);
      var agrees := c.sha(temp.value) == c.sha(output.binary) && runs;
      if agrees {
        if retained.Some? {
          agrees := retained.value == provenance;
        } else {
          CopyTree(provenance);
          agrees := !missed;
        }
      }
      if agrees { target := temp.value; }
      temp := None;
      if !agrees { return Refused; }
      result := if c.sha(target) == c.sha(output.binary) && launches then Installed else FoundUnusable;
    }

    /** The provenance, file by file in some order. */
    method CopyTree(provenance: Tree)
      requires retained == None
      modifies this`retained
      ensures retained == Some(provenance)
    {
      retained := Some(map[]);
      var todo := provenance.Keys;
      while todo != {}
        invariant todo <= provenance.Keys
        invariant retained == Some(map n: File | n in provenance && n !in todo :: provenance[n])
      {
        var name :| name in todo;
        retained := Some(retained.value[name := provenance[name]]);
        todo := todo - {name};
        assert retained.value == map n: File | n in provenance && n !in todo :: provenance[n];
      }
      assert provenance == map n: File | n in provenance && n !in todo :: provenance[n];
    }
  }
}
