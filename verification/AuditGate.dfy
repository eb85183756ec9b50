/** The release gate over container images: audit every target of the inventory, and let the release
through only when all are covered, pinned and clean. The commands' replies are given. */
module AuditGate {
  import opened Options
  import opened Dockerfiles
  import opened ImageInventory

  datatype Status = Unavailable | ImageError | ScannerError | Vulnerable | Clean

  datatype Advisory = Advisory(id: string, package: string, version: string, severity: string)

  datatype ScanResult = ScanResult(class_: string, advisories: seq<Advisory>)

  datatype Inspected = Inspected(id: string, os: string, architecture: string)

  /** The two scanner reports, as far as they are read; missing or malformed ones are None. */
  datatype Reports = Reports(
    format: string, components: nat, kind: string, name: string, imageIds: seq<string>,
    audited: string, family: string, endOfLife: bool, results: seq<ScanResult>)

  /** What the commands run for one target come back with. */
  datatype Evidence = Evidence(
    pullExit: int, inspected: Option<Inspected>, sbomExit: int, auditExit: int, reports: Option<Reports>)

  function Advisories(results: seq<ScanResult>): seq<Advisory> {
    if results == [] then [] else results[0].advisories + Advisories(results[1..])
  }

  predicate SbomStands(r: Reports, id: string) {
    r.format == "CycloneDX" && r.components > 0 && r.kind == "container" && r.name == id && id in r.imageIds
  }

  predicate AuditStands(r: Reports, id: string) {
    && r.audited == id && r.results != [] && r.family != "" && !r.endOfLife
    && exists k | 0 <= k < |r.results| :: r.results[k].class_ == "os-pkgs"
  }

  predicate AdvisoryStands(a: Advisory) {
    a.id != "" && a.package != "" && a.version != "" && (a.severity == "HIGH" || a.severity == "CRITICAL")
  }

  function AuditTarget(pull: bool, e: Evidence): Status {
    if pull && e.pullExit != 0 then Unavailable
    else if e.inspected.None? then ImageError
    else
      var image := e.inspected.value;
      if !ImageId(image.id) || image.os != "linux" || image.architecture != "amd64" then ImageError
      else if e.reports.None? then ScannerError
      else
        var r := e.reports.value;
        var rows := Advisories(r.results);
        if !SbomStands(r, image.id) || !AuditStands(r, image.id) then ScannerError
        else if exists k | 0 <= k < |rows| :: !AdvisoryStands(rows[k]) then ScannerError
        else if e.sbomExit != 0 || e.auditExit != (if rows == [] then 0 else 1) then ScannerError
        else if rows == [] then Clean else Vulnerable
  }

  /** "sha256:" and 64 lower-case hexadecimal digits. */
  ghost predicate ContentId(s: string) {
    exists digits: string :: s == "sha256:" + digits && |digits| == 64
      && forall k | 0 <= k < 64 :: digits[k] in "0123456789abcdef"
  }

  lemma ImageIdMeans(s: string)
    ensures ImageId(s) <==> ContentId(s)
  {
    if ImageId(s) {
      assert s == "sha256:" + s[7..];
      assert forall k | 0 <= k < 64 :: s[7..][k] in s[7..];
    }
    if ContentId(s) {
      var digits: string :| s == "sha256:" + digits && |digits| == 64
        && forall k | 0 <= k < 64 :: digits[k] in "0123456789abcdef";
      assert s[7..] == digits && s[..7] == "sha256:";
      forall c | c in digits ensures '0' <= c <= '9' || 'a' <= c <= 'f' {
        var k :| 0 <= k < 64 && digits[k] == c;
      }
    }
  }

  /** A reference that fixes its content: anything, '@' and such an id. */
  ghost predicate FixesContent(reference: string) {
    exists name, id: string :: reference == name + "@" + id && ContentId(id)
  }

  lemma PinnedMeans(reference: string)
    ensures Pinned(reference) <==> FixesContent(reference)
  {
    if Pinned(reference) {
      var n := |reference| - 72;
      ImageIdMeans(reference[n + 1..]);
      assert reference == reference[..n] + "@" + reference[n + 1..];
    }
    if FixesContent(reference) {
      var name, id: string :| reference == name + "@" + id && ContentId(id);
      ImageIdMeans(id);
      assert reference[|reference| - 71..] == id && reference[|name|] == '@';
    }
  }

  /** The image was reached, and is a Linux image for amd64 with a content id. */
  ghost predicate Identified(pull: bool, e: Evidence) {
    && (pull ==> e.pullExit == 0) && e.inspected.Some?
    && ContentId(e.inspected.value.id) && e.inspected.value.os == "linux" && e.inspected.value.architecture == "amd64"
  }

  /** The bill of materials is a CycloneDX one of that image and lists something. */
  ghost predicate SbomOf(r: Reports, id: string) {
    r.format == "CycloneDX" && r.components >= 1 && r.kind == "container" && r.name == id && id in r.imageIds
  }

  /** The audit is of that image, on a known operating system still supported, and looked at its
      packages. */
  ghost predicate AuditOf(r: Reports, id: string) {
    r.audited == id && r.family != "" && r.endOfLife == false && exists s :: s in r.results && s.class_ == "os-pkgs"
  }

  /** Both scanner runs succeeded on the very image inspected, and no result of the audit has an
      advisory. */
  ghost predicate FoundClean(pull: bool, e: Evidence) {
    && Identified(pull, e) && e.reports.Some? && e.sbomExit == 0 && e.auditExit == 0
    && SbomOf(e.reports.value, e.inspected.value.id) && AuditOf(e.reports.value, e.inspected.value.id)
    && forall s | s in e.reports.value.results :: s.advisories == []
  }

  /** The same, with the audit ending in 1 over at least one advisory, each named in full and high or
      critical. */
  ghost predicate FoundVulnerable(pull: bool, e: Evidence) {
    && Identified(pull, e) && e.reports.Some? && e.sbomExit == 0 && e.auditExit == 1
    && SbomOf(e.reports.value, e.inspected.value.id) && AuditOf(e.reports.value, e.inspected.value.id)
    && (exists s :: s in e.reports.value.results && s.advisories != [])
    && forall s, a | s in e.reports.value.results && a in s.advisories :: NamedInFull(a)
  }

  /** The advisory gives its number, package and version, and is high or critical. */
  ghost predicate NamedInFull(a: Advisory) {
    a.id != "" && a.package != "" && a.version != "" && a.severity in {"HIGH", "CRITICAL"}
  }

  lemma {:induction false} InAdvisories(results: seq<ScanResult>, a: Advisory)
    ensures a in Advisories(results) <==> exists s :: s in results && a in s.advisories
  {
    if results != [] {
      InAdvisories(results[1..], a);
      assert results == [results[0]] + results[1..];
    }
  }

  lemma {:induction false} NoAdvisories(results: seq<ScanResult>)
    ensures Advisories(results) == [] <==> forall s | s in results :: s.advisories == []
  {
    if results != [] {
      NoAdvisories(results[1..]);
      assert results == [results[0]] + results[1..];
    }
  }

  lemma StandsMeans(r: Reports, id: string)
    ensures SbomStands(r, id) <==> SbomOf(r, id)
    ensures AuditStands(r, id) <==> AuditOf(r, id)
  {
    if AuditOf(r, id) {
      var s :| s in r.results && s.class_ == "os-pkgs";
      var k :| 0 <= k < |r.results| && r.results[k] == s;
    }
  }

  /** A target passes as clean on complete evidence of no advisory, and on nothing less; it is
      vulnerable on complete evidence of some; unavailable when it could not be pulled, an image error
      when pulled or local it could not be identified, and a scanner error in every other case. */
  lemma CleanExactlyWhen(pull: bool, e: Evidence)
    ensures AuditTarget(pull, e) == Clean <==> FoundClean(pull, e)
    ensures AuditTarget(pull, e) == Vulnerable <==> FoundVulnerable(pull, e)
    ensures AuditTarget(pull, e) == Unavailable <==> pull && e.pullExit != 0
    ensures AuditTarget(pull, e) == ImageError <==> !(pull && e.pullExit != 0) && !Identified(pull, e)
  {
    if e.inspected.Some? {
      ImageIdMeans(e.inspected.value.id);
      if e.reports.Some? {
        var r := e.reports.value;
        StandsMeans(r, e.inspected.value.id);
        NoAdvisories(r.results);
        AdvisoriesMean(r.results);
      }
    }
  }

  lemma AdvisoriesMean(results: seq<ScanResult>)
    ensures (forall k | 0 <= k < |Advisories(results)| :: AdvisoryStands(Advisories(results)[k])) <==>
            forall s, a | s in results && a in s.advisories :: NamedInFull(a)
  {
    var rows := Advisories(results);
    if forall k | 0 <= k < |rows| :: AdvisoryStands(rows[k]) {
      forall s, a | s in results && a in s.advisories ensures NamedInFull(a) {
        InAdvisories(results, a);
        var k :| 0 <= k < |rows| && rows[k] == a;
        assert AdvisoryStands(rows[k]);
      }
    }
    if forall s, a | s in results && a in s.advisories :: NamedInFull(a) {
      forall k | 0 <= k < |rows| ensures AdvisoryStands(rows[k]) {
        assert rows[k] in rows;
        InAdvisories(results, rows[k]);
        var s :| s in results && rows[k] in s.advisories;
        assert NamedInFull(rows[k]);
      }
    }
  }

  datatype Result = Result(target: Target, status: Status)

  datatype Report = Report(passed: bool, errors: seq<string>, results: seq<Result>)

  /** What the commands find for a reference, pulled or local. */
  type Audits = (string, bool) -> Evidence

  predicate Fine(r: Result) {
    r.status == Clean && (r.target.role == Service ==> Pinned(r.target.reference))
  }

  /** When the release may go: judged from the repository and the scans alone. */
  ghost predicate Releasable(pats: Patterns, repo: Repo, built: map<Role, string>, audits: Audits) {
    && DistinctBuilt(built)
    && Complete(pats, repo)
    && (forall role | role in built :: FoundClean(false, audits(built[role], false)))
    && (forall r | DeploysService(pats, repo, r) :: FixesContent(r) && FoundClean(true, audits(r, true)))
  }

  /** The operating system the audit found is known and not at its end of life. */
  ghost predicate Supported(e: Evidence) {
    e.reports.Some? && e.reports.value.family != "" && !e.reports.value.endOfLife
  }

  /** So it is for each of the nine outputs and every deployed service. */
  ghost predicate AllSupported(pats: Patterns, repo: Repo, built: map<Role, string>, audits: Audits) {
    && (forall role | role != Service :: role in built && Supported(audits(built[role], false)))
    && (forall r | DeploysService(pats, repo, r) :: Supported(audits(r, true)))
  }

  lemma ReleasedAreSupported(pats: Patterns, repo: Repo, built: map<Role, string>, audits: Audits)
    requires Releasable(pats, repo, built, audits)
    ensures AllSupported(pats, repo, built, audits)
  {
    forall role | role != Service ensures role in built && Supported(audits(built[role], false)) {
      RolesAreOutputs();
      CleanIsSupported(false, audits(built[role], false));
    }
    forall r | DeploysService(pats, repo, r) ensures Supported(audits(r, true)) {
      CleanIsSupported(true, audits(r, true));
    }
  }

  lemma CleanIsSupported(pull: bool, e: Evidence)
    requires FoundClean(pull, e)
    ensures Supported(e)
  {
  }

  /** Every report before the last is a refusal. */
  ghost predicate RefusesUntilLast(reports: seq<Report>) {
    reports != [] && forall i | 0 <= i < |reports| - 1 :: !reports[i].passed
  }

  /** The report file, rewritten as the run goes; `written` is every content it has had in this run. */
  class Gate {
    var report: Option<Report>
    ghost var written: seq<Report>

    constructor ()
      ensures report == None && written == []
    {
      report, written := None, [];
    }

    method Write(r: Report)
      modifies this
      ensures report == Some(r) && written == old(written) + [r]
    {
      report, written := Some(r), written + [r];
    }

    /** The run. Whatever file an earlier run left is replaced by a refusal first; the file says
        passed only at the end, and exactly when the release is good. */
    method Run(pats: Patterns, repo: Repo, built: map<Role, string>, audits: Audits) returns (code: int)
      requires written == []
      modifies this
      ensures RefusesUntilLast(written) && report == Some(written[|written| - 1])
      ensures |written| >= 2 && (code == 0 || code == 1)
      ensures code == 0 <==> report.value.passed
      ensures code == 0 <==> Releasable(pats, repo, built, audits)
      ensures code == 0 ==> AllSupported(pats, repo, built, audits)
    {
      Write(Report(false, ["inventory not completed"], []));
      var inventory := Inventory(pats, repo, built);
      if inventory.None? {
        Write(Report(false, ["inventory not completed"], []));
        return 1;
      }
      var plan := inventory.value;
      var results: seq<Result> := [];
      for i := 0 to |plan.targets|
        invariant |written| == i + 1 && forall k | 0 <= k < |written| :: !written[k].passed
        invariant |results| == i && forall k | 0 <= k < i :: results[k] == Audited(plan.targets[k], audits)
      {
        results := results + [Audited(plan.targets[i], audits)];
        Write(Report(false, plan.errors, results));
      }
      var passed := results != [] && plan.errors == [] && forall k | 0 <= k < |results| :: Fine(results[k]);
      Write(Report(passed, plan.errors, results));
      PassesExactlyWhen(pats, repo, built, audits, plan, results);
      if passed { ReleasedAreSupported(pats, repo, built, audits); }
      code := if passed then 0 else 1;
    }
  }

  function Audited(t: Target, audits: Audits): Result {
    Result(t, AuditTarget(t.role == Service, audits(t.reference, t.role == Service)))
  }

  lemma PassesExactlyWhen(pats: Patterns, repo: Repo, built: map<Role, string>, audits: Audits, plan: Plan,
      results: seq<Result>)
    requires DistinctBuilt(built) && (plan.errors == [] <==> Complete(pats, repo))
    requires plan.errors == [] ==> TargetsExact(pats, repo, built, plan.targets)
    requires |results| == |plan.targets| && forall k | 0 <= k < |results| ::
        results[k] == Audited(plan.targets[k], audits)
    ensures (results != [] && plan.errors == [] && forall k | 0 <= k < |results| :: Fine(results[k]))
      <==> Releasable(pats, repo, built, audits)
  {
    RolesAreOutputs();
    forall k | 0 <= k < |results| ensures Fine(results[k]) <==> Passes(plan.targets[k], audits) {
      var t := plan.targets[k];
      CleanExactlyWhen(t.role == Service, audits(t.reference, t.role == Service));
      PinnedMeans(t.reference);
    }
    assert (forall k | 0 <= k < |results| :: Fine(results[k])) <==> forall t | t in plan.targets :: Passes(t, audits);
    if plan.errors == [] { AllPassExactlyWhen(pats, repo, built, audits, plan.targets); }
  }

  ghost predicate Passes(t: Target, audits: Audits) {
    && FoundClean(t.role == Service, audits(t.reference, t.role == Service))
    && (t.role == Service ==> FixesContent(t.reference))
  }

  lemma AllPassExactlyWhen(pats: Patterns, repo: Repo, built: map<Role, string>, audits: Audits, targets: seq<Target>)
    requires DistinctBuilt(built) && TargetsExact(pats, repo, built, targets)
    ensures targets != []
    ensures (forall t | t in targets :: Passes(t, audits)) <==>
      ((forall role | role in built :: FoundClean(false, audits(built[role], false)))
       && forall r | DeploysService(pats, repo, r) :: FixesContent(r) && FoundClean(true, audits(r, true)))
  {
    RolesAreOutputs();
    assert IsAudited(targets, built, Backend);
    if forall t | t in targets :: Passes(t, audits) {
      forall role | role in built ensures FoundClean(false, audits(built[role], false)) {
        assert role != Service && IsAudited(targets, built, role);
        var t :| t in targets && t.role == role && t.reference == built[role];
        assert Passes(t, audits);
      }
      forall r | DeploysService(pats, repo, r) ensures FixesContent(r) && FoundClean(true, audits(r, true)) {
        var t :| t in targets && t.role == Service && t.reference == r;
        assert Passes(t, audits);
      }
    }
  }
}
