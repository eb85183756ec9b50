/** Every image the deployment documents and the Dockerfiles name, as targets to audit. The
reference patterns are given as their matches. */
module ImageInventory {
  import opened Options
  import opened DeploymentImages
  import opened Dockerfiles

  /** What a reference stands for: an audited output, a service to pull, or nothing known. */
  datatype Meaning = Output(role: Role) | ServiceImage | Unmapped

  /** The reference patterns, as the matches they give: the published output a template names, and
      whether a text is a plain reference. */
  datatype Patterns = Patterns(published: string -> Option<Published>, plain: string -> bool)

  function MeaningOf(pats: Patterns, reference: string): Meaning {
    match pats.published(reference)
    case Some(role) => Output(role)
    case None =>
      if reference == "bidit-postgres:local" then Output(Postgres)
      else if reference == "bidit-pgbouncer:local" then Output(Pgbouncer)
      else if pats.plain(reference) then ServiceImage
      else Unmapped
  }

  /** A published template stands for its output; the two services built here are known by their local
      names; any other plain reference is a service to pull, and nothing else has a meaning. */
  lemma MeaningMeans(pats: Patterns, reference: string)
    ensures forall role: Role :: MeaningOf(pats, reference) == Output(role) <==>
              || (pats.published(reference).Some? && pats.published(reference).value == role)
              || (pats.published(reference).None?
                  && ((reference == "bidit-postgres:local" && role == Postgres)
                      || (reference == "bidit-pgbouncer:local" && role == Pgbouncer)))
    ensures MeaningOf(pats, reference) == ServiceImage <==>
            pats.published(reference).None? && pats.plain(reference)
            && reference !in {"bidit-postgres:local", "bidit-pgbouncer:local"}
  {
  }

  /** A file: the documents that load, and whether it is readable and parses to its end. */
  datatype File = File(name: string, docs: seq<Yaml>, complete: bool)

  datatype Source = Source(file: string, document: nat, location: Path, template: string)

  datatype Target = Target(reference: string, role: Role, sources: seq<Source>)

  /** The occurrences a file yields from its d-th document on. */
  datatype Occurrences = Occurrences(list: seq<Source>, ok: bool)

  function InDocument(name: string, d: nat, fields: seq<Field>): (list: seq<Source>)
    ensures |list| == |fields|
    ensures forall i | 0 <= i < |fields| :: list[i] == Source(name, d, fields[i].at, fields[i].reference)
  {
    seq(|fields|, i requires 0 <= i < |fields| => Source(name, d, fields[i].at, fields[i].reference))
  }

  function FileOccurrences(f: File, d: nat): Occurrences
    requires d <= |f.docs|
    decreases |f.docs| - d
  {
    if d == |f.docs| then Occurrences([], f.complete)
    else
      var found := ImageFields(f.docs[d], []);
      var here := InDocument(f.name, d, found.fields);
      if !found.ok then Occurrences(here, false)
      else
        var rest := FileOccurrences(f, d + 1);
        Occurrences(here + rest.list, rest.ok)
  }

  /** A place in a file where something stands under an `image` key. */
  predicate HasImage(f: File, d: nat, p: Path) { d < |f.docs| && ImageAt(f.docs[d], p).Some? }

  function ImageIn(f: File, d: nat, p: Path): Yaml
    requires HasImage(f, d, p)
  {
    ImageAt(f.docs[d], p).value
  }

  /** The occurrences are the file's image keys at every depth; all of them are strings exactly when
      the file is read to its end. */
  lemma {:induction false} OccurrencesExact(f: File, d: nat)
    requires d <= |f.docs|
    ensures FileOccurrences(f, d).ok <==>
      f.complete && forall e, p | e >= d && HasImage(f, e, p) :: NamesImage(ImageIn(f, e, p))
    ensures FileOccurrences(f, d).ok ==>
      forall e, p | e >= d && HasImage(f, e, p) ::
          Source(f.name, e, p, ImageIn(f, e, p).text) in FileOccurrences(f, d).list
    ensures forall o | o in FileOccurrences(f, d).list ::
      o.file == f.name && o.document >= d && HasImage(f, o.document, o.location)
      && ImageIn(f, o.document, o.location) == Str(o.template)
    decreases |f.docs| - d
  {
    if d < |f.docs| {
      OccurrencesExact(f, d + 1);
      FieldsExact(f.docs[d], []);
      var found := ImageFields(f.docs[d], []);
      var image := ImageFrom(f.docs[d], 0);
      assert forall p :: image(p) == ImageAt(f.docs[d], p);
      forall g | g in found.fields ensures image(g.at) == Some(Str(g.reference)) {
        assert g.at[0..] == g.at;
      }
      assert found.ok ==> forall p | HasImage(f, d, p) :: image(p).Some? && NamesImage(ImageIn(f, d, p));
      if !found.ok {
        var p :| image(p).Some? && !NamesImage(image(p).value);
        assert HasImage(f, d, p);
      }
      forall p | HasImage(f, d, p) && found.ok
        ensures Source(f.name, d, p, ImageIn(f, d, p).text) in InDocument(f.name, d, found.fields)
      {
        assert image(p).Some? && [] + p == p;
        var i :| 0 <= i < |found.fields| && found.fields[i] == Field(p, ImageIn(f, d, p).text);
        assert InDocument(f.name, d, found.fields)[i] == Source(f.name, d, p, ImageIn(f, d, p).text);
      }
    }
  }

  /** Every image key of the file, at every depth, is a string the inventory can place. */
  ghost predicate GoodFile(pats: Patterns, f: File) {
    f.complete && forall d, p | HasImage(f, d, p) ::
      ImageIn(f, d, p).Str? && ImageIn(f, d, p).text != "" && MeaningOf(pats, ImageIn(f, d, p).text) != Unmapped
  }

  /** The sources collected so far, by audited output and by service reference. */
  datatype Tally = Tally(outputs: map<Role, seq<Source>>, services: map<string, seq<Source>>)

  predicate Noted(pats: Patterns, tally: Tally, o: Source) {
    match MeaningOf(pats, o.template)
    case Output(role) => role in tally.outputs && o in tally.outputs[role]
    case ServiceImage => o.template in tally.services && o in tally.services[o.template]
    case Unmapped => false
  }

  /** The tally holds the occurrences seen, each where its reference says, and nothing else. */
  ghost predicate Tallies(pats: Patterns, tally: Tally, seen: seq<Source>) {
    && (forall role: Role :: role in tally.outputs <==> role != Service)
    && (forall o | o in seen :: Noted(pats, tally, o))
    && (forall role, o | role in tally.outputs && o in tally.outputs[role] ::
          o in seen && MeaningOf(pats, o.template) == Output(role))
    && (forall r | r in tally.services :: tally.services[r] != [])
    && (forall r, o | r in tally.services && o in tally.services[r] ::
          o in seen && o.template == r && MeaningOf(pats, r) == ServiceImage)
  }

  function Add<K>(lists: map<K, seq<Source>>, k: K, o: Source): map<K, seq<Source>> {
    lists[k := (if k in lists then lists[k] else []) + [o]]
  }

  function Note(pats: Patterns, tally: Tally, o: Source): Tally
    requires MeaningOf(pats, o.template) != Unmapped
  {
    match MeaningOf(pats, o.template)
    case Output(role) => tally.(outputs := Add(tally.outputs, role, o))
    case _ => tally.(services := Add(tally.services, o.template, o))
  }

  lemma NoteTallies(pats: Patterns, tally: Tally, seen: seq<Source>, o: Source)
    requires Tallies(pats, tally, seen) && MeaningOf(pats, o.template) != Unmapped
    ensures Tallies(pats, Note(pats, tally, o), seen + [o])
  {
  }

  predicate AllPlaced(pats: Patterns, list: seq<Source>) {
    forall o | o in list :: MeaningOf(pats, o.template) != Unmapped
  }

  lemma GoodFileExactWhen(pats: Patterns, f: File)
    ensures GoodFile(pats, f) <==> (FileOccurrences(f, 0).ok && AllPlaced(pats, FileOccurrences(f, 0).list))
  {
    OccurrencesExact(f, 0);
    var occurrences := FileOccurrences(f, 0);
    if GoodFile(pats, f) {
      forall o | o in occurrences.list ensures MeaningOf(pats, o.template) != Unmapped {
        assert HasImage(f, o.document, o.location);
      }
    }
    if occurrences.ok && AllPlaced(pats, occurrences.list) {
      forall d, p | HasImage(f, d, p) ensures MeaningOf(pats, ImageIn(f, d, p).text) != Unmapped {
        assert Source(f.name, d, p, ImageIn(f, d, p).text) in occurrences.list;
      }
    }
  }

  /** One file: its occurrences are noted until one cannot be placed. */
  method ReadFile(pats: Patterns, f: File, before: Tally, ghost seen: seq<Source>)
      returns (tally: Tally, ok: bool, ghost now: seq<Source>)
    requires Tallies(pats, before, seen)
    ensures Tallies(pats, tally, now) && seen <= now
    ensures ok <==> GoodFile(pats, f)
    ensures ok ==> now == seen + FileOccurrences(f, 0).list
  {
    GoodFileExactWhen(pats, f);
    var occurrences := FileOccurrences(f, 0);
    var list := occurrences.list;
    tally, ok, now := before, false, seen;
    for i := 0 to |list|
      invariant Tallies(pats, tally, now) && now == seen + list[..i]
      invariant AllPlaced(pats, list[..i])
    {
      if MeaningOf(pats, list[i].template) == Unmapped { return; }
      NoteTallies(pats, tally, now, list[i]);
      tally, now := Note(pats, tally, list[i]), now + [list[i]];
      assert list[..i + 1] == list[..i] + [list[i]];
    }
    assert list[..|list|] == list;
    ok := occurrences.ok;
  }

  /** A Dockerfile that cannot be read is missing from the map. */
  datatype Repo = Repo(dockerfiles: map<string, seq<Instruction>>, deployment: seq<File>)

  datatype Plan = Plan(targets: seq<Target>, bases: seq<Base>, errors: seq<string>)

  predicate DistinctBuilt(built: map<Role, string>) {
    built.Keys == (set r | r in ROLES) && forall a, b | a in built && b in built && a != b :: built[a] != built[b]
  }

  /** One reference for each of the nine outputs and for nothing else, no two the same. */
  lemma DistinctBuiltMeans(built: map<Role, string>)
    ensures DistinctBuilt(built) <==>
            && (forall role: Role :: role in built <==> role != Service)
            && forall a, b | a in built && b in built && built[a] == built[b] :: a == b
  {
    RolesAreOutputs();
    assert built.Keys == (set r | r in ROLES) <==> forall role: Role :: role in built <==> role != Service;
  }

  ghost predicate GoodDockerfileAt(repo: Repo, path: string) {
    path in repo.dockerfiles && GoodDockerfile(repo.dockerfiles[path], Expected(path))
  }

  /** A non-empty image key of a deployment document, at whatever depth. */
  ghost predicate Occurs(repo: Repo, o: Source) {
    exists f | f in repo.deployment :: FileOccurs(f, o)
  }

  predicate FileOccurs(f: File, o: Source) {
    && o.file == f.name && HasImage(f, o.document, o.location)
    && ImageIn(f, o.document, o.location) == Str(o.template) && o.template != ""
  }

  /** Nothing in the repository escapes the inventory, and there is something to deploy. */
  ghost predicate Complete(pats: Patterns, repo: Repo) {
    && (forall path | path in DOCKER_PATHS :: GoodDockerfileAt(repo, path))
    && (forall f | f in repo.deployment :: GoodFile(pats, f))
    && (exists o :: Occurs(repo, o))
  }

  /** Some audited target stands for the image at this place: the built output its template names, or
      the very reference, pulled; and lists the place among its sources. */
  predicate StandsFor(pats: Patterns, built: map<Role, string>, t: Target, o: Source) {
    o in t.sources &&
    match MeaningOf(pats, o.template)
    case Output(role) => t.role == role && role in built && t.reference == built[role]
    case ServiceImage => t.role == Service && t.reference == o.template
    case Unmapped => false
  }

  lemma StandsForMeans(pats: Patterns, built: map<Role, string>, t: Target, o: Source)
    ensures StandsFor(pats, built, t, o) <==>
            && o in t.sources
            && (|| (MeaningOf(pats, o.template) == Output(t.role) && t.role in built && t.reference == built[t.role])
                || (MeaningOf(pats, o.template) == ServiceImage && t.role == Service && t.reference == o.template))
  {
  }

  /** Targets: the nine outputs, then each service reference once, in some order. */
  ghost predicate TargetsOf(targets: seq<Target>, tally: Tally, built: map<Role, string>) {
    && |targets| >= |ROLES|
    && (forall k | 0 <= k < |ROLES| ::
          ROLES[k] in built && ROLES[k] in tally.outputs
          && targets[k] == Target(built[ROLES[k]], ROLES[k], tally.outputs[ROLES[k]]))
    && (forall k | |ROLES| <= k < |targets| ::
          targets[k].reference in tally.services
          && targets[k] == Target(targets[k].reference, Service, tally.services[targets[k].reference]))
    && (forall r | r in tally.services :: Target(r, Service, tally.services[r]) in targets)
    && (forall j, k | |ROLES| <= j < k < |targets| :: targets[j].reference != targets[k].reference)
  }

  function Without(tally: Tally, left: set<string>): Tally {
    Tally(tally.outputs, map r | r in tally.services && r !in left :: tally.services[r])
  }

  method Targets(tally: Tally, built: map<Role, string>) returns (targets: seq<Target>)
    requires DistinctBuilt(built) && forall r | r in ROLES :: r in tally.outputs
    ensures TargetsOf(targets, tally, built)
  {
    targets := seq(|ROLES|, k requires 0 <= k < |ROLES| =>
                     assert ROLES[k] in ROLES; Target(built[ROLES[k]], ROLES[k], tally.outputs[ROLES[k]]));
    var left := tally.services.Keys;
    while left != {}
      invariant left <= tally.services.Keys
      invariant TargetsOf(targets, Without(tally, left), built)
    {
      var r :| r in left;
      left := left - {r};
      targets := targets + [Target(r, Service, tally.services[r])];
    }
    assert tally == Without(tally, left);
  }

  /** The occurrences of the first n files. */
  function Deployed(files: seq<File>, n: nat): seq<Source>
    requires n <= |files|
  {
    if n == 0 then [] else Deployed(files, n - 1) + FileOccurrences(files[n - 1], 0).list
  }

  lemma FileListExact(f: File)
    requires FileOccurrences(f, 0).ok
    ensures forall o :: o in FileOccurrences(f, 0).list <==> FileOccurs(f, o)
  {
    OccurrencesExact(f, 0);
    forall o | FileOccurs(f, o) ensures o in FileOccurrences(f, 0).list {
      assert o == Source(f.name, o.document, o.location, ImageIn(f, o.document, o.location).text);
    }
  }

  lemma {:induction false} DeployedExact(files: seq<File>, n: nat)
    requires n <= |files| && forall f | f in files[..n] :: FileOccurrences(f, 0).ok
    ensures forall o :: o in Deployed(files, n) <==> exists f | f in files[..n] :: FileOccurs(f, o)
  {
    if n > 0 {
      assert files[..n] == files[..n - 1] + [files[n - 1]];
      assert forall f | f in files[..n - 1] :: f in files[..n];
      DeployedExact(files, n - 1);
      FileListExact(files[n - 1]);
    }
  }

  /** Every Dockerfile in turn; those that are refused or missing are the errors. */
  method ReadDockerfiles(repo: Repo) returns (bases: seq<Base>, errors: seq<string>)
    ensures errors == [] <==> forall path | path in DOCKER_PATHS :: GoodDockerfileAt(repo, path)
    ensures errors == [] ==> forall path | path in DOCKER_PATHS :: InputsListedAt(repo, path, bases)
  {
    bases, errors := [], [];
    for k := 0 to |DOCKER_PATHS|
      invariant errors == [] <==> forall j | 0 <= j < k :: GoodDockerfileAt(repo, DOCKER_PATHS[j])
      invariant errors == [] ==> forall j | 0 <= j < k :: InputsListedAt(repo, DOCKER_PATHS[j], bases)
    {
      var path := DOCKER_PATHS[k];
      ghost var before := bases;
      var ok := path in repo.dockerfiles;
      if ok {
        bases, ok := AuditDockerfile(path, repo.dockerfiles[path], Expected(path), bases);
      }
      if ok {
        forall j | 0 <= j < k && InputsListedAt(repo, DOCKER_PATHS[j], before)
          ensures InputsListedAt(repo, DOCKER_PATHS[j], bases)
        {
          StaysListed(repo, DOCKER_PATHS[j], before, bases);
        }
      } else {
        errors := errors + [path];
      }
    }
  }

  ghost predicate InputsListedAt(repo: Repo, path: string, bases: seq<Base>) {
    path in repo.dockerfiles && InputsListed(path, repo.dockerfiles[path], bases)
  }

  lemma StaysListed(repo: Repo, path: string, before: seq<Base>, bases: seq<Base>)
    requires InputsListedAt(repo, path, before) && before <= bases
    ensures InputsListedAt(repo, path, bases)
  {
    assert forall b | b in before :: b in bases;
  }

  ghost predicate InputsListed(path: string, lines: seq<Instruction>, bases: seq<Base>) {
    && FromsListed(path, Stages(lines), |Stages(lines)|, Expected(path), bases)
    && CopiesListed(path, lines, |lines|, Expected(path), bases)
  }

  /** Every deployment file in turn; those with a place the inventory cannot account for are the errors. */
  method ReadDeployment(pats: Patterns, repo: Repo)
      returns (tally: Tally, errors: seq<string>, ghost seen: seq<Source>)
    ensures Tallies(pats, tally, seen)
    ensures errors == [] <==> forall f | f in repo.deployment :: GoodFile(pats, f)
    ensures errors == [] ==> forall o :: o in seen <==> Occurs(repo, o)
  {
    RolesAreOutputs();
    tally, errors, seen := Tally(map r | r in ROLES :: [], map[]), [], [];
    for i := 0 to |repo.deployment|
      invariant Tallies(pats, tally, seen)
      invariant errors == [] <==> forall f | f in repo.deployment[..i] :: GoodFile(pats, f)
      invariant errors == [] ==> seen == Deployed(repo.deployment, i)
    {
      var f := repo.deployment[i];
      assert repo.deployment[..i + 1] == repo.deployment[..i] + [f];
      var ok;
      tally, ok, seen := ReadFile(pats, f, tally, seen);
      if !ok { errors := errors + [f.name]; }
    }
    assert repo.deployment[..|repo.deployment|] == repo.deployment;
    if errors == [] { AllOccur(pats, repo); }
  }

  lemma AllOccur(pats: Patterns, repo: Repo)
    requires forall f | f in repo.deployment :: GoodFile(pats, f)
    ensures forall o :: o in Deployed(repo.deployment, |repo.deployment|) <==> Occurs(repo, o)
  {
    forall f | f in repo.deployment ensures FileOccurrences(f, 0).ok { GoodFileExactWhen(pats, f); }
    assert repo.deployment[..|repo.deployment|] == repo.deployment;
    DeployedExact(repo.deployment, |repo.deployment|);
  }

  /** An inventory that is complete accounts for every image key and every build input. */
  ghost predicate Accounts(pats: Patterns, repo: Repo, built: map<Role, string>, plan: Plan) {
    && AllStoodFor(pats, repo, built, plan.targets)
    && (forall path | path in DOCKER_PATHS :: InputsListedAt(repo, path, plan.bases))
  }

  ghost predicate AllStoodFor(pats: Patterns, repo: Repo, built: map<Role, string>, targets: seq<Target>) {
    forall o | Occurs(repo, o) :: exists t | t in targets :: StandsFor(pats, built, t, o)
  }

  ghost predicate DeploysService(pats: Patterns, repo: Repo, reference: string) {
    MeaningOf(pats, reference) == ServiceImage && exists o :: Occurs(repo, o) && o.template == reference
  }

  /** The targets are the nine outputs and the references of the services deployed, and no others. */
  ghost predicate TargetsExact(pats: Patterns, repo: Repo, built: map<Role, string>, targets: seq<Target>) {
    && (forall r: Role | r != Service :: IsAudited(targets, built, r))
    && (forall t | t in targets && t.role != Service :: t.role in built && t.reference == built[t.role])
    && (forall t | t in targets && t.role == Service :: DeploysService(pats, repo, t.reference))
    && (forall r | DeploysService(pats, repo, r) :: exists t | t in targets :: t.role == Service && t.reference == r)
  }

  ghost predicate IsAudited(targets: seq<Target>, built: map<Role, string>, r: Role) {
    r in built && exists t | t in targets :: t.role == r && t.reference == built[r]
  }

  predicate Empty(tally: Tally) {
    tally.services == map[] && forall r | r in tally.outputs :: tally.outputs[r] == []
  }

  /** Every image key and every build input of the repository, as targets and bases. It is an error to
      miss one, or to find none at all. */
  method Inventory(pats: Patterns, repo: Repo, built: map<Role, string>) returns (plan: Option<Plan>)
    ensures plan.Some? <==> DistinctBuilt(built)
    ensures plan.Some? ==> (plan.value.errors == [] <==> Complete(pats, repo))
    ensures plan.Some? && plan.value.errors == [] ==>
      Accounts(pats, repo, built, plan.value) && TargetsExact(pats, repo, built, plan.value.targets)
  {
    if !DistinctBuilt(built) { return None; }
    var bases, refused := ReadDockerfiles(repo);
    var targets, errors := DeploymentTargets(pats, repo, built);
    plan := Some(Plan(targets, bases, refused + errors));
  }

  method DeploymentTargets(pats: Patterns, repo: Repo, built: map<Role, string>)
      returns (targets: seq<Target>, errors: seq<string>)
    requires DistinctBuilt(built)
    ensures errors == [] <==> (forall f | f in repo.deployment :: GoodFile(pats, f)) && exists o :: Occurs(repo, o)
    ensures errors == [] ==> AllStoodFor(pats, repo, built, targets) && TargetsExact(pats, repo, built, targets)
  {
    var tally, unread, seen := ReadDeployment(pats, repo);
    errors := unread + if Empty(tally) then ["no deployment service image inventory found"] else [];
    TalliesOutputs(pats, tally, seen);
    targets := Targets(tally, built);
    SomethingSeen(pats, tally, seen);
    if unread == [] { DeploymentExact(pats, repo, built, tally, seen, targets); }
  }

  lemma TalliesOutputs(pats: Patterns, tally: Tally, seen: seq<Source>)
    requires Tallies(pats, tally, seen)
    ensures forall r | r in ROLES :: r in tally.outputs
  {
    RolesAreOutputs();
  }

  lemma DeploymentExact(pats: Patterns, repo: Repo, built: map<Role, string>, tally: Tally, seen: seq<Source>,
      targets: seq<Target>)
    requires Tallies(pats, tally, seen) && (forall o :: o in seen <==> Occurs(repo, o))
    requires TargetsOf(targets, tally, built)
    ensures AllStoodFor(pats, repo, built, targets) && TargetsExact(pats, repo, built, targets)
    ensures seen != [] <==> exists o :: Occurs(repo, o)
  {
    TargetsAreExact(pats, repo, built, tally, seen, targets);
    EveryImageStandsFor(pats, repo, built, tally, seen, targets);
    assert seen != [] ==> seen[0] in seen;
  }

  lemma SomethingSeen(pats: Patterns, tally: Tally, seen: seq<Source>)
    requires Tallies(pats, tally, seen)
    ensures Empty(tally) <==> seen == []
  {
    if Empty(tally) {
      assert seen != [] ==> Noted(pats, tally, seen[0]);
    } else if tally.services != map[] {
      var r :| r in tally.services;
      assert tally.services[r][0] in seen;
    } else {
      var r :| r in tally.outputs && tally.outputs[r] != [];
      assert tally.outputs[r][0] in seen;
    }
  }

  lemma TargetsByRole(targets: seq<Target>, tally: Tally, built: map<Role, string>)
    requires TargetsOf(targets, tally, built)
    ensures forall r: Role | r != Service :: IsAudited(targets, built, r)
    ensures forall t | t in targets && t.role != Service :: t.role in built && t.reference == built[t.role]
    ensures forall t | t in targets && t.role == Service :: t.reference in tally.services
  {
    RolesAreOutputs();
    forall r: Role | r != Service
      ensures IsAudited(targets, built, r)
    {
      var k := Place(r);
      assert targets[k] in targets && targets[k].role == r && targets[k].reference == built[r];
    }
    forall k | 0 <= k < |targets|
      ensures if targets[k].role == Service then targets[k].reference in tally.services
              else targets[k].role in built && targets[k].reference == built[targets[k].role]
    {
      assert k < |ROLES| ==> ROLES[k] in ROLES;
    }
  }

  lemma TargetsAreExact(pats: Patterns, repo: Repo, built: map<Role, string>, tally: Tally, seen: seq<Source>,
      targets: seq<Target>)
    requires Tallies(pats, tally, seen) && (forall o :: o in seen <==> Occurs(repo, o))
    requires TargetsOf(targets, tally, built)
    ensures TargetsExact(pats, repo, built, targets)
  {
    TargetsByRole(targets, tally, built);
    ServicesAreExact(pats, repo, tally, seen);
    forall r | DeploysService(pats, repo, r) ensures exists t | t in targets :: t.role == Service && t.reference == r {
      assert Target(r, Service, tally.services[r]) in targets;
    }
  }

  lemma ServicesAreExact(pats: Patterns, repo: Repo, tally: Tally, seen: seq<Source>)
    requires Tallies(pats, tally, seen) && (forall o :: o in seen <==> Occurs(repo, o))
    ensures forall r :: r in tally.services <==> DeploysService(pats, repo, r)
  {
    forall r | r in tally.services ensures DeploysService(pats, repo, r) {
      var o := tally.services[r][0];
      assert o in seen && o.template == r;
    }
    forall r | DeploysService(pats, repo, r) ensures r in tally.services {
      var o :| Occurs(repo, o) && o.template == r;
      assert Noted(pats, tally, o);
    }
  }

  lemma EveryImageStandsFor(pats: Patterns, repo: Repo, built: map<Role, string>, tally: Tally, seen: seq<Source>,
      targets: seq<Target>)
    requires Tallies(pats, tally, seen) && (forall o :: o in seen <==> Occurs(repo, o))
    requires TargetsOf(targets, tally, built)
    ensures AllStoodFor(pats, repo, built, targets)
  {
    RolesAreOutputs();
    forall o | Occurs(repo, o) ensures exists t | t in targets :: StandsFor(pats, built, t, o) {
      assert Noted(pats, tally, o);
      match MeaningOf(pats, o.template)
      case Output(role) =>
        var k := Place(role);
        assert targets[k] in targets && StandsFor(pats, built, targets[k], o);
      case Unmapped =>
      case ServiceImage =>
        assert StandsFor(pats, built, Target(o.template, Service, tally.services[o.template]), o);
    }
  }
}
