/** What the machine of TenantPool guarantees each workspace. */
module TenantIsolation {
  import opened Options
  import opened Workspaces
  import opened SqlLogic
  import opened ForeignKeys
  import opened RlsPolicy
  import opened RlsCatalogue
  import opened TenantPool
  import opened TenantConsistency

  // ---- Non-interference -----------------------------------------------------------------------

  /** The transaction has written nothing unscoped and nothing while scoped to b. What scopes it has
      read under, or held without writing, does not matter. */
  predicate Stranger(t: Txn, b: OrgId) {
    t.Open? && Unscoped !in t.writers && Org(b) !in t.writers
  }

  /** And the referential actions of its deletes have reached no row of b. */
  predicate Foreign(t: Txn, b: OrgId) { Stranger(t, b) && b !in t.reached }

  /** A stored row of b. */
  predicate Owns(tables: set<string>, s: Store, k: Key, b: OrgId) {
    OrgTable(tables, k) && k in s && s[k].org == b
  }

  /** What writes do to b's rows: they store no row of b, but for b's own rows with fewer links; and
      they touch a row of b exactly when `reached` says so. */
  ghost predicate Traced(
    tables: set<string>, s: Store, writes: map<Key, Write>, b: OrgId, reached: bool)
  {
    && (forall k | k in writes && OrgTable(tables, k) && writes[k].Put? && writes[k].row.org == b ::
          Owns(tables, s, k, b) && writes[k].row.links.Keys < s[k].links.Keys)
    && ((exists k | k in writes :: Owns(tables, s, k, b)) <==> reached)
  }

  ghost predicate Sound(tables: set<string>, w: World, c: ConnId, b: OrgId) {
    var t := TxnOf(w, c);
    Stranger(t, b) ==> Traced(tables, w.store, t.writes, b, b in t.reached)
  }

  ghost predicate Inv(rules: Rules, tables: set<string>, w: World, b: OrgId) {
    FkInv(rules, w) && forall c :: Sound(tables, w, c, b)
  }

  lemma StartInv(rules: Rules, tables: set<string>, store: Store, b: OrgId)
    requires WellFormed(rules) && Consistent(store, rules)
    ensures Inv(rules, tables, Start(store), b)
  {
    StartFk(rules, store);
  }

  /** A delete by another workspace: its targets are not b's, its referential actions touch exactly
      the workspaces they reach. */
  lemma DeleteTraced(
    rules: Rules, snap: Store, tables: set<string>, targets: set<Key>, b: OrgId)
    requires WellFormed(rules) && targets <= snap.Keys && forall k | k in targets :: !Owns(tables, snap, k, b)
    ensures var gone := Closure(snap, rules, targets);
            Traced(tables, snap, DeleteWrites(snap, rules, gone), b,
                   b in ReachedBy(snap, rules, tables, targets, gone))
  {
    var gone := Closure(snap, rules, targets);
    ClosureCloses(snap, rules, targets);
    var writes := DeleteWrites(snap, rules, gone);
    forall k | k in writes && writes[k].Put? ensures writes[k].row.links.Keys < snap[k].links.Keys {
      LosesSome(snap, rules, gone, k);
    }
    forall k
      ensures (k in writes && Owns(tables, snap, k, b)) <==>
              (Owns(tables, snap, k, b) && (k in gone - targets || k in Losers(snap, rules, gone)))
    {
    }
  }

  lemma LosesSome(snap: Store, rules: Rules, gone: set<Key>, k: Key)
    requires WellFormed(rules) && k in Losers(snap, rules, gone)
    ensures (snap[k].links - Cleared(snap, rules, gone, k)).Keys < snap[k].links.Keys
  {
    var column :| column in Cleared(snap, rules, gone, k);
    assert column in snap[k].links;
  }

  lemma NoWritesTraced(tables: set<string>, snap: Store, b: OrgId)
    ensures Traced(tables, snap, map[], b, false)
  {
  }

  /** Rows written directly: neither before nor after are they b's. */
  lemma DirectTraced(tables: set<string>, snap: Store, writes: map<Key, Write>, b: OrgId)
    requires forall k | k in writes && OrgTable(tables, k) ::
      !Owns(tables, snap, k, b) && (writes[k].Put? ==> writes[k].row.org != b)
    ensures Traced(tables, snap, writes, b, false)
  {
  }

  /** What one statement of another workspace does to b's rows. */
  lemma ApplyTraced(
    rules: Rules, snap: Store, locks: Locks, tables: set<string>, a: OrgId, stmt: Stmt, b: OrgId)
    requires WellFormed(rules) && a != b
    ensures var o := Apply(rules, snap, locks, ByScope(tables, Org(a)), stmt);
            Traced(tables, snap, o.writes, b, b in o.reached)
  {
    var o := Apply(rules, snap, locks, ByScope(tables, Org(a)), stmt);
    NothingReached(rules, snap, locks, ByScope(tables, Org(a)), stmt);
    if o.writes == map[] {
      NoWritesTraced(tables, snap, b);
    } else if stmt.Delete? {
      DeleteTraced(rules, snap, tables, Targets(ByScope(tables, Org(a)), snap, stmt.keys), b);
    } else {
      WritesElsewhere(rules, snap, locks, tables, a, stmt, b);
      DirectTraced(tables, snap, o.writes, b);
    }
  }

  /** USING keeps an update off the rows of b, WITH CHECK keeps what is stored out of b. */
  lemma WritesElsewhere(
    rules: Rules, snap: Store, locks: Locks, tables: set<string>, a: OrgId, stmt: Stmt, b: OrgId)
    requires !stmt.Delete? && a != b
    ensures var o := Apply(rules, snap, locks, ByScope(tables, Org(a)), stmt);
            forall k | k in o.writes && OrgTable(tables, k) ::
              !Owns(tables, snap, k, b) && (o.writes[k].Put? ==> o.writes[k].row.org != b)
  {
  }

  /** Writes after writes. */
  lemma TracedMore(
    tables: set<string>, store: Store, writes: map<Key, Write>, more: map<Key, Write>, b: OrgId, was: bool, now: bool)
    requires Traced(tables, store, writes, b, was) && Traced(tables, Overlay(store, writes), more, b, now)
    ensures Traced(tables, store, writes + more, b, was || now)
  {
  }

  /** A statement that writes, of a transaction that stays a stranger to b, ran scoped to another
      workspace. */
  lemma WriterIsElsewhere(t: Txn, b: OrgId)
    requires t.Open? && Stranger(t.(writers := t.writers + {t.scope}), b)
    ensures Stranger(t, b) && t.scope.Org? && t.scope.id != b
  {
  }

  lemma DoSound(rules: Rules, tables: set<string>, w: World, e: Event, b: OrgId)
    requires Inv(rules, tables, w, b) && e.Do? && TxnOf(w, e.c).Open? && !TxnOf(w, e.c).failed
    ensures Sound(tables, IdealStep(rules, tables, w, e).0, e.c, b)
  {
    var t, v := TxnOf(w, e.c), IdealStep(rules, tables, w, e).0;
    var o := DoAdds(rules, tables, w, e);
    if Stranger(TxnOf(v, e.c), b) {
      assert Sound(tables, w, e.c, b);
      if o.writes == map[] {
        NothingReached(rules, Overlay(w.store, t.writes), LocksOf(rules, w, e.c), ByScope(tables, t.scope), e.stmt);
        assert t.writes + o.writes == t.writes && t.reached + o.reached == t.reached;
      } else {
        WriterIsElsewhere(t, b);
        ApplyTraced(rules, Overlay(w.store, t.writes), LocksOf(rules, w, e.c), tables, t.scope.id, e.stmt, b);
        TracedMore(tables, w.store, t.writes, o.writes, b, b in t.reached, b in o.reached);
      }
    }
  }

  lemma NothingReached(rules: Rules, snap: Store, locks: Locks, g: Guard, stmt: Stmt)
    ensures var o := Apply(rules, snap, locks, g, stmt); o.writes == map[] || !stmt.Delete? ==> o.reached == {}
  {
    if stmt.Delete? {
      var targets := Targets(g, snap, stmt.keys);
      ClosureCloses(snap, rules, targets);
      ReachedAreWritten(rules, snap, Policed(g), targets, Closure(snap, rules, targets));
    }
  }

  lemma ReachedAreWritten(rules: Rules, snap: Store, tables: set<string>, targets: set<Key>, gone: set<Key>)
    ensures DeleteWrites(snap, rules, gone) == map[] ==> ReachedBy(snap, rules, tables, targets, gone) == {}
  {
    forall k | k in snap && (k in gone || k in Losers(snap, rules, gone))
      ensures k in DeleteWrites(snap, rules, gone)
    {
    }
  }

  /** A commit by another leaves the record of a transaction's own writes true: no key is written by
      both. */
  lemma TracedCommit(
    tables: set<string>, store: Store, mine: map<Key, Write>, theirs: map<Key, Write>, b: OrgId, reached: bool)
    requires Traced(tables, store, mine, b, reached) && mine.Keys !! theirs.Keys
    ensures Traced(tables, Overlay(store, theirs), mine, b, reached)
  {
    assert forall k | k in mine :: Owns(tables, Overlay(store, theirs), k, b) <==> Owns(tables, store, k, b);
  }

  lemma StepSound(rules: Rules, tables: set<string>, w: World, e: Event, b: OrgId, c: ConnId)
    requires Inv(rules, tables, w, b)
    ensures Sound(tables, IdealStep(rules, tables, w, e).0, c, b)
  {
    var t := TxnOf(w, e.c);
    assert Sound(tables, w, c, b) && Apart(rules, w, c, e.c);
    if e.Do? && t.Open? && !t.failed {
      if c == e.c { DoSound(rules, tables, w, e, b); }
    } else if e.Commit? && t.Open? && !t.failed && c != e.c {
      if Stranger(TxnOf(w, c), b) {
        TracedCommit(tables, w.store, TxnOf(w, c).writes, t.writes, b, b in TxnOf(w, c).reached);
      }
    }
  }

  lemma StepInv(rules: Rules, tables: set<string>, w: World, e: Event, b: OrgId)
    requires Inv(rules, tables, w, b)
    ensures Inv(rules, tables, IdealStep(rules, tables, w, e).0, b)
  {
    StepFk(rules, tables, w, e);
    forall c ensures Sound(tables, IdealStep(rules, tables, w, e).0, c, b) {
      StepSound(rules, tables, w, e, b, c);
    }
  }

  lemma {:induction false} RunInv(rules: Rules, tables: set<string>, w: World, es: seq<Event>, b: OrgId)
    requires Inv(rules, tables, w, b)
    ensures Inv(rules, tables, IdealRun(rules, tables, w, es).0, b)
    decreases |es|
  {
    if es != [] {
      StepInv(rules, tables, w, es[0], b);
      RunInv(rules, tables, IdealStep(rules, tables, w, es[0]).0, es[1..], b);
    }
  }

  // ---- What workspace b sees ------------------------------------------------------------------

  /** What a SELECT by b's transaction shows: rows and, for `users`, the ids (the person's own row
      may be edited by any workspace they belong to). */
  function Shown(s: Store, table: string, b: OrgId): Store {
    map k | k in s && k.table == table && InScope(s, k, s[k], b) :: s[k]
  }

  ghost predicate SameView(s: Store, t: Store, table: string, b: OrgId) {
    if table == "users" then Shown(s, table, b).Keys == Shown(t, table, b).Keys
    else Shown(s, table, b) == Shown(t, table, b)
  }

  /** The key that links memberships to people. */
  predicate MembersLinked(rules: Rules) {
    Col("memberships", "user_id") in rules && rules[Col("memberships", "user_id")].parent == "users"
  }

  /** Writes that touch no row of b, committed under one's own, keep b's rows as they were. */
  lemma RowUnseen(
    tables: set<string>, store: Store, mine: map<Key, Write>, theirs: map<Key, Write>, k: Key, b: OrgId)
    requires Traced(tables, store, theirs, b, false) && OrgTable(tables, k)
    ensures var s, t := Overlay(store, mine), Overlay(Overlay(store, theirs), mine);
            (Owns(tables, s, k, b) <==> Owns(tables, t, k, b)) && (Owns(tables, s, k, b) ==> s[k] == t[k])
  {
    assert k in theirs ==> !Owns(tables, store, k, b);
  }

  /** With memberships linked to people, who b's people are depends on b's membership rows alone. */
  lemma MembersFromLinks(rules: Rules, s: Store, t: Store, id: string, b: OrgId)
    requires MembersLinked(rules) && Consistent(s, rules) && Consistent(t, rules)
    requires forall k | k in s && k.table == "memberships" && s[k].org == b :: k in t && t[k] == s[k]
    ensures RowId("users", id) in Shown(s, "users", b) ==> RowId("users", id) in Shown(t, "users", b)
  {
    if RowId("users", id) in Shown(s, "users", b) {
      var m :| m in s && m.table == "memberships" && Joins(s[m], id) && s[m].org == b;
      assert LinkHolds(t, rules, Col("memberships", "user_id"), t[m]);
    }
  }

  lemma SamePeople(rules: Rules, s: Store, t: Store, b: OrgId)
    requires MembersLinked(rules) && Consistent(s, rules) && Consistent(t, rules)
    requires forall k: Key | k.table == "memberships" ::
      (k in s && s[k].org == b <==> k in t && t[k].org == b) && (k in s && s[k].org == b ==> s[k] == t[k])
    ensures SameView(s, t, "users", b)
  {
    forall k: Key ensures k in Shown(s, "users", b) <==> k in Shown(t, "users", b) {
      MembersFromLinks(rules, s, t, k.id, b);
      MembersFromLinks(rules, t, s, k.id, b);
      assert k.table == "users" ==> k == RowId("users", k.id);
    }
  }

  /** The tables whose view is settled: one with a policy; for `users`, the memberships too, and
      linked. */
  predicate Settled(rules: Rules, tables: set<string>, table: string) {
    table in tables && (table == "users" ==> "memberships" in tables && MembersLinked(rules))
  }

  /** A commit that touches no row of b leaves what b's transaction sees as it was. */
  lemma CommitUnseen(
    rules: Rules, tables: set<string>, store: Store, mine: map<Key, Write>, theirs: map<Key, Write>,
    table: string, b: OrgId)
    requires Settled(rules, tables, table) && Traced(tables, store, theirs, b, false)
    requires Consistent(Overlay(store, mine), rules) && Consistent(Overlay(Overlay(store, theirs), mine), rules)
    ensures SameView(Overlay(store, mine), Overlay(Overlay(store, theirs), mine), table, b)
  {
    var s, t := Overlay(store, mine), Overlay(Overlay(store, theirs), mine);
    forall k: Key | OrgTable(tables, k)
      ensures k in s && s[k].org == b <==> k in t && t[k].org == b
      ensures k in s && s[k].org == b ==> s[k] == t[k]
    {
      RowUnseen(tables, store, mine, theirs, k, b);
    }
    if table == "users" {
      SamePeople(rules, s, t, b);
    } else {
      assert Shown(s, table, b) == Shown(t, table, b);
    }
  }

  /** A commit that touches a row of b changes what b sees of that row's table. */
  lemma CommitSeen(
    tables: set<string>, store: Store, mine: map<Key, Write>, theirs: map<Key, Write>, b: OrgId) returns (k: Key)
    requires Traced(tables, store, theirs, b, true) && mine.Keys !! theirs.Keys
    ensures OrgTable(tables, k) && !SameView(Overlay(store, mine), Overlay(Overlay(store, theirs), mine), k.table, b)
  {
    k :| k in theirs && Owns(tables, store, k, b);
    var s, t := Overlay(store, mine), Overlay(Overlay(store, theirs), mine);
    assert k in Shown(s, k.table, b) && Shown(s, k.table, b)[k] == store[k];
    assert k in Shown(t, k.table, b) ==> Shown(t, k.table, b)[k] != store[k];
  }

  // ---- Whole runs -------------------------------------------------------------------------------

  /** Does the event come from elsewhere: another connection, committing nothing but the work of
      transactions that wrote only while scoped to other workspaces, and whose deletes reached no row
      of b? */
  predicate FromElsewhere(w: World, e: Event, d: ConnId, b: OrgId) {
    var t := TxnOf(w, e.c);
    e.c != d && (e.Commit? && t.Open? && !t.failed ==> Foreign(t, b))
  }

  lemma StepUnseen(
    rules: Rules, tables: set<string>, w: World, e: Event, d: ConnId, table: string, b: OrgId)
    requires Settled(rules, tables, table) && Inv(rules, tables, w, b)
    requires FromElsewhere(w, e, d, b) && TxnOf(w, d).Open?
    ensures var v := IdealStep(rules, tables, w, e).0;
            TxnOf(v, d) == TxnOf(w, d) &&
            SameView(Overlay(w.store, TxnOf(w, d).writes), Overlay(v.store, TxnOf(v, d).writes), table, b)
  {
    var v := IdealStep(rules, tables, w, e).0;
    if e.Commit? && TxnOf(w, e.c).Open? && !TxnOf(w, e.c).failed {
      StepFk(rules, tables, w, e);
      assert Sound(tables, w, e.c, b);
      assert Consistent(Overlay(w.store, WritesOf(w, d)), rules) && Consistent(Overlay(v.store, WritesOf(v, d)), rules);
      CommitUnseen(rules, tables, w.store, TxnOf(w, d).writes, TxnOf(w, e.c).writes, table, b);
    }
  }

  /** Every event of the run comes from elsewhere, seen from connection d of workspace b. */
  predicate RunFromElsewhere(
    rules: Rules, tables: set<string>, w: World, es: seq<Event>, d: ConnId, b: OrgId)
    decreases |es|
  {
    es != [] ==> FromElsewhere(w, es[0], d, b) &&
                 RunFromElsewhere(rules, tables, IdealStep(rules, tables, w, es[0]).0, es[1..], d, b)
  }

  lemma {:induction false} RunUnseen(
    rules: Rules, tables: set<string>, w: World, es: seq<Event>, d: ConnId, table: string, b: OrgId)
    requires Settled(rules, tables, table) && Inv(rules, tables, w, b)
    requires RunFromElsewhere(rules, tables, w, es, d, b) && TxnOf(w, d).Open?
    ensures var v := IdealRun(rules, tables, w, es).0;
            TxnOf(v, d) == TxnOf(w, d) &&
            SameView(Overlay(w.store, TxnOf(w, d).writes), Overlay(v.store, TxnOf(v, d).writes), table, b)
    decreases |es|
  {
    if es != [] {
      StepInv(rules, tables, w, es[0], b);
      StepUnseen(rules, tables, w, es[0], d, table, b);
      RunUnseen(rules, tables, IdealStep(rules, tables, w, es[0]).0, es[1..], d, table, b);
    }
  }

  /** Non-interference over whole runs of the real machine, policies repaired, under any foreign keys:
      after any history whatever, let d hold a transaction scoped to b, and let any events come from
      elsewhere. A SELECT by d on a tenant table then answers as it would have before them (for
      `users`, the same people). */
  lemma WorkspacesDoNotInterfere(
    rules: Rules, cat: Policies, store: Store, before: seq<Event>, during: seq<Event>, d: ConnId, table: string,
    b: OrgId)
    requires Mixed(cat) && Settled(rules, cat.Keys, table) && WellFormed(rules) && Consistent(store, rules)
    requires var w := IdealRun(rules, cat.Keys, Start(store), before).0;
             TxnOf(w, d).Open? && !TxnOf(w, d).failed && ScopeOf(w, d) == Org(b) &&
             RunFromElsewhere(rules, cat.Keys, w, during, d, b)
    ensures var fixed := Repaired(cat);
            var p := PoolRun(rules, fixed, PoolStart(store), before).0;
            var q := PoolRun(rules, fixed, p, during).0;
            var select := Do(d, Select(table));
            SameAnswer(PoolStep(rules, fixed, p, select).1, PoolStep(rules, fixed, q, select).1, table)
  {
    RepairFixesAll(cat);
    var fixed := Repaired(cat);
    var w := IdealRun(rules, cat.Keys, Start(store), before).0;
    RunRefines(rules, fixed, PoolStart(store), Start(store), before);
    var p := PoolRun(rules, fixed, PoolStart(store), before).0;
    RunRefines(rules, fixed, p, w, during);
    var q, v := PoolRun(rules, fixed, p, during).0, IdealRun(rules, cat.Keys, w, during).0;
    StartInv(rules, cat.Keys, store, b);
    RunInv(rules, cat.Keys, Start(store), before, b);
    RunUnseen(rules, cat.Keys, w, during, d, table, b);
    ScopedSelect(rules, fixed, p, w, d, table, b);
    ScopedSelect(rules, fixed, q, v, d, table, b);
  }

  /** Two answers to one query: the same rows, or on `users` the same people. */
  predicate SameAnswer(x: Reply, y: Reply, table: string) {
    x.Rows? && y.Rows? && (if table == "users" then x.rows.Keys == y.rows.Keys else x.rows == y.rows)
  }

  /** The condition on deletes is exact. In any state any run reaches, let b's transaction be open and
      let a transaction commit that wrote only while scoped to other workspaces: then some query of
      b's on a table that compares its own workspace column is answered differently after the commit
      if and only if the referential actions of that transaction's deletes reached a row of b. */
  lemma CommitSeenExactlyWhenReached(
    rules: Rules, cat: Policies, store: Store, before: seq<Event>, c: ConnId, d: ConnId, b: OrgId)
    requires Mixed(cat) && WellFormed(rules) && Consistent(store, rules) && c != d
    requires var w := IdealRun(rules, cat.Keys, Start(store), before).0;
             TxnOf(w, d).Open? && !TxnOf(w, d).failed && ScopeOf(w, d) == Org(b) &&
             Stranger(TxnOf(w, c), b) && !TxnOf(w, c).failed
    ensures var w := IdealRun(rules, cat.Keys, Start(store), before).0;
            var fixed := Repaired(cat);
            var p := PoolRun(rules, fixed, PoolStart(store), before).0;
            var q := PoolStep(rules, fixed, p, Commit(c)).0;
            (exists table | table in cat && table != "users" ::
              !SameAnswer(PoolStep(rules, fixed, p, Do(d, Select(table))).1,
                          PoolStep(rules, fixed, q, Do(d, Select(table))).1, table))
            <==> b in TxnOf(w, c).reached
  {
    RepairFixesAll(cat);
    var fixed, w := Repaired(cat), IdealRun(rules, cat.Keys, Start(store), before).0;
    RunRefines(rules, fixed, PoolStart(store), Start(store), before);
    var p := PoolRun(rules, fixed, PoolStart(store), before).0;
    StartInv(rules, cat.Keys, store, b);
    RunInv(rules, cat.Keys, Start(store), before, b);
    StepRefines(rules, fixed, p, w, Commit(c));
    var q, v := PoolStep(rules, fixed, p, Commit(c)).0, IdealStep(rules, cat.Keys, w, Commit(c)).0;
    var mine, theirs := TxnOf(w, d).writes, TxnOf(w, c).writes;
    forall table | table in cat && table != "users"
      ensures SameAnswer(PoolStep(rules, fixed, p, Do(d, Select(table))).1,
                         PoolStep(rules, fixed, q, Do(d, Select(table))).1, table)
         <==> SameView(Overlay(w.store, mine), Overlay(v.store, mine), table, b)
    {
      ScopedSelect(rules, fixed, p, w, d, table, b);
      ScopedSelect(rules, fixed, q, v, d, table, b);
    }
    assert Sound(cat.Keys, w, c, b) && Apart(rules, w, d, c);
    if b in TxnOf(w, c).reached {
      var k := CommitSeen(cat.Keys, w.store, mine, theirs, b);
    } else {
      forall table | table in cat && table != "users"
        ensures SameView(Overlay(w.store, mine), Overlay(v.store, mine), table, b)
      {
        StepUnseen(rules, cat.Keys, w, Commit(c), d, table, b);
      }
    }
  }

  /** Connection c serves requests of workspace a: a transaction may begin unscoped and look up what
      it likes, then adopts a; it writes only once it has. */
  predicate Serves(rules: Rules, tables: set<string>, w: World, es: seq<Event>, c: ConnId, a: OrgId)
    decreases |es|
  {
    es != [] ==>
      var e := es[0];
      && (e.c == c && (e.Begin? || e.Adopt?) ==> e.scope == Unscoped || e.scope == Org(a))
      && (e.c == c && e.Do? ==> e.stmt.Select? || ScopeOf(w, c) == Org(a))
      && Serves(rules, tables, IdealStep(rules, tables, w, e).0, es[1..], c, a)
  }

  /** Whatever such a connection reads and writes, interleaved with whatever else, its transactions
      stay strangers to every other workspace. */
  lemma {:induction false} RequestsAreStrangers(
    rules: Rules, tables: set<string>, w: World, es: seq<Event>, c: ConnId, a: OrgId, b: OrgId)
    requires Serves(rules, tables, w, es, c, a) && a != b
    requires TxnOf(w, c).Open? ==> Stranger(TxnOf(w, c), b)
    ensures var v := IdealRun(rules, tables, w, es).0; TxnOf(v, c).Open? ==> Stranger(TxnOf(v, c), b)
    decreases |es|
  {
    if es != [] {
      RequestsAreStrangers(rules, tables, IdealStep(rules, tables, w, es[0]).0, es[1..], c, a, b);
    }
  }

  /** A scoped SELECT on the real machine shows exactly the workspace's rows (its members, for
      `users`), whatever the connection's past; on a table without a policy, every row. */
  lemma ScopedSelect(
    rules: Rules, cat: Policies, p: Pool, w: World, d: ConnId, table: string, b: OrgId)
    requires Uniform(cat, UNSET) && Related(p, w)
    requires TxnOf(w, d).Open? && !TxnOf(w, d).failed && ScopeOf(w, d) == Org(b)
    ensures var s := Overlay(w.store, TxnOf(w, d).writes);
            PoolStep(rules, cat, p, Do(d, Select(table))).1
            == Rows(if table in cat then Shown(s, table, b) else map k | k in s && k.table == table :: s[k])
  {
    StepRefines(rules, cat, p, w, Do(d, Select(table)));
    var s := Overlay(w.store, TxnOf(w, d).writes);
    var shown := map k | k in s && k.table == table && Sees(ByScope(cat.Keys, Org(b)), s, k, s[k]) :: s[k];
    assert shown == if table in cat then Shown(s, table, b) else map k | k in s && k.table == table :: s[k];
  }

  // ---- The create-user window -----------------------------------------------------------------

  /** A workspace inserts a person naming itself as their active workspace: the insert is admitted,
      yet nobody scoped sees the person, their own creator included, until the membership row
      arrives; and an insert naming another workspace is refused. */
  lemma CreateUserWindow(
    rules: Rules, cat: Policies, snap: Store, org: OrgId, u: string, m: string, row: Row, link: Row)
    requires Uniform(cat, UNSET) && {"users", "memberships"} <= cat.Keys
    requires MembersLinked(rules) && Consistent(snap, rules)
    requires RowId("users", u) !in snap && RowId("memberships", m) !in snap
    requires link.org == org && Joins(link, u)
    requires ChecksPass(rules, snap[RowId("users", u) := row], {RowId("users", u)})
    requires ChecksPass(rules, snap[RowId("users", u) := row][RowId("memberships", m) := link], {RowId("memberships",
        m)})
    ensures var g := ByPolicy(cat, Text(org));
            var user, member := RowId("users", u), RowId("memberships", m);
            var first := Apply(rules, snap, NO_LOCKS, g, Insert(user, row));
            (first.reply == if row.org == org then Done({user}) else Refused) &&
            (row.org == org ==>
              var s1 := Overlay(snap, first.writes);
              var second := Apply(rules, s1, NO_LOCKS, g, Insert(member, link));
              var s2 := Overlay(s1, second.writes);
              (forall b: OrgId :: !Sees(ByPolicy(cat, Text(b)), s1, user, s1[user])) &&
              second.reply == Done({member}) &&
              (forall b: OrgId :: Sees(ByPolicy(cat, Text(b)), s2, user, s2[user]) <==> b == org))
  {
    var user, member := RowId("users", u), RowId("memberships", m);
    GuardsAgree(cat, Text(org), Org(org), snap, user, row);
    if row.org == org {
      var s1 := snap[user := row];
      var s2 := s1[member := link];
      AdmittedInsert(rules, cat, snap, org, user, row);
      GuardsAgree(cat, Text(org), Org(org), s1, member, link);
      AdmittedInsert(rules, cat, s1, org, member, link);
      forall b: OrgId
        ensures !Sees(ByPolicy(cat, Text(b)), s1, user, s1[user])
        ensures Sees(ByPolicy(cat, Text(b)), s2, user, s2[user]) <==> b == org
      {
        GuardsAgree(cat, Text(b), Org(b), s1, user, s1[user]);
        GuardsAgree(cat, Text(b), Org(b), s2, user, s2[user]);
        OneMembership(rules, snap, u, m, row, link, b);
      }
    }
  }

  lemma AdmittedInsert(rules: Rules, cat: Policies, snap: Store, org: OrgId, key: Key, row: Row)
    requires Admits(ByPolicy(cat, Text(org)), snap, key, row) && key !in snap
    requires ChecksPass(rules, snap[key := row], {key})
    ensures var o := Apply(rules, snap, NO_LOCKS, ByPolicy(cat, Text(org)), Insert(key, row));
            o.reply == Done({key}) && Overlay(snap, o.writes) == snap[key := row]
  {
  }

  /** A person nobody links to yet belongs nowhere, and after one membership row to its workspace. */
  lemma OneMembership(
    rules: Rules, snap: Store, u: string, m: string, row: Row, link: Row, b: OrgId)
    requires MembersLinked(rules) && Consistent(snap, rules) && Joins(link, u)
    requires RowId("users", u) !in snap && RowId("memberships", m) !in snap
    ensures var s1 := snap[RowId("users", u) := row];
            !HasMembership(s1, u, b) &&
            (HasMembership(s1[RowId("memberships", m) := link], u, b) <==> b == link.org)
  {
    forall k | k in snap && k.table == "memberships" ensures !Joins(snap[k], u) {
      assert LinkHolds(snap, rules, Col("memberships", "user_id"), snap[k]);
    }
    var s2 := snap[RowId("users", u) := row][RowId("memberships", m) := link];
    assert s2[RowId("memberships", m)] == link;
  }
}
