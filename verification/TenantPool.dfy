/** Transactions of many workspaces interleaved on reused connections, under the row-level
policies: the machine the policies run in, and an ideal machine that simply carries each
transaction's scope. */
module TenantPool {
  import opened Options
  import opened Workspaces
  import opened SqlLogic
  import opened ForeignKeys
  import opened RlsPolicy
  import opened RlsCatalogue

  // ---- The setting on one physical connection -------------------------------------------------

  /** `base` is what the setting reads outside any transaction that set it; `local` is the value a
      running transaction set, Null when it set none. */
  datatype Guc = Guc(base: Value, local: Value)

  const VIRGIN := Guc(Null, Null)

  function Current(g: Guc): Value { if g.local.Text? then g.local else g.base }

  function SetLocal(g: Guc, org: OrgId): Guc { g.(local := Text(org)) }

  /** The sticky rule: a setting once touched reads '' from then on, never NULL again. */
  function EndTxn(g: Guc): Guc { if g.local.Text? then Guc(Text(""), Null) else g }

  // ---- Rows and transactions ------------------------------------------------------------------

  type Key = RowId
  type Store = Rows

  datatype Scope = Unscoped | Org(id: OrgId)

  datatype Write = Put(row: Row) | Gone

  /** An open transaction's uncommitted writes, the scope it now has, every scope it has written
      under, every workspace whose rows the referential actions of its deletes have reached, and
      whether a statement of it failed (after which it can only end). */
  datatype Txn =
    | Idle
    | Open(writes: map<Key, Write>, scope: Scope, writers: set<Scope>, reached: set<OrgId>, failed: bool)

  type ConnId = string

  datatype World = World(store: Store, txns: map<ConnId, Txn>)

  function TxnOf(w: World, c: ConnId): Txn { if c in w.txns then w.txns[c] else Idle }

  /** The committed rows under a transaction's own writes: what READ COMMITTED shows it. */
  function Overlay(store: Store, writes: map<Key, Write>): Store {
    map k | k in store.Keys + writes.Keys && (k in writes ==> writes[k].Put?) ::
      if k in writes then writes[k].row else store[k]
  }

  // ---- Locks ------------------------------------------------------------------------------------

  /** The row a link names. */
  function ParentOf(rules: Rules, col: Col, row: Row): Option<Key>
    requires col in rules
  {
    match LinkOf(row, col.column)
    case Some(id) => Some(RowId(rules[col].parent, id))
    case None => None
  }

  /** The rows that written rows name: the referential checks hold them share-locked. */
  function Named(rules: Rules, writes: map<Key, Write>): set<Key> {
    set k, col | k in writes && writes[k].Put? && col in rules && col.table == k.table
                 && ParentOf(rules, col, writes[k].row).Some? :: ParentOf(rules, col, writes[k].row).value
  }

  /** The stored rows that writes delete or move to another workspace: others may not name these. */
  function Rekeyed(store: Store, writes: map<Key, Write>): set<Key> {
    set k | k in writes && k in store && (writes[k].Put? ==> writes[k].row.org != store[k].org)
  }

  function WritesOf(w: World, c: ConnId): map<Key, Write> {
    if TxnOf(w, c).Open? then TxnOf(w, c).writes else map[]
  }

  /** What the other open transactions hold: rows written, rows named, rows deleted or moved. */
  datatype Locks = Locks(busy: set<Key>, named: set<Key>, rekeyed: set<Key>)

  const NO_LOCKS := Locks({}, {}, {})

  function LocksOf(rules: Rules, w: World, c: ConnId): Locks {
    Locks(set d, k | d in w.txns && d != c && k in WritesOf(w, d) :: k,
          set d, k | d in w.txns && d != c && k in Named(rules, WritesOf(w, d)) :: k,
          set d, k | d in w.txns && d != c && k in Rekeyed(w.store, WritesOf(w, d)) :: k)
  }

  /** May a statement that sees snap take the locks it needs? */
  predicate Free(rules: Rules, snap: Store, locks: Locks, writes: map<Key, Write>) {
    writes.Keys !! locks.busy && Named(rules, writes) !! locks.rekeyed && Rekeyed(snap, writes) !! locks.named
  }

  // ---- Who sees and who may write what --------------------------------------------------------

  /** A statement is guarded by the policies under the connection's setting, or, in the ideal
      machine, by the transaction's scope on the tables that have a policy at all. A table without
      one has row security off: everybody sees and writes all of it. */
  datatype Guard = ByPolicy(cat: Policies, setting: Value) | ByScope(tables: set<string>, scope: Scope)

  function RowRecord(k: Key, row: Row): Record { map["id" := Text(k.id), "org_id" := Text(row.org)] }

  function MemberRecord(row: Row): Record {
    map["m.user_id" := (if "user_id" in row.links then Text(row.links["user_id"]) else Null),
        "m.org_id" := Text(row.org)]
  }

  /** The membership row links a person. */
  predicate Joins(row: Row, user: string) { "user_id" in row.links && row.links["user_id"] == user }

  /** The memberships a policy's subquery ranges over: that query is itself under row security. */
  function MemberRows(cat: Policies, setting: Value, snap: Store): set<Record> {
    set k | k in snap && k.table == "memberships"
            && ("memberships" in cat ==> Selects(cat["memberships"].using, Env(RowRecord(k, snap[k]), setting, {})))
          :: MemberRecord(snap[k])
  }

  function PolicyEnv(cat: Policies, setting: Value, snap: Store, k: Key, row: Row): Env {
    Env(RowRecord(k, row), setting, MemberRows(cat, setting, snap))
  }

  predicate HasMembership(snap: Store, user: string, org: string) {
    exists m | m in snap :: m.table == "memberships" && Joins(snap[m], user) && snap[m].org == org
  }

  predicate InScope(snap: Store, k: Key, row: Row, org: string) {
    if k.table == "users" then HasMembership(snap, k.id, org) else row.org == org
  }

  /** USING: is the stored row visible to the statement? */
  predicate Sees(g: Guard, snap: Store, k: Key, row: Row) {
    match g
    case ByPolicy(cat, setting) =>
      k.table in cat ==> Selects(cat[k.table].using, PolicyEnv(cat, setting, snap, k, row))
    case ByScope(tables, scope) =>
      k.table in tables && scope.Org? ==> InScope(snap, k, row, scope.id)
  }

  /** WITH CHECK: may the statement store this row? */
  predicate Admits(g: Guard, snap: Store, k: Key, row: Row) {
    match g
    case ByPolicy(cat, setting) =>
      k.table in cat ==> Selects(cat[k.table].check, PolicyEnv(cat, setting, snap, k, row))
    case ByScope(tables, scope) =>
      k.table in tables && scope.Org? ==> row.org == scope.id || InScope(snap, k, row, scope.id)
  }

  // ---- Statements -----------------------------------------------------------------------------

  /** `early` says, of a delete, that a RESTRICT check ran before a cascade took its row away. */
  datatype Stmt =
    | Select(table: string)
    | Insert(key: Key, row: Row)
    | Update(images: map<Key, Row>)   // the new image of each row the statement would touch
    | Delete(keys: set<Key>, early: bool)

  datatype Reply = Rows(rows: Store) | Done(keys: set<Key>) | Refused | Waits | NoTransaction | Ok

  datatype Outcome = Outcome(writes: map<Key, Write>, reached: set<OrgId>, reply: Reply)

  function Nothing(reply: Reply): Outcome { Outcome(map[], {}, reply) }

  /** The referential checks of an insert or update: every link of a written row holds, and so does
      every link that names one. */
  predicate ChecksPass(rules: Rules, after: Store, written: set<Key>) {
    forall c, col | c in after && col in rules && c.table == col.table ::
      c in written || (ParentOf(rules, col, after[c]).Some? && ParentOf(rules, col, after[c]).value in written)
      ==> LinkHolds(after, rules, col, after[c])
  }

  function Policed(g: Guard): set<string> { if g.ByPolicy? then g.cat.Keys else g.tables }

  /** The survivors of a delete that lose a link. */
  function Losers(snap: Store, rules: Rules, gone: set<Key>): set<Key> {
    set c | c in snap && c !in gone && Cleared(snap, rules, gone, c) != {}
  }

  /** What a delete writes: the targets and all their cascades reach are gone, the losers lose their
      links. The referential actions ask no policy. */
  function DeleteWrites(snap: Store, rules: Rules, gone: set<Key>): map<Key, Write> {
    map k | k in gone + Losers(snap, rules, gone) && k in snap ::
      if k in gone then Gone else Put(snap[k].(links := snap[k].links - Cleared(snap, rules, gone, k)))
  }

  /** The tables that compare their own workspace column. */
  predicate OrgTable(tables: set<string>, k: Key) { k.table in tables && k.table != "users" }

  /** The workspaces whose rows a delete's referential actions reach. */
  function ReachedBy(snap: Store, rules: Rules, tables: set<string>, targets: set<Key>, gone: set<Key>): set<OrgId> {
    set k | k in snap && OrgTable(tables, k) && (k in gone - targets || k in Losers(snap, rules, gone)) :: snap[k].org
  }

  function Targets(g: Guard, snap: Store, keys: set<Key>): set<Key> {
    set k | k in keys && k in snap && Sees(g, snap, k, snap[k])
  }

  function WhenFree(rules: Rules, snap: Store, locks: Locks, o: Outcome): Outcome {
    if Free(rules, snap, locks, o.writes) then o else Nothing(Waits)
  }

  /** A statement over a snapshot. Rows it may not see are not targets; a new row it may not store, a
      failed referential check or a refused deletion fails it whole; a lock it cannot have makes it
      wait. */
  function Apply(rules: Rules, snap: Store, locks: Locks, g: Guard, stmt: Stmt): Outcome {
    match stmt
    case Select(table) =>
      Nothing(Rows(map k | k in snap && k.table == table && Sees(g, snap, k, snap[k]) :: snap[k]))
    case Insert(key, row) =>
      if key in locks.busy then Nothing(Waits)
      else if !Admits(g, snap, key, row) || key in snap || !ChecksPass(rules, snap[key := row], {key})
      then Nothing(Refused)
      else WhenFree(rules, snap, locks, Outcome(map[key := Put(row)], {}, Done({key})))
    case Update(images) =>
      var targets := Targets(g, snap, images.Keys);
      var writes := map k | k in targets :: Put(images[k]);
      if targets !! locks.busy then
        if (forall k | k in targets :: Admits(g, snap, k, images[k]))
           && ChecksPass(rules, snap + map k | k in targets :: images[k], targets)
        then WhenFree(rules, snap, locks, Outcome(writes, {}, Done(targets)))
        else Nothing(Refused)
      else Nothing(Waits)
    case Delete(keys, early) =>
      var targets := Targets(g, snap, keys);
      var gone := Closure(snap, rules, targets);
      if Obstructed(snap, rules, gone, if early then targets else gone) then Nothing(Refused)
      else
        var reached := ReachedBy(snap, rules, Policed(g), targets, gone);
        WhenFree(rules, snap, locks, Outcome(DeleteWrites(snap, rules, gone), reached, Done(targets)))
  }

  // ---- The machine ----------------------------------------------------------------------------

  datatype Event =
    | Begin(c: ConnId, scope: Scope)     // after_begin mirrors the scope into the setting
    | Adopt(c: ConnId, scope: Scope)     // a running transaction learns its workspace
    | Do(c: ConnId, stmt: Stmt)
    | Commit(c: ConnId)
    | Rollback(c: ConnId)
    | Discard(c: ConnId)                 // the pool drops the connection; the next one is virgin

  predicate Adopts(w: World, e: Event) {
    e.Adopt? && e.scope.Org? && TxnOf(w, e.c).Open? && !TxnOf(w, e.c).failed
  }

  predicate Begins(w: World, e: Event) { e.Begin? && TxnOf(w, e.c).Idle? }

  /** One event on the rows and transactions, its statement (if any) guarded by g. */
  function Step(rules: Rules, w: World, e: Event, g: Guard): (World, Reply) {
    var txn := TxnOf(w, e.c);
    match e
    case Begin(c, scope) =>
      if txn.Idle? then (w.(txns := w.txns[c := Open(map[], scope, {}, {}, false)]), Ok) else (w, Refused)
    case Adopt(c, scope) =>
      if Adopts(w, e) then (w.(txns := w.txns[c := txn.(scope := scope)]), Ok)
      else (w, if scope.Org? then Refused else Ok)
    case Do(c, stmt) =>
      if txn.Idle? then (w, NoTransaction)
      else if txn.failed then (w, Refused)
      else
        var o := Apply(rules, Overlay(w.store, txn.writes), LocksOf(rules, w, c), g, stmt);
        var writers := if o.writes == map[] then txn.writers else txn.writers + {txn.scope};
        var next := Open(txn.writes + o.writes, txn.scope, writers, txn.reached + o.reached, o.reply.Refused?);
        (w.(txns := w.txns[c := next]), o.reply)
    case Commit(c) =>
      if txn.Idle? then (w, NoTransaction)
      else (World(if txn.failed then w.store else Overlay(w.store, txn.writes), w.txns - {c}),
            if txn.failed then Refused else Ok)
    case Rollback(c) => (w.(txns := w.txns - {c}), Ok)
    case Discard(c) => (w.(txns := w.txns - {c}), Ok)
  }

  /** The real machine: policies from the catalogue, the setting of each connection. */
  datatype Pool = Pool(w: World, gucs: map<ConnId, Guc>)

  function GucOf(p: Pool, c: ConnId): Guc { if c in p.gucs then p.gucs[c] else VIRGIN }

  function PoolStep(rules: Rules, cat: Policies, p: Pool, e: Event): (Pool, Reply) {
    var g := GucOf(p, e.c);
    var (w, reply) := Step(rules, p.w, e, ByPolicy(cat, Current(g)));
    var gucs :=
      if (Begins(p.w, e) && e.scope.Org?) || Adopts(p.w, e) then p.gucs[e.c := SetLocal(g, e.scope.id)]
      else if e.Commit? || e.Rollback? then p.gucs[e.c := EndTxn(g)]
      else if e.Discard? then p.gucs - {e.c}
      else p.gucs;
    (Pool(w, gucs), reply)
  }

  /** The ideal machine: no settings, each transaction simply carries its scope. */
  function ScopeOf(w: World, c: ConnId): Scope { if TxnOf(w, c).Open? then TxnOf(w, c).scope else Unscoped }

  function IdealStep(rules: Rules, tables: set<string>, w: World, e: Event): (World, Reply) {
    Step(rules, w, e, ByScope(tables, ScopeOf(w, e.c)))
  }

  function PoolRun(rules: Rules, cat: Policies, p: Pool, es: seq<Event>): (Pool, seq<Reply>)
    decreases |es|
  {
    if es == [] then (p, [])
    else
      var (q, r) := PoolStep(rules, cat, p, es[0]);
      var (end, rs) := PoolRun(rules, cat, q, es[1..]);
      (end, [r] + rs)
  }

  function IdealRun(rules: Rules, tables: set<string>, w: World, es: seq<Event>): (World, seq<Reply>)
    decreases |es|
  {
    if es == [] then (w, [])
    else
      var (next, r) := IdealStep(rules, tables, w, es[0]);
      var (end, rs) := IdealRun(rules, tables, next, es[1..]);
      (end, [r] + rs)
  }

  function Start(store: Store): World { World(store, map[]) }
  function PoolStart(store: Store): Pool { Pool(Start(store), map[]) }

  // ---- The fixed policies refine the ideal machine --------------------------------------------

  predicate Matches(setting: Value, scope: Scope) {
    match scope
    case Unscoped => setting == Null || setting == Text("")
    case Org(o) => setting == Text(o)
  }

  predicate Sane(g: Guc) {
    (g.base == Null || g.base == Text("")) && (g.local.Text? ==> g.local.s != "")
  }

  /** An open transaction's setting says what its scope says, and between transactions nothing
      local survives. */
  predicate Tied(p: Pool, c: ConnId) {
    && Sane(GucOf(p, c))
    && (TxnOf(p.w, c).Idle? ==> GucOf(p, c).local == Null)
    && (TxnOf(p.w, c).Open? ==> Matches(Current(GucOf(p, c)), ScopeOf(p.w, c)))
  }

  ghost predicate Related(p: Pool, w: World) {
    p.w == w && forall c :: Tied(p, c)
  }

  /** The membership subquery, though itself filtered, finds a real workspace's members exactly. */
  lemma SubqueryFindsMembers(cat: Policies, unset: Pred, setting: Value, snap: Store, k: Key, row: Row)
    requires unset == UNSET || unset == LEGACY_UNSET
    requires "memberships" in cat ==> cat["memberships"] == PolicyText("memberships", unset)
    ensures IsMember(PolicyEnv(cat, setting, snap, k, row)) <==>
            setting.Text? && HasMembership(snap, k.id, setting.s)
  {
    var env := PolicyEnv(cat, setting, snap, k, row);
    forall m | m in snap && m.table == "memberships"
      ensures Eval(MEMBER_MATCH, env.(columns := env.columns + MemberRecord(snap[m]))).True? <==>
              Joins(snap[m], k.id) && setting == Text(snap[m].org)
      ensures setting == Text(snap[m].org) ==> MemberRecord(snap[m]) in env.inner
    {
      var joined := env.(columns := env.columns + MemberRecord(snap[m]));
      assert Eval(MEMBER_MATCH, joined)
          == TriAnd(Compare(MemberRecord(snap[m])["m.user_id"], Text(k.id)), Compare(Text(snap[m].org), setting));
      PolicyMeans("memberships", unset, Env(RowRecord(m, snap[m]), setting, {}));
    }
    if IsMember(env) {
      var r :| r in env.inner && Eval(MEMBER_MATCH, env.(columns := env.columns + r)).True?;
      var m :| m in snap && m.table == "memberships" && r == MemberRecord(snap[m]);
      assert HasMembership(snap, k.id, setting.s);
    }
    if setting.Text? && HasMembership(snap, k.id, setting.s) {
      var m :| m in snap && m.table == "memberships" && Joins(snap[m], k.id) && snap[m].org == setting.s;
      assert MemberRecord(snap[m]) in env.inner;
    }
  }

  /** What a policy of either spelling, in a catalogue of both, decides about a row of a store. */
  lemma PolicyDecides(cat: Policies, unset: Pred, setting: Value, snap: Store, k: Key, row: Row)
    requires Mixed(cat) && k.table in cat && cat[k.table] == PolicyText(k.table, unset)
    requires unset == UNSET || unset == LEGACY_UNSET
    ensures Sees(ByPolicy(cat, setting), snap, k, row) <==>
            UnscopedLeg(setting, unset) || (setting.Text? && InScope(snap, k, row, setting.s))
    ensures Admits(ByPolicy(cat, setting), snap, k, row) <==>
            UnscopedLeg(setting, unset) || (setting.Text? && (row.org == setting.s || InScope(snap, k, row, setting.s)))
  {
    var members := if "memberships" in cat && cat["memberships"] == Fixed("memberships") then UNSET else LEGACY_UNSET;
    SubqueryFindsMembers(cat, members, setting, snap, k, row);
    PolicyMeans(k.table, unset, PolicyEnv(cat, setting, snap, k, row));
  }

  /** Under fixed policies a setting that matches a scope guards exactly as the scope does. */
  lemma GuardsAgree(cat: Policies, setting: Value, scope: Scope, snap: Store, k: Key, row: Row)
    requires Uniform(cat, UNSET) && Matches(setting, scope)
    ensures Sees(ByPolicy(cat, setting), snap, k, row) <==> Sees(ByScope(cat.Keys, scope), snap, k, row)
    ensures Admits(ByPolicy(cat, setting), snap, k, row) <==> Admits(ByScope(cat.Keys, scope), snap, k, row)
  {
    if k.table in cat {
      PolicyDecides(cat, UNSET, setting, snap, k, row);
    }
  }

  lemma ApplyAgrees(rules: Rules, snap: Store, locks: Locks, g: Guard, h: Guard, stmt: Stmt)
    requires Policed(g) == Policed(h)
    requires forall k, row :: Sees(g, snap, k, row) <==> Sees(h, snap, k, row)
    requires forall k, row :: Admits(g, snap, k, row) <==> Admits(h, snap, k, row)
    ensures Apply(rules, snap, locks, g, stmt) == Apply(rules, snap, locks, h, stmt)
  {
    match stmt
    case Select(table) =>
      assert (map k | k in snap && k.table == table && Sees(g, snap, k, snap[k]) :: snap[k]) ==
             (map k | k in snap && k.table == table && Sees(h, snap, k, snap[k]) :: snap[k]);
    case Insert(key, row) =>
    case Update(images) => assert Targets(g, snap, images.Keys) == Targets(h, snap, images.Keys);
    case Delete(keys, early) => assert Targets(g, snap, keys) == Targets(h, snap, keys);
  }

  /** Guarded alike, the two machines do the same to the rows and answer the same. */
  lemma StepAgrees(rules: Rules, cat: Policies, p: Pool, w: World, e: Event)
    requires Uniform(cat, UNSET) && Related(p, w)
    ensures PoolStep(rules, cat, p, e).1 == IdealStep(rules, cat.Keys, w, e).1
    ensures PoolStep(rules, cat, p, e).0.w == IdealStep(rules, cat.Keys, w, e).0
  {
    if e.Do? && TxnOf(p.w, e.c).Open? {
      assert Tied(p, e.c);
      var g, h := ByPolicy(cat, Current(GucOf(p, e.c))), ByScope(cat.Keys, ScopeOf(w, e.c));
      var snap := Overlay(p.w.store, TxnOf(p.w, e.c).writes);
      forall k, row
        ensures Sees(g, snap, k, row) <==> Sees(h, snap, k, row)
        ensures Admits(g, snap, k, row) <==> Admits(h, snap, k, row)
      {
        GuardsAgree(cat, Current(GucOf(p, e.c)), ScopeOf(w, e.c), snap, k, row);
      }
      ApplyAgrees(rules, snap, LocksOf(rules, p.w, e.c), g, h, e.stmt);
    }
  }

  /** No event touches the setting or the transaction of another connection. */
  lemma OthersUntouched(rules: Rules, cat: Policies, p: Pool, e: Event, c: ConnId)
    requires c != e.c
    ensures var q := PoolStep(rules, cat, p, e).0; GucOf(q, c) == GucOf(p, c) && TxnOf(q.w, c) == TxnOf(p.w, c)
  {
  }

  lemma StepRefines(rules: Rules, cat: Policies, p: Pool, w: World, e: Event)
    requires Uniform(cat, UNSET) && Related(p, w)
    ensures PoolStep(rules, cat, p, e).1 == IdealStep(rules, cat.Keys, w, e).1
    ensures Related(PoolStep(rules, cat, p, e).0, IdealStep(rules, cat.Keys, w, e).0)
  {
    StepAgrees(rules, cat, p, w, e);
    var q := PoolStep(rules, cat, p, e).0;
    assert Tied(p, e.c) && Tied(q, e.c);
    forall c ensures Tied(q, c) {
      assert Tied(p, c);
      if c != e.c { OthersUntouched(rules, cat, p, e, c); }
    }
  }

  /** Whatever the interleaving and however the connections are reused, every reply under the
      fixed policies is the ideal machine's: unscoped sees everything, scoped sees its own. */
  lemma {:induction false} RunRefines(rules: Rules, cat: Policies, p: Pool, w: World, es: seq<Event>)
    requires Uniform(cat, UNSET) && Related(p, w)
    ensures PoolRun(rules, cat, p, es).1 == IdealRun(rules, cat.Keys, w, es).1
    ensures Related(PoolRun(rules, cat, p, es).0, IdealRun(rules, cat.Keys, w, es).0)
    decreases |es|
  {
    if es != [] {
      StepRefines(rules, cat, p, w, es[0]);
      RunRefines(rules, cat, PoolStep(rules, cat, p, es[0]).0, IdealStep(rules, cat.Keys, w, es[0]).0, es[1..]);
    }
  }

  /** From any catalogue the history can produce, the repaired one gives every run its scopes. */
  lemma RepairedPoolRefinesScopes(rules: Rules, cat: Policies, store: Store, es: seq<Event>)
    requires Mixed(cat)
    ensures PoolRun(rules, Repaired(cat), PoolStart(store), es).1 == IdealRun(rules, cat.Keys, Start(store), es).1
  {
    RepairFixesAll(cat);
    RunRefines(rules, Repaired(cat), PoolStart(store), Start(store), es);
  }

  // ---- The sticky setting over a run ------------------------------------------------------------

  /** Has a transaction on c taken a workspace since the connection was last replaced? Told from the
      events alone, `before` saying whether one had already. */
  predicate Touched(rules: Rules, cat: Policies, p: Pool, es: seq<Event>, c: ConnId, before: bool)
    decreases |es|
  {
    if es == [] then before
    else
      var e := es[0];
      var takes := (Begins(p.w, e) && e.scope.Org?) || Adopts(p.w, e);
      Touched(rules, cat, PoolStep(rules, cat, p, e).0, es[1..], c,
              if e.c != c then before else if e.Discard? then false else before || takes)
  }

  /** The sticky rule over any run, under any policies: the setting of a connection reads NULL
      exactly as long as no transaction on that connection has taken a workspace. However often
      transactions end, it never reads NULL again; only a fresh connection does. */
  lemma {:induction false} NullExactlyUntilTouched(rules: Rules, cat: Policies, p: Pool, es: seq<Event>, c: ConnId)
    ensures Current(GucOf(PoolRun(rules, cat, p, es).0, c)) == Null
       <==> !Touched(rules, cat, p, es, c, Current(GucOf(p, c)) != Null)
    decreases |es|
  {
    if es != [] {
      NullExactlyUntilTouched(rules, cat, PoolStep(rules, cat, p, es[0]).0, es[1..], c);
    }
  }

  // ---- The repair, row by row -------------------------------------------------------------------

  /** On the rows of any store, workspace ids being real: the repair changes no read and no write of
      a virgin or a scoped connection; at '' it lets everything through, where a legacy policy let
      nothing through. */
  lemma RepairOnRealRows(cat: Policies, setting: Value, snap: Store, k: Key, row: Row)
    requires Mixed(cat) && k.table in cat
    ensures var g, h := ByPolicy(cat, setting), ByPolicy(Repaired(cat), setting);
            if setting != Text("") then
              (Sees(g, snap, k, row) <==> Sees(h, snap, k, row))
                  && (Admits(g, snap, k, row) <==> Admits(h, snap, k, row))
            else
              Sees(h, snap, k, row) && Admits(h, snap, k, row)
              && (cat[k.table] == Legacy(k.table) ==> !Sees(g, snap, k, row) && !Admits(g, snap, k, row))
  {
    RepairFixesAll(cat);
    var was := if cat[k.table] == Fixed(k.table) then UNSET else LEGACY_UNSET;
    PolicyDecides(cat, was, setting, snap, k, row);
    PolicyDecides(Repaired(cat), UNSET, setting, snap, k, row);
  }
}
