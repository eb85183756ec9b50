/** What the statements of TenantPool do to the rows, what they answer, and who reads it afterwards. */
module TenantEffects {
  import opened Options
  import opened Workspaces
  import opened SqlLogic
  import opened ForeignKeys
  import opened RlsPolicy
  import opened RlsCatalogue
  import opened TenantPool
  import opened TenantConsistency
  import opened TenantRuns

  // ---- One statement ----------------------------------------------------------------------------

  /** A scope stores rows of its own workspace on the tables with a policy, and on `users` also those
      of its members; the unscoped store anything. */
  predicate MayStore(tables: set<string>, s: Store, k: Key, row: Row, scope: Scope) {
    match scope
    case Unscoped => true
    case Org(o) => k.table in tables ==> row.org == o || (k.table == "users" && Visible(tables, s, k, row, scope))
  }

  /** The rows a statement on these keys touches. */
  function Hit(tables: set<string>, s: Store, keys: set<Key>, scope: Scope): set<Key> {
    set k | k in keys && k in s && Visible(tables, s, k, s[k], scope)
  }

  /** Some link of the row names one of these. */
  predicate NamesAny(rules: Rules, k: Key, row: Row, held: set<Key>) {
    exists col | col in rules && col.table == k.table ::
      LinkOf(row, col.column).Some? && RowId(rules[col].parent, LinkOf(row, col.column).value) in held
  }

  lemma GuardMeans(tables: set<string>, snap: Store, k: Key, row: Row, scope: Scope)
    ensures Sees(ByScope(tables, scope), snap, k, row) <==> Visible(tables, snap, k, row, scope)
    ensures Admits(ByScope(tables, scope), snap, k, row) <==> MayStore(tables, snap, k, row, scope)
  {
  }

  lemma TargetsMean(tables: set<string>, snap: Store, keys: set<Key>, scope: Scope)
    ensures Targets(ByScope(tables, scope), snap, keys) == Hit(tables, snap, keys, scope)
  {
    forall k | k in keys && k in snap
      ensures Sees(ByScope(tables, scope), snap, k, snap[k]) <==> Visible(tables, snap, k, snap[k], scope)
    {
      GuardMeans(tables, snap, k, snap[k], scope);
    }
  }

  lemma NamedMeans(rules: Rules, writes: map<Key, Write>, held: set<Key>)
    ensures Named(rules, writes) !! held
       <==> !exists k :: k in writes && writes[k].Put? && NamesAny(rules, k, writes[k].row, held)
  {
    if k :| k in writes && writes[k].Put? && NamesAny(rules, k, writes[k].row, held) {
      var col :| col in rules && col.table == k.table
        && LinkOf(writes[k].row, col.column).Some?
        && RowId(rules[col].parent, LinkOf(writes[k].row, col.column).value) in held;
      assert ParentOf(rules, col, writes[k].row).value in Named(rules, writes);
    }
  }

  /** On a consistent store the checks of the written rows come to consistency. */
  lemma ChecksMean(rules: Rules, snap: Store, after: Store, written: set<Key>)
    requires Consistent(snap, rules) && snap.Keys <= after.Keys
    requires forall k | k in after && k !in written :: k in snap && after[k] == snap[k]
    ensures ChecksPass(rules, after, written) <==> Consistent(after, rules)
  {
    if ChecksPass(rules, after, written) { ChecksSuffice(rules, snap, after, written); }
  }

  /** An insert: refused, kept waiting, or the new row stored beside all the others. */
  lemma InsertEffect(rules: Rules, tables: set<string>, snap: Store, locks: Locks, scope: Scope, key: Key, row: Row)
    requires Consistent(snap, rules)
    ensures var o := Apply(rules, snap, locks, ByScope(tables, scope), Insert(key, row));
            && o.reply == (if key in locks.busy then Waits
                           else if !MayStore(tables, snap, key, row, scope) || key in snap
                                   || !Consistent(snap[key := row], rules) then Refused
                           else if NamesAny(rules, key, row, locks.rekeyed) then Waits
                           else Done({key}))
            && Overlay(snap, o.writes) == (if o.reply.Done? then snap[key := row] else snap)
            && o.reached == {}
  {
    var o := Apply(rules, snap, locks, ByScope(tables, scope), Insert(key, row));
    var writes := map[key := Put(row)];
    GuardMeans(tables, snap, key, row, scope);
    if key !in snap {
      ChecksMean(rules, snap, snap[key := row], {key});
      NamedMeans(rules, writes, locks.rekeyed);
      assert Overlay(snap, writes) == snap[key := row];
      assert Rekeyed(snap, writes) == {};
    }
    assert Overlay(snap, map[]) == snap;
  }

  /** An update: of the rows it names, those it may see get their new images, and nothing else
      changes; or nothing at all does. */
  lemma UpdateEffect(
    rules: Rules, tables: set<string>, snap: Store, locks: Locks, scope: Scope, images: map<Key, Row>)
    requires Consistent(snap, rules)
    ensures var o := Apply(rules, snap, locks, ByScope(tables, scope), Update(images));
            var hit := Hit(tables, snap, images.Keys, scope);
            var after := snap + map k | k in hit :: images[k];
            && o.reply == (if exists k :: k in hit && k in locks.busy then Waits
                           else if (exists k :: k in hit && !MayStore(tables, snap, k, images[k], scope))
                                   || !Consistent(after, rules) then Refused
                           else if (exists k :: k in hit && NamesAny(rules, k, images[k], locks.rekeyed))
                                   || (exists k :: k in hit && images[k].org != snap[k].org && k in locks.named)
                                then Waits
                           else Done(hit))
            && Overlay(snap, o.writes) == (if o.reply.Done? then after else snap)
            && o.reached == {}
  {
    var hit := Hit(tables, snap, images.Keys, scope);
    var after := snap + map k | k in hit :: images[k];
    TargetsMean(tables, snap, images.Keys, scope);
    AllAdmitted(tables, snap, hit, images, scope);
    ChecksMean(rules, snap, after, hit);
    UpdateLocks(rules, snap, locks, hit, images);
    assert Overlay(snap, map[]) == snap;
  }

  lemma AllAdmitted(tables: set<string>, snap: Store, hit: set<Key>, images: map<Key, Row>, scope: Scope)
    requires hit <= images.Keys
    ensures (forall k | k in hit :: Admits(ByScope(tables, scope), snap, k, images[k]))
       <==> !exists k :: k in hit && !MayStore(tables, snap, k, images[k], scope)
  {
    forall k | k in hit
      ensures Admits(ByScope(tables, scope), snap, k, images[k]) <==> MayStore(tables, snap, k, images[k], scope)
    {
      GuardMeans(tables, snap, k, images[k], scope);
    }
  }

  lemma UpdateLocks(rules: Rules, snap: Store, locks: Locks, hit: set<Key>, images: map<Key, Row>)
    requires hit <= snap.Keys && hit <= images.Keys
    ensures var writes := map k | k in hit :: Put(images[k]);
            && Overlay(snap, writes) == snap + (map k | k in hit :: images[k])
            && (Free(rules, snap, locks, writes)
                <==> hit !! locks.busy
                     && !(exists k :: k in hit && NamesAny(rules, k, images[k], locks.rekeyed))
                     && !(exists k :: k in hit && images[k].org != snap[k].org && k in locks.named))
  {
    var writes := map k | k in hit :: Put(images[k]);
    NamedMeans(rules, writes, locks.rekeyed);
    assert Overlay(snap, writes) == snap + (map k | k in hit :: images[k]);
    forall k ensures k in Rekeyed(snap, writes) <==> k in hit && images[k].org != snap[k].org {}
  }

  /** A row is lost or changed between two stores. */
  predicate Touched(before: Store, after: Store, k: Key) { k in before && (k !in after || after[k] != before[k]) }

  /** A row of a table whose policy compares the row's own workspace. */
  predicate OrgRow(tables: set<string>, k: Key) { k.table in tables && k.table != "users" }

  lemma TouchedMeans(rules: Rules, snap: Store, gone: set<Key>, k: Key)
    requires WellFormed(rules)
    ensures Touched(snap, Detached(snap, rules, gone), k)
       <==> k in snap && (k in gone || k in Losers(snap, rules, gone))
  {
    if k in snap && k !in gone {
      if column :| column in Cleared(snap, rules, gone, k) {
        assert column in snap[k].links && column !in Detached(snap, rules, gone)[k].links;
      } else {
        SurvivorOf(rules, snap, gone, k);
      }
    }
  }

  /** A delete: the rows it may see go, with everything cascades reach from them, the links into those
      are cleared, and nothing else changes; or nothing at all does. Whose rows it reached beyond its
      targets is told exactly. */
  lemma DeleteEffect(
    rules: Rules, tables: set<string>, snap: Store, locks: Locks, scope: Scope, keys: set<Key>, early: bool)
    requires WellFormed(rules)
    ensures var o := Apply(rules, snap, locks, ByScope(tables, scope), Delete(keys, early));
            var hit := Hit(tables, snap, keys, scope);
            var gone := Closure(snap, rules, hit);
            var after := Detached(snap, rules, gone);
            && o.reply == (if exists c, col, p ::
                                p in gone && c !in (if early then hit else gone) && Blocks(snap, rules, col, c, p)
                           then Refused
                           else if (exists k :: Touched(snap, after, k) && k in locks.busy + locks.named && k in gone)
                                   || (exists k :: Touched(snap, after, k) && k in after
                                         && (k in locks.busy || NamesAny(rules, k, after[k], locks.rekeyed)))
                                then Waits
                           else Done(hit))
            && Overlay(snap, o.writes) == (if o.reply.Done? then after else snap)
            && o.reached == (if !o.reply.Done? then {} else
                               set k | k in snap && Touched(snap, after, k) && k !in hit && OrgRow(tables, k) ::
                                 snap[k].org)
  {
    var hit := Hit(tables, snap, keys, scope);
    var gone := Closure(snap, rules, hit);
    var after := Detached(snap, rules, gone);
    TargetsMean(tables, snap, keys, scope);
    ClosureCloses(snap, rules, hit);
    DeleteOverlay(rules, snap, hit);
    DeleteLocks(rules, snap, locks, hit);
    ObstructedMeans(rules, snap, gone, if early then hit else gone);
    ReachedMeans(rules, tables, snap, hit, gone);
    assert Overlay(snap, map[]) == snap;
  }

  lemma ObstructedMeans(rules: Rules, snap: Store, gone: set<Key>, spared: set<Key>)
    ensures Obstructed(snap, rules, gone, spared)
       <==> exists c, col, p :: p in gone && c !in spared && Blocks(snap, rules, col, c, p)
  {
  }

  lemma ReachedMeans(rules: Rules, tables: set<string>, snap: Store, hit: set<Key>, gone: set<Key>)
    requires WellFormed(rules) && hit <= gone
    ensures var after := Detached(snap, rules, gone);
            ReachedBy(snap, rules, tables, hit, gone)
            == set k | k in snap && Touched(snap, after, k) && k !in hit && OrgRow(tables, k) :: snap[k].org
  {
    forall k
      ensures Touched(snap, Detached(snap, rules, gone), k)
         <==> k in snap && (k in gone || k in Losers(snap, rules, gone))
    {
      TouchedMeans(rules, snap, gone, k);
    }
    assert Losers(snap, rules, gone) !! gone;
  }

  lemma DeleteLocks(rules: Rules, snap: Store, locks: Locks, hit: set<Key>)
    requires WellFormed(rules) && hit <= snap.Keys
    ensures var gone := Closure(snap, rules, hit);
            var after := Detached(snap, rules, gone);
            Free(rules, snap, locks, DeleteWrites(snap, rules, gone))
            <==> !(exists k :: Touched(snap, after, k) && k in locks.busy + locks.named && k in gone)
                 && !(exists k :: Touched(snap, after, k) && k in after
                        && (k in locks.busy || NamesAny(rules, k, after[k], locks.rekeyed)))
  {
    var gone := Closure(snap, rules, hit);
    var after, writes := Detached(snap, rules, gone), DeleteWrites(snap, rules, gone);
    ClosureCloses(snap, rules, hit);
    NamedMeans(rules, writes, locks.rekeyed);
    forall k
      ensures k in writes <==> Touched(snap, after, k)
      ensures k in writes && writes[k].Put? ==> k in after && writes[k].row == after[k] && k !in gone
      ensures k in Rekeyed(snap, writes) <==> k in gone
    {
      TouchedMeans(rules, snap, gone, k);
    }
  }

  /** The locks in a connection's way, in full: what the other open transactions have written, the
      rows those written rows name, and the stored rows they delete or move. */
  lemma LocksAre(rules: Rules, w: World, c: ConnId, k: Key)
    ensures k in LocksOf(rules, w, c).busy <==> exists d :: d != c && k in WritesOf(w, d)
    ensures k in LocksOf(rules, w, c).named
       <==> exists d, j :: d != c && j in WritesOf(w, d) && WritesOf(w, d)[j].Put?
                           && NamesAny(rules, j, WritesOf(w, d)[j].row, {k})
    ensures k in LocksOf(rules, w, c).rekeyed
       <==> k in w.store
            && exists d :: d != c && k in WritesOf(w, d)
                           && (WritesOf(w, d)[k].Gone? || WritesOf(w, d)[k].row.org != w.store[k].org)
  {
    forall d ensures WritesOf(w, d) != map[] ==> d in w.txns {}
    forall d
      ensures k in Rekeyed(w.store, WritesOf(w, d))
         <==> k in w.store && k in WritesOf(w, d)
              && (WritesOf(w, d)[k].Gone? || WritesOf(w, d)[k].row.org != w.store[k].org)
    {
    }
    forall d ensures k in Named(rules, WritesOf(w, d))
                <==> exists j :: j in WritesOf(w, d) && WritesOf(w, d)[j].Put?
                                 && NamesAny(rules, j, WritesOf(w, d)[j].row, {k})
    {
      NamedMeans(rules, WritesOf(w, d), {k});
    }
  }

  /** A statement inside a transaction works on what the one before it left, and leaves the committed
      rows and every other transaction alone. */
  lemma StatementsCompose(rules: Rules, tables: set<string>, w: World, c: ConnId, stmt: Stmt)
    requires TxnOf(w, c).Open? && !TxnOf(w, c).failed
    ensures var t, (v, reply) := TxnOf(w, c), IdealStep(rules, tables, w, Do(c, stmt));
            var seen := Overlay(w.store, t.writes);
            var o := Apply(rules, seen, LocksOf(rules, w, c), ByScope(tables, t.scope), stmt);
            && reply == o.reply && v.store == w.store && v.txns - {c} == w.txns - {c}
            && TxnOf(v, c).Open? && TxnOf(v, c).scope == t.scope && TxnOf(v, c).failed == o.reply.Refused?
            && Overlay(v.store, TxnOf(v, c).writes) == Overlay(seen, o.writes)
  {
    var e := Do(c, stmt);
    var o := DoAdds(rules, tables, w, e);
    OverlayMore(w.store, TxnOf(w, c).writes, o.writes);
    assert IdealStep(rules, tables, w, e).0.txns - {c} == w.txns - {c};
  }

  /** Out of turn nothing happens: no statement, commit or adoption without a transaction, no second
      begin, nothing but an end after a failure; and adopting nothing is no error and no change. */
  lemma OutOfTurn(rules: Rules, tables: set<string>, w: World, c: ConnId, stmt: Stmt, scope: Scope, a: OrgId)
    ensures TxnOf(w, c).Idle? ==>
              && IdealStep(rules, tables, w, Do(c, stmt)) == (w, NoTransaction)
              && IdealStep(rules, tables, w, Commit(c)) == (w, NoTransaction)
              && IdealStep(rules, tables, w, Adopt(c, Org(a))) == (w, Refused)
    ensures TxnOf(w, c).Open? ==> IdealStep(rules, tables, w, Begin(c, scope)) == (w, Refused)
    ensures IdealStep(rules, tables, w, Adopt(c, Unscoped)) == (w, Ok)
    ensures TxnOf(w, c).Open? && TxnOf(w, c).failed ==>
              && IdealStep(rules, tables, w, Do(c, stmt)) == (w, Refused)
              && IdealStep(rules, tables, w, Adopt(c, Org(a))) == (w, Refused)
              && IdealStep(rules, tables, w, Commit(c)) == (World(w.store, w.txns - {c}), Refused)
  {
  }

  // ---- Over a run, under the repaired policies ----------------------------------------------------

  /** A statement commits, and a later transaction of any scope reads. */
  lemma CommittedThenRead(
    rules: Rules, cat: Policies, p: Pool, c: ConnId, scope: Scope, stmt: Stmt, v: Store, d: ConnId, reader: Scope,
    table: string)
    requires Uniform(cat, UNSET) && Related(p, p.w) && TxnOf(p.w, c).Idle? && TxnOf(p.w, d).Idle?
    requires var o := Apply(rules, p.w.store, LocksOf(rules, p.w, c), ByScope(cat.Keys, scope), stmt);
             !o.reply.Refused? && v == Overlay(p.w.store, o.writes)
    ensures var o := Apply(rules, p.w.store, LocksOf(rules, p.w, c), ByScope(cat.Keys, scope), stmt);
            PoolRun(rules, cat, p, [Begin(c, scope), Do(c, stmt), Commit(c)] + ReadBy(d, reader, table)).1
            == [Ok, o.reply, Ok] + [Ok, Rows(Answer(cat.Keys, v, table, reader))]
  {
    var es, replies := WritesAndCommits(rules, cat.Keys, p.w, c, scope, stmt, v);
    Reads(rules, cat.Keys, World(v, p.w.txns - {c}), d, reader, table);
    RunAppends(rules, cat.Keys, p.w, es, ReadBy(d, reader, table));
    RunRefines(rules, cat, p, p.w, es + ReadBy(d, reader, table));
  }

  function ReadBy(d: ConnId, reader: Scope, table: string): seq<Event> { [Begin(d, reader), Do(d, Select(table))] }

  lemma Reads(rules: Rules, tables: set<string>, w: World, d: ConnId, reader: Scope, table: string)
    requires TxnOf(w, d).Idle?
    ensures IdealRun(rules, tables, w, ReadBy(d, reader, table)).1 == [Ok, Rows(Answer(tables, w.store, table, reader))]
  {
    var w1 := World(w.store, w.txns[d := Opened(reader)]);
    RunOne(rules, tables, w, Begin(d, reader));
    LooksAt(rules, tables, w1, d, table);
    assert Overlay(w.store, map[]) == w.store;
    RunMore(rules, tables, w, [Begin(d, reader)], w1, [Ok], Do(d, Select(table)), w1,
            Rows(Answer(tables, w.store, table, reader)));
    assert ReadBy(d, reader, table) == [Begin(d, reader)] + [Do(d, Select(table))];
  }

  /** Nobody else holds these rows, or a row that a written one names. */
  predicate Unlocked(rules: Rules, w: World, c: ConnId, k: Key, row: Row) {
    var locks := LocksOf(rules, w, c);
    k !in locks.busy && k !in locks.named && !NamesAny(rules, k, row, locks.rekeyed)
  }

  /** A workspace changes rows of its own: whoever may see them afterwards reads the new images, and
      every other row as it was. */
  lemma UpdateIsRead(
    rules: Rules, cat: Policies, p: Pool, c: ConnId, scope: Scope, images: map<Key, Row>, d: ConnId, reader: Scope,
    table: string)
    requires Uniform(cat, UNSET) && Related(p, p.w) && TxnOf(p.w, c).Idle? && TxnOf(p.w, d).Idle?
    requires Consistent(p.w.store, rules) && Consistent(p.w.store + images, rules)
    requires forall k | k in images ::
      && k in p.w.store && Visible(cat.Keys, p.w.store, k, p.w.store[k], scope)
      && MayStore(cat.Keys, p.w.store, k, images[k], scope) && Unlocked(rules, p.w, c, k, images[k])
    ensures PoolRun(rules, cat, p, [Begin(c, scope), Do(c, Update(images)), Commit(c)] + ReadBy(d, reader, table)).1
         == [Ok, Done(images.Keys), Ok] + [Ok, Rows(Answer(cat.Keys, p.w.store + images, table, reader))]
  {
    var store := p.w.store;
    UpdateEffect(rules, cat.Keys, store, LocksOf(rules, p.w, c), scope, images);
    assert Hit(cat.Keys, store, images.Keys, scope) == images.Keys;
    assert (map k | k in images.Keys :: images[k]) == images;
    CommittedThenRead(rules, cat, p, c, scope, Update(images), store + images, d, reader, table);
  }

  /** A workspace adds a row of its own. */
  lemma InsertIsRead(
    rules: Rules, cat: Policies, p: Pool, c: ConnId, scope: Scope, key: Key, row: Row, d: ConnId, reader: Scope,
    table: string)
    requires Uniform(cat, UNSET) && Related(p, p.w) && TxnOf(p.w, c).Idle? && TxnOf(p.w, d).Idle?
    requires Consistent(p.w.store, rules) && Consistent(p.w.store[key := row], rules) && key !in p.w.store
    requires MayStore(cat.Keys, p.w.store, key, row, scope) && Unlocked(rules, p.w, c, key, row)
    ensures PoolRun(rules, cat, p, [Begin(c, scope), Do(c, Insert(key, row)), Commit(c)] + ReadBy(d, reader, table)).1
         == [Ok, Done({key}), Ok] + [Ok, Rows(Answer(cat.Keys, p.w.store[key := row], table, reader))]
  {
    InsertEffect(rules, cat.Keys, p.w.store, LocksOf(rules, p.w, c), scope, key, row);
    CommittedThenRead(rules, cat, p, c, scope, Insert(key, row), p.w.store[key := row], d, reader, table);
  }

  /** A workspace deletes rows of its own that no key refuses to let go. */
  lemma DeleteIsRead(
    rules: Rules, cat: Policies, p: Pool, c: ConnId, scope: Scope, keys: set<Key>, d: ConnId, reader: Scope,
    table: string)
    requires Uniform(cat, UNSET) && Related(p, p.w) && TxnOf(p.w, c).Idle? && TxnOf(p.w, d).Idle?
    requires WellFormed(rules) && forall e :: e != c ==> WritesOf(p.w, e) == map[]
    requires forall k | k in keys :: k in p.w.store && Visible(cat.Keys, p.w.store, k, p.w.store[k], scope)
    requires !exists child, col, k :: k in keys && Points(p.w.store, rules, col, child, k)
                                      && rules[col].action != SetNullColumn
    ensures PoolRun(rules, cat, p, [Begin(c, scope), Do(c, Delete(keys, false)), Commit(c)]
                                   + ReadBy(d, reader, table)).1
         == [Ok, Done(keys), Ok] + [Ok, Rows(Answer(cat.Keys, Detached(p.w.store, rules, keys), table, reader))]
  {
    var store := p.w.store;
    assert Hit(cat.Keys, store, keys, scope) == keys;
    ClosureIsLeast(store, rules, keys, keys);
    assert LocksOf(rules, p.w, c) == NO_LOCKS;
    DeleteEffect(rules, cat.Keys, store, NO_LOCKS, scope, keys, false);
    CommittedThenRead(rules, cat, p, c, scope, Delete(keys, false), Detached(store, rules, keys), d, reader, table);
  }

  /** Rolled back, dropped with its connection, or failed, a transaction leaves nothing behind. */
  lemma AbandonedIsNotRead(
    rules: Rules, cat: Policies, p: Pool, c: ConnId, scope: Scope, stmt: Stmt, end: Event, d: ConnId, reader: Scope,
    table: string)
    requires Uniform(cat, UNSET) && Related(p, p.w) && TxnOf(p.w, c).Idle? && TxnOf(p.w, d).Idle?
    requires var o := Apply(rules, p.w.store, LocksOf(rules, p.w, c), ByScope(cat.Keys, scope), stmt);
             end == Rollback(c) || end == Discard(c) || (end == Commit(c) && o.reply.Refused?)
    ensures var o := Apply(rules, p.w.store, LocksOf(rules, p.w, c), ByScope(cat.Keys, scope), stmt);
            PoolRun(rules, cat, p, [Begin(c, scope)] + [Do(c, stmt)] + [end] + ReadBy(d, reader, table)).1
            == [Ok] + [o.reply] + [if end.Commit? then Refused else Ok]
               + [Ok, Rows(Answer(cat.Keys, p.w.store, table, reader))]
  {
    var tables, w := cat.Keys, p.w;
    var o := Apply(rules, w.store, LocksOf(rules, w, c), ByScope(tables, scope), stmt);
    var w1 := World(w.store, w.txns[c := Opened(scope)]);
    var w2 := IdealStep(rules, tables, w1, Do(c, stmt)).0;
    var w3 := World(w.store, w.txns - {c});
    RunOne(rules, tables, w, Begin(c, scope));
    assert w1.txns - {c} == w.txns - {c};
    LocksAreOthers(rules, w, c, w1.txns);
    OneWrite(rules, tables, w1, c, Opened(scope), stmt);
    assert w2.txns - {c} == w.txns - {c};
    RunMore(rules, tables, w, [Begin(c, scope)], w1, [Ok], Do(c, stmt), w2, o.reply);
    RunMore(rules, tables, w, [Begin(c, scope)] + [Do(c, stmt)], w2, [Ok] + [o.reply], end, w3,
            if end.Commit? then Refused else Ok);
    Reads(rules, tables, w3, d, reader, table);
    var es := [Begin(c, scope)] + [Do(c, stmt)] + [end];
    RunAppends(rules, tables, w, es, ReadBy(d, reader, table));
    RunRefines(rules, cat, p, w, es + ReadBy(d, reader, table));
  }

  /** Until then its writes are its own: another transaction reads the committed rows, it reads its
      own over them. */
  lemma UncommittedIsOwn(
    rules: Rules, cat: Policies, p: Pool, c: ConnId, scope: Scope, stmt: Stmt, v: Store, d: ConnId, reader: Scope,
    table: string)
    requires Uniform(cat, UNSET) && Related(p, p.w) && TxnOf(p.w, c).Idle? && TxnOf(p.w, d).Idle? && c != d
    requires var o := Apply(rules, p.w.store, LocksOf(rules, p.w, c), ByScope(cat.Keys, scope), stmt);
             !o.reply.Refused? && v == Overlay(p.w.store, o.writes)
    ensures var o := Apply(rules, p.w.store, LocksOf(rules, p.w, c), ByScope(cat.Keys, scope), stmt);
            PoolRun(rules, cat, p, [Begin(c, scope)] + [Do(c, stmt)] + ReadBy(d, reader, table)
                                   + [Do(c, Select(table))]).1
            == [Ok] + [o.reply] + [Ok, Rows(Answer(cat.Keys, p.w.store, table, reader))]
               + [Rows(Answer(cat.Keys, v, table, scope))]
  {
    var tables, w := cat.Keys, p.w;
    var o := Apply(rules, w.store, LocksOf(rules, w, c), ByScope(tables, scope), stmt);
    var w1 := World(w.store, w.txns[c := Opened(scope)]);
    var w2 := IdealStep(rules, tables, w1, Do(c, stmt)).0;
    RunOne(rules, tables, w, Begin(c, scope));
    assert w1.txns - {c} == w.txns - {c};
    LocksAreOthers(rules, w, c, w1.txns);
    OneWrite(rules, tables, w1, c, Opened(scope), stmt);
    RunMore(rules, tables, w, [Begin(c, scope)], w1, [Ok], Do(c, stmt), w2, o.reply);
    var es, replies := [Begin(c, scope)] + [Do(c, stmt)], [Ok] + [o.reply];
    Reads(rules, tables, w2, d, reader, table);
    RunAppends(rules, tables, w, es, ReadBy(d, reader, table));
    var w3 := IdealRun(rules, tables, w2, ReadBy(d, reader, table)).0;
    ReadsOnly(rules, tables, w2, d, reader, table);
    LooksAt(rules, tables, w3, c, table);
    RunMore(rules, tables, w, es + ReadBy(d, reader, table), w3,
            replies + [Ok, Rows(Answer(tables, w.store, table, reader))], Do(c, Select(table)), w3,
            Rows(Answer(tables, v, table, scope)));
    RunRefines(rules, cat, p, w, es + ReadBy(d, reader, table) + [Do(c, Select(table))]);
  }

  lemma ReadsOnly(rules: Rules, tables: set<string>, w: World, d: ConnId, reader: Scope, table: string)
    requires TxnOf(w, d).Idle?
    ensures IdealRun(rules, tables, w, ReadBy(d, reader, table)).0 == World(w.store, w.txns[d := Opened(reader)])
  {
    var w1 := World(w.store, w.txns[d := Opened(reader)]);
    RunOne(rules, tables, w, Begin(d, reader));
    LooksAt(rules, tables, w1, d, table);
    RunMore(rules, tables, w, [Begin(d, reader)], w1, [Ok], Do(d, Select(table)), w1,
            Rows(Answer(tables, Overlay(w1.store, map[]), table, reader)));
    assert ReadBy(d, reader, table) == [Begin(d, reader)] + [Do(d, Select(table))];
  }

  /** A transaction that learns its workspace after it began reads from then on as that workspace. */
  lemma AdoptedScopeReads(
    rules: Rules, cat: Policies, p: Pool, c: ConnId, scope: Scope, a: OrgId, table: string)
    requires Uniform(cat, UNSET) && Related(p, p.w) && TxnOf(p.w, c).Idle?
    ensures PoolRun(rules, cat, p, [Begin(c, scope)] + [Do(c, Select(table))] + [Adopt(c, Org(a))]
                                   + [Do(c, Select(table))]).1
         == [Ok] + [Rows(Answer(cat.Keys, p.w.store, table, scope))] + [Ok]
            + [Rows(Answer(cat.Keys, p.w.store, table, Org(a)))]
  {
    var tables, w, view := cat.Keys, p.w, Do(c, Select(table));
    var w1, w2 := World(w.store, w.txns[c := Opened(scope)]), World(w.store, w.txns[c := Opened(Org(a))]);
    var first, second := Rows(Answer(tables, w.store, table, scope)), Rows(Answer(tables, w.store, table, Org(a)));
    assert Overlay(w.store, map[]) == w.store;
    RunOne(rules, tables, w, Begin(c, scope));
    LooksAt(rules, tables, w1, c, table);
    RunMore(rules, tables, w, [Begin(c, scope)], w1, [Ok], view, w1, first);
    assert w1.txns[c := Opened(Org(a))] == w2.txns;
    RunMore(rules, tables, w, [Begin(c, scope)] + [view], w1, [Ok] + [first], Adopt(c, Org(a)), w2, Ok);
    LooksAt(rules, tables, w2, c, table);
    RunMore(rules, tables, w, [Begin(c, scope)] + [view] + [Adopt(c, Org(a))], w2, [Ok] + [first] + [Ok], view, w2,
            second);
    RunRefines(rules, cat, p, w, [Begin(c, scope)] + [view] + [Adopt(c, Org(a))] + [view]);
  }
}
