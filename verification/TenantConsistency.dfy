/** Foreign keys under concurrent transactions: however the transactions of a pool interleave, what is
committed, and what each open transaction sees, has no dangling link. */
module TenantConsistency {
  import opened Options
  import opened Workspaces
  import opened ForeignKeys
  import opened TenantPool

  // ---- One statement ----------------------------------------------------------------------------

  /** Referential checks on what was written are enough. */
  lemma ChecksSuffice(rules: Rules, snap: Store, after: Store, written: set<Key>)
    requires Consistent(snap, rules) && snap.Keys <= after.Keys && ChecksPass(rules, after, written)
    requires forall k | k in after && k !in written :: k in snap && after[k] == snap[k]
    ensures Consistent(after, rules)
  {
    forall c, col | c in after && col in rules && c.table == col.table ensures LinkHolds(after, rules, col, after[c]) {
      if c !in written { assert LinkHolds(snap, rules, col, snap[c]); }
    }
  }

  lemma DeleteOverlay(rules: Rules, snap: Store, targets: set<Key>)
    requires targets <= snap.Keys
    ensures var gone := Closure(snap, rules, targets);
            Overlay(snap, DeleteWrites(snap, rules, gone)) == Detached(snap, rules, gone)
  {
    var gone := Closure(snap, rules, targets);
    ClosureCloses(snap, rules, targets);
    var after, want := Overlay(snap, DeleteWrites(snap, rules, gone)), Detached(snap, rules, gone);
    forall c ensures c in after <==> c in want {}
    forall c | c in want ensures after[c] == want[c] { SurvivorOf(rules, snap, gone, c); }
  }

  lemma SurvivorOf(rules: Rules, snap: Store, gone: set<Key>, c: Key)
    requires c in snap && c !in gone
    ensures c !in Losers(snap, rules, gone) ==>
              snap[c].(links := snap[c].links - Cleared(snap, rules, gone, c)) == snap[c]
  {
    assert snap[c].links - {} == snap[c].links;
  }

  lemma InsertConsistent(rules: Rules, snap: Store, key: Key, row: Row)
    requires Consistent(snap, rules) && key !in snap && ChecksPass(rules, snap[key := row], {key})
    ensures Consistent(Overlay(snap, map[key := Put(row)]), rules)
  {
    assert Overlay(snap, map[key := Put(row)]) == snap[key := row];
    ChecksSuffice(rules, snap, snap[key := row], {key});
  }

  lemma UpdateConsistent(rules: Rules, snap: Store, targets: set<Key>, images: map<Key, Row>)
    requires Consistent(snap, rules) && targets <= snap.Keys && targets <= images.Keys
    requires ChecksPass(rules, snap + map k | k in targets :: images[k], targets)
    ensures Consistent(Overlay(snap, map k | k in targets :: Put(images[k])), rules)
  {
    var after := snap + map k | k in targets :: images[k];
    assert Overlay(snap, map k | k in targets :: Put(images[k])) == after;
    ChecksSuffice(rules, snap, after, targets);
  }

  lemma ApplyConsistent(rules: Rules, snap: Store, locks: Locks, g: Guard, stmt: Stmt)
    requires WellFormed(rules) && Consistent(snap, rules)
    ensures var o := Apply(rules, snap, locks, g, stmt);
            Consistent(Overlay(snap, o.writes), rules) && Free(rules, snap, locks, o.writes)
  {
    var o := Apply(rules, snap, locks, g, stmt);
    if o.writes == map[] {
      assert Overlay(snap, o.writes) == snap;
    } else {
      match stmt
      case Select(_) =>
      case Insert(key, row) => InsertConsistent(rules, snap, key, row);
      case Update(images) => UpdateConsistent(rules, snap, Targets(g, snap, images.Keys), images);
      case Delete(keys, early) =>
        var targets := Targets(g, snap, keys);
        ClosureCloses(snap, rules, targets);
        DeleteOverlay(rules, snap, targets);
        DetachedConsistent(snap, rules, targets);
    }
  }

  // ---- Every reachable state --------------------------------------------------------------------

  /** No two open transactions have written one row, and none names a row the other deletes or
      moves. */
  ghost predicate Apart(rules: Rules, w: World, c: ConnId, d: ConnId) {
    c != d ==>
      WritesOf(w, c).Keys !! WritesOf(w, d).Keys
      && Named(rules, WritesOf(w, c)) !! Rekeyed(w.store, WritesOf(w, d))
  }

  ghost predicate FkInv(rules: Rules, w: World) {
    && WellFormed(rules) && Consistent(w.store, rules)
    && (forall c :: Consistent(Overlay(w.store, WritesOf(w, c)), rules))
    && (forall c, d :: Apart(rules, w, c, d))
  }

  lemma StartFk(rules: Rules, store: Store)
    requires WellFormed(rules) && Consistent(store, rules)
    ensures FkInv(rules, Start(store))
  {
    assert Overlay(store, map[]) == store;
  }

  lemma OverlayMore(store: Store, writes: map<Key, Write>, more: map<Key, Write>)
    ensures Overlay(store, writes + more) == Overlay(Overlay(store, writes), more)
  {
  }

  lemma NamedMore(rules: Rules, writes: map<Key, Write>, more: map<Key, Write>)
    ensures Named(rules, writes + more) <= Named(rules, writes) + Named(rules, more)
  {
  }

  lemma RekeyedMore(store: Store, writes: map<Key, Write>, more: map<Key, Write>)
    ensures Rekeyed(store, writes + more) <= Rekeyed(store, writes) + Rekeyed(Overlay(store, writes), more)
  {
  }

  /** What a statement adds to its transaction: writes, its scope among the writers only if there are
      any, and the workspaces reached. */
  lemma DoAdds(rules: Rules, tables: set<string>, w: World, e: Event) returns (o: Outcome)
    requires e.Do? && TxnOf(w, e.c).Open? && !TxnOf(w, e.c).failed
    ensures var v, t := IdealStep(rules, tables, w, e).0, TxnOf(w, e.c);
            && o == Apply(rules, Overlay(w.store, t.writes), LocksOf(rules, w, e.c), ByScope(tables, t.scope), e.stmt)
            && v.store == w.store
            && TxnOf(v, e.c).Open? && TxnOf(v, e.c).writes == t.writes + o.writes
            && TxnOf(v, e.c).writers == (if o.writes == map[] then t.writers else t.writers + {t.scope})
            && TxnOf(v, e.c).reached == t.reached + o.reached
            && forall c | c != e.c :: TxnOf(v, c) == TxnOf(w, c)
  {
    var t := TxnOf(w, e.c);
    o := Apply(rules, Overlay(w.store, t.writes), LocksOf(rules, w, e.c), ByScope(tables, t.scope), e.stmt);
  }

  lemma LocksCover(rules: Rules, w: World, c: ConnId, d: ConnId)
    requires c != d
    ensures WritesOf(w, d).Keys <= LocksOf(rules, w, c).busy
    ensures Named(rules, WritesOf(w, d)) <= LocksOf(rules, w, c).named
    ensures Rekeyed(w.store, WritesOf(w, d)) <= LocksOf(rules, w, c).rekeyed
  {
    if TxnOf(w, d).Open? { assert d in w.txns; }
  }

  lemma DoApart(rules: Rules, tables: set<string>, w: World, e: Event, d: ConnId)
    requires FkInv(rules, w) && e.Do? && TxnOf(w, e.c).Open? && !TxnOf(w, e.c).failed && d != e.c
    ensures var v := IdealStep(rules, tables, w, e).0; Apart(rules, v, e.c, d) && Apart(rules, v, d, e.c)
  {
    var t := TxnOf(w, e.c);
    var o := DoAdds(rules, tables, w, e);
    var snap := Overlay(w.store, t.writes);
    assert Consistent(Overlay(w.store, WritesOf(w, e.c)), rules);
    ApplyConsistent(rules, snap, LocksOf(rules, w, e.c), ByScope(tables, t.scope), e.stmt);
    assert Apart(rules, w, e.c, d) && Apart(rules, w, d, e.c);
    LocksCover(rules, w, e.c, d);
    NamedMore(rules, t.writes, o.writes);
    RekeyedMore(w.store, t.writes, o.writes);
  }

  lemma DoFk(rules: Rules, tables: set<string>, w: World, e: Event)
    requires FkInv(rules, w) && e.Do? && TxnOf(w, e.c).Open? && !TxnOf(w, e.c).failed
    ensures FkInv(rules, IdealStep(rules, tables, w, e).0)
  {
    var v := IdealStep(rules, tables, w, e).0;
    var t := TxnOf(w, e.c);
    var o := DoAdds(rules, tables, w, e);
    assert Consistent(Overlay(w.store, WritesOf(w, e.c)), rules);
    ApplyConsistent(rules, Overlay(w.store, t.writes), LocksOf(rules, w, e.c), ByScope(tables, t.scope), e.stmt);
    OverlayMore(w.store, t.writes, o.writes);
    forall c ensures Consistent(Overlay(v.store, WritesOf(v, c)), rules) {
      assert Consistent(Overlay(w.store, WritesOf(w, c)), rules);
    }
    forall c, d ensures Apart(rules, v, c, d) {
      assert Apart(rules, w, c, d);
      if c == e.c && d != c { DoApart(rules, tables, w, e, d); }
      if d == e.c && d != c { DoApart(rules, tables, w, e, c); }
    }
  }

  /** One transaction commits under another's open writes. */
  lemma CommitConsistent(rules: Rules, store: Store, mine: map<Key, Write>, theirs: map<Key, Write>)
    requires Consistent(Overlay(store, mine), rules) && Consistent(Overlay(store, theirs), rules)
    requires mine.Keys !! theirs.Keys
    requires Named(rules, mine) !! Rekeyed(store, theirs) && Named(rules, theirs) !! Rekeyed(store, mine)
    ensures Consistent(Overlay(Overlay(store, theirs), mine), rules)
  {
    var after := Overlay(Overlay(store, theirs), mine);
    forall c, col | c in after && col in rules && c.table == col.table ensures LinkHolds(after, rules, col, after[c]) {
      if ParentOf(rules, col, after[c]).Some? {
        if c in theirs {
          KeepsParent(rules, store, theirs, mine, c, col);
        } else {
          KeepsParent(rules, store, mine, theirs, c, col);
        }
      }
    }
  }

  /** A row of one overlay, not written by the other, keeps its parent when both apply. */
  lemma KeepsParent(rules: Rules, store: Store, ours: map<Key, Write>, others: map<Key, Write>, c: Key, col: Col)
    requires Consistent(Overlay(store, ours), rules) && Consistent(Overlay(store, others), rules)
    requires ours.Keys !! others.Keys && c !in others && c in Overlay(store, ours)
    requires Named(rules, ours) !! Rekeyed(store, others)
    requires col in rules && c.table == col.table && ParentOf(rules, col, Overlay(store, ours)[c]).Some?
    ensures LinkHolds(Overlay(Overlay(store, others), ours), rules, col, Overlay(store, ours)[c])
  {
    var row := Overlay(store, ours)[c];
    var p := ParentOf(rules, col, row).value;
    assert LinkHolds(Overlay(store, ours), rules, col, row);
    if p in others {
      if c in ours {
        assert p in Named(rules, ours);
      } else {
        assert c in Overlay(store, others) && Overlay(store, others)[c] == row;
        assert LinkHolds(Overlay(store, others), rules, col, row);
      }
    }
  }

  lemma CommitFk(rules: Rules, tables: set<string>, w: World, e: Event)
    requires FkInv(rules, w) && e.Commit? && TxnOf(w, e.c).Open? && !TxnOf(w, e.c).failed
    ensures FkInv(rules, IdealStep(rules, tables, w, e).0)
  {
    var v, theirs := IdealStep(rules, tables, w, e).0, WritesOf(w, e.c);
    assert Overlay(v.store, map[]) == v.store;
    forall c ensures Consistent(Overlay(v.store, WritesOf(v, c)), rules) {
      assert Consistent(Overlay(w.store, WritesOf(w, c)), rules);
      if c != e.c {
        assert Apart(rules, w, c, e.c) && Apart(rules, w, e.c, c);
        CommitConsistent(rules, w.store, WritesOf(w, c), theirs);
      }
    }
    forall c, d ensures Apart(rules, v, c, d) {
      assert Apart(rules, w, c, d) && Apart(rules, w, d, e.c);
      if c != d && c != e.c && d != e.c {
        assert Rekeyed(v.store, WritesOf(w, d)) == Rekeyed(w.store, WritesOf(w, d));
      }
    }
  }

  lemma StepFk(rules: Rules, tables: set<string>, w: World, e: Event)
    requires FkInv(rules, w)
    ensures FkInv(rules, IdealStep(rules, tables, w, e).0)
  {
    var v, t := IdealStep(rules, tables, w, e).0, TxnOf(w, e.c);
    if e.Do? && t.Open? && !t.failed {
      DoFk(rules, tables, w, e);
    } else if e.Commit? && t.Open? && !t.failed {
      CommitFk(rules, tables, w, e);
    } else {
      assert v.store == w.store && Overlay(w.store, map[]) == w.store;
      forall c ensures WritesOf(v, c) == WritesOf(w, c) || WritesOf(v, c) == map[] {}
      forall c ensures Consistent(Overlay(v.store, WritesOf(v, c)), rules) {
        assert Consistent(Overlay(w.store, WritesOf(w, c)), rules);
      }
      forall c, d ensures Apart(rules, v, c, d) { assert Apart(rules, w, c, d); }
    }
  }

  /** Over any run, under any rules, from any consistent store: what is committed, and what each open
      transaction sees of it through its own writes, has every link naming an existing row, of the
      same workspace where the key is composite. */
  lemma {:induction false} RunConsistent(rules: Rules, tables: set<string>, w: World, es: seq<Event>)
    requires FkInv(rules, w)
    ensures FkInv(rules, IdealRun(rules, tables, w, es).0)
    decreases |es|
  {
    if es != [] {
      StepFk(rules, tables, w, es[0]);
      RunConsistent(rules, tables, IdealStep(rules, tables, w, es[0]).0, es[1..]);
    }
  }

  // ---- A delete here is a delete there ----------------------------------------------------------

  /** With nothing to hide its target and no lock in its way, a delete of one row has one of the
      outcomes a database running the referential checks in any order can have ... */
  lemma DeleteIsOutcome(rules: Rules, tables: set<string>, snap: Store, key: Key, early: bool)
    requires key in snap
    ensures var o := Apply(rules, snap, NO_LOCKS, ByScope(tables, Unscoped), Delete({key}, early));
            (o.reply.Done? || o.reply.Refused?)
            && DeleteOutcome(snap, rules, key, o.reply.Done?, Overlay(snap, o.writes))
  {
    assert Targets(ByScope(tables, Unscoped), snap, {key}) == {key};
    ClosureCloses(snap, rules, {key});
    DeleteOverlay(rules, snap, {key});
    assert Overlay(snap, map[]) == snap;
  }

  /** ... and every such outcome is one of its. */
  lemma OutcomeIsDelete(rules: Rules, tables: set<string>, snap: Store, key: Key, ok: bool, after: Store)
    returns (early: bool)
    requires key in snap && DeleteOutcome(snap, rules, key, ok, after)
    ensures var o := Apply(rules, snap, NO_LOCKS, ByScope(tables, Unscoped), Delete({key}, early));
            o.reply.Done? == ok && Overlay(snap, o.writes) == after
  {
    early := !ok;
    DeleteIsOutcome(rules, tables, snap, key, early);
    DeleteOverlay(rules, snap, {key});
    assert Targets(ByScope(tables, Unscoped), snap, {key}) == {key};
  }
}
