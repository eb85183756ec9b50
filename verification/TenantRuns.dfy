/** Runs of the scope-carrying machine, put together event by event. */
module TenantRuns {
  import opened Options
  import opened Workspaces
  import opened ForeignKeys
  import opened TenantPool
  import opened TenantConsistency

  lemma {:induction false} RunAppends(rules: Rules, tables: set<string>, w: World, xs: seq<Event>, ys: seq<Event>)
    ensures var first := IdealRun(rules, tables, w, xs);
            var second := IdealRun(rules, tables, first.0, ys);
            IdealRun(rules, tables, w, xs + ys) == (second.0, first.1 + second.1)
    decreases |xs|
  {
    if xs == [] {
      assert xs + ys == ys;
      var second := IdealRun(rules, tables, w, ys);
      assert [] + second.1 == second.1;
    } else {
      assert (xs + ys)[0] == xs[0] && (xs + ys)[1..] == xs[1..] + ys;
      var (next, r) := IdealStep(rules, tables, w, xs[0]);
      RunAppends(rules, tables, next, xs[1..], ys);
      var rest, last := IdealRun(rules, tables, next, xs[1..]), IdealRun(rules, tables, w, xs).0;
      var more := IdealRun(rules, tables, last, ys).1;
      assert [r] + (rest.1 + more) == ([r] + rest.1) + more;
    }
  }

  lemma RunOne(rules: Rules, tables: set<string>, w: World, e: Event)
    ensures IdealRun(rules, tables, w, [e])
         == (IdealStep(rules, tables, w, e).0, [IdealStep(rules, tables, w, e).1])
  {
    assert [e][1..] == [];
    var (next, r) := IdealStep(rules, tables, w, e);
    assert IdealRun(rules, tables, next, []) == (next, []) && [r] + [] == [r];
  }

  /** The run es takes w to v with these replies. */
  ghost predicate Runs(
    rules: Rules, tables: set<string>, w: World, es: seq<Event>, v: World, replies: seq<Reply>)
  {
    IdealRun(rules, tables, w, es) == (v, replies)
  }

  lemma RunMore(
    rules: Rules, tables: set<string>, w: World, es: seq<Event>, v: World, replies: seq<Reply>, e: Event, u: World,
    r: Reply)
    requires Runs(rules, tables, w, es, v, replies) && IdealStep(rules, tables, v, e) == (u, r)
    ensures Runs(rules, tables, w, es + [e], u, replies + [r])
  {
    RunAppends(rules, tables, w, es, [e]);
    RunOne(rules, tables, v, e);
  }

  /** A connection that has begun a transaction and done nothing in it. */
  function Opened(scope: Scope): Txn { Open(map[], scope, {}, {}, false) }

  /** What the other open transactions hold does not depend on this one. */
  lemma LocksAreOthers(rules: Rules, w: World, c: ConnId, txns: map<ConnId, Txn>)
    requires txns - {c} == w.txns - {c}
    ensures LocksOf(rules, World(w.store, txns), c) == LocksOf(rules, w, c)
  {
    var v := World(w.store, txns);
    forall d | d != c ensures d in txns <==> d in w.txns
    {
      assert d in txns <==> d in txns - {c};
      assert d in w.txns <==> d in w.txns - {c};
    }
    forall d | d != c && d in txns ensures WritesOf(v, d) == WritesOf(w, d)
    {
      assert txns[d] == (txns - {c})[d] && w.txns[d] == (w.txns - {c})[d];
    }
  }

  /** The step of a connection's first write. */
  lemma OneWrite(rules: Rules, tables: set<string>, w: World, c: ConnId, t: Txn, stmt: Stmt)
    requires TxnOf(w, c) == t && t.Open? && t.writes == map[] && !t.failed
    ensures var o := Apply(rules, w.store, LocksOf(rules, w, c), ByScope(tables, t.scope), stmt);
            IdealStep(rules, tables, w, Do(c, stmt)) ==
            (World(w.store, w.txns[c := Open(o.writes, t.scope,
                                             if o.writes == map[] then t.writers else t.writers + {t.scope},
                                             t.reached + o.reached, o.reply.Refused?)]),
             o.reply)
  {
    var o := Apply(rules, w.store, LocksOf(rules, w, c), ByScope(tables, t.scope), stmt);
    assert Overlay(w.store, t.writes) == w.store && t.writes + o.writes == o.writes;
  }

  /** What a row is to a scope: its own column, or on `users` a membership; tables without a policy,
      and the unscoped, see everything. */
  predicate Visible(tables: set<string>, s: Store, k: Key, row: Row, scope: Scope) {
    match scope
    case Unscoped => true
    case Org(o) =>
      if k.table !in tables then true
      else if k.table != "users" then row.org == o
      else exists m | m in s ::
        m.table == "memberships" && "user_id" in s[m].links && s[m].links["user_id"] == k.id && s[m].org == o
  }

  function Answer(tables: set<string>, s: Store, table: string, scope: Scope): Store {
    map k | k in s && k.table == table && Visible(tables, s, k, s[k], scope) :: s[k]
  }

  /** A query: the rows its scope may see, committed or written by the transaction itself, and no
      trace. */
  lemma LooksAt(rules: Rules, tables: set<string>, w: World, d: ConnId, table: string)
    requires TxnOf(w, d).Open? && !TxnOf(w, d).failed
    ensures var t := TxnOf(w, d);
            IdealStep(rules, tables, w, Do(d, Select(table)))
            == (w, Rows(Answer(tables, Overlay(w.store, t.writes), table, t.scope)))
  {
    var t := TxnOf(w, d);
    var g, snap := ByScope(tables, t.scope), Overlay(w.store, t.writes);
    assert w.txns[d := t] == w.txns;
    var o := Apply(rules, snap, LocksOf(rules, w, d), g, Select(table));
    assert t.writes + o.writes == t.writes && t.reached + o.reached == t.reached;
    assert (map k | k in snap && k.table == table && Sees(g, snap, k, snap[k]) :: snap[k])
        == Answer(tables, snap, table, t.scope);
  }

  /** A connection begins, writes and commits. */
  lemma WritesAndCommits(
    rules: Rules, tables: set<string>, w: World, c: ConnId, scope: Scope, stmt: Stmt, v: Store)
    returns (es: seq<Event>, replies: seq<Reply>)
    requires TxnOf(w, c) == Idle
    requires var o := Apply(rules, w.store, LocksOf(rules, w, c), ByScope(tables, scope), stmt);
             !o.reply.Refused? && v == Overlay(w.store, o.writes)
    ensures es == [Begin(c, scope), Do(c, stmt), Commit(c)]
    ensures replies == [Ok, Apply(rules, w.store, LocksOf(rules, w, c), ByScope(tables, scope), stmt).reply, Ok]
    ensures Runs(rules, tables, w, es, World(v, w.txns - {c}), replies)
  {
    var o := Apply(rules, w.store, LocksOf(rules, w, c), ByScope(tables, scope), stmt);
    var w1 := World(w.store, w.txns[c := Opened(scope)]);
    es, replies := [Begin(c, scope)], [Ok];
    RunOne(rules, tables, w, Begin(c, scope));
    WritesOnce(rules, tables, w, c, scope, stmt);
    var w2 := IdealStep(rules, tables, w1, Do(c, stmt)).0;
    RunMore(rules, tables, w, es, w1, replies, Do(c, stmt), w2, o.reply);
    RunMore(rules, tables, w, es + [Do(c, stmt)], w2, replies + [o.reply], Commit(c), World(v, w.txns - {c}), Ok);
    es, replies := es + [Do(c, stmt)] + [Commit(c)], replies + [o.reply] + [Ok];
  }

  lemma NobodyLocks(rules: Rules, w: World, c: ConnId)
    requires forall d :: WritesOf(w, d) == map[]
    ensures LocksOf(rules, w, c) == NO_LOCKS
  {
  }

  /** The statement and the commit of such a transaction. */
  lemma WritesOnce(rules: Rules, tables: set<string>, w: World, c: ConnId, scope: Scope, stmt: Stmt)
    requires TxnOf(w, c) == Idle
    requires !Apply(rules, w.store, LocksOf(rules, w, c), ByScope(tables, scope), stmt).reply.Refused?
    ensures var o := Apply(rules, w.store, LocksOf(rules, w, c), ByScope(tables, scope), stmt);
            var (w2, r) := IdealStep(rules, tables, World(w.store, w.txns[c := Opened(scope)]), Do(c, stmt));
            r == o.reply
            && IdealStep(rules, tables, w2, Commit(c)) == (World(Overlay(w.store, o.writes), w.txns - {c}), Ok)
  {
    var w1 := World(w.store, w.txns[c := Opened(scope)]);
    assert w1.txns - {c} == w.txns - {c};
    LocksAreOthers(rules, w, c, w1.txns);
    OneWrite(rules, tables, w1, c, Opened(scope), stmt);
    var w2 := IdealStep(rules, tables, w1, Do(c, stmt)).0;
    CommitsAlone(rules, tables, w2, c);
    assert w2.txns - {c} == w.txns - {c};
  }

  lemma CommitsAlone(rules: Rules, tables: set<string>, w: World, c: ConnId)
    requires TxnOf(w, c).Open? && !TxnOf(w, c).failed
    ensures IdealStep(rules, tables, w, Commit(c)) == (World(Overlay(w.store, TxnOf(w, c).writes), w.txns - {c}), Ok)
  {
  }
}
