/** What the policies before the fix did on a reused connection, and what the fixed ones do. */
module StickySetting {
  import opened Workspaces
  import opened SqlLogic
  import opened ForeignKeys
  import opened RlsPolicy
  import opened RlsCatalogue
  import opened TenantPool

  /** Whatever mix of legacy and fixed policies is in force, a SELECT answers as its scope says,
      except exactly where it is unscoped on a reused connection, the table's policy is still legacy
      and the table has a row: then every row is hidden. */
  lemma MixedAnswersExactlyWhen(
    rules: Rules, cat: Policies, g: Guc, scope: Scope, snap: Store, locks: Locks, table: string)
    requires Mixed(cat)
    requires Sane(g) && Matches(Current(g), scope)
    ensures var actual := Apply(rules, snap, locks, ByPolicy(cat, Current(g)), Select(table)).reply;
            var ideal := Apply(rules, snap, locks, ByScope(cat.Keys, scope), Select(table)).reply;
            var hidden := scope.Unscoped? && Current(g) == Text("")
                          && table in cat && cat[table] == Legacy(table) && exists k | k in snap :: k.table == table;
            (actual == ideal <==> !hidden) && (hidden ==> actual == Rows(map[]))
  {
    var v := Current(g);
    var lost := scope.Unscoped? && v == Text("") && table in cat && cat[table] == Legacy(table);
    forall k | k in snap && k.table == table
      ensures Sees(ByPolicy(cat, v), snap, k, snap[k]) <==> Sees(ByScope(cat.Keys, scope), snap, k, snap[k]) && !lost
    {
      if table in cat {
        LegOfTexts(table);
        PolicyDecides(cat, if cat[table] == Legacy(table) then LEGACY_UNSET else UNSET, v, snap, k, snap[k]);
      }
    }
    var actual := map k | k in snap && k.table == table && Sees(ByPolicy(cat, v), snap, k, snap[k]) :: snap[k];
    var ideal := map k | k in snap && k.table == table && Sees(ByScope(cat.Keys, scope), snap, k, snap[k]) :: snap[k];
    if lost {
      assert actual == map[];
      if k :| k in snap && k.table == table { assert k in ideal; }
    } else {
      assert actual == ideal;
    }
  }

  /** The reported run: a scoped request warms a connection, then an unscoped query reuses it. On
      any store with a row in the table the legacy policies answer with nothing, the fixed ones
      with every row of the table. */
  lemma ReusedConnection(rules: Rules, legacy: Policies, store: Store, c: ConnId, org: OrgId, table: string)
    requires Uniform(legacy, LEGACY_UNSET) && table in legacy
    requires exists k | k in store :: k.table == table
    ensures var es := [Begin(c, Org(org)), Commit(c), Begin(c, Unscoped), Do(c, Select(table))];
            PoolRun(rules, legacy, PoolStart(store), es).1 == [Ok, Ok, Ok, Rows(map[])] &&
            PoolRun(rules, Repaired(legacy), PoolStart(store), es).1
              == [Ok, Ok, Ok, Rows(map k | k in store && k.table == table :: store[k])]
  {
    RepairFixesAll(legacy);
    WarmThenUnscoped(rules, legacy, store, c, org, table);
    WarmThenUnscoped(rules, Repaired(legacy), store, c, org, table);
    MixedAnswersExactlyWhen(rules, legacy, Guc(Text(""), Null), Unscoped, store, NO_LOCKS, table);
    FixedAnswersEveryRow(rules, Repaired(legacy), store, table);
  }

  lemma FixedAnswersEveryRow(rules: Rules, fixed: Policies, store: Store, table: string)
    requires Uniform(fixed, UNSET) && table in fixed
    ensures Apply(rules, store, NO_LOCKS, ByPolicy(fixed, Text("")), Select(table)).reply
         == Rows(map k | k in store && k.table == table :: store[k])
  {
    forall k, row
      ensures Sees(ByPolicy(fixed, Text("")), store, k, row) <==> Sees(ByScope(fixed.Keys, Unscoped), store, k, row)
      ensures Admits(ByPolicy(fixed, Text("")), store, k, row) <==> Admits(ByScope(fixed.Keys, Unscoped), store, k, row)
    {
      GuardsAgree(fixed, Text(""), Unscoped, store, k, row);
    }
    ApplyAgrees(rules, store, NO_LOCKS, ByPolicy(fixed, Text("")), ByScope(fixed.Keys, Unscoped), Select(table));
    assert Apply(rules, store, NO_LOCKS, ByScope(fixed.Keys, Unscoped), Select(table)).reply
        == Rows(map k | k in store && k.table == table :: store[k]);
  }

  lemma PoolRunFirst(rules: Rules, cat: Policies, p: Pool, e: Event, es: seq<Event>)
    ensures var (q, r) := PoolStep(rules, cat, p, e);
            PoolRun(rules, cat, p, [e] + es).1 == [r] + PoolRun(rules, cat, q, es).1
  {
    assert ([e] + es)[0] == e && ([e] + es)[1..] == es;
  }

  /** The two states between: begun and warm, and idle and warm. */
  lemma Warms(rules: Rules, cat: Policies, store: Store, c: ConnId, org: OrgId) returns (p: Pool)
    ensures p.w.store == store && TxnOf(p.w, c) == Idle && GucOf(p, c) == Guc(Text(""), Null) && p.w.txns == map[]
    ensures var (q, r) := PoolStep(rules, cat, PoolStart(store), Begin(c, Org(org)));
            r == Ok && PoolStep(rules, cat, q, Commit(c)) == (p, Ok)
  {
    var p1 := PoolStep(rules, cat, PoolStart(store), Begin(c, Org(org))).0;
    assert TxnOf(p1.w, c) == Open(map[], Org(org), {}, {}, false) && Overlay(store, map[]) == store;
    p := PoolStep(rules, cat, p1, Commit(c)).0;
  }

  lemma UnscopedLook(rules: Rules, cat: Policies, p: Pool, store: Store, c: ConnId, table: string)
    requires p.w.store == store && p.w.txns == map[] && GucOf(p, c) == Guc(Text(""), Null)
    ensures var (q, r) := PoolStep(rules, cat, p, Begin(c, Unscoped));
            r == Ok && PoolStep(rules, cat, q, Do(c, Select(table))).1
                       == Apply(rules, store, NO_LOCKS, ByPolicy(cat, Text("")), Select(table)).reply
  {
    var q := PoolStep(rules, cat, p, Begin(c, Unscoped)).0;
    assert TxnOf(q.w, c) == Open(map[], Unscoped, {}, {}, false) && Current(GucOf(q, c)) == Text("");
    assert Overlay(store, map[]) == store && LocksOf(rules, q.w, c) == NO_LOCKS;
  }

  lemma WarmThenUnscoped(rules: Rules, cat: Policies, store: Store, c: ConnId, org: OrgId, table: string)
    ensures var es := [Begin(c, Org(org)), Commit(c), Begin(c, Unscoped), Do(c, Select(table))];
            PoolRun(rules, cat, PoolStart(store), es).1
            == [Ok, Ok, Ok, Apply(rules, store, NO_LOCKS, ByPolicy(cat, Text("")), Select(table)).reply]
  {
    var e1, e2, e3, e4 := Begin(c, Org(org)), Commit(c), Begin(c, Unscoped), Do(c, Select(table));
    var p1 := PoolStep(rules, cat, PoolStart(store), e1).0;
    var p2 := Warms(rules, cat, store, c, org);
    UnscopedLook(rules, cat, p2, store, c, table);
    var p3 := PoolStep(rules, cat, p2, e3).0;
    var answer := PoolStep(rules, cat, p3, e4).1;
    PoolRunFirst(rules, cat, p3, e4, []);
    PoolRunFirst(rules, cat, p2, e3, [e4]);
    PoolRunFirst(rules, cat, p1, e2, [e3, e4]);
    PoolRunFirst(rules, cat, PoolStart(store), e1, [e2, e3, e4]);
    assert [e4] + [] == [e4] && [e3] + [e4] == [e3, e4];
    assert [e2] + [e3, e4] == [e2, e3, e4] && [e1] + [e2, e3, e4] == [e1, e2, e3, e4];
  }
}
