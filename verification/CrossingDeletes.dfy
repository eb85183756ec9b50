/** Deletes and the referential actions they set off: when they stay in their workspace, and a run in
which one does not. */
module CrossingDeletes {
  import opened Options
  import opened Workspaces
  import opened SqlLogic
  import opened ForeignKeys
  import opened RlsPolicy
  import opened RlsCatalogue
  import opened TenantPool
  import opened TenantConsistency
  import opened TenantIsolation
  import opened TenantRuns

  // ---- When deletes reach no other workspace ----------------------------------------------------

  /** Every cascading or clearing key is composite and hangs off a table that compares its own
      workspace column. */
  predicate ActionsConfined(rules: Rules, tables: set<string>) {
    ActionsComposite(rules) &&
    forall col | col in rules && (rules[col].action == Cascade || Clears(col, rules[col])) ::
      rules[col].parent in tables && rules[col].parent != "users"
  }

  lemma ConfinedClosure(
    rules: Rules, tables: set<string>, snap: Store, targets: set<Key>, a: OrgId, b: OrgId)
    requires ActionsConfined(rules, tables) && Consistent(snap, rules) && targets <= snap.Keys && a != b
    requires forall k | k in targets && OrgTable(tables, k) :: snap[k].org == a
    ensures b !in ReachedBy(snap, rules, tables, targets, Closure(snap, rules, targets))
  {
    var gone := Closure(snap, rules, targets);
    var home := targets + set k | k in snap && snap[k].org == a;
    forall c, p, col | p in home && col in rules && rules[col].action == Cascade && Points(snap, rules, col, c, p)
      ensures c in home
    {
      assert LinkHolds(snap, rules, col, snap[c]);
    }
    ClosureIsLeast(snap, rules, targets, home);
    forall c | c in Losers(snap, rules, gone) ensures snap[c].org == a {
      var column :| column in Cleared(snap, rules, gone, c);
      var col, p :| col in rules && p in gone && Clears(col, rules[col]) && Points(snap, rules, col, c, p);
      assert LinkHolds(snap, rules, col, snap[c]);
    }
  }

  /** Under such keys no transaction that wrote only while scoped to other workspaces ever reaches a
      row of b, in any state of any run: every stranger is foreign. */
  ghost predicate NoneReached(w: World, b: OrgId) {
    forall c :: Stranger(TxnOf(w, c), b) ==> b !in TxnOf(w, c).reached
  }

  lemma ApplyReachesNobody(
    rules: Rules, tables: set<string>, snap: Store, locks: Locks, a: OrgId, stmt: Stmt, b: OrgId)
    requires ActionsConfined(rules, tables) && Consistent(snap, rules) && a != b
    ensures b !in Apply(rules, snap, locks, ByScope(tables, Org(a)), stmt).reached
  {
    if stmt.Delete? {
      ConfinedClosure(rules, tables, snap, Targets(ByScope(tables, Org(a)), snap, stmt.keys), a, b);
    }
  }

  lemma StepReachesNobody(rules: Rules, tables: set<string>, w: World, e: Event, b: OrgId)
    requires ActionsConfined(rules, tables) && FkInv(rules, w) && NoneReached(w, b)
    ensures NoneReached(IdealStep(rules, tables, w, e).0, b)
  {
    var t, v := TxnOf(w, e.c), IdealStep(rules, tables, w, e).0;
    if e.Do? && t.Open? && !t.failed {
      var o := DoAdds(rules, tables, w, e);
      var g, snap, locks := ByScope(tables, t.scope), Overlay(w.store, t.writes), LocksOf(rules, w, e.c);
      assert Consistent(Overlay(w.store, WritesOf(w, e.c)), rules);
      if Stranger(TxnOf(v, e.c), b) {
        if o.writes == map[] {
          NothingReached(rules, snap, locks, g, e.stmt);
        } else {
          WriterIsElsewhere(t, b);
          ApplyReachesNobody(rules, tables, snap, locks, t.scope.id, e.stmt, b);
        }
        assert Stranger(t, b) && b !in o.reached;
      }
    }
    forall c | Stranger(TxnOf(v, c), b) ensures b !in TxnOf(v, c).reached {
      if c != e.c { assert TxnOf(v, c) == TxnOf(w, c); }
    }
  }

  lemma {:induction false} ConfinedKeysReachNobody(
    rules: Rules, tables: set<string>, w: World, es: seq<Event>, b: OrgId)
    requires ActionsConfined(rules, tables) && FkInv(rules, w) && NoneReached(w, b)
    ensures NoneReached(IdealRun(rules, tables, w, es).0, b)
    decreases |es|
  {
    if es != [] {
      StepFk(rules, tables, w, es[0]);
      StepReachesNobody(rules, tables, w, es[0], b);
      ConfinedKeysReachNobody(rules, tables, IdealStep(rules, tables, w, es[0]).0, es[1..], b);
    }
  }

  // ---- A delete that does ------------------------------------------------------------------------

  const COMMENT_KEY := Col("expense_comments", "report_id")

  /** A comment's key to its report cascades and is not composite. */
  const COMMENT_RULES: Rules := map[COMMENT_KEY := Rule("expense_reports", false, Cascade)]

  lemma CommentGoes(report: Key, r: Row, comment: Key, row: Row)
    requires report.table == "expense_reports" && comment.table == "expense_comments"
    requires row.links == map["report_id" := report.id]
    ensures var s: Store := map[report := r, comment := row];
            Closure(s, COMMENT_RULES, {report}) == {report, comment}
            && !Obstructed(s, COMMENT_RULES, {report, comment}, {report, comment})
            && Losers(s, COMMENT_RULES, {report, comment}) == {}
            && Detached(s, COMMENT_RULES, {report, comment}) == map[]
  {
    var s: Store := map[report := r, comment := row];
    ClosureCloses(s, COMMENT_RULES, {report});
    assert Points(s, COMMENT_RULES, COMMENT_KEY, comment, report);
  }

  lemma CommentInserted(tables: set<string>, b: OrgId, report: Key, r: Row, comment: Key, row: Row)
    requires report.table == "expense_reports" && comment.table == "expense_comments"
    requires row.org == b && row.links == map["report_id" := report.id]
    ensures var s: Store := map[report := r];
            Apply(COMMENT_RULES, s, NO_LOCKS, ByScope(tables, Org(b)), Insert(comment, row))
            == Outcome(map[comment := Put(row)], {}, Done({comment}))
  {
    var s: Store := map[report := r];
    var after := s[comment := row];
    assert LinkHolds(after, COMMENT_RULES, COMMENT_KEY, row);
    assert ChecksPass(COMMENT_RULES, after, {comment});
  }

  lemma ReportDeleted(
    tables: set<string>, a: OrgId, b: OrgId, report: Key, r: Row, comment: Key, row: Row)
    requires {"expense_reports", "expense_comments"} <= tables && report.table == "expense_reports" && r.org == a
    requires comment.table == "expense_comments" && row.org == b && row.links == map["report_id" := report.id]
    ensures var s: Store := map[report := r, comment := row];
            Apply(COMMENT_RULES, s, NO_LOCKS, ByScope(tables, Org(a)), Delete({report}, false))
            == Outcome(map[report := Gone, comment := Gone], {b}, Done({report}))
  {
    var s: Store := map[report := r, comment := row];
    var g := ByScope(tables, Org(a));
    CommentGoes(report, r, comment, row);
    assert Targets(g, s, {report}) == {report};
    assert DeleteWrites(s, COMMENT_RULES, {report, comment}) == map[report := Gone, comment := Gone];
    assert comment in {report, comment} - {report};
    assert ReachedBy(s, COMMENT_RULES, tables, {report}, {report, comment}) == {b};
  }

  /** b writes its comment ... */
  lemma CommentStored(
    tables: set<string>, b: OrgId, d: ConnId, report: Key, r: Row, comment: Key, row: Row)
    requires {"expense_reports", "expense_comments"} <= tables
    requires report.table == "expense_reports" && comment.table == "expense_comments"
    requires row.org == b && row.links == map["report_id" := report.id]
    ensures Runs(COMMENT_RULES, tables, Start(map[report := r]),
                 [Begin(d, Org(b)), Do(d, Insert(comment, row)), Commit(d)],
                 World(map[report := r, comment := row], map[]), [Ok, Done({comment}), Ok])
  {
    var s, t: Store := map[report := r], map[report := r, comment := row];
    var start := Start(s);
    NobodyLocks(COMMENT_RULES, start, d);
    CommentInserted(tables, b, report, r, comment, row);
    assert Overlay(s, map[comment := Put(row)]) == t;
    var es, replies := WritesAndCommits(COMMENT_RULES, tables, start, d, Org(b), Insert(comment, row), t);
    assert start.txns - {d} == map[];
  }

  /** ... begins again and looks. */
  lemma CommentSeen(
    tables: set<string>, b: OrgId, d: ConnId, report: Key, r: Row, comment: Key, row: Row)
    requires {"expense_reports", "expense_comments"} <= tables
    requires report.table == "expense_reports" && comment.table == "expense_comments"
    requires row.org == b && row.links == map["report_id" := report.id]
    ensures Runs(COMMENT_RULES, tables, Start(map[report := r]),
                 [Begin(d, Org(b)), Do(d, Insert(comment, row)), Commit(d)] + [Begin(d, Org(b))]
                   + [Do(d, Select("expense_comments"))],
                 World(map[report := r, comment := row], map[d := Opened(Org(b))]),
                 [Ok, Done({comment}), Ok] + [Ok] + [Rows(map[comment := row])])
  {
    var t: Store := map[report := r, comment := row];
    var start, open := Start(map[report := r]), World(t, map[d := Opened(Org(b))]);
    var es, replies := [Begin(d, Org(b)), Do(d, Insert(comment, row)), Commit(d)], [Ok, Done({comment}), Ok];
    CommentStored(tables, b, d, report, r, comment, row);
    RunMore(COMMENT_RULES, tables, start, es, World(t, map[]), replies, Begin(d, Org(b)), open, Ok);
    LooksAt(COMMENT_RULES, tables, open, d, "expense_comments");
    assert Overlay(t, map[]) == t;
    assert Answer(tables, t, "expense_comments", Org(b)) == map[comment := row];
    RunMore(COMMENT_RULES, tables, start, es + [Begin(d, Org(b))], open, replies + [Ok],
            Do(d, Select("expense_comments")), open, Rows(map[comment := row]));
  }

  /** a deletes its report under b's open transaction, and b looks again. */
  lemma CommentGone(
    tables: set<string>, a: OrgId, b: OrgId, d: ConnId, c: ConnId, report: Key, r: Row, comment: Key, row: Row)
    requires {"expense_reports", "expense_comments"} <= tables && a != b && c != d
    requires report.table == "expense_reports" && r.org == a
    requires comment.table == "expense_comments" && row.org == b && row.links == map["report_id" := report.id]
    ensures Runs(COMMENT_RULES, tables, World(map[report := r, comment := row], map[d := Opened(Org(b))]),
                 [Begin(c, Org(a)), Do(c, Delete({report}, false)), Commit(c)] + [Do(d, Select("expense_comments"))],
                 World(map[], map[d := Opened(Org(b))]), [Ok, Done({report}), Ok] + [Rows(map[])])
  {
    var t, none: Store := map[report := r, comment := row], map[];
    var open, last := World(t, map[d := Opened(Org(b))]), World(none, map[d := Opened(Org(b))]);
    NobodyLocks(COMMENT_RULES, open, c);
    ReportDeleted(tables, a, b, report, r, comment, row);
    assert Overlay(t, map[report := Gone, comment := Gone]) == none;
    var es, replies := WritesAndCommits(COMMENT_RULES, tables, open, c, Org(a), Delete({report}, false), none);
    assert open.txns - {c} == open.txns;
    LooksAt(COMMENT_RULES, tables, last, d, "expense_comments");
    assert Overlay(none, map[]) == none;
    assert Answer(tables, none, "expense_comments", Org(b)) == map[];
    RunMore(COMMENT_RULES, tables, open, es, last, replies, Do(d, Select("expense_comments")), last, Rows(map[]));
  }

  /** The two, one after the other, where each transaction simply carries its scope. */
  lemma CommentSeenThenGone(
    tables: set<string>, a: OrgId, b: OrgId, d: ConnId, c: ConnId, report: Key, r: Row, comment: Key, row: Row)
    requires {"expense_reports", "expense_comments"} <= tables && a != b && c != d
    requires report.table == "expense_reports" && r.org == a
    requires comment.table == "expense_comments" && row.org == b && row.links == map["report_id" := report.id]
    ensures var view := Do(d, Select("expense_comments"));
            var seen := [Begin(d, Org(b)), Do(d, Insert(comment, row)), Commit(d)] + [Begin(d, Org(b))] + [view];
            var gone := [Begin(c, Org(a)), Do(c, Delete({report}, false)), Commit(c)] + [view];
            IdealRun(COMMENT_RULES, tables, Start(map[report := r]), seen + gone).1 ==
            ([Ok, Done({comment}), Ok] + [Ok] + [Rows(map[comment := row])])
            + ([Ok, Done({report}), Ok] + [Rows(map[])])
  {
    var view := Do(d, Select("expense_comments"));
    var seen := [Begin(d, Org(b)), Do(d, Insert(comment, row)), Commit(d)] + [Begin(d, Org(b))] + [view];
    var gone := [Begin(c, Org(a)), Do(c, Delete({report}, false)), Commit(c)] + [view];
    CommentSeen(tables, b, d, report, r, comment, row);
    CommentGone(tables, a, b, d, c, report, r, comment, row);
    RunAppends(COMMENT_RULES, tables, Start(map[report := r]), seen, gone);
  }

  /** The referential check on b's comment asks no policy, so it may name a's report; a may delete its
      own report; and the cascade asks no policy either. All on tables with a policy, and fixed: b's
      comment, seen before, is gone. */
  lemma CascadeCrosses(
    cat: Policies, a: OrgId, b: OrgId, d: ConnId, c: ConnId, report: Key, r: Row, comment: Key, row: Row)
    requires Uniform(cat, UNSET) && {"expense_reports", "expense_comments"} <= cat.Keys && a != b && c != d
    requires report.table == "expense_reports" && r.org == a && r.links == map[]
    requires comment.table == "expense_comments" && row.org == b && row.links == map["report_id" := report.id]
    ensures var view := Do(d, Select("expense_comments"));
            var seen := [Begin(d, Org(b)), Do(d, Insert(comment, row)), Commit(d)] + [Begin(d, Org(b))] + [view];
            var gone := [Begin(c, Org(a)), Do(c, Delete({report}, false)), Commit(c)] + [view];
            PoolRun(COMMENT_RULES, cat, PoolStart(map[report := r]), seen + gone).1 ==
            ([Ok, Done({comment}), Ok] + [Ok] + [Rows(map[comment := row])])
            + ([Ok, Done({report}), Ok] + [Rows(map[])])
  {
    var view := Do(d, Select("expense_comments"));
    var seen := [Begin(d, Org(b)), Do(d, Insert(comment, row)), Commit(d)] + [Begin(d, Org(b))] + [view];
    var gone := [Begin(c, Org(a)), Do(c, Delete({report}, false)), Commit(c)] + [view];
    var s: Store := map[report := r];
    CommentSeenThenGone(cat.Keys, a, b, d, c, report, r, comment, row);
    RunRefines(COMMENT_RULES, cat, PoolStart(s), Start(s), seen + gone);
  }
}
