/** Foreign keys between workspace tables: what each delete rule does to the rows that hang off a
deleted one, and the migrations that change the rules in place. */
module References {
  import opened Options
  import opened Workspaces
  import opened ForeignKeys

  // ---- A delete under way ---------------------------------------------------------------------

  /** Mid-way through a delete: `gone` is deleted, `pending` are the referential checks still to run,
      and every check already run left nothing pointing at its row. */
  ghost predicate Deleting(
    rows: Rows, rules: Rules, key: RowId, now: Rows, gone: set<RowId>, pending: set<(RowId, Col)>)
    requires key in rows
  {
    && gone <= Closure(rows, rules, {key}) && key in gone && gone <= rows.Keys
    && now.Keys == rows.Keys - gone
    && (forall c | c in now ::
          now[c] == rows[c].(links := now[c].links) &&
          exists lost: set<string> :: lost <= Cleared(rows, rules, gone, c) && now[c].links == rows[c].links - lost)
    && (forall t | t in pending :: t.0 in gone && t.1 in rules)
    && (forall p, col | p in gone && col in rules && rules[col].parent == p.table && (p, col) !in pending ::
          forall c | c in now :: !Points(now, rules, col, c, p))
  }

  /** A survivor still points wherever it used to, except through links that were cleared. */
  lemma StillPoints(rows: Rows, rules: Rules, key: RowId, now: Rows, gone: set<RowId>, pending: set<(RowId, Col)>,
                    col: Col, c: RowId, p: RowId)
    requires key in rows && Deleting(rows, rules, key, now, gone, pending) && c in now
    ensures Points(now, rules, col, c, p) ==> Points(rows, rules, col, c, p)
    ensures Points(rows, rules, col, c, p) && col in rules && !Clears(col, rules[col]) ==> Points(now, rules, col, c, p)
  {
  }

  /** A survivor has lost all the links it was to lose. */
  lemma ClearedInFull(rows: Rows, rules: Rules, key: RowId, now: Rows, gone: set<RowId>, c: RowId)
    requires key in rows && Deleting(rows, rules, key, now, gone, {}) && c in now
    ensures now[c].links == rows[c].links - Cleared(rows, rules, gone, c)
  {
    var cleared := Cleared(rows, rules, gone, c);
    var lost: set<string> :| lost <= cleared && now[c].links == rows[c].links - lost;
    forall column | column in cleared && column in rows[c].links ensures column in lost {
      var col, p :| col in rules && p in gone && Clears(col, rules[col])
                    && Points(rows, rules, col, c, p) && col.column == column;
      assert !Points(now, rules, col, c, p);
    }
  }

  /** When no check is left, the outcome is the one promised. */
  lemma DeletingDone(rows: Rows, rules: Rules, key: RowId, now: Rows, gone: set<RowId>)
    requires key in rows && WellFormed(rules) && Deleting(rows, rules, key, now, gone, {})
    ensures DeleteOutcome(rows, rules, key, true, now)
  {
    forall c, p, col | p in gone && col in rules && !Clears(col, rules[col]) && Points(rows, rules, col, c, p)
      ensures c in gone
    {
      if c !in gone {
        StillPoints(rows, rules, key, now, gone, {}, col, c, p);
        assert false;
      }
    }
    ClosureIsLeast(rows, rules, {key}, gone);
    assert gone == Closure(rows, rules, {key});
    forall c | c in now ensures now[c] == rows[c].(links := rows[c].links - Cleared(rows, rules, gone, c)) {
      ClearedInFull(rows, rules, key, now, gone, c);
    }
    assert now == Detached(rows, rules, gone);
  }

  /** The rows a check finds pointing at a deleted row. */
  function Children(now: Rows, rules: Rules, col: Col, p: RowId): set<RowId> {
    set c | c in now && Points(now, rules, col, c, p)
  }

  function ChecksFor(rules: Rules, kids: set<RowId>): set<(RowId, Col)> {
    set k, col | k in kids && col in rules && rules[col].parent == k.table :: (k, col)
  }

  lemma CascadeStep(rows: Rows, rules: Rules, key: RowId, now: Rows, gone: set<RowId>, pending: set<(RowId, Col)>,
      p: RowId, col: Col)
    requires key in rows && Deleting(rows, rules, key, now, gone, pending) && (p, col) in pending
    requires rules[col].action == Cascade
    ensures var kids := Children(now, rules, col, p);
            Deleting(rows, rules, key, now - kids, gone + kids, pending - {(p, col)} + ChecksFor(rules, kids))
  {
    var kids := Children(now, rules, col, p);
    var then_, more := now - kids, pending - {(p, col)} + ChecksFor(rules, kids);
    ClosureCloses(rows, rules, {key});
    forall c | c in kids ensures c in Closure(rows, rules, {key}) {
      StillPoints(rows, rules, key, now, gone, pending, col, c, p);
    }
    forall c | c in then_
      ensures exists lost: set<string> ::
          lost <= Cleared(rows, rules, gone + kids, c) && then_[c].links == rows[c].links - lost
    {
      var lost: set<string> :| lost <= Cleared(rows, rules, gone, c) && now[c].links == rows[c].links - lost;
      assert Cleared(rows, rules, gone, c) <= Cleared(rows, rules, gone + kids, c);
    }
    assert forall k, d | k in kids && d in rules && rules[d].parent == k.table :: (k, d) in ChecksFor(rules, kids);
    forall q, d, c | q in gone + kids && d in rules && rules[d].parent == q.table && (q, d) !in more && c in then_
      ensures !Points(then_, rules, d, c, q)
    {
      if (q, d) != (p, col) { assert (q, d) !in pending; assert !Points(now, rules, d, c, q); }
      assert then_[c] == now[c];
    }
  }

  function Unlinked(now: Rows, kids: set<RowId>, column: string): Rows {
    map c | c in now :: if c in kids then now[c].(links := now[c].links - {column}) else now[c]
  }

  lemma SetNullStep(rows: Rows, rules: Rules, key: RowId, now: Rows, gone: set<RowId>, pending: set<(RowId, Col)>,
      p: RowId, col: Col)
    requires key in rows && WellFormed(rules) && Deleting(rows, rules, key, now, gone, pending) && (p, col) in pending
    requires Clears(col, rules[col])
    ensures var kids := Children(now, rules, col, p);
            Deleting(rows, rules, key, Unlinked(now, kids, col.column), gone, pending - {(p, col)})
  {
    var kids := Children(now, rules, col, p);
    var then_ := Unlinked(now, kids, col.column);
    forall c | c in then_
      ensures exists lost: set<string> ::
          lost <= Cleared(rows, rules, gone, c) && then_[c].links == rows[c].links - lost
    {
      var lost: set<string> :| lost <= Cleared(rows, rules, gone, c) && now[c].links == rows[c].links - lost;
      if c in kids {
        StillPoints(rows, rules, key, now, gone, pending, col, c, p);
        assert col.column in Cleared(rows, rules, gone, c);
        assert lost + {col.column} <= Cleared(rows, rules, gone, c);
        assert then_[c].links == rows[c].links - (lost + {col.column});
      }
    }
    forall q, d, c | q in gone && d in rules && rules[d].parent == q.table && (q, d) !in pending - {(p, col)}
        && c in then_
      ensures !Points(then_, rules, d, c, q)
    {
      if (q, d) != (p, col) { assert (q, d) !in pending; assert !Points(now, rules, d, c, q); }
    }
  }

  lemma IdleStep(rows: Rows, rules: Rules, key: RowId, now: Rows, gone: set<RowId>, pending: set<(RowId, Col)>,
      p: RowId, col: Col)
    requires key in rows && Deleting(rows, rules, key, now, gone, pending) && (p, col) in pending
    requires Children(now, rules, col, p) == {}
    ensures Deleting(rows, rules, key, now, gone, pending - {(p, col)})
  {
    forall q, d, c | q in gone && d in rules && rules[d].parent == q.table && (q, d) !in pending - {(p, col)}
        && c in now
      ensures !Points(now, rules, d, c, q)
    {
      if (q, d) == (p, col) { assert c !in Children(now, rules, col, p); }
    }
  }

  lemma DeletingStart(rows: Rows, rules: Rules, key: RowId)
    requires key in rows
    ensures Deleting(rows, rules, key, rows - {key}, {key}, ChecksFor(rules, {key}))
  {
    ClosureCloses(rows, rules, {key});
    var now := rows - {key};
    forall c | c in now
      ensures exists lost: set<string> :: lost <= Cleared(rows, rules, {key}, c) && now[c].links == rows[c].links - lost
    {
      assert {} <= Cleared(rows, rules, {key}, c) && now[c].links == rows[c].links - {};
    }
  }

  /** A check that must refuse has found a row that really blocks. */
  lemma RefusalStep(rows: Rows, rules: Rules, key: RowId, now: Rows, gone: set<RowId>, pending: set<(RowId, Col)>,
      p: RowId, col: Col)
    requires key in rows && Deleting(rows, rules, key, now, gone, pending) && (p, col) in pending
    requires Refuses(col, rules[col])
    requires Children(now, rules, col, p) != {}
    ensures DeleteOutcome(rows, rules, key, false, rows)
  {
    var c :| c in Children(now, rules, col, p);
    StillPoints(rows, rules, key, now, gone, pending, col, c, p);
    assert Blocks(rows, rules, col, c, p);
  }

  // ---- What the migrated rules promise --------------------------------------------------------

  lemma NothingCascades(rows: Rows, rules: Rules, key: RowId)
    requires key in rows
    requires forall col | col in rules && rules[col].parent == key.table :: rules[col].action != Cascade
    ensures Closure(rows, rules, {key}) == {key}
  {
    ClosureIsLeast(rows, rules, {key}, {key});
  }

  /** Where every link into a table clears its own column, deleting one of its rows is always granted:
      that row goes, each document that named it loses that link and nothing else. */
  lemma DetachingDelete(rows: Rows, rules: Rules, key: RowId, ok: bool, after: Rows)
    requires key in rows && DeleteOutcome(rows, rules, key, ok, after)
    requires forall col | col in rules && rules[col].parent == key.table :: Clears(col, rules[col])
    ensures ok && after.Keys == rows.Keys - {key}
    ensures forall c | c in after :: after[c].org == rows[c].org
    ensures forall c, column | c in after ::
              if Points(rows, rules, Col(c.table, column), c, key) then column !in after[c].links
              else column in after[c].links <==> column in rows[c].links
    ensures forall c, column | c in after && column in after[c].links :: after[c].links[column] == rows[c].links[column]
  {
  }

  /** Where every link into a table is RESTRICT, or a composite SET NULL of all columns, a row of it
      can be deleted exactly when no other row names it, and then it alone goes. */
  lemma RefusingDelete(rows: Rows, rules: Rules, key: RowId, ok: bool, after: Rows)
    requires key in rows && DeleteOutcome(rows, rules, key, ok, after)
    requires forall col | col in rules && rules[col].parent == key.table ::
               Refuses(col, rules[col])
    ensures ok <==> !exists col, c :: c != key && Points(rows, rules, col, c, key)
    ensures after == if ok then rows - {key} else rows
  {
    NothingCascades(rows, rules, key);
    if col, c :| c != key && Points(rows, rules, col, c, key) {
      assert Blocks(rows, rules, col, c, key);
    }
    if ok {
      forall c | c in rows && c != key ensures Cleared(rows, rules, {key}, c) == {} {
        forall col, p | col in rules && p in {key} && Clears(col, rules[col]) ensures !Points(rows, rules, col, c, p) {}
      }
      forall c | c in after ensures after[c] == rows[c] {
        assert rows[c].links - {} == rows[c].links;
      }
    }
  }

  /** The five records: the audit trail, the archive, supplier invoices, expense reports and card
      transactions. A link of theirs under CASCADE erases the record with its parent; after batch 3 the
      same delete is refused, unless the record goes by some other cascade. */
  lemma RecordsSurvive(rows: Rows, rules: Rules, key: RowId, col: Col, c: RowId, ok: bool, after: Rows, pg: bool)
    requires key in rows && Points(rows, rules, col, c, key)
    requires col in {Col("audit_events", "org_id"), Col("archived_invoices", "org_id"), Col("invoices", "vendor_id"),
                     Col("expense_reports", "employee_id"), Col("expense_transactions", "employee_id")}
    requires DeleteOutcome(rows, Batch3(rules, pg), key, ok, after)
    ensures c !in Closure(rows, Batch3(rules, pg), {key}) ==> !ok && after == rows
    ensures rules[col].action == Cascade ==> c in Closure(rows, rules, {key})
  {
    ClosureCloses(rows, rules, {key});
    ClosureCloses(rows, Batch3(rules, pg), {key});
    assert Batch3(rules, pg)[col].action == Restrict;
    assert Blocks(rows, Batch3(rules, pg), col, c, key);
  }

  /** The row is gone, the rows that named it through this column have lost that link, and all else is
      as it was. */
  ghost predicate OnlyUnlinked(rows: Rows, rules: Rules, key: RowId, column: string, after: Rows) {
    && after.Keys == rows.Keys - {key}
    && forall c | c in after ::
         (if Points(rows, rules, Col(c.table, column), c, key)
          then after[c] == rows[c].(links := rows[c].links - {column})
          else after[c] == rows[c])
  }

  /** Documents name a project through project_id of three tables. After batch 3 on Postgres its
      deletion is always granted: it goes alone, and each document that named it keeps its workspace,
      its contents and every other link. */
  lemma ProjectDetaches(rows: Rows, rules: Rules, key: RowId, ok: bool, after: Rows)
    requires key in rows && key.table == "projects"
    requires forall col | col in rules && rules[col].parent == "projects" ::
      col in {Col("invoices", "project_id"), Col("issued_invoices", "project_id"), Col("expense_items", "project_id")}
    requires DeleteOutcome(rows, Batch3(rules, true), key, ok, after)
    ensures ok && OnlyUnlinked(rows, rules, key, "project_id", after)
  {
    ProjectLinksClear(rules);
    ColumnDetaches(rows, Batch3(rules, true), key, "project_id", ok, after);
    SameLinks(rows, rules, true, key, "project_id", after);
  }

  lemma ProjectLinksClear(rules: Rules)
    requires forall col | col in rules && rules[col].parent == "projects" ::
      col in {Col("invoices", "project_id"), Col("issued_invoices", "project_id"), Col("expense_items", "project_id")}
    ensures forall col | col in Batch3(rules, true) && Batch3(rules, true)[col].parent == "projects" ::
      col.column == "project_id" && Batch3(rules, true)[col].action == SetNullColumn
  {
  }

  /** The revision changes what links do, never what they name. */
  lemma SameLinks(rows: Rows, rules: Rules, pg: bool, key: RowId, column: string, after: Rows)
    ensures forall col, c :: Points(rows, Batch3(rules, pg), col, c, key) <==> Points(rows, rules, col, c, key)
    ensures OnlyUnlinked(rows, Batch3(rules, pg), key, column, after) <==> OnlyUnlinked(rows, rules, key, column, after)
  {
    forall col, c ensures Points(rows, Batch3(rules, pg), col, c, key) <==> Points(rows, rules, col, c, key) {}
  }

  /** Before it, where those keys are composite and null all their columns, any document that names
      the project keeps it. */
  lemma ProjectStuckBefore(rows: Rows, rules: Rules, key: RowId, ok: bool, after: Rows)
    requires key in rows && key.table == "projects"
    requires forall col | col in rules && rules[col].parent == "projects" ::
      rules[col].composite && rules[col].action == SetNullAll && col.table != "projects"
    requires DeleteOutcome(rows, rules, key, ok, after)
    ensures ok <==> !exists col, c :: Points(rows, rules, col, c, key)
    ensures after == if ok then rows - {key} else rows
  {
    RefusingDelete(rows, rules, key, ok, after);
  }

  /** Issued invoices name their issuer. After batch 3 its deletion detaches them on Postgres; on
      SQLite, which has no column list, any invoice that names it keeps it. */
  lemma IssuerAfterUpgrade(rows: Rows, rules: Rules, key: RowId, ok: bool, after: Rows, pg: bool)
    requires key in rows && key.table == "issuer_profiles"
    requires Col("issued_invoices", "issuer_id") in rules
    requires rules[Col("issued_invoices", "issuer_id")].parent == "issuer_profiles"
    requires forall col | col in rules && rules[col].parent == "issuer_profiles" ::
      col == Col("issued_invoices", "issuer_id")
    requires DeleteOutcome(rows, Batch3(rules, pg), key, ok, after)
    ensures ok <==> pg || !exists c :: Points(rows, rules, Col("issued_invoices", "issuer_id"), c, key)
    ensures if ok then OnlyUnlinked(rows, rules, key, "issuer_id", after) else after == rows
  {
    var migrated, link := Batch3(rules, pg), Col("issued_invoices", "issuer_id");
    assert migrated[link] == Rule("issuer_profiles", true, if pg then SetNullColumn else SetNullAll);
    OnlyLink(rules, pg, link, "issuer_profiles");
    SameLinks(rows, rules, pg, key, "issuer_id", after);
    if pg {
      ColumnDetaches(rows, migrated, key, "issuer_id", ok, after);
    } else {
      RefusingDelete(rows, migrated, key, ok, after);
      forall col, c | Points(rows, migrated, col, c, key) ensures c != key && col == link {}
      if ok { NothingUnlinked(rows, rules, key, link, after); }
    }
  }

  lemma OnlyLink(rules: Rules, pg: bool, link: Col, parent: string)
    requires forall col | col in rules && rules[col].parent == parent :: col == link
    ensures forall col | col in Batch3(rules, pg) && Batch3(rules, pg)[col].parent == parent :: col == link
  {
  }

  lemma NothingUnlinked(rows: Rows, rules: Rules, key: RowId, link: Col, after: Rows)
    requires after == rows - {key} && forall col | col in rules && rules[col].parent == key.table :: col == link
    requires !exists c :: Points(rows, rules, link, c, key)
    ensures OnlyUnlinked(rows, rules, key, link.column, after)
  {
    forall c: RowId ensures !Points(rows, rules, Col(c.table, link.column), c, key) {
      assert Points(rows, rules, Col(c.table, link.column), c, key) ==> Col(c.table, link.column) == link;
    }
  }

  /** Where every key into a table is on this column and clears it, a deletion takes that link from the
      rows that name the deleted one, and changes nothing else. */
  lemma ColumnDetaches(rows: Rows, rules: Rules, key: RowId, column: string, ok: bool, after: Rows)
    requires key in rows && DeleteOutcome(rows, rules, key, ok, after)
    requires column != "org_id" && forall col | col in rules && rules[col].parent == key.table ::
      && col.column == column
      && (rules[col].action == SetNullColumn || (rules[col].action == SetNullAll && !rules[col].composite))
    ensures ok && OnlyUnlinked(rows, rules, key, column, after)
  {
    NothingCascades(rows, rules, key);
    forall c | c in after
      ensures after[c] == if Points(rows, rules, Col(c.table, column), c, key)
                          then rows[c].(links := rows[c].links - {column}) else rows[c]
    {
      if Points(rows, rules, Col(c.table, column), c, key) {
        assert Cleared(rows, rules, {key}, c) == {column};
      } else {
        assert Cleared(rows, rules, {key}, c) == {};
        assert rows[c].links - {} == rows[c].links;
      }
    }
  }

  /** One referential check of a delete under way. */
  method RunCheck(rules: Rules, now: Rows, pending: set<(RowId, Col)>, p: RowId, col: Col,
                  ghost rows: Rows, ghost key: RowId, ghost gone: set<RowId>)
    returns (now': Rows, ghost gone': set<RowId>, pending': set<(RowId, Col)>, refused: bool)
    requires key in rows && WellFormed(rules) && Deleting(rows, rules, key, now, gone, pending) && (p, col) in pending
    ensures refused ==> DeleteOutcome(rows, rules, key, false, rows)
    ensures !refused ==> Deleting(rows, rules, key, now', gone', pending')
    ensures !refused ==> |now'| < |now| || (|now'| == |now| && |pending'| < |pending|)
  {
    var kids := Children(now, rules, col, p);
    now', gone', pending', refused := now, gone, pending - {(p, col)}, false;
    assert pending == pending' + {(p, col)};
    if kids == {} {
      IdleStep(rows, rules, key, now, gone, pending, p, col);
    } else if rules[col].action == Cascade {
      CascadeStep(rows, rules, key, now, gone, pending, p, col);
      Shrinks(now, kids);
      now', gone', pending' := now - kids, gone + kids, pending' + ChecksFor(rules, kids);
    } else if Clears(col, rules[col]) {
      SetNullStep(rows, rules, key, now, gone, pending, p, col);
      now' := Unlinked(now, kids, col.column);
      SameKeysSameSize(now, now');
    } else {
      RefusalStep(rows, rules, key, now, gone, pending, p, col);
      refused := true;
    }
  }

  lemma SameKeysSameSize(a: Rows, b: Rows)
    requires a.Keys == b.Keys
    ensures |a| == |b|
  {
    assert |a| == |a.Keys| && |b| == |b.Keys|;
  }

  // ---- The database, changed in place ---------------------------------------------------------

  class Database {
    var rows: Rows
    var rules: Rules

    ghost predicate Valid() reads this { WellFormed(rules) && Consistent(rows, rules) }

    constructor (rules: Rules)
      requires WellFormed(rules)
      ensures Valid() && rows == map[] && this.rules == rules
    {
      this.rules := rules;
      rows := map[];
    }

    method Insert(key: RowId, row: Row) returns (ok: bool)
      requires Valid()
      modifies this`rows
      ensures Valid()
      ensures ok <==> key !in old(rows) && forall col | col in rules && col.table == key.table ::
          LinkHolds(old(rows)[key := row], rules, col, row)
      ensures rows == if ok then old(rows)[key := row] else old(rows)
    {
      var next := rows[key := row];
      ok := key !in rows && forall col | col in rules && col.table == key.table :: LinkHolds(next, rules, col, row);
      if ok {
        forall c, col | c in next && col in rules && c.table == col.table ensures LinkHolds(next, rules, col, next[c]) {
          if c != key { assert LinkHolds(rows, rules, col, rows[c]); }
        }
        rows := next;
      }
    }

    /** UPDATE of one link column; None clears it. */
    method SetLink(key: RowId, column: string, link: Option<string>) returns (ok: bool)
      requires Valid() && key in rows && column != "org_id"
      modifies this`rows
      ensures Valid()
      ensures var row := old(rows)[key];
              var links := if link.Some? then row.links[column := link.value] else row.links - {column};
              var col, changed := Col(key.table, column), row.(links := links);
              (ok <==> col !in rules || LinkHolds(old(rows), rules, col, changed)) &&
              rows == if ok then old(rows)[key := changed] else old(rows)
    {
      var row := rows[key];
      var changed := row.(links := if link.Some? then row.links[column := link.value] else row.links - {column});
      var col := Col(key.table, column);
      ok := col !in rules || LinkHolds(rows, rules, col, changed);
      if ok {
        var next := rows[key := changed];
        forall c, d | c in next && d in rules && c.table == d.table ensures LinkHolds(next, rules, d, next[c]) {
          assert LinkHolds(rows, rules, d, rows[c]);
          assert c == key && d != col ==> LinkOf(changed, d.column) == LinkOf(row, d.column);
        }
        rows := next;
      }
    }

    /** UPDATE of a row's workspace: refused exactly when it would part the row from a parent it names
        or from a row that names it. */
    method SetOrg(key: RowId, org: OrgId) returns (ok: bool)
      requires Valid() && key in rows
      modifies this`rows
      ensures Valid()
      ensures var changed := old(rows)[key].(org := org);
              var next := old(rows)[key := changed];
              (ok <==>
                (forall col | col in rules && col.table == key.table :: LinkHolds(next, rules, col, changed)) &&
                (forall col, c | c != key && Points(old(rows), rules, col, c, key) && rules[col].composite ::
                   old(rows)[c].org == org)) &&
              rows == if ok then next else old(rows)
    {
      var changed := rows[key].(org := org);
      var next := rows[key := changed];
      ok := (forall col | col in rules && col.table == key.table :: LinkHolds(next, rules, col, changed)) &&
            (forall c, col | c in rows && col in rules && c != key && Points(rows, rules, col, c, key)
                             && rules[col].composite :: rows[c].org == org);
      if ok {
        forall c, d | c in next && d in rules && c.table == d.table ensures LinkHolds(next, rules, d, next[c]) {
          if c != key {
            assert LinkHolds(rows, rules, d, rows[c]);
            assert LinkOf(rows[c], d.column).Some? && RowId(rules[d].parent, LinkOf(rows[c], d.column).value) == key
              ==> Points(rows, rules, d, c, key);
          }
        }
        rows := next;
      }
    }

    /** DELETE of one row. The referential checks it sets off run in any order. */
    method Delete(key: RowId) returns (ok: bool)
      requires Valid() && key in rows
      modifies this`rows
      ensures Valid()
      ensures DeleteOutcome(old(rows), rules, key, ok, rows)
    {
      ghost var before := rows;
      var now := rows - {key};
      ghost var gone := {key};
      var pending := ChecksFor(rules, {key});
      DeletingStart(before, rules, key);
      while pending != {}
        invariant rows == before && Valid()
        invariant Deleting(before, rules, key, now, gone, pending)
        decreases |now|, |pending|
      {
        var check :| check in pending;
        var refused;
        now, gone, pending, refused := RunCheck(rules, now, pending, check.0, check.1, before, key, gone);
        if refused {
          return false;
        }
      }
      DeletingDone(before, rules, key, now, gone);
      OutcomeConsistent(before, rules, key, true, now);
      rows := now;
      ok := true;
    }

    // ---- Migrating the rules ------------------------------------------------------------------

    /** DROP CONSTRAINT, ADD CONSTRAINT: the new key is validated against the stored rows. */
    method Alter(col: Col, composite: bool, action: Action) returns (ok: bool)
      requires Valid() && col in rules && (action == SetNullColumn ==> col.column != "org_id")
      modifies this`rules
      ensures Valid()
      ensures ok <==> !composite || old(rules)[col].composite ||
                      forall c | c in rows && c.table == col.table :: !Crosses(rows, old(rules), col, c)
      ensures rules == if ok then old(rules)[col := Rule(old(rules)[col].parent, composite, action)] else old(rules)
    {
      var next := rules[col := Rule(rules[col].parent, composite, action)];
      ok := forall c | c in rows && c.table == col.table :: LinkHolds(rows, next, col, rows[c]);
      forall c | c in rows && c.table == col.table
        ensures LinkHolds(rows, next, col, rows[c])
           <==> !composite || rules[col].composite || !Crosses(rows, rules, col, c)
      {
        assert LinkHolds(rows, rules, col, rows[c]);
      }
      if ok {
        forall c, d | c in rows && d in next && c.table == d.table ensures LinkHolds(rows, next, d, rows[c]) {
          if d != col { assert LinkHolds(rows, rules, d, rows[c]); }
        }
        rules := next;
      }
    }

    method AlterActions(cols: set<Col>, action: Action)
      requires Valid() && cols <= rules.Keys && forall col | col in cols ::
          action == SetNullColumn ==> col.column != "org_id"
      modifies this`rules
      ensures Valid()
      ensures rules == WithAction(old(rules), cols, action)
    {
      ghost var before := rules;
      var todo := cols;
      while todo != {}
        invariant todo <= cols && Valid()
        invariant rules == WithAction(before, cols - todo, action)
        decreases todo
      {
        var col :| col in todo;
        ActionNext(before, cols - todo, col, action);
        var ok := Alter(col, rules[col].composite, action);
        assert cols - (todo - {col}) == (cols - todo) + {col};
        todo := todo - {col};
      }
      assert cols - {} == cols;
    }

    /** Batch 3: refuse when an issued invoice names another workspace's issuer; otherwise the issuer
        link becomes composite, the project links clear their own column only, and the records'
        cascades become RESTRICT. SQLite has no column list. */
    method Batch3Upgrade(pg: bool) returns (refused: bool)
      requires Valid() && RESTRICTED + PROJECT_LINKS + {ISSUER} <= rules.Keys && !rules[ISSUER].composite
      modifies this`rules
      ensures Valid()
      ensures refused <==> exists c | c in rows && c.table == "issued_invoices" ::
          Crosses(rows, old(rules), Col("issued_invoices", "issuer_id"), c)
      ensures rules == if refused then old(rules) else Batch3(old(rules), pg)
    {
      ghost var before := rules;
      var cross := set c | c in rows && c.table == ISSUER.table && Crosses(rows, rules, ISSUER, c);
      refused := cross != {};
      if refused {
        return;
      }
      forall c | c in rows && c.table == ISSUER.table ensures !Crosses(rows, rules, ISSUER, c) {
        assert c !in cross;
      }
      var ok := Alter(ISSUER, true, if pg then SetNullColumn else SetNullAll);
      if pg {
        AlterActions(PROJECT_LINKS, SetNullColumn);
      }
      AlterActions(RESTRICTED, Restrict);
      Batch3InSteps(before, pg);
    }

    /** Batch 8: refuse when an invoice names another workspace's vendor; otherwise the vendor link
        becomes composite. */
    method VendorLinkUpgrade() returns (refused: bool)
      requires Valid() && VENDOR in rules && !rules[VENDOR].composite
      modifies this`rules
      ensures Valid()
      ensures refused <==> exists c | c in rows && c.table == "invoices" ::
          Crosses(rows, old(rules), Col("invoices", "vendor_id"), c)
      ensures !refused ==> Col("invoices", "vendor_id") in old(rules)
      ensures rules == if refused then old(rules)
          else var link := Col("invoices", "vendor_id");
               old(rules)[link := Rule(old(rules)[link].parent, true, Restrict)]
    {
      var cross := set c | c in rows && c.table == VENDOR.table && Crosses(rows, rules, VENDOR, c);
      refused := cross != {};
      if !refused {
        forall c | c in rows && c.table == VENDOR.table ensures !Crosses(rows, rules, VENDOR, c) {
          assert c !in cross;
        }
        var ok := Alter(VENDOR, true, Restrict);
      }
    }
  }

  lemma Shrinks(now: Rows, kids: set<RowId>)
    requires kids <= now.Keys && kids != {}
    ensures |now - kids| < |now|
  {
  }

  /** The pre-flight's join: the row and the parent it names are of different workspaces. */
  predicate Crosses(rows: Rows, rules: Rules, col: Col, c: RowId)
    requires c in rows && col in rules
  {
    LinkOf(rows[c], col.column).Some? &&
    var p := RowId(rules[col].parent, LinkOf(rows[c], col.column).value);
    p in rows && rows[p].org != rows[c].org
  }

  const RESTRICTED := {Col("audit_events", "org_id"), Col("archived_invoices", "org_id"), Col("invoices", "vendor_id"),
                       Col("expense_reports", "employee_id"), Col("expense_transactions", "employee_id")}
  const PROJECT_LINKS :=
    {Col("invoices", "project_id"), Col("issued_invoices", "project_id"), Col("expense_items", "project_id")}
  const ISSUER := Col("issued_invoices", "issuer_id")
  const VENDOR := Col("invoices", "vendor_id")

  function WithAction(rules: Rules, cols: set<Col>, action: Action): Rules {
    map col | col in rules :: if col in cols then rules[col].(action := action) else rules[col]
  }

  lemma ActionNext(rules: Rules, done: set<Col>, col: Col, action: Action)
    requires col in rules && col !in done
    ensures var now := WithAction(rules, done, action);
            now[col] == rules[col] &&
            now[col := Rule(now[col].parent, now[col].composite, action)] == WithAction(rules, done + {col}, action)
  {
  }

  function Batch3(rules: Rules, pg: bool): Rules {
    map col | col in rules ::
      if col in RESTRICTED then rules[col].(action := Restrict)
      else if col in PROJECT_LINKS then (if pg then rules[col].(action := SetNullColumn) else rules[col])
      else if col == ISSUER then Rule(rules[col].parent, true, if pg then SetNullColumn else SetNullAll)
      else rules[col]
  }

  lemma Batch3InSteps(rules: Rules, pg: bool)
    requires RESTRICTED + PROJECT_LINKS + {ISSUER} <= rules.Keys
    ensures var first := rules[ISSUER := Rule(rules[ISSUER].parent, true, if pg then SetNullColumn else SetNullAll)];
            WithAction(if pg then WithAction(first, PROJECT_LINKS, SetNullColumn) else first, RESTRICTED, Restrict)
            == Batch3(rules, pg)
  {
    assert ISSUER !in PROJECT_LINKS && ISSUER !in RESTRICTED && PROJECT_LINKS !! RESTRICTED;
  }
}
