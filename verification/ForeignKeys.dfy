/** Foreign keys between workspace tables: which rows a deletion takes with it or detaches, and what it
leaves behind. Referential actions and checks see every row, whatever the row-level policies say. */
module ForeignKeys {
  import opened Options
  import opened Workspaces

  datatype RowId = RowId(table: string, id: string)

  /** A row's workspace, never NULL, its other links, a column absent from them being NULL, and the
      rest of it. */
  datatype Row = Row(org: OrgId, links: map<string, string>, payload: string)

  type Rows = map<RowId, Row>

  datatype Action = Restrict | Cascade | SetNullColumn | SetNullAll

  datatype Col = Col(table: string, column: string)

  /** A foreign key on a column; a composite one also pairs the two rows' workspaces. */
  datatype Rule = Rule(parent: string, composite: bool, action: Action)

  type Rules = map<Col, Rule>

  function LinkOf(row: Row, column: string): Option<string> {
    if column == "org_id" then Some(row.org)
    else if column in row.links then Some(row.links[column]) else None
  }

  /** Row c names p through the foreign key on col. */
  predicate Points(rows: Rows, rules: Rules, col: Col, c: RowId, p: RowId) {
    && col in rules && c in rows
    && c.table == col.table && rules[col].parent == p.table
    && LinkOf(rows[c], col.column) == Some(p.id)
  }

  /** A link is NULL or names an existing row, of the same workspace when composite. */
  predicate LinkHolds(rows: Rows, rules: Rules, col: Col, row: Row)
    requires col in rules
  {
    LinkOf(row, col.column).Some? ==>
      var p := RowId(rules[col].parent, LinkOf(row, col.column).value);
      p in rows && (rules[col].composite ==> rows[p].org == row.org)
  }

  ghost predicate Consistent(rows: Rows, rules: Rules) {
    forall c, col | c in rows && col in rules && c.table == col.table :: LinkHolds(rows, rules, col, rows[c])
  }

  /** The row's own workspace, or another link of it, is this id. */
  ghost predicate Names(row: Row, column: string, id: string) {
    if column == "org_id" then row.org == id else column in row.links && row.links[column] == id
  }

  /** No link of a consistent store dangles, and none of a composite key leaves the workspace. */
  lemma NoLinkDangles(rows: Rows, rules: Rules)
    ensures Consistent(rows, rules) <==>
            forall c, col, id | c in rows && col in rules && c.table == col.table && Names(rows[c], col.column, id) ::
              && RowId(rules[col].parent, id) in rows
              && (rules[col].composite ==> rows[RowId(rules[col].parent, id)].org == rows[c].org)
  {
    forall c, col | c in rows && col in rules && c.table == col.table
      ensures LinkHolds(rows, rules, col, rows[c]) <==>
              forall id | Names(rows[c], col.column, id) ::
                && RowId(rules[col].parent, id) in rows
                && (rules[col].composite ==> rows[RowId(rules[col].parent, id)].org == rows[c].org)
    {
      LinkMeans(rows, rules, col, rows[c]);
    }
  }

  lemma LinkMeans(rows: Rows, rules: Rules, col: Col, row: Row)
    requires col in rules
    ensures LinkHolds(rows, rules, col, row) <==>
            forall id | Names(row, col.column, id) ::
              && RowId(rules[col].parent, id) in rows
              && (rules[col].composite ==> rows[RowId(rules[col].parent, id)].org == row.org)
  {
    forall id ensures Names(row, col.column, id) <==> LinkOf(row, col.column) == Some(id) {}
  }

  /** A rule that will not let its parent go: RESTRICT, and SET NULL where it would null a row's own
      workspace, as it does on every composite key unless it names the column. */
  predicate Refuses(col: Col, rule: Rule) {
    rule.action == Restrict || (rule.action == SetNullAll && (rule.composite || col.column == "org_id"))
  }

  /** A rule that detaches: SET NULL of the link's own column and no other. */
  predicate Clears(col: Col, rule: Rule) {
    rule.action == SetNullColumn || (rule.action == SetNullAll && !rule.composite && col.column != "org_id")
  }

  /** SET NULL cannot null the row's own workspace column. */
  predicate WellFormed(rules: Rules) {
    forall col | col in rules :: rules[col].action == SetNullColumn ==> col.column != "org_id"
  }

  // ---- The rows a delete takes with it --------------------------------------------------------

  function Grow(rows: Rows, rules: Rules, s: set<RowId>): set<RowId> {
    s + set c, p, col | c in rows && p in s && col in rules && rules[col].action == Cascade
                        && Points(rows, rules, col, c, p) :: c
  }

  /** Everything reached from s through CASCADE. */
  function Closure(rows: Rows, rules: Rules, s: set<RowId>): set<RowId>
    requires s <= rows.Keys
    decreases |rows.Keys - s|
  {
    var g := Grow(rows, rules, s);
    if g == s then s
    else
      assert rows.Keys - g < rows.Keys - s by {
        var c :| c in g && c !in s;
        assert c in rows.Keys - s && c !in rows.Keys - g;
      }
      SubsetSmaller(rows.Keys - g, rows.Keys - s);
      Closure(rows, rules, g)
  }

  lemma {:induction false} SubsetSmaller(a: set<RowId>, b: set<RowId>)
    requires a < b
    ensures |a| < |b|
  {
    assert b == a + (b - a);
    assert |b| == |a| + |b - a|;
  }

  /** t already contains every CASCADE child of its members. */
  ghost predicate Closed(rows: Rows, rules: Rules, t: set<RowId>) {
    forall c, p, col | p in t && col in rules && rules[col].action == Cascade && Points(rows, rules, col, c, p) ::
        c in t
  }

  lemma {:induction false} ClosureIsLeast(rows: Rows, rules: Rules, s: set<RowId>, t: set<RowId>)
    requires s <= rows.Keys && s <= t && Closed(rows, rules, t)
    ensures s <= Closure(rows, rules, s) <= t
    decreases |rows.Keys - s|
  {
    var g := Grow(rows, rules, s);
    if g != s {
      SubsetSmallerStep(rows, s, g);
      ClosureIsLeast(rows, rules, g, t);
    }
  }

  lemma {:induction false} ClosureCloses(rows: Rows, rules: Rules, s: set<RowId>)
    requires s <= rows.Keys
    ensures s <= Closure(rows, rules, s) <= rows.Keys && Closed(rows, rules, Closure(rows, rules, s))
    decreases |rows.Keys - s|
  {
    var g := Grow(rows, rules, s);
    if g == s {
      forall c, p, col | p in s && col in rules && rules[col].action == Cascade && Points(rows, rules, col, c, p)
        ensures c in s
      {
        assert c in g;
      }
    } else {
      SubsetSmallerStep(rows, s, g);
      ClosureCloses(rows, rules, g);
    }
  }

  lemma SubsetSmallerStep(rows: Rows, s: set<RowId>, g: set<RowId>)
    requires s <= g <= rows.Keys && g != s
    ensures |rows.Keys - g| < |rows.Keys - s|
  {
    var c :| c in g && c !in s;
    assert c in rows.Keys - s && c !in rows.Keys - g;
    SubsetSmaller(rows.Keys - g, rows.Keys - s);
  }

  // ---- What a delete may do -------------------------------------------------------------------

  /** A child whose rule refuses the deletion of its parent. */
  predicate Blocks(rows: Rows, rules: Rules, col: Col, c: RowId, p: RowId) {
    Points(rows, rules, col, c, p) && Refuses(col, rules[col])
  }

  /** Some row, not among the spared, blocks the deletion of these. */
  predicate Obstructed(rows: Rows, rules: Rules, gone: set<RowId>, spared: set<RowId>) {
    exists c, col, p | c in rows && col in rules && p in gone :: c !in spared && Blocks(rows, rules, col, c, p)
  }

  /** The links a surviving row loses: those naming a deleted row through a key that clears. */
  function Cleared(rows: Rows, rules: Rules, gone: set<RowId>, c: RowId): set<string>
    requires c in rows
  {
    set col, p | col in rules && p in gone && Clears(col, rules[col]) && Points(rows, rules, col, c, p) :: col.column
  }

  function Detached(rows: Rows, rules: Rules, gone: set<RowId>): Rows {
    map c | c in rows && c !in gone :: rows[c].(links := rows[c].links - Cleared(rows, rules, gone, c))
  }

  /** The whole effect of deleting key. Refused, nothing changes and some row really blocks a row
      that would go; granted, exactly the closure goes, survivors lose exactly the links into it,
      and no row outside the closure blocked. */
  ghost predicate DeleteOutcome(rows: Rows, rules: Rules, key: RowId, ok: bool, after: Rows)
    requires key in rows
  {
    var gone := Closure(rows, rules, {key});
    if ok then
      after == Detached(rows, rules, gone) &&
      forall col, c, p | p in gone && Blocks(rows, rules, col, c, p) :: c in gone
    else
      after == rows && exists col, c, p :: p in gone && c != key && Blocks(rows, rules, col, c, p)
  }

  /** Deleting whole cascade closures that nothing outside refuses leaves no dangling link. */
  lemma DetachedConsistent(rows: Rows, rules: Rules, s: set<RowId>)
    requires s <= rows.Keys && Consistent(rows, rules) && WellFormed(rules)
    requires !Obstructed(rows, rules, Closure(rows, rules, s), Closure(rows, rules, s))
    ensures Consistent(Detached(rows, rules, Closure(rows, rules, s)), rules)
  {
    var gone := Closure(rows, rules, s);
    var after := Detached(rows, rules, gone);
    ClosureCloses(rows, rules, s);
    forall c, col | c in after && col in rules && c.table == col.table
      ensures LinkHolds(after, rules, col, after[c])
    {
      if LinkOf(after[c], col.column).Some? {
        assert LinkOf(after[c], col.column) == LinkOf(rows[c], col.column);
        var p := RowId(rules[col].parent, LinkOf(rows[c], col.column).value);
        assert LinkHolds(rows, rules, col, rows[c]);
        assert Points(rows, rules, col, c, p);
        if p in gone { SurvivorCleared(rows, rules, s, col, c, p); }
      }
    }
  }

  /** A survivor that named a row of the closure named it through a clearing key, and has lost that
      link. */
  lemma SurvivorCleared(rows: Rows, rules: Rules, s: set<RowId>, col: Col, c: RowId, p: RowId)
    requires s <= rows.Keys && WellFormed(rules) && p in Closure(rows, rules, s) && c !in Closure(rows, rules, s)
    requires !Obstructed(rows, rules, Closure(rows, rules, s), Closure(rows, rules, s))
    requires Points(rows, rules, col, c, p)
    ensures Clears(col, rules[col]) && col.column in Cleared(rows, rules, Closure(rows, rules, s), c)
    ensures col.column != "org_id"
  {
    ClosureCloses(rows, rules, s);
    assert !Blocks(rows, rules, col, c, p);
  }

  /** A granted delete leaves no dangling link. */
  lemma OutcomeConsistent(rows: Rows, rules: Rules, key: RowId, ok: bool, after: Rows)
    requires key in rows && Consistent(rows, rules) && WellFormed(rules) && DeleteOutcome(rows, rules, key, ok, after)
    ensures Consistent(after, rules)
  {
    if ok { DetachedConsistent(rows, rules, {key}); }
  }

  // ---- Whose rows a delete reaches --------------------------------------------------------------

  /** Every cascading or clearing key is composite: it pairs the workspaces of the rows it links. */
  predicate ActionsComposite(rules: Rules) {
    forall col | col in rules && (rules[col].action == Cascade || Clears(col, rules[col])) :: rules[col].composite
  }

  /** Composite links exist to keep a delete inside its workspace, and do: every row of another
      workspace is left exactly as it was. */
  lemma DeleteStaysInWorkspace(rows: Rows, rules: Rules, key: RowId, ok: bool, after: Rows, c: RowId)
    requires key in rows && Consistent(rows, rules) && ActionsComposite(rules)
    requires DeleteOutcome(rows, rules, key, ok, after)
    requires c in rows && rows[c].org != rows[key].org
    ensures c in after && after[c] == rows[c]
  {
    if ok {
      ClosureStaysIn(rows, rules, {key}, rows[key].org);
      UntouchedElsewhere(rows, rules, {key}, rows[key].org, c);
      assert rows[c].links - {} == rows[c].links;
    }
  }

  lemma ClosureStaysIn(rows: Rows, rules: Rules, s: set<RowId>, org: string)
    requires s <= rows.Keys && Consistent(rows, rules) && ActionsComposite(rules)
    requires forall k | k in s :: rows[k].org == org
    ensures forall k | k in Closure(rows, rules, s) :: k in rows && rows[k].org == org
  {
    var t := set k | k in rows && rows[k].org == org;
    forall c, p, col | p in t && col in rules && rules[col].action == Cascade && Points(rows, rules, col, c, p)
      ensures c in t
    {
      assert LinkHolds(rows, rules, col, rows[c]);
    }
    ClosureIsLeast(rows, rules, s, t);
  }

  lemma UntouchedElsewhere(rows: Rows, rules: Rules, s: set<RowId>, org: string, c: RowId)
    requires s <= rows.Keys && Consistent(rows, rules) && ActionsComposite(rules)
    requires forall k | k in s :: rows[k].org == org
    requires c in rows && rows[c].org != org
    ensures c !in Closure(rows, rules, s) && Cleared(rows, rules, Closure(rows, rules, s), c) == {}
  {
    ClosureStaysIn(rows, rules, s, org);
    forall col, p | col in rules && p in Closure(rows, rules, s) && Clears(col, rules[col])
      ensures !Points(rows, rules, col, c, p)
    {
      assert c.table == col.table ==> LinkHolds(rows, rules, col, rows[c]);
    }
  }
}
