/** Batch 3's closed sets of states: one exact normalisation, a gate over six tables that names every
value outside its set, and the six CHECKs the gate protects. */
module StateSets {
  import opened SqlLogic
  import opened Constraints

  datatype StateSet = StateSet(table: string, column: string, name: string, allowed: seq<string>)

  const STATE_SETS: seq<StateSet> := [
    StateSet("payment_runs", "status", "ck_payment_runs_status", ["open", "approved", "paid", "cancelled"]),
    StateSet("reimbursement_batches", "status", "ck_reimbursement_batches_status", ["open", "paid", "cancelled"]),
    StateSet("expense_reports", "status", "ck_expense_reports_status",
             ["draft", "submitted", "partially_approved", "approved", "rejected", "returned",
              "marked_for_reimbursement", "reimbursed"]),
    StateSet("vat_refund_claims", "status", "ck_vat_refund_claims_status",
             ["draft", "submitted", "approved", "paid", "withdrawn", "rejected"]),
    StateSet("issued_invoices", "lifecycle", "ck_issued_invoices_lifecycle",
             ["draft", "approved", "issued", "disputed", "written_off", "cancelled"]),
    StateSet("billing_payments", "state", "ck_billing_payments_state",
             ["initial", "pending", "settled", "failed", "voided", "abandoned"])]

  /** <column> IN (...) as a CHECK, and the gate's NOT IN (...) OR IS NULL. */
  function StateCheck(column: string, allowed: seq<string>): Pred { In(Column(column), allowed) }

  function StateGate(column: string, allowed: seq<string>): Pred {
    Or(NotIn(Column(column), allowed), IsNull(Column(column)))
  }

  /** The gate is stricter than the constraint: it names the rows on which the CHECK is not TRUE,
      and differs from the rows it rejects exactly where the state is NULL. */
  lemma StateGateExactWhen(row: Record, column: string, allowed: seq<string>)
    ensures Picks(StateGate(column, allowed), row) <==> !Eval(StateCheck(column, allowed), RowEnv(row)).True?
    ensures (Picks(StateGate(column, allowed), row) <==> Fails(StateCheck(column, allowed), row))
       <==> EvalTerm(Column(column), RowEnv(row)).Text?
  {
    var env := RowEnv(row);
    assert Eval(StateGate(column, allowed), env)
        == TriOr(Eval(NotIn(Column(column), allowed), env), Eval(IsNull(Column(column)), env));
    assert Eval(NotIn(Column(column), allowed), RowEnv(row)) == TriNot(Eval(StateCheck(column, allowed), RowEnv(row)));
  }

  function StateOf(row: Record, column: string): Value {
    if column in row then row[column] else Null
  }

  /** The row's state is one of the set, NULL being none of them. */
  predicate Allowed(row: Record, s: StateSet) {
    StateOf(row, s.column).Text? && StateOf(row, s.column).s in s.allowed
  }

  /** 'paid' was stored for what is an issued invoice. */
  function NormalisedRow(row: Record): Record {
    if StateOf(row, "lifecycle") == Text("paid") then row["lifecycle" := Text("issued")] else row
  }

  /** Every other state, and every other column, stays. */
  lemma NormalisedRowMeans(row: Record, column: string)
    ensures NormalisedRow(row).Keys == row.Keys
    ensures column in row ==>
      NormalisedRow(row)[column]
      == if column == "lifecycle" && row[column] == Text("paid") then Text("issued") else row[column]
  {
  }

  function Normalised(rows: seq<Record>): seq<Record> {
    seq(|rows|, i requires 0 <= i < |rows| => NormalisedRow(rows[i]))
  }

  /** The rows that hold the value v outside the set. */
  function Offenders(rows: seq<Record>, s: StateSet, v: Value): seq<Record> {
    Filter(rows, (row: Record) => StateOf(row, s.column) == v && !Allowed(row, s))
  }

  /** The rows that store v, when v is not one of the states of the set; NULL is stored by a row without
      the column, too. */
  lemma OffendersMean(rows: seq<Record>, s: StateSet, v: Value)
    ensures Offenders(rows, s, v)
         == if v.Text? && v.s in s.allowed then []
            else Filter(rows, (row: Record) => if s.column in row then row[s.column] == v else v == Null)
  {
    if v.Text? && v.s in s.allowed {
      assert forall row | row in rows :: StateOf(row, s.column) == v ==> Allowed(row, s);
    } else {
      FilterAlike(rows, (row: Record) => StateOf(row, s.column) == v && !Allowed(row, s),
                  (row: Record) => if s.column in row then row[s.column] == v else v == Null);
    }
  }

  ghost predicate Counts(found: map<Value, nat>, rows: seq<Record>, s: StateSet) {
    && (forall v :: v in found <==> Offenders(rows, s, v) != [])
    && (forall v | v in found :: found[v] == |Offenders(rows, s, v)|)
  }

  /** Every distinct value outside the set, with its row count. */
  method OffendingValues(rows: seq<Record>, s: StateSet) returns (found: map<Value, nat>)
    ensures Counts(found, rows, s)
    ensures found == map[] <==> forall row | row in rows :: Allowed(row, s)
  {
    found := map[];
    for i := 0 to |rows|
      invariant Counts(found, rows[..i], s)
    {
      var row := rows[i];
      var at := StateOf(row, s.column);
      CountsNext(found, rows, i, s);
      if Picks(StateGate(s.column, s.allowed), row) {
        found := found[at := (if at in found then found[at] else 0) + 1];
      }
    }
    assert rows[..|rows|] == rows;
    NothingFound(found, rows, s);
  }

  lemma NothingFound(found: map<Value, nat>, rows: seq<Record>, s: StateSet)
    requires Counts(found, rows, s)
    ensures found == map[] <==> forall row | row in rows :: Allowed(row, s)
  {
    if forall row | row in rows :: Allowed(row, s) {
      forall v ensures v !in found { assert Offenders(rows, s, v) == []; }
    } else {
      var row :| row in rows && !Allowed(row, s);
      assert Offenders(rows, s, StateOf(row, s.column)) != [];
    }
  }

  lemma CountsNext(found: map<Value, nat>, rows: seq<Record>, i: nat, s: StateSet)
    requires i < |rows| && Counts(found, rows[..i], s)
    ensures var at := StateOf(rows[i], s.column);
            if Picks(StateGate(s.column, s.allowed), rows[i])
            then Counts(found[at := (if at in found then found[at] else 0) + 1], rows[..i + 1], s)
            else Counts(found, rows[..i + 1], s)
  {
    OffendersNext(rows, i, s);
    var at := StateOf(rows[i], s.column);
    if !Allowed(rows[i], s) {
      var next := found[at := (if at in found then found[at] else 0) + 1];
      forall v
        ensures v in next <==> Offenders(rows[..i + 1], s, v) != []
        ensures v in next ==> next[v] == |Offenders(rows[..i + 1], s, v)|
      {
        if v == at {
          assert Offenders(rows[..i + 1], s, v) == Offenders(rows[..i], s, v) + [rows[i]];
        } else {
          assert Offenders(rows[..i + 1], s, v) == Offenders(rows[..i], s, v);
        }
      }
    }
  }

  lemma OffendersNext(rows: seq<Record>, i: nat, s: StateSet)
    requires i < |rows|
    ensures Picks(StateGate(s.column, s.allowed), rows[i]) <==> !Allowed(rows[i], s)
    ensures forall v :: Offenders(rows[..i + 1], s, v) == Offenders(rows[..i], s, v)
              + if StateOf(rows[i], s.column) == v && !Allowed(rows[i], s) then [rows[i]] else []
  {
    GatePicks(rows[i], s);
    forall v ensures Offenders(rows[..i + 1], s, v) == Offenders(rows[..i], s, v)
              + if StateOf(rows[i], s.column) == v && !Allowed(rows[i], s) then [rows[i]] else []
    {
      FilterNext(rows, i, (row: Record) => StateOf(row, s.column) == v && !Allowed(row, s));
    }
  }

  /** The gate picks the rows outside the set, and the CHECK fails on none inside. */
  lemma GatePicks(row: Record, s: StateSet)
    ensures Picks(StateGate(s.column, s.allowed), row) <==> !Allowed(row, s)
    ensures Allowed(row, s) ==> !Fails(StateCheck(s.column, s.allowed), row)
  {
    StateGateExactWhen(row, s.column, s.allowed);
    assert EvalTerm(Column(s.column), RowEnv(row)) == StateOf(row, s.column);
  }

  type Tables = map<string, seq<Record>>
  type Checks = map<string, map<string, Pred>>

  function AfterNormalising(tables: Tables): Tables {
    map t | t in tables :: if t == "issued_invoices" then Normalised(tables[t]) else tables[t]
  }

  /** The normalisation touches one column of one table, row by row. */
  lemma AfterNormalisingMeans(tables: Tables)
    ensures AfterNormalising(tables).Keys == tables.Keys
    ensures forall t | t in tables && t != "issued_invoices" :: AfterNormalising(tables)[t] == tables[t]
    ensures "issued_invoices" in tables ==>
      var rows, now := tables["issued_invoices"], AfterNormalising(tables)["issued_invoices"];
      |now| == |rows| && forall i | 0 <= i < |rows| :: now[i] == NormalisedRow(rows[i])
  {
  }

  predicate AllAllowed(tables: Tables, sets: seq<StateSet>) {
    forall s | s in sets :: s.table in tables && forall row | row in tables[s.table] :: Allowed(row, s)
  }

  /** One CHECK more on each table of the list. */
  function WithChecks(checks: Checks, sets: seq<StateSet>): Checks {
    if sets == [] then checks
    else
      var before, s := WithChecks(checks, sets[..|sets| - 1]), sets[|sets| - 1];
      var there := if s.table in before then before[s.table] else map[];
      before[s.table := there[s.name := StateCheck(s.column, s.allowed)]]
  }

  /** The row holds one of these states; NULL is none of them. */
  ghost predicate Holds(row: Record, column: string, states: seq<string>) {
    column in row && row[column].Text? && row[column].s in states
  }

  /** Every row of the table holds one of these states. */
  ghost predicate AllHold(tables: Tables, table: string, column: string, states: seq<string>) {
    table in tables && forall row | row in tables[table] :: Holds(row, column, states)
  }

  /** The closed sets, table by table. An invoice stored as 'paid' counts, being read as issued. */
  ghost predicate EveryStateKnown(tables: Tables) {
    && AllHold(tables, "payment_runs", "status", ["open", "approved", "paid", "cancelled"])
    && AllHold(tables, "reimbursement_batches", "status", ["open", "paid", "cancelled"])
    && AllHold(tables, "expense_reports", "status",
               ["draft", "submitted", "partially_approved", "approved", "rejected", "returned",
                "marked_for_reimbursement", "reimbursed"])
    && AllHold(tables, "vat_refund_claims", "status",
               ["draft", "submitted", "approved", "paid", "withdrawn", "rejected"])
    && AllHold(tables, "issued_invoices", "lifecycle",
               ["draft", "approved", "issued", "paid", "disputed", "written_off", "cancelled"])
    && AllHold(tables, "billing_payments", "state",
               ["initial", "pending", "settled", "failed", "voided", "abandoned"])
  }

  lemma SetsAre()
    ensures |STATE_SETS| == 6
    ensures forall s :: s in STATE_SETS <==> exists i | 0 <= i < 6 :: STATE_SETS[i] == s
    ensures STATE_SETS[0].table == "payment_runs" && STATE_SETS[1].table == "reimbursement_batches"
    ensures STATE_SETS[2].table == "expense_reports" && STATE_SETS[3].table == "vat_refund_claims"
    ensures STATE_SETS[4].table == "issued_invoices" && STATE_SETS[5].table == "billing_payments"
  {
  }

  lemma AllowedMeans(tables: Tables, s: StateSet)
    ensures AllHold(tables, s.table, s.column, s.allowed) <==> TableAllowed(tables, s)
  {
    forall row ensures Allowed(row, s) <==> Holds(row, s.column, s.allowed) {}
  }

  lemma KnownMeans(tables: Tables)
    ensures AllAllowed(AfterNormalising(tables), STATE_SETS) <==> EveryStateKnown(tables)
  {
    var next := AfterNormalising(tables);
    SetsListed(next);
    InvoicesKnown(tables);
    forall table | table in tables && table != "issued_invoices" ensures next[table] == tables[table] {}
  }

  /** The six sets, as the gate goes through them. */
  lemma SetsListed(tables: Tables)
    ensures AllAllowed(tables, STATE_SETS) <==>
      && AllHold(tables, "payment_runs", "status", ["open", "approved", "paid", "cancelled"])
      && AllHold(tables, "reimbursement_batches", "status", ["open", "paid", "cancelled"])
      && AllHold(tables, "expense_reports", "status",
                 ["draft", "submitted", "partially_approved", "approved", "rejected", "returned",
                  "marked_for_reimbursement", "reimbursed"])
      && AllHold(tables, "vat_refund_claims", "status",
                 ["draft", "submitted", "approved", "paid", "withdrawn", "rejected"])
      && AllHold(tables, "issued_invoices", "lifecycle",
                 ["draft", "approved", "issued", "disputed", "written_off", "cancelled"])
      && AllHold(tables, "billing_payments", "state",
                 ["initial", "pending", "settled", "failed", "voided", "abandoned"])
  {
    OneByOne(tables);
    SetsAre();
    AllowedMeans(tables, STATE_SETS[0]);
    AllowedMeans(tables, STATE_SETS[1]);
    AllowedMeans(tables, STATE_SETS[2]);
    AllowedMeans(tables, STATE_SETS[3]);
    AllowedMeans(tables, STATE_SETS[4]);
    AllowedMeans(tables, STATE_SETS[5]);
  }

  ghost predicate TableAllowed(tables: Tables, s: StateSet) {
    s.table in tables && forall row | row in tables[s.table] :: Allowed(row, s)
  }

  lemma OneByOne(tables: Tables)
    ensures AllAllowed(tables, STATE_SETS) <==>
      && TableAllowed(tables, STATE_SETS[0]) && TableAllowed(tables, STATE_SETS[1])
      && TableAllowed(tables, STATE_SETS[2]) && TableAllowed(tables, STATE_SETS[3])
      && TableAllowed(tables, STATE_SETS[4]) && TableAllowed(tables, STATE_SETS[5])
  {
    SetsAre();
    assert AllAllowed(tables, STATE_SETS) <==> forall s | s in STATE_SETS :: TableAllowed(tables, s);
  }

  lemma InvoicesKnown(tables: Tables)
    ensures AllHold(AfterNormalising(tables), "issued_invoices", "lifecycle",
                    ["draft", "approved", "issued", "disputed", "written_off", "cancelled"])
       <==> AllHold(tables, "issued_invoices", "lifecycle",
                    ["draft", "approved", "issued", "paid", "disputed", "written_off", "cancelled"])
  {
    if "issued_invoices" in tables {
      var rows := tables["issued_invoices"];
      var next := AfterNormalising(tables)["issued_invoices"];
      forall i | 0 <= i < |rows|
        ensures next[i] in next && rows[i] in rows
        ensures Holds(next[i], "lifecycle", ["draft", "approved", "issued", "disputed", "written_off", "cancelled"])
           <==> Holds(rows[i], "lifecycle",
                      ["draft", "approved", "issued", "paid", "disputed", "written_off", "cancelled"])
      {
        NormalisedRowMeans(rows[i], "lifecycle");
      }
    }
  }

  /** A CHECK of this name keeps the table to these states; NULL it lets through. */
  ghost predicate Closes(checks: Checks, table: string, name: string, column: string, states: seq<string>) {
    table in checks && name in checks[table] && forall row: Record ::
      Fails(checks[table][name], row) <==> column in row && row[column].Text? && row[column].s !in states
  }

  lemma CheckCloses(s: StateSet, row: Record)
    ensures Fails(StateCheck(s.column, s.allowed), row) <==>
            s.column in row && row[s.column].Text? && row[s.column].s !in s.allowed
  {
    StateGateExactWhen(row, s.column, s.allowed);
    GatePicks(row, s);
    assert EvalTerm(Column(s.column), RowEnv(row)) == StateOf(row, s.column);
  }

  lemma {:induction false} EachCloses(checks: Checks, sets: seq<StateSet>, i: nat)
    requires i < |sets| && forall j, k | 0 <= j < k < |sets| :: sets[j].table != sets[k].table
    ensures Closes(WithChecks(checks, sets), sets[i].table, sets[i].name, sets[i].column, sets[i].allowed)
  {
    var last := |sets| - 1;
    if i < last {
      EachCloses(checks, sets[..last], i);
      assert sets[i].table != sets[last].table;
    } else {
      forall row: Record
        ensures Fails(StateCheck(sets[i].column, sets[i].allowed), row) <==>
                sets[i].column in row && row[sets[i].column].Text?
                && row[sets[i].column].s !in sets[i].allowed
      {
        CheckCloses(sets[i], row);
      }
    }
  }

  /** The six constraints, by name. */
  ghost predicate SixClosed(checks: Checks) {
    && Closes(checks, "payment_runs", "ck_payment_runs_status", "status", ["open", "approved", "paid", "cancelled"])
    && Closes(checks, "reimbursement_batches", "ck_reimbursement_batches_status", "status",
              ["open", "paid", "cancelled"])
    && Closes(checks, "expense_reports", "ck_expense_reports_status", "status",
              ["draft", "submitted", "partially_approved", "approved", "rejected", "returned",
               "marked_for_reimbursement", "reimbursed"])
    && Closes(checks, "vat_refund_claims", "ck_vat_refund_claims_status", "status",
              ["draft", "submitted", "approved", "paid", "withdrawn", "rejected"])
    && Closes(checks, "issued_invoices", "ck_issued_invoices_lifecycle", "lifecycle",
              ["draft", "approved", "issued", "disputed", "written_off", "cancelled"])
    && Closes(checks, "billing_payments", "ck_billing_payments_state", "state",
              ["initial", "pending", "settled", "failed", "voided", "abandoned"])
  }

  lemma SixClose(checks: Checks)
    ensures SixClosed(WithChecks(checks, STATE_SETS))
  {
    SetsAre();
    EachCloses(checks, STATE_SETS, 0);
    EachCloses(checks, STATE_SETS, 1);
    EachCloses(checks, STATE_SETS, 2);
    EachCloses(checks, STATE_SETS, 3);
    EachCloses(checks, STATE_SETS, 4);
    EachCloses(checks, STATE_SETS, 5);
  }

  /** The tables and their CHECKs, changed in place; the revision is one transaction. */
  class Schema {
    var tables: Tables
    var checks: Checks

    constructor (tables: Tables, checks: Checks)
      ensures this.tables == tables && this.checks == checks
    {
      this.tables, this.checks := tables, checks;
    }

    /** Refused, and nothing changed, exactly when some row is outside its set once 'paid' is read as
        'issued'; otherwise the states are normalised and every CHECK goes on, none of them failing on
        a stored row. */
    method Upgrade() returns (refused: bool)
      requires forall s | s in STATE_SETS :: s.table in tables
      modifies this
      ensures refused <==> !EveryStateKnown(old(tables))
      ensures tables == if refused then old(tables) else AfterNormalising(old(tables))
      ensures checks == if refused then old(checks) else WithChecks(old(checks), STATE_SETS)
      ensures !refused ==> NoneFails(tables, STATE_SETS) && SixClosed(checks)
    {
      KnownMeans(tables);
      SixClose(checks);
      var next := AfterNormalising(tables);
      refused := Gate(next, STATE_SETS);
      if !refused {
        tables := next;
        AddChecks(STATE_SETS);
        AllowedPass(next, STATE_SETS);
      }
    }

    method AddChecks(sets: seq<StateSet>)
      modifies this`checks
      ensures checks == WithChecks(old(checks), sets)
    {
      ghost var had := checks;
      for i := 0 to |sets|
        invariant checks == WithChecks(had, sets[..i])
      {
        var s := sets[i];
        assert sets[..i + 1][..i] == sets[..i];
        var there := if s.table in checks then checks[s.table] else map[];
        checks := checks[s.table := there[s.name := StateCheck(s.column, s.allowed)]];
      }
      assert sets[..|sets|] == sets;
    }
  }

  /** The gate: the offending values of each table in turn. */
  method Gate(tables: Tables, sets: seq<StateSet>) returns (refused: bool)
    requires forall s | s in sets :: s.table in tables
    ensures refused <==> !AllAllowed(tables, sets)
  {
    refused := false;
    for i := 0 to |sets|
      invariant refused <==> !AllAllowed(tables, sets[..i])
    {
      var s := sets[i];
      assert sets[..i + 1] == sets[..i] + [s];
      var found := OffendingValues(tables[s.table], s);
      refused := refused || found != map[];
    }
    assert sets[..|sets|] == sets;
  }

  /** No stored row fails a CHECK of the list. */
  ghost predicate NoneFails(tables: Tables, sets: seq<StateSet>) {
    forall s, row | s in sets && s.table in tables && row in tables[s.table] ::
      !Fails(StateCheck(s.column, s.allowed), row)
  }

  lemma AllowedPass(tables: Tables, sets: seq<StateSet>)
    requires AllAllowed(tables, sets)
    ensures NoneFails(tables, sets)
  {
    forall s, row | s in sets && s.table in tables && row in tables[s.table]
      ensures !Fails(StateCheck(s.column, s.allowed), row)
    {
      GatePicks(row, s);
    }
  }
}
