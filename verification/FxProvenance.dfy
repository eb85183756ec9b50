/** The FX provenance constraints: a stored euro may not contradict where it came from. Three
revisions state it, each with a hand-written pre-flight that must refuse exactly the rows the
constraint would. */
module FxProvenance {
  import opened SqlLogic
  import opened Texts
  import opened Constraints

  const FX := Column("fx_source")
  const IS_EURO := Eq(Upper(Column("currency")), Literal("EUR"))
  const IS_FOREIGN := Differs(Upper(Column("currency")), Literal("EUR"))
  const SOURCES := ["eur", "stated", "ecb", "unknown"]

  /** fx_source IS NULL OR fx_source <> 'unknown' OR <euro> IS NULL */
  function NoUnknownEuro(eur: string): Pred {
    Or(Or(IsNull(FX), Differs(FX, Literal("unknown"))), IsNull(Column(eur)))
  }

  /** upper(currency) = 'EUR' OR fx_source IS NOT NULL */
  const FOREIGN_HAS_SOURCE := Or(IS_EURO, IsNotNull(FX))

  /** upper(currency) = 'EUR' OR fx_source <> 'eur' */
  const FOREIGN_NOT_IDENTITY := Or(IS_EURO, Differs(FX, Literal("eur")))

  function Wo88Check(eur: string): Pred { And(NoUnknownEuro(eur), FOREIGN_HAS_SOURCE) }

  function Wo89Check(eur: string): Pred { And(Wo88Check(eur), FOREIGN_NOT_IDENTITY) }

  /** The invoice table's euro is nullable, so an unconverted foreign invoice needs no source. */
  const INVOICE_CHECK :=
    And(And(NoUnknownEuro("total_eur"),
            Or(Or(IsNull(Column("total_eur")), IS_EURO), IsNotNull(FX))),
        FOREIGN_NOT_IDENTITY)

  const SOURCE_DOMAIN := Or(IsNull(FX), In(FX, SOURCES))

  // The pre-flights, as written.

  const WO88_PREFLIGHT := Or(Eq(FX, Literal("unknown")), And(IS_FOREIGN, IsNull(FX)))

  const WO89_PREFLIGHT := Or(WO88_PREFLIGHT, And(IS_FOREIGN, Eq(FX, Literal("eur"))))

  const INVOICE_PREFLIGHT :=
    Or(Or(And(Eq(FX, Literal("unknown")), IsNotNull(Column("total_eur"))),
          And(And(IsNotNull(Column("total_eur")), IS_FOREIGN), IsNull(FX))),
       And(IS_FOREIGN, Eq(FX, Literal("eur"))))

  const OUTSIDE_DOMAIN := And(IsNotNull(FX), NotIn(FX, SOURCES))

  // ---- What the constraints reject, in plain terms ----------------------------------------------

  ghost predicate Has(row: Record, column: string) { column in row && row[column].Text? }

  ghost predicate HasSource(row: Record, source: string) { Has(row, "fx_source") && row["fx_source"].s == source }

  /** A currency is given, and it is not the euro in any case. */
  ghost predicate IsForeign(row: Record) { Has(row, "currency") && !AlikeButCase(row["currency"].s, "EUR") }

  /** WO-88 rejects a euro of unknown source, and a foreign row without a source; WO-89 also a foreign
      row that claims to be in euros. An invoice without a euro figure needs no source. The domain
      rejects any fifth source. */
  lemma ChecksMean(row: Record, eur: string)
    ensures Fails(Wo88Check(eur), row) <==>
            (HasSource(row, "unknown") && Has(row, eur)) || (IsForeign(row) && !Has(row, "fx_source"))
    ensures Fails(Wo89Check(eur), row) <==>
            Fails(Wo88Check(eur), row) || (IsForeign(row) && HasSource(row, "eur"))
    ensures Fails(INVOICE_CHECK, row) <==>
            || (Has(row, "total_eur") && (HasSource(row, "unknown") || (IsForeign(row) && !Has(row, "fx_source"))))
            || (IsForeign(row) && HasSource(row, "eur"))
    ensures Fails(SOURCE_DOMAIN, row) <==>
            Has(row, "fx_source") && row["fx_source"].s !in {"eur", "stated", "ecb", "unknown"}
  {
    var env := RowEnv(row);
    EuroMeans(row);
    Readings(row, eur);
    Readings(row, "total_eur");
    assert Eval(FOREIGN_HAS_SOURCE, env) == TriOr(Eval(IS_EURO, env), TriNot(Eval(IsNull(FX), env)));
    assert Eval(FOREIGN_NOT_IDENTITY, env) == TriOr(Eval(IS_EURO, env), TriNot(Eval(Eq(FX, Literal("eur")), env)));
    assert Eval(Wo89Check(eur), env) == TriAnd(Eval(Wo88Check(eur), env), Eval(FOREIGN_NOT_IDENTITY, env));
    DomainMeans(row);
  }

  lemma EuroMeans(row: Record)
    ensures Eval(IS_EURO, RowEnv(row)).False? <==> IsForeign(row)
  {
    assert UpperText("EUR") == "EUR" by { UpperClean("EUR"); }
    if Has(row, "currency") { UpperAlike(row["currency"].s, "EUR"); }
    assert EvalTerm(Column("currency"), RowEnv(row)) == if "currency" in row then row["currency"] else Null;
  }

  lemma DomainMeans(row: Record)
    ensures Fails(SOURCE_DOMAIN, row) <==>
            Has(row, "fx_source") && row["fx_source"].s !in {"eur", "stated", "ecb", "unknown"}
  {
    var env := RowEnv(row);
    assert Eval(SOURCE_DOMAIN, env) == TriOr(Eval(IsNull(FX), env), Member(EvalTerm(FX, env), SOURCES));
    assert forall v: string :: v in SOURCES <==> v in {"eur", "stated", "ecb", "unknown"};
  }

  // ---- Pre-flight against constraint, row by row ----------------------------------------------

  /** The four facts a row is judged by, UNKNOWN included. */
  lemma Readings(row: Record, eur: string)
    ensures var env := RowEnv(row);
            var fx := EvalTerm(FX, env);
            && Eval(NoUnknownEuro(eur), env)
               == (if fx == Text("unknown") && EvalTerm(Column(eur), env).Text? then False else True)
            && Eval(IsNull(FX), env) == Truth(fx.Null?)
            && Eval(IS_FOREIGN, env) == TriNot(Eval(IS_EURO, env))
            && Eval(Eq(FX, Literal("eur")), env) == Compare(fx, Text("eur"))
            && Eval(Eq(FX, Literal("unknown")), env) == Compare(fx, Text("unknown"))
  {
  }

  /** WO-88's pre-flight forgets the euro's nullness: it names exactly the rows the constraint
      rejects, except a row whose source is 'unknown' and whose euro is NULL. */
  lemma Wo88PreflightExactWhen(row: Record, eur: string)
    ensures (Picks(WO88_PREFLIGHT, row) <==> Fails(Wo88Check(eur), row))
       <==> !(EvalTerm(FX, RowEnv(row)) == Text("unknown") && EvalTerm(Column(eur), RowEnv(row)).Null?)
  {
    Readings(row, eur);
    var env := RowEnv(row);
    assert Eval(FOREIGN_HAS_SOURCE, env) == TriOr(Eval(IS_EURO, env), TriNot(Eval(IsNull(FX), env)));
    assert Eval(WO88_PREFLIGHT, env)
        == TriOr(Eval(Eq(FX, Literal("unknown")), env), Eval(And(IS_FOREIGN, IsNull(FX)), env));
    assert Eval(And(IS_FOREIGN, IsNull(FX)), env) == TriAnd(Eval(IS_FOREIGN, env), Eval(IsNull(FX), env));
  }

  lemma Wo89PreflightExactWhen(row: Record, eur: string)
    ensures (Picks(WO89_PREFLIGHT, row) <==> Fails(Wo89Check(eur), row))
       <==> !(EvalTerm(FX, RowEnv(row)) == Text("unknown") && EvalTerm(Column(eur), RowEnv(row)).Null?)
  {
    Readings(row, eur);
    Wo88PreflightExactWhen(row, eur);
    var env := RowEnv(row);
    assert Eval(FOREIGN_NOT_IDENTITY, env)
        == TriOr(Eval(IS_EURO, env), TriNot(Eval(Eq(FX, Literal("eur")), env)));
    assert Eval(WO89_PREFLIGHT, env)
        == TriOr(Eval(WO88_PREFLIGHT, env), Eval(And(IS_FOREIGN, Eq(FX, Literal("eur"))), env));
    assert Eval(And(IS_FOREIGN, Eq(FX, Literal("eur"))), env)
        == TriAnd(Eval(IS_FOREIGN, env), Eval(Eq(FX, Literal("eur")), env));
  }

  /** The rows an over-eager pre-flight would refuse for nothing, were the euro nullable. */
  lemma NullableEuroOverRefused()
    ensures var row := map["fx_source" := Text("unknown"), "currency" := Text("PLN"), "net_eur" := Null];
            Picks(WO89_PREFLIGHT, row) && !Fails(Wo89Check("net_eur"), row)
  {
    var row := map["fx_source" := Text("unknown"), "currency" := Text("PLN"), "net_eur" := Null];
    Readings(row, "net_eur");
    Wo89PreflightExactWhen(row, "net_eur");
    assert Eval(WO88_PREFLIGHT, RowEnv(row)).True?;
  }

  /** The invoice pre-flight names exactly the rows the constraint rejects, on every row. */
  lemma InvoicePreflightExact(row: Record)
    ensures Picks(INVOICE_PREFLIGHT, row) <==> Fails(INVOICE_CHECK, row)
  {
  }

  /** The value-domain query is the constraint's negation, pushed in by hand. */
  lemma DomainPreflightExact(row: Record)
    ensures Picks(OUTSIDE_DOMAIN, row) <==> Fails(SOURCE_DOMAIN, row)
  {
    assert Negate(SOURCE_DOMAIN) == OUTSIDE_DOMAIN;
    RejectedIffNegationSelects(SOURCE_DOMAIN, RowEnv(row));
  }

  /** A row WO-89 lets stand, WO-88 lets stand: the downgrade strands nothing. */
  lemma Wo89ImpliesWo88(row: Record, eur: string)
    ensures !Fails(Wo89Check(eur), row) ==> !Fails(Wo88Check(eur), row)
  {
    var env := RowEnv(row);
    assert Eval(Wo89Check(eur), env) == TriAnd(Eval(Wo88Check(eur), env), Eval(FOREIGN_NOT_IDENTITY, env));
  }

  // ---- The migrations -------------------------------------------------------------------------

  const FUEL := "ck_fuel_transactions_fx_provenance"
  const REBATE := "ck_vat_off_invoice_rebates_fx_provenance"
  const REBATE_SOURCE := "ck_vat_off_invoice_rebates_fx_source"

  /** Every row of a table whose euro is NOT NULL is judged alike by pre-flight and constraint. */
  lemma PreflightsExactOn(t: Table, eur: string)
    requires t.Valid() && eur in t.notNull
    ensures (exists r | r in t.rows :: Picks(WO88_PREFLIGHT, r))
       <==> (exists r | r in t.rows :: Fails(Wo88Check(eur), r))
    ensures (exists r | r in t.rows :: Picks(WO89_PREFLIGHT, r))
       <==> (exists r | r in t.rows :: Fails(Wo89Check(eur), r))
  {
    forall r | r in t.rows
      ensures Picks(WO88_PREFLIGHT, r) <==> Fails(Wo88Check(eur), r)
      ensures Picks(WO89_PREFLIGHT, r) <==> Fails(Wo89Check(eur), r)
    {
      assert EvalTerm(Column(eur), RowEnv(r)).Text?;
      Wo88PreflightExactWhen(r, eur);
      Wo89PreflightExactWhen(r, eur);
    }
  }

  /** WO-88: refuse when any row would fail, otherwise add all three constraints. */
  method Wo88Upgrade(fuel: Table, rebates: Table) returns (refused: bool)
    requires fuel != rebates && fuel.Valid() && rebates.Valid()
    requires "net_eur" in fuel.notNull && "amount_eur" in rebates.notNull
    requires FUEL !in fuel.checks && REBATE !in rebates.checks && REBATE_SOURCE !in rebates.checks
    modifies fuel`checks, rebates`checks
    ensures fuel.Valid() && rebates.Valid()
    ensures refused
            <==> ((exists r | r in fuel.rows :: Fails(Wo88Check("net_eur"), r)) ||
                  (exists r | r in rebates.rows :: Fails(Wo88Check("amount_eur"), r) || Fails(SOURCE_DOMAIN, r)))
    ensures refused ==> fuel.checks == old(fuel.checks) && rebates.checks == old(rebates.checks)
    ensures !refused ==> fuel.checks == old(fuel.checks)[FUEL := Wo88Check("net_eur")]
    ensures FUEL == "ck_fuel_transactions_fx_provenance" && REBATE == "ck_vat_off_invoice_rebates_fx_provenance"
    ensures REBATE_SOURCE == "ck_vat_off_invoice_rebates_fx_source"
    ensures !refused ==>
              rebates.checks == old(rebates.checks)[REBATE_SOURCE := SOURCE_DOMAIN][REBATE := Wo88Check("amount_eur")]
  {
    var problems := fuel.Report(WO88_PREFLIGHT);
    var more := rebates.Report(WO88_PREFLIGHT);
    var domain := rebates.Report(OUTSIDE_DOMAIN);
    PreflightsExactOn(fuel, "net_eur");
    PreflightsExactOn(rebates, "amount_eur");
    forall r | r in rebates.rows ensures Picks(OUTSIDE_DOMAIN, r) <==> Fails(SOURCE_DOMAIN, r) {
      DomainPreflightExact(r);
    }
    refused := problems + more + domain != [];
    if !refused {
      var a := fuel.AddCheck(FUEL, Wo88Check("net_eur"));
      var b := rebates.AddCheck(REBATE_SOURCE, SOURCE_DOMAIN);
      var c := rebates.AddCheck(REBATE, Wo88Check("amount_eur"));
      assert a && b && c;
    }
  }

  method Recreate(t: Table, name: string, check: Pred) returns (ok: bool)
    requires t.Valid() && forall r | r in t.rows :: !Fails(check, r)
    modifies t`checks
    ensures t.Valid() && (ok <==> name in old(t.checks))
    ensures t.checks == old(t.checks)[name := check]
  {
    ok := t.DropCheck(name);
    var added := t.AddCheck(name, check);
    assert added;
  }

  /** WO-89: both constraints are dropped before they are recreated, so a failure in between would
      leave none. The pre-flight rules that out. */
  method Wo89Upgrade(fuel: Table, rebates: Table) returns (refused: bool)
    requires fuel != rebates && fuel.Valid() && rebates.Valid()
    requires "net_eur" in fuel.notNull && "amount_eur" in rebates.notNull
    requires FUEL in fuel.checks && REBATE in rebates.checks
    modifies fuel`checks, rebates`checks
    ensures fuel.Valid() && rebates.Valid()
    ensures refused
            <==> ((exists r | r in fuel.rows :: Fails(Wo89Check("net_eur"), r)) ||
                  (exists r | r in rebates.rows :: Fails(Wo89Check("amount_eur"), r)))
    ensures fuel.checks == if refused then old(fuel.checks) else old(fuel.checks)[FUEL := Wo89Check("net_eur")]
    ensures rebates.checks == if refused then old(rebates.checks)
        else old(rebates.checks)[REBATE := Wo89Check("amount_eur")]
  {
    var problems := fuel.Report(WO89_PREFLIGHT);
    var more := rebates.Report(WO89_PREFLIGHT);
    PreflightsExactOn(fuel, "net_eur");
    PreflightsExactOn(rebates, "amount_eur");
    refused := problems + more != [];
    if !refused {
      var a := Recreate(fuel, FUEL, Wo89Check("net_eur"));
      var b := Recreate(rebates, REBATE, Wo89Check("amount_eur"));
      assert a && b;
    }
  }

  /** WO-89's downgrade lands on the WO-88 invariant, whatever rows arrived in between. */
  method Wo89Downgrade(fuel: Table, rebates: Table)
    requires fuel != rebates && fuel.Valid() && rebates.Valid()
    requires FUEL in fuel.checks && fuel.checks[FUEL] == Wo89Check("net_eur")
    requires REBATE in rebates.checks && rebates.checks[REBATE] == Wo89Check("amount_eur")
    modifies fuel`checks, rebates`checks
    ensures fuel.Valid() && rebates.Valid()
    ensures fuel.checks == old(fuel.checks)[FUEL := Wo88Check("net_eur")]
    ensures rebates.checks == old(rebates.checks)[REBATE := Wo88Check("amount_eur")]
  {
    forall r | r in rebates.rows ensures !Fails(Wo88Check("amount_eur"), r) { Wo89ImpliesWo88(r, "amount_eur"); }
    forall r | r in fuel.rows ensures !Fails(Wo88Check("net_eur"), r) { Wo89ImpliesWo88(r, "net_eur"); }
    var a := Recreate(rebates, REBATE, Wo88Check("amount_eur"));
    var b := Recreate(fuel, FUEL, Wo88Check("net_eur"));
  }

  method InvoiceUpgrade(invoices: Table, name: string) returns (refused: bool)
    requires invoices.Valid() && name !in invoices.checks
    modifies invoices`checks
    ensures invoices.Valid()
    ensures refused <==> exists r | r in invoices.rows :: Fails(INVOICE_CHECK, r)
    ensures invoices.checks == if refused then old(invoices.checks) else old(invoices.checks)[name := INVOICE_CHECK]
  {
    var problems := invoices.Report(INVOICE_PREFLIGHT);
    forall r | r in invoices.rows ensures Picks(INVOICE_PREFLIGHT, r) <==> Fails(INVOICE_CHECK, r) {
      InvoicePreflightExact(r);
    }
    refused := problems != [];
    if !refused {
      var added := invoices.AddCheck(name, INVOICE_CHECK);
      assert added;
    }
  }
}
