/** The one-off correction of expense amounts that were multiplied by their rate instead of divided.
Stored money is whole cents; a converted figure is an exact real rounded half up once. */
module FxCorrection {
  import opened Options
  import opened SqlLogic
  import opened Texts
  import opened Constraints

  // ---- Rounding -------------------------------------------------------------------------------

  /** ROUND_HALF_UP to whole cents: ties go away from zero. */
  function HalfUp(cents: real): int {
    if cents >= 0.0 then (cents + 0.5).Floor else -((-cents + 0.5).Floor)
  }

  /** The one cent count within half a cent, a tie going away from zero. */
  lemma HalfUpCharacterised(x: real, q: int)
    ensures q == HalfUp(x) <==>
            if x >= 0.0 then q as real - 0.5 <= x < q as real + 0.5
            else q as real - 0.5 < x <= q as real + 0.5
  {
  }

  lemma HalfUpLaws(x: real, y: real, c: int)
    ensures HalfUp(c as real) == c
    ensures x <= y ==> HalfUp(x) <= HalfUp(y)
    ensures HalfUp(-x) == -HalfUp(x)
    ensures -0.5 <= HalfUp(x) as real - x <= 0.5
  {
    HalfUpCharacterised(c as real, c);
    HalfUpCharacterised(x, HalfUp(x));
    HalfUpCharacterised(y, HalfUp(y));
    HalfUpCharacterised(-x, -HalfUp(x));
  }

  /** What that makes of the divided figure: it is within half a cent of dividing, so multiplying it
      back comes within half a rate of the original; refunds mirror charges; and at one rate a larger
      original never gives a smaller amount. */
  lemma DividedFigures(x: int, y: int, rate: real)
    requires rate > 0.0
    ensures -0.5 * rate <= Divided(x, rate) as real * rate - x as real <= 0.5 * rate
    ensures Divided(-x, rate) == -Divided(x, rate)
    ensures x <= y ==> Divided(x, rate) <= Divided(y, rate)
  {
    var a, b := x as real / rate, y as real / rate;
    HalfUpLaws(a, b, 0);
    assert a * rate == x as real && (-x) as real / rate == -a;
    var e := Divided(x, rate) as real - a;
    assert e * rate == Divided(x, rate) as real * rate - x as real;
    assert -0.5 * rate <= e * rate <= 0.5 * rate;
    if x <= y { Quotients(x as real, y as real, rate); }
  }

  lemma Quotients(x: real, y: real, rate: real)
    requires rate > 0.0 && x <= y
    ensures x / rate <= y / rate
  {
  }

  // ---- Rows -----------------------------------------------------------------------------------

  datatype Item = Item(id: string, report: string, amount: int, original: Option<int>,
                       rate: Option<real>, currency: Option<string>)

  datatype Report = Report(status: string, currency: Option<string>, total: int, totalEur: Option<int>)

  type Reports = map<string, Report>

  const UNDECIDED := {"draft", "submitted", "returned"}

  /** A report without a currency counts as a euro report. */
  function ReportCurrency(r: Report): string {
    if r.currency == None || r.currency == Some("") then "EUR" else UpperText(r.currency.value)
  }

  function Multiplied(original: int, rate: real): int { HalfUp(original as real * rate) }

  function Divided(original: int, rate: real): int
    requires rate > 0.0
  {
    HalfUp(original as real / rate)
  }

  /** The stored figure is what multiplying gives and not what dividing gives. */
  predicate Mistaken(it: Item, reports: Reports) {
    && it.report in reports
    && it.original.Some? && it.rate.Some? && it.currency.Some?
    && it.rate.value > 0.0
    && UpperText(it.currency.value) != ReportCurrency(reports[it.report])
    && it.amount == Multiplied(it.original.value, it.rate.value)
    && it.amount != Divided(it.original.value, it.rate.value)
  }

  predicate Correctable(it: Item, reports: Reports) {
    Mistaken(it, reports) && reports[it.report].status in UNDECIDED
  }

  predicate Flaggable(it: Item, reports: Reports) {
    Mistaken(it, reports) && reports[it.report].status !in UNDECIDED
  }

  function CorrectedItem(it: Item, reports: Reports): Item {
    if Correctable(it, reports) then it.(amount := Divided(it.original.value, it.rate.value)) else it
  }

  function Corrected(items: seq<Item>, reports: Reports): seq<Item> {
    seq(|items|, i requires 0 <= i < |items| => CorrectedItem(items[i], reports))
  }

  /** The rows the run reports as corrected, and as flagged for a decision. */
  function Corrections(items: seq<Item>, reports: Reports): seq<Item> {
    Filter(items, (it: Item) => Correctable(it, reports))
  }

  function Flags(items: seq<Item>, reports: Reports): seq<Item> {
    Filter(items, (it: Item) => Flaggable(it, reports))
  }

  function Touched(items: seq<Item>, reports: Reports): set<string> {
    set it | it in items && Correctable(it, reports) :: it.report
  }

  /** SELECT COALESCE(SUM(amount), 0) ... WHERE report_id = r */
  function SumOf(items: seq<Item>, report: string): int {
    if items == [] then 0
    else (if items[0].report == report then items[0].amount else 0) + SumOf(items[1..], report)
  }

  function Retotalled(r: Report, sum: int): Report {
    var total := HalfUp(sum as real);
    r.(total := total,
       totalEur := if ReportCurrency(r) == "EUR" && r.totalEur.Some? then Some(total) else None)
  }

  function Recomputed(items: seq<Item>, reports: Reports, touched: set<string>): Reports {
    map r | r in reports :: if r in touched then Retotalled(reports[r], SumOf(items, r)) else reports[r]
  }

  lemma CorrectedNext(rows: seq<Item>, i: nat, reports: Reports)
    requires i < |rows|
    ensures Corrected(rows[..i + 1], reports) == Corrected(rows[..i], reports) + [CorrectedItem(rows[i], reports)]
  {
    assert |rows[..i + 1]| == i + 1;
  }

  lemma TouchedNext(rows: seq<Item>, i: nat, reports: Reports)
    requires i < |rows|
    ensures Touched(rows[..i + 1], reports)
         == Touched(rows[..i], reports) + (if Correctable(rows[i], reports) then {rows[i].report} else {})
  {
    assert rows[..i + 1] == rows[..i] + [rows[i]];
  }

  /** The tables after the first i rows have been looked at. */
  ghost predicate Halfway(rows: seq<Item>, i: nat, reports: Reports, items: seq<Item>,
                          corrected: seq<Item>, flagged: seq<Item>, touched: set<string>)
    requires i <= |rows|
  {
    && items == Corrected(rows[..i], reports) + rows[i..]
    && corrected == Corrections(rows[..i], reports)
    && flagged == Flags(rows[..i], reports)
    && touched == Touched(rows[..i], reports)
  }

  lemma HalfwayNext(rows: seq<Item>, i: nat, reports: Reports, items: seq<Item>,
                    corrected: seq<Item>, flagged: seq<Item>, touched: set<string>)
    requires i < |rows| && Halfway(rows, i, reports, items, corrected, flagged, touched)
    ensures |items| == |rows|
    ensures Correctable(rows[i], reports) ==>
      Halfway(rows, i + 1, reports, items[i := CorrectedItem(rows[i], reports)], corrected + [rows[i]], flagged,
              touched + {rows[i].report})
    ensures Flaggable(rows[i], reports) ==>
      Halfway(rows, i + 1, reports, items, corrected, flagged + [rows[i]], touched)
    ensures !Mistaken(rows[i], reports) ==> Halfway(rows, i + 1, reports, items, corrected, flagged, touched)
  {
    FilterNext(rows, i, (it: Item) => Correctable(it, reports));
    FilterNext(rows, i, (it: Item) => Flaggable(it, reports));
    CorrectedNext(rows, i, reports);
    TouchedNext(rows, i, reports);
    InPlace(Corrected(rows[..i], reports), rows[i..], CorrectedItem(rows[i], reports));
    assert rows[i..][1..] == rows[i + 1..];
    assert !Correctable(rows[i], reports) ==> items[i := CorrectedItem(rows[i], reports)] == items;
  }

  lemma HalfwayDone(rows: seq<Item>, reports: Reports, items: seq<Item>,
                    corrected: seq<Item>, flagged: seq<Item>, touched: set<string>)
    requires Halfway(rows, |rows|, reports, items, corrected, flagged, touched)
    ensures items == Corrected(rows, reports) && touched == Touched(rows, reports)
    ensures corrected == Corrections(rows, reports) && flagged == Flags(rows, reports)
  {
    assert rows[..|rows|] == rows;
  }

  lemma InPlace(done: seq<Item>, rest: seq<Item>, it: Item)
    requires rest != []
    ensures (done + rest)[|done| := it] == (done + [it]) + rest[1..]
  {
  }

  /** The two tables, corrected in place. */
  class ExpenseTables {
    var items: seq<Item>
    var reports: Reports

    constructor (items: seq<Item>, reports: Reports)
      ensures this.items == items && this.reports == reports
    {
      this.items, this.reports := items, reports;
    }

    method Correct() returns (corrected: seq<Item>, flagged: seq<Item>)
      modifies this
      ensures items == Corrected(old(items), old(reports))
      ensures reports == Recomputed(items, old(reports), Touched(old(items), old(reports)))
      ensures corrected == Corrections(old(items), old(reports))
      ensures flagged == Flags(old(items), old(reports))
    {
      var touched;
      corrected, flagged, touched := CorrectItems();
      RecomputeTotals(touched);
    }

    method CorrectItems() returns (corrected: seq<Item>, flagged: seq<Item>, touched: set<string>)
      modifies this`items
      ensures items == Corrected(old(items), reports)
      ensures touched == Touched(old(items), reports)
      ensures corrected == Corrections(old(items), reports)
      ensures flagged == Flags(old(items), reports)
    {
      var rows := items;
      corrected, flagged, touched := [], [], {};
      for i := 0 to |rows|
        invariant Halfway(rows, i, reports, items, corrected, flagged, touched)
      {
        corrected, flagged, touched := Judge(rows, i, corrected, flagged, touched);
      }
      HalfwayDone(rows, reports, items, corrected, flagged, touched);
    }

    /** One row: corrected in place, flagged, or left. */
    method Judge(rows: seq<Item>, i: nat, corrected: seq<Item>, flagged: seq<Item>, touched: set<string>)
        returns (corrected': seq<Item>, flagged': seq<Item>, touched': set<string>)
      requires i < |rows| && Halfway(rows, i, reports, items, corrected, flagged, touched)
      modifies this`items
      ensures Halfway(rows, i + 1, reports, items, corrected', flagged', touched')
    {
      corrected', flagged', touched' := corrected, flagged, touched;
      var it := rows[i];
      HalfwayNext(rows, i, reports, items, corrected, flagged, touched);
      if Mistaken(it, reports) {
        if reports[it.report].status in UNDECIDED {
          items := items[i := it.(amount := Divided(it.original.value, it.rate.value))];
          corrected' := corrected + [it];
          touched' := touched + {it.report};
        } else {
          flagged' := flagged + [it];
        }
      }
    }

    method RecomputeTotals(touched: set<string>)
      modifies this`reports
      ensures reports == Recomputed(items, old(reports), touched)
    {
      ghost var before := reports;
      var todo := touched;
      while todo != {}
        invariant todo <= touched
        invariant reports == Recomputed(items, before, touched - todo)
        decreases todo
      {
        var r :| r in todo;
        if r in reports {
          assert reports[r] == before[r];
          reports := reports[r := Retotalled(reports[r], SumOf(items, r))];
        }
        todo := todo - {r};
      }
    }
  }

  // ---- What the correction guarantees ---------------------------------------------------------

  /** a is x cents to the nearest whole cent, a tie going away from zero. */
  ghost predicate Nearest(a: int, x: real) {
    if x >= 0.0 then a as real - 0.5 <= x < a as real + 0.5 else a as real - 0.5 < x <= a as real + 0.5
  }

  /** The report is in this currency, told without regard to case; one that names none is in euros. */
  ghost predicate InCurrency(r: Report, currency: string) {
    AlikeButCase(currency, if r.currency == None || r.currency == Some("") then "EUR" else r.currency.value)
  }

  /** The bug's own figure: of another currency than its report, the original times the rate, and not
      what dividing by the rate gives. */
  ghost predicate Wrong(it: Item, reports: Reports) {
    && it.report in reports && it.original.Some? && it.rate.Some? && it.currency.Some? && it.rate.value > 0.0
    && !InCurrency(reports[it.report], it.currency.value)
    && Nearest(it.amount, it.original.value as real * it.rate.value)
    && !Nearest(it.amount, it.original.value as real / it.rate.value)
  }

  /** Nobody has decided the report yet. */
  ghost predicate Open(it: Item, reports: Reports) {
    it.report in reports && reports[it.report].status in {"draft", "submitted", "returned"}
  }

  lemma MistakenMeans(it: Item, reports: Reports)
    ensures Mistaken(it, reports) <==> Wrong(it, reports)
    ensures Correctable(it, reports) <==> Wrong(it, reports) && Open(it, reports)
    ensures Flaggable(it, reports) <==> Wrong(it, reports) && !Open(it, reports)
  {
    MistakenIsWrong(it, reports);
    assert it.report in reports ==> (reports[it.report].status in UNDECIDED <==> Open(it, reports));
  }

  lemma MistakenIsWrong(it: Item, reports: Reports)
    ensures Mistaken(it, reports) <==> Wrong(it, reports)
  {
    if it.report in reports && it.original.Some? && it.rate.Some? && it.currency.Some? && it.rate.value > 0.0 {
      FiguresMean(it.original.value, it.rate.value, it.amount);
      CurrencyMeans(reports[it.report], it.currency.value);
    }
  }

  lemma FiguresMean(original: int, rate: real, amount: int)
    requires rate > 0.0
    ensures amount == Multiplied(original, rate) <==> Nearest(amount, original as real * rate)
    ensures amount == Divided(original, rate) <==> Nearest(amount, original as real / rate)
  {
    NearestMeans(original as real * rate, amount);
    NearestMeans(original as real / rate, amount);
  }

  lemma NearestMeans(x: real, amount: int)
    ensures amount == HalfUp(x) <==> Nearest(amount, x)
  {
    HalfUpCharacterised(x, amount);
  }

  lemma CurrencyMeans(r: Report, currency: string)
    ensures UpperText(currency) == ReportCurrency(r) <==> InCurrency(r, currency)
  {
    assert UpperText("EUR") == "EUR" by { UpperClean("EUR"); }
    UpperAlike(currency, if r.currency == None || r.currency == Some("") then "EUR" else r.currency.value);
  }

  /** What one run leaves: an item's amount changes exactly when it is the bug's own figure and its
      report is a draft, submitted or returned; it becomes the original divided by the rate, to the
      nearest cent, and nothing else of any item changes. A report already decided, and all its items,
      are as they were. */
  lemma ChangesExactlyTheMistakes(items: seq<Item>, reports: Reports)
    ensures var now := Corrected(items, reports);
            var later := Recomputed(now, reports, Touched(items, reports));
            && |now| == |items|
            && (forall i | 0 <= i < |items| ::
                  (now[i].amount != items[i].amount <==> Wrong(items[i], reports) && Open(items[i], reports))
                  && now[i] == items[i].(amount := now[i].amount)
                  && (Wrong(items[i], reports) && Open(items[i], reports) ==>
                        Nearest(now[i].amount, items[i].original.value as real / items[i].rate.value)))
            && (forall r | r in reports && reports[r].status !in {"draft", "submitted", "returned"} ::
                  later[r] == reports[r]
                  && forall i | 0 <= i < |items| && items[i].report == r :: now[i] == items[i])
  {
    var now := Corrected(items, reports);
    forall i | 0 <= i < |items|
      ensures now[i].amount != items[i].amount <==> Wrong(items[i], reports) && Open(items[i], reports)
      ensures Wrong(items[i], reports) && Open(items[i], reports) ==>
                Nearest(now[i].amount, items[i].original.value as real / items[i].rate.value)
    {
      ItemMeans(items[i], reports);
    }
  }

  lemma ItemMeans(it: Item, reports: Reports)
    ensures CorrectedItem(it, reports).amount != it.amount <==> Wrong(it, reports) && Open(it, reports)
    ensures Wrong(it, reports) && Open(it, reports) ==>
              Nearest(CorrectedItem(it, reports).amount, it.original.value as real / it.rate.value)
  {
    MistakenMeans(it, reports);
    if Wrong(it, reports) && Open(it, reports) {
      FiguresMean(it.original.value, it.rate.value, CorrectedItem(it, reports).amount);
    }
  }

  /** The run reports an item as often as it is stored: as corrected when it is, as flagged when its
      figure is the bug's and its report has been decided, and otherwise not at all. */
  lemma ReportsExactlyTheMistakes(items: seq<Item>, reports: Reports, it: Item)
    ensures multiset(Corrections(items, reports))[it]
         == if Wrong(it, reports) && Open(it, reports) then multiset(items)[it] else 0
    ensures multiset(Flags(items, reports))[it]
         == if Wrong(it, reports) && !Open(it, reports) then multiset(items)[it] else 0
  {
    FilterKeeps(items, (x: Item) => Correctable(x, reports), it);
    FilterKeeps(items, (x: Item) => Flaggable(x, reports), it);
    MistakenMeans(it, reports);
  }

  /** Some item of the report is corrected. */
  ghost predicate HasCorrection(items: seq<Item>, reports: Reports, r: string) {
    exists it :: it in items && it.report == r && Wrong(it, reports) && Open(it, reports)
  }

  /** A report with a corrected item has for total the sum of its items as they now stand; its euro
      follows only when it is a euro report that had one. Any other report keeps what it had. */
  lemma TotalsAreSums(items: seq<Item>, reports: Reports, r: string)
    requires r in reports
    ensures var now := Corrected(items, reports);
            var after := Recomputed(now, reports, Touched(items, reports))[r];
            if HasCorrection(items, reports, r) then
              after.total == SumOf(now, r) &&
              after.totalEur == (if InCurrency(reports[r], "EUR") && reports[r].totalEur.Some?
                                 then Some(SumOf(now, r)) else None) &&
              after.status == reports[r].status && after.currency == reports[r].currency
            else after == reports[r]
  {
    HalfUpLaws(0.0, 0.0, SumOf(Corrected(items, reports), r));
    assert UpperText("EUR") == "EUR" by { UpperClean("EUR"); }
    CurrencyMeans(reports[r], "EUR");
    TouchedMeans(items, reports, r);
  }

  lemma TouchedMeans(items: seq<Item>, reports: Reports, r: string)
    ensures r in Touched(items, reports) <==> HasCorrection(items, reports, r)
  {
    forall it ensures Correctable(it, reports) <==> Wrong(it, reports) && Open(it, reports) {
      MistakenMeans(it, reports);
    }
  }

  /** The items of a report, and no others, added up. */
  lemma {:induction false} SumOfMeans(items: seq<Item>, more: seq<Item>, it: Item, report: string)
    ensures SumOf(items + more, report) == SumOf(items, report) + SumOf(more, report)
    ensures SumOf([it], report) == if it.report == report then it.amount else 0
  {
    assert [it][1..] == [] && SumOf([], report) == 0;
    if items == [] {
      assert items + more == more;
    } else {
      assert (items + more)[1..] == items[1..] + more;
      SumOfMeans(items[1..], more, it, report);
    }
  }

  /** Corrected items are no longer mistakes, and flagged ones still are. */
  lemma JudgedAlikeAfter(it: Item, reports: Reports, later: Reports)
    requires later.Keys == reports.Keys
    requires forall r | r in reports :: later[r].status == reports[r].status && later[r].currency == reports[r].currency
    ensures !Correctable(CorrectedItem(it, reports), later)
    ensures Flaggable(CorrectedItem(it, reports), later) <==> Flaggable(it, reports)
  {
  }

  lemma {:induction false} FlagsAlike(items: seq<Item>, reports: Reports, later: Reports)
    requires later.Keys == reports.Keys
    requires forall r | r in reports :: later[r].status == reports[r].status && later[r].currency == reports[r].currency
    ensures Flags(Corrected(items, reports), later) == Flags(items, reports)
    ensures Corrections(Corrected(items, reports), later) == []
  {
    if items != [] {
      var now := Corrected(items, reports);
      assert now[1..] == Corrected(items[1..], reports);
      FlagsAlike(items[1..], reports, later);
      JudgedAlikeAfter(items[0], reports, later);
      assert Flaggable(items[0], reports) ==> now[0] == items[0];
    }
  }

  /** A second run changes no item and no total, corrects nothing, and flags the same items again. */
  lemma SecondRunIdle(items: seq<Item>, reports: Reports)
    ensures var now := Corrected(items, reports);
            var later := Recomputed(now, reports, Touched(items, reports));
            && Corrected(now, later) == now
            && Recomputed(now, later, Touched(now, later)) == later
            && Corrections(now, later) == []
            && Flags(now, later) == Flags(items, reports)
  {
    var now := Corrected(items, reports);
    var later := Recomputed(now, reports, Touched(items, reports));
    FlagsAlike(items, reports, later);
    assert Touched(now, later) == {};
  }
}
