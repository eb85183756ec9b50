/** The payment ledger's backfill: one 'migrated' entry for every issued invoice with something
paid, so the ledger's sums equal the running totals from the first day. Amounts are cents. */
module PaymentLedger {
  import opened Options

  datatype Invoice = Invoice(id: string, org: string, amountPaid: int, paidDate: Option<int>, issueDate: int)

  datatype Payment = Payment(org: string, invoice: string, amount: int, paidOn: int, method_: string)

  /** The primary key of issued_invoices. */
  predicate DistinctIds(invoices: seq<Invoice>) {
    forall i, j | 0 <= i < j < |invoices| :: invoices[i].id != invoices[j].id
  }

  function EntryFor(inv: Invoice): Payment {
    Payment(inv.org, inv.id, inv.amountPaid,
            if inv.paidDate.Some? then inv.paidDate.value else inv.issueDate, "migrated")
  }

  function Backfilled(invoices: seq<Invoice>): seq<Payment> {
    if invoices == [] then []
    else
      var last := invoices[|invoices| - 1];
      Backfilled(invoices[..|invoices| - 1]) + (if last.amountPaid != 0 then [EntryFor(last)] else [])
  }

  class Tables {
    var invoices: seq<Invoice>
    var payments: seq<Payment>

    constructor (invoices: seq<Invoice>)
      ensures this.invoices == invoices && payments == []
    {
      this.invoices, payments := invoices, [];
    }

    /** The payments table has just been created, empty. */
    method Backfill()
      requires payments == []
      modifies this`payments
      ensures payments == Backfilled(invoices)
    {
      var rows: seq<Payment> := [];
      for i := 0 to |invoices|
        invariant payments == [] && rows == Backfilled(invoices[..i])
      {
        assert invoices[..i + 1][..i] == invoices[..i];
        if invoices[i].amountPaid != 0 {
          rows := rows + [EntryFor(invoices[i])];
        }
      }
      assert invoices[..|invoices|] == invoices;
      payments := rows;
    }
  }

  function LedgerSum(payments: seq<Payment>, counts: Payment -> bool): int {
    if payments == [] then 0
    else
      LedgerSum(payments[..|payments| - 1], counts)
      + (if counts(payments[|payments| - 1]) then payments[|payments| - 1].amount else 0)
  }

  function PaidSum(invoices: seq<Invoice>, counts: Invoice -> bool): int {
    if invoices == [] then 0
    else
      PaidSum(invoices[..|invoices| - 1], counts)
      + (if counts(invoices[|invoices| - 1]) then invoices[|invoices| - 1].amountPaid else 0)
  }

  lemma LedgerSumAppends(payments: seq<Payment>, p: Payment, counts: Payment -> bool)
    ensures LedgerSum(payments + [p], counts) == LedgerSum(payments, counts) + if counts(p) then p.amount else 0
  {
    assert (payments + [p])[..|payments|] == payments;
  }

  /** Conservation over any selection of invoices: the ledger sums to the running totals. */
  lemma {:induction false} LedgerConserves(invoices: seq<Invoice>, chosen: Invoice -> bool, counts: Payment -> bool)
    requires forall inv | inv in invoices :: counts(EntryFor(inv)) == chosen(inv)
    ensures LedgerSum(Backfilled(invoices), counts) == PaidSum(invoices, chosen)
  {
    if invoices != [] {
      var front, last := invoices[..|invoices| - 1], invoices[|invoices| - 1];
      assert last in invoices && forall inv | inv in front :: inv in invoices;
      LedgerConserves(front, chosen, counts);
      var before := Backfilled(front);
      if last.amountPaid != 0 {
        assert Backfilled(invoices) == before + [EntryFor(last)];
        LedgerSumAppends(before, EntryFor(last), counts);
      } else {
        assert Backfilled(invoices) == before + [] == before;
      }
      assert PaidSum(invoices, chosen) == PaidSum(front, chosen) + if chosen(last) then last.amountPaid else 0;
    }
  }

  lemma ConservedByWorkspaceAndInAll(invoices: seq<Invoice>, org: string)
    ensures LedgerSum(Backfilled(invoices), (p: Payment) => p.org == org)
        == PaidSum(invoices, (inv: Invoice) => inv.org == org)
    ensures LedgerSum(Backfilled(invoices), (p: Payment) => true) == PaidSum(invoices, (inv: Invoice) => true)
  {
    LedgerConserves(invoices, (inv: Invoice) => inv.org == org, (p: Payment) => p.org == org);
    LedgerConserves(invoices, (inv: Invoice) => true, (p: Payment) => true);
  }

  lemma {:induction false} OnlyOneCounts(invoices: seq<Invoice>, k: nat)
    requires DistinctIds(invoices) && k < |invoices|
    ensures PaidSum(invoices, (inv: Invoice) => inv.id == invoices[k].id) == invoices[k].amountPaid
  {
    var front, last := invoices[..|invoices| - 1], invoices[|invoices| - 1];
    if k < |front| {
      OnlyOneCounts(front, k);
    } else {
      NoneCounts(front, last.id);
    }
  }

  lemma {:induction false} NoneCounts(invoices: seq<Invoice>, id: string)
    requires forall i | 0 <= i < |invoices| :: invoices[i].id != id
    ensures PaidSum(invoices, (inv: Invoice) => inv.id == id) == 0
  {
    if invoices != [] { NoneCounts(invoices[..|invoices| - 1], id); }
  }

  /** Invoice by invoice, what the ledger holds is what the running total said. */
  lemma ConservedByInvoice(invoices: seq<Invoice>, k: nat)
    requires DistinctIds(invoices) && k < |invoices|
    ensures LedgerSum(Backfilled(invoices), (p: Payment) => p.invoice == invoices[k].id) == invoices[k].amountPaid
  {
    var id := invoices[k].id;
    LedgerConserves(invoices, (inv: Invoice) => inv.id == id, (p: Payment) => p.invoice == id);
    OnlyOneCounts(invoices, k);
  }

  /** The entry is this invoice's: its workspace, its number, the running total, dated by the payment
      or else by the issue. */
  ghost predicate EntryOf(p: Payment, inv: Invoice) {
    && p.org == inv.org && p.invoice == inv.id && p.amount == inv.amountPaid && p.method_ == "migrated"
    && (inv.paidDate.Some? ==> p.paidOn == inv.paidDate.value)
    && (inv.paidDate.None? ==> p.paidOn == inv.issueDate)
  }

  /** Each entry is a paid invoice's ... */
  lemma {:induction false} EntriesNameInvoices(invoices: seq<Invoice>, e: nat) returns (k: nat)
    requires e < |Backfilled(invoices)|
    ensures k < |invoices| && invoices[k].amountPaid != 0 && EntryOf(Backfilled(invoices)[e], invoices[k])
  {
    var front := invoices[..|invoices| - 1];
    if e < |Backfilled(front)| {
      k := EntriesNameInvoices(front, e);
    } else {
      k := |invoices| - 1;
    }
  }

  /** ... and each paid invoice has its entry. */
  lemma {:induction false} PaidInvoicesEntered(invoices: seq<Invoice>, k: nat) returns (e: nat)
    requires k < |invoices| && invoices[k].amountPaid != 0
    ensures e < |Backfilled(invoices)| && EntryOf(Backfilled(invoices)[e], invoices[k])
  {
    var front := invoices[..|invoices| - 1];
    if k < |front| {
      e := PaidInvoicesEntered(front, k);
    } else {
      e := |Backfilled(front)|;
    }
  }

  /** No invoice has two. */
  lemma {:induction false} NoInvoiceTwice(invoices: seq<Invoice>, e: nat, f: nat)
    requires DistinctIds(invoices) && e < f < |Backfilled(invoices)|
    ensures Backfilled(invoices)[e].invoice != Backfilled(invoices)[f].invoice
  {
    var front := invoices[..|invoices| - 1];
    if f < |Backfilled(front)| {
      NoInvoiceTwice(front, e, f);
    } else {
      var k := EntriesNameInvoices(front, e);
      assert front[k] == invoices[k];
    }
  }
}
