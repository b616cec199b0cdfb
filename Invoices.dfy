/** The invoice handlers of js/components/Invoices.js. A project may lack the invoice list;
    every handler then starts from the empty list (`invoices || []`) and stores the list it
    builds. Only `invoices` ever changes. */
module Invoices {
  import opened Wrappers
  import opened Seqs
  import opened Text
  import opened Types
  import opened Utils

  /** The statuses the form offers. */
  const StatusOptions: seq<string> := ["Pending", "Sent", "Paid", "Overdue", "Cancelled"]

  const Gray := "bg-gray-100 text-gray-700"

  /** `getStatusColor(status)`: the badge class of each offered status; any other status gets
      the gray class `'Pending'` also has. */
  function StatusColor(status: string): (r: string)
    ensures r == Gray <==> status == "Pending" || status !in StatusOptions
  {
    if status == "Pending" then Gray
    else if status == "Sent" then "bg-blue-100 text-blue-700"
    else if status == "Paid" then "bg-green-100 text-green-700"
    else if status == "Overdue" then "bg-red-100 text-red-700"
    else if status == "Cancelled" then "bg-slate-100 text-slate-700"
    else Gray
  }

  /** Every offered status other than `'Pending'` has a badge of its own. */
  lemma StatusColorsDistinct(s: string, t: string)
    requires s in StatusOptions && t in StatusOptions && s != t
    ensures StatusColor(s) != StatusColor(t)
  {
  }

  /** `handleAdd`: rejected when the amount field is empty; otherwise an invoice with the
      chosen status and the trimmed description goes at the end of the list, which an
      absent list starts empty, and nothing else changes. */
  function Add(p: Project, id: Id, amount: Input<real>, date: string, description: string, status: string): (r: Project)
    ensures amount.Blank() ==> r == p
    ensures !amount.Blank() ==>
      && r == p.(invoices := r.invoices)
      && r.invoices == Some(InvoiceList(p) + [Invoice(id, amount.value, date, Trim(description), status)])
  {
    if amount.Blank() then p
    else p.(invoices := Some(InvoiceList(p) + [Invoice(id, amount.value, date, Trim(description), status)]))
  }

  function Edited(inv: Invoice, amount: real, date: string, description: string, status: string): Invoice
  {
    inv.(amount := amount, date := date, description := Trim(description), status := status)
  }

  /** `invoices.map(inv => inv.id === editingId ? { ...inv, ...edit } : inv)`. */
  function EditedInvoices(invs: seq<Invoice>, editingId: Id, amount: real, date: string, description: string, status: string): seq<Invoice>
  {
    Replace(invs, (inv: Invoice) => inv.id == editingId, (inv: Invoice) => Edited(inv, amount, date, description, status))
  }

  /** `handleUpdate`: rejected like `Add`; otherwise every invoice with the edited id gets the
      form's amount, date, trimmed description and status, and the list keeps its length,
      order and ids. */
  function Update(p: Project, editingId: Id, amount: Input<real>, date: string, description: string, status: string): (r: Project)
    ensures amount.Blank() ==> r == p
    ensures !amount.Blank() ==>
      && r == p.(invoices := r.invoices)
      && r.invoices.Some?
      && |InvoiceList(r)| == |InvoiceList(p)|
      && forall i :: 0 <= i < |InvoiceList(p)| ==>
           var inv, inv' := InvoiceList(p)[i], InvoiceList(r)[i];
           && inv'.id == inv.id
           && (inv.id == editingId ==>
                 && inv'.amount == amount.value && inv'.date == date
                 && inv'.description == Trim(description) && inv'.status == status)
           && (inv.id != editingId ==> inv' == inv)
  {
    if amount.Blank() then p
    else p.(invoices := Some(EditedInvoices(InvoiceList(p), editingId, amount.value, date, description, status)))
  }

  /** `handleDelete`: nothing happens unless the user confirms; then every invoice with the
      id goes and nothing else changes. `DeleteKeepsRest` says that the rest stays. */
  function Delete(p: Project, invoiceId: Id, confirmed: bool): (r: Project)
    ensures !confirmed ==> r == p
    ensures r == p.(invoices := r.invoices)
    ensures confirmed ==> r.invoices.Some? && forall inv :: inv in InvoiceList(r) ==> inv.id != invoiceId
  {
    if !confirmed then p
    else
      FilterMembers(InvoiceList(p), (inv: Invoice) => inv.id != invoiceId);
      p.(invoices := Some(Filter(InvoiceList(p), (inv: Invoice) => inv.id != invoiceId)))
  }

  /** A confirmed delete keeps exactly the invoices with other ids, in order. */
  lemma DeleteKeepsRest(p: Project, invoiceId: Id)
    ensures KeepsExactly(InvoiceList(Delete(p, invoiceId, true)), InvoiceList(p), (inv: Invoice) => inv.id != invoiceId)
  {
    FilterKeepsExactly(InvoiceList(p), (inv: Invoice) => inv.id != invoiceId);
  }

  // ---------------------------------------------------------------------------
  // Lemmas tying the handlers to the budget metrics

  /** A new invoice of amount `a` raises the invoiced total by `a` unless it is cancelled, and
      what paid invoices bring in by `a` when it is paid, lowering the outstanding balance by
      as much; nothing else moves. */
  lemma AddEffectOnMetrics(p: Project, id: Id, amount: Input<real>, date: string, description: string, status: string)
    requires !amount.Blank()
    ensures var m, m' := ProjectMetrics(Some(p)), ProjectMetrics(Some(Add(p, id, amount, date, description, status)));
            var paid := if status == "Paid" then amount.value else 0.0;
            var billed := if status != "Cancelled" then amount.value else 0.0;
            && m'.totalInvoicesPaid == m.totalInvoicesPaid + paid
            && m'.totalInvoices == m.totalInvoices + billed
            && m'.outstandingBalance == m.outstandingBalance - paid
            && m'.(totalInvoicesPaid := m.totalInvoicesPaid, totalInvoices := m.totalInvoices,
                   outstandingBalance := m.outstandingBalance) == m
  {
    var inv := Invoice(id, amount.value, date, Trim(description), status);
    SumSnoc(InvoiceList(p), inv, PaidAmount);
    SumSnoc(InvoiceList(p), inv, BilledAmount);
    InvoicesOnlyChange(p, Add(p, id, amount, date, description, status), PaidAmount(inv), BilledAmount(inv));
  }

  /** Editing moves each invoice total by the sum, over the edited invoices, of what the new
      version counts less what the old one did; the outstanding balance follows the paid
      total, and nothing else moves. */
  lemma UpdateEffectOnMetrics(p: Project, editingId: Id, amount: Input<real>, date: string, description: string, status: string)
    requires !amount.Blank()
    ensures var m, m' := ProjectMetrics(Some(p)), ProjectMetrics(Some(Update(p, editingId, amount, date, description, status)));
            var edited := Filter(InvoiceList(p), (inv: Invoice) => inv.id == editingId);
            var paid := Sum(edited, (inv: Invoice) => PaidAmount(Edited(inv, amount.value, date, description, status)) - PaidAmount(inv));
            var billed := Sum(edited, (inv: Invoice) => BilledAmount(Edited(inv, amount.value, date, description, status)) - BilledAmount(inv));
            && m'.totalInvoicesPaid == m.totalInvoicesPaid + paid
            && m'.totalInvoices == m.totalInvoices + billed
            && m'.outstandingBalance == m.outstandingBalance - paid
            && m'.(totalInvoicesPaid := m.totalInvoicesPaid, totalInvoices := m.totalInvoices,
                   outstandingBalance := m.outstandingBalance) == m
  {
    var invs := InvoiceList(p);
    var sel := (inv: Invoice) => inv.id == editingId;
    var upd := (inv: Invoice) => Edited(inv, amount.value, date, description, status);
    var dPaid := (inv: Invoice) => PaidAmount(Edited(inv, amount.value, date, description, status)) - PaidAmount(inv);
    var dBilled := (inv: Invoice) => BilledAmount(Edited(inv, amount.value, date, description, status)) - BilledAmount(inv);
    SumReplace(invs, sel, upd, PaidAmount, dPaid);
    SumReplace(invs, sel, upd, BilledAmount, dBilled);
    InvoicesOnlyChange(p, Update(p, editingId, amount, date, description, status),
                       Sum(Filter(invs, sel), dPaid), Sum(Filter(invs, sel), dBilled));
  }

  /** A confirmed delete takes what the removed invoices brought in and billed off the two
      totals, gives the first back to the outstanding balance, and moves nothing else. */
  lemma DeleteEffectOnMetrics(p: Project, invoiceId: Id)
    ensures var m, m' := ProjectMetrics(Some(p)), ProjectMetrics(Some(Delete(p, invoiceId, true)));
            var removed := Filter(InvoiceList(p), (inv: Invoice) => inv.id == invoiceId);
            && m'.totalInvoicesPaid == m.totalInvoicesPaid - Sum(removed, PaidAmount)
            && m'.totalInvoices == m.totalInvoices - Sum(removed, BilledAmount)
            && m'.outstandingBalance == m.outstandingBalance + Sum(removed, PaidAmount)
            && m'.(totalInvoicesPaid := m.totalInvoicesPaid, totalInvoices := m.totalInvoices,
                   outstandingBalance := m.outstandingBalance) == m
  {
    var invs := InvoiceList(p);
    var removed := Filter(invs, (inv: Invoice) => inv.id == invoiceId);
    SumSplit(invs, (inv: Invoice) => inv.id != invoiceId, (inv: Invoice) => inv.id == invoiceId, PaidAmount);
    SumSplit(invs, (inv: Invoice) => inv.id != invoiceId, (inv: Invoice) => inv.id == invoiceId, BilledAmount);
    InvoicesOnlyChange(p, Delete(p, invoiceId, true), -Sum(removed, PaidAmount), -Sum(removed, BilledAmount));
  }

  /** Deleting an invoice that is `'Cancelled'` (every invoice with its id is) changes no
      metric: it counted towards neither total. */
  lemma DeleteCancelledKeepsMetrics(p: Project, invoiceId: Id)
    requires forall inv :: inv in InvoiceList(p) && inv.id == invoiceId ==> inv.status == "Cancelled"
    ensures ProjectMetrics(Some(Delete(p, invoiceId, true))) == ProjectMetrics(Some(p))
  {
    var removed := Filter(InvoiceList(p), (inv: Invoice) => inv.id == invoiceId);
    FilterMembers(InvoiceList(p), (inv: Invoice) => inv.id == invoiceId);
    SumZero(removed, PaidAmount);
    SumZero(removed, BilledAmount);
    DeleteEffectOnMetrics(p, invoiceId);
  }
}
