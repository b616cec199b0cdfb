/** The payment handlers of js/components/Payments.js. A project may lack the payment list;
    every handler then starts from the empty list (`payments || []`) and stores the list it
    builds. Only `payments` ever changes, and the budget metrics never read it. */
module Payments {
  import opened Wrappers
  import opened Seqs
  import opened Text
  import opened Types
  import opened Utils

  /** The payments a project has; a project without the list has none. */
  function PaymentList(p: Project): seq<Payment>
  {
    p.payments.GetOr([])
  }

  /** `handleAdd`: rejected when the amount field is empty; otherwise a payment with the
      trimmed description goes at the end of the list, which an absent list starts empty,
      and nothing else changes. */
  function Add(p: Project, id: Id, amount: Input<real>, date: string, description: string): (r: Project)
    ensures amount.Blank() ==> r == p
    ensures !amount.Blank() ==>
      && r == p.(payments := r.payments)
      && r.payments == Some(PaymentList(p) + [Payment(id, amount.value, date, Trim(description))])
  {
    if amount.Blank() then p
    else p.(payments := Some(PaymentList(p) + [Payment(id, amount.value, date, Trim(description))]))
  }

  function Edited(pay: Payment, amount: real, date: string, description: string): Payment
  {
    pay.(amount := amount, date := date, description := Trim(description))
  }

  /** `payments.map(p => p.id === editingId ? { ...p, ...edit } : p)`. */
  function EditedPayments(pays: seq<Payment>, editingId: Id, amount: real, date: string, description: string): seq<Payment>
  {
    Replace(pays, (pay: Payment) => pay.id == editingId, (pay: Payment) => Edited(pay, amount, date, description))
  }

  /** `handleUpdate`: rejected like `Add`; otherwise every payment with the edited id gets the
      form's amount, date and trimmed description, and the list keeps its length, order and
      ids. */
  function Update(p: Project, editingId: Id, amount: Input<real>, date: string, description: string): (r: Project)
    ensures amount.Blank() ==> r == p
    ensures !amount.Blank() ==>
      && r == p.(payments := r.payments)
      && r.payments.Some?
      && |PaymentList(r)| == |PaymentList(p)|
      && forall i :: 0 <= i < |PaymentList(p)| ==>
           var pay, pay' := PaymentList(p)[i], PaymentList(r)[i];
           && pay'.id == pay.id
           && (pay.id == editingId ==>
                 pay'.amount == amount.value && pay'.date == date && pay'.description == Trim(description))
           && (pay.id != editingId ==> pay' == pay)
  {
    if amount.Blank() then p
    else p.(payments := Some(EditedPayments(PaymentList(p), editingId, amount.value, date, description)))
  }

  /** `handleDelete`: nothing happens unless the user confirms; then every payment with the
      id goes and nothing else changes. `DeleteKeepsRest` says that the rest stays. */
  function Delete(p: Project, paymentId: Id, confirmed: bool): (r: Project)
    ensures !confirmed ==> r == p
    ensures r == p.(payments := r.payments)
    ensures confirmed ==> r.payments.Some? && forall pay :: pay in PaymentList(r) ==> pay.id != paymentId
  {
    if !confirmed then p
    else
      FilterMembers(PaymentList(p), (pay: Payment) => pay.id != paymentId);
      p.(payments := Some(Filter(PaymentList(p), (pay: Payment) => pay.id != paymentId)))
  }

  /** A confirmed delete keeps exactly the payments with other ids, in order. */
  lemma DeleteKeepsRest(p: Project, paymentId: Id)
    ensures KeepsExactly(PaymentList(Delete(p, paymentId, true)), PaymentList(p), (pay: Payment) => pay.id != paymentId)
  {
    FilterKeepsExactly(PaymentList(p), (pay: Payment) => pay.id != paymentId);
  }

  /** No payment handler moves any budget metric: the roll-up never reads payments. */
  lemma PaymentsKeepMetrics(p: Project, id: Id, amount: Input<real>, date: string, description: string, confirmed: bool)
    ensures ProjectMetrics(Some(Add(p, id, amount, date, description))) == ProjectMetrics(Some(p))
    ensures ProjectMetrics(Some(Update(p, id, amount, date, description))) == ProjectMetrics(Some(p))
    ensures ProjectMetrics(Some(Delete(p, id, confirmed))) == ProjectMetrics(Some(p))
  {
    MetricsReadOnly(p, Add(p, id, amount, date, description));
    MetricsReadOnly(p, Update(p, id, amount, date, description));
    MetricsReadOnly(p, Delete(p, id, confirmed));
  }
}
