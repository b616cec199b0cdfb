/** The change-order handlers of js/components/ChangeOrders.js. Each builds the project the
    component hands to `onUpdate`; only the `changeOrders` list ever changes. */
module ChangeOrders {
  import opened Wrappers
  import opened Seqs
  import opened Text
  import opened Types
  import opened Utils

  /** The form is rejected when the description is all white space or the price is empty. */
  predicate Rejected(description: string, price: Input<real>)
  {
    BlankAfterTrim(description) || price.Blank()
  }

  /** `handleAdd`: rejected as above; otherwise a change order with the trimmed description
      and the price as given (of either sign) goes at the end and nothing else changes. The
      stored description is never empty and neither starts nor ends with white space. */
  function Add(p: Project, id: Id, description: string, price: Input<real>): (r: Project)
    ensures Rejected(description, price) ==> r == p
    ensures !Rejected(description, price) ==>
      && r == p.(changeOrders := r.changeOrders)
      && |r.changeOrders| == |p.changeOrders| + 1
      && r.changeOrders[..|p.changeOrders|] == p.changeOrders
      && r.changeOrders[|p.changeOrders|] == ChangeOrder(id, Trim(description), price.value)
      && var d := r.changeOrders[|p.changeOrders|].description;
         d != [] && !IsWhiteSpace(d[0]) && !IsWhiteSpace(d[|d| - 1])
  {
    if Rejected(description, price) then p
    else
      TrimEdges(description);
      p.(changeOrders := p.changeOrders + [ChangeOrder(id, Trim(description), price.value)])
  }

  function Edited(co: ChangeOrder, description: string, price: real): ChangeOrder
  {
    co.(description := Trim(description), price := price)
  }

  /** `changeOrders.map(co => co.id === editingId ? { ...co, ...edit } : co)`. */
  function EditedOrders(cos: seq<ChangeOrder>, editingId: Id, description: string, price: real): seq<ChangeOrder>
  {
    Replace(cos, (co: ChangeOrder) => co.id == editingId, (co: ChangeOrder) => Edited(co, description, price))
  }

  /** `handleUpdate`: rejected like `Add`; otherwise every change order with the edited id
      gets the trimmed description and the new price, and the list keeps its length, order
      and ids. */
  function Update(p: Project, editingId: Id, description: string, price: Input<real>): (r: Project)
    ensures Rejected(description, price) ==> r == p
    ensures !Rejected(description, price) ==>
      && r == p.(changeOrders := r.changeOrders)
      && |r.changeOrders| == |p.changeOrders|
      && forall i :: 0 <= i < |p.changeOrders| ==>
           var co, co' := p.changeOrders[i], r.changeOrders[i];
           && co'.id == co.id
           && (co.id == editingId ==> co'.description == Trim(description) && co'.price == price.value)
           && (co.id != editingId ==> co' == co)
  {
    if Rejected(description, price) then p
    else p.(changeOrders := EditedOrders(p.changeOrders, editingId, description, price.value))
  }

  /** `handleDelete`: nothing happens unless the user confirms; then every change order with
      the id goes and nothing else changes. `DeleteKeepsRest` says that the rest stays. */
  function Delete(p: Project, changeOrderId: Id, confirmed: bool): (r: Project)
    ensures !confirmed ==> r == p
    ensures r == p.(changeOrders := r.changeOrders)
    ensures confirmed ==> forall co :: co in r.changeOrders ==> co.id != changeOrderId
  {
    if !confirmed then p
    else
      FilterMembers(p.changeOrders, (co: ChangeOrder) => co.id != changeOrderId);
      p.(changeOrders := Filter(p.changeOrders, (co: ChangeOrder) => co.id != changeOrderId))
  }

  /** A confirmed delete keeps exactly the change orders with other ids, in order. */
  lemma DeleteKeepsRest(p: Project, changeOrderId: Id)
    ensures KeepsExactly(Delete(p, changeOrderId, true).changeOrders, p.changeOrders,
                         (co: ChangeOrder) => co.id != changeOrderId)
  {
    FilterKeepsExactly(p.changeOrders, (co: ChangeOrder) => co.id != changeOrderId);
  }

  // ---------------------------------------------------------------------------
  // Lemmas tying the handlers to the budget metrics

  /** A change order of price `c` raises the change-order total, the adjusted price, the
      remaining budget and the outstanding balance by `c` (a credit, `c < 0`, lowers them),
      and moves nothing else. */
  lemma AddEffectOnMetrics(p: Project, id: Id, description: string, price: Input<real>)
    requires !Rejected(description, price)
    ensures var m, m' := ProjectMetrics(Some(p)), ProjectMetrics(Some(Add(p, id, description, price)));
            var c := price.value;
            && m'.totalChangeOrders == m.totalChangeOrders + c
            && m'.adjustedPrice == m.adjustedPrice + c
            && m'.remainingBudget == m.remainingBudget + c
            && m'.outstandingBalance == m.outstandingBalance + c
            && m'.(totalChangeOrders := m.totalChangeOrders, adjustedPrice := m.adjustedPrice,
                   remainingBudget := m.remainingBudget, outstandingBalance := m.outstandingBalance) == m
  {
    SumSnoc(p.changeOrders, ChangeOrder(id, Trim(description), price.value), Price);
    ChangeOrdersOnlyChange(p, Add(p, id, description, price), price.value);
  }

  /** Editing moves the four totals by the sum, over the edited change orders, of the new
      price less the old one, and moves nothing else. */
  lemma UpdateEffectOnMetrics(p: Project, editingId: Id, description: string, price: Input<real>)
    requires !Rejected(description, price)
    ensures var m, m' := ProjectMetrics(Some(p)), ProjectMetrics(Some(Update(p, editingId, description, price)));
            var delta := Sum(Filter(p.changeOrders, (co: ChangeOrder) => co.id == editingId),
                             (co: ChangeOrder) => price.value - co.price);
            && m'.totalChangeOrders == m.totalChangeOrders + delta
            && m'.adjustedPrice == m.adjustedPrice + delta
            && m'.remainingBudget == m.remainingBudget + delta
            && m'.outstandingBalance == m.outstandingBalance + delta
            && m'.(totalChangeOrders := m.totalChangeOrders, adjustedPrice := m.adjustedPrice,
                   remainingBudget := m.remainingBudget, outstandingBalance := m.outstandingBalance) == m
  {
    var d := (co: ChangeOrder) => price.value - co.price;
    SumReplace(p.changeOrders, (co: ChangeOrder) => co.id == editingId,
               (co: ChangeOrder) => Edited(co, description, price.value), Price, d);
    ChangeOrdersOnlyChange(p, Update(p, editingId, description, price),
                           Sum(Filter(p.changeOrders, (co: ChangeOrder) => co.id == editingId), d));
  }

  /** A confirmed delete takes the prices of the removed change orders off the four totals,
      and moves nothing else. */
  lemma DeleteEffectOnMetrics(p: Project, changeOrderId: Id)
    ensures var m, m' := ProjectMetrics(Some(p)), ProjectMetrics(Some(Delete(p, changeOrderId, true)));
            var removed := Sum(Filter(p.changeOrders, (co: ChangeOrder) => co.id == changeOrderId), Price);
            && m'.totalChangeOrders == m.totalChangeOrders - removed
            && m'.adjustedPrice == m.adjustedPrice - removed
            && m'.remainingBudget == m.remainingBudget - removed
            && m'.outstandingBalance == m.outstandingBalance - removed
            && m'.(totalChangeOrders := m.totalChangeOrders, adjustedPrice := m.adjustedPrice,
                   remainingBudget := m.remainingBudget, outstandingBalance := m.outstandingBalance) == m
  {
    var removed := Sum(Filter(p.changeOrders, (co: ChangeOrder) => co.id == changeOrderId), Price);
    SumSplit(p.changeOrders, (co: ChangeOrder) => co.id != changeOrderId, (co: ChangeOrder) => co.id == changeOrderId, Price);
    ChangeOrdersOnlyChange(p, Delete(p, changeOrderId, true), -removed);
  }

  /** Adding a change order and then deleting it again, under an id no change order had,
      gives back the project. */
  lemma AddThenDelete(p: Project, id: Id, description: string, price: Input<real>)
    requires forall co :: co in p.changeOrders ==> co.id != id
    ensures Delete(Add(p, id, description, price), id, true) == p
  {
    var keep := (co: ChangeOrder) => co.id != id;
    FilterAll(p.changeOrders, keep);
    if !Rejected(description, price) {
      var co := ChangeOrder(id, Trim(description), price.value);
      FilterAppend(p.changeOrders, [co], keep);
      assert [co][..0] == [];
    }
  }
}
