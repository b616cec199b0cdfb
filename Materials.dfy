/** The material handlers of js/components/Materials.js. Each builds the project the
    component hands to `onUpdate`; only the `materials` list ever changes. */
module Materials {
  import opened Wrappers
  import opened Seqs
  import opened Text
  import opened Types
  import opened Utils

  /** The form is rejected when the name is all white space or the cost is empty. */
  predicate Rejected(name: string, cost: Input<real>)
  {
    BlankAfterTrim(name) || cost.Blank()
  }

  /** `quantity.trim() || 1`: the number 1 exactly when the typed quantity is all white
      space, the trimmed text otherwise. */
  function QuantityOf(text: string): (r: Quantity)
    ensures r == One <==> AllWhiteSpace(text)
    ensures r.Typed? ==> r.text == Trim(text) && r.text != []
  {
    TrimEmpty(text);
    var t := Trim(text);
    if t == "" then One else Typed(t)
  }

  /** The material the form describes: trimmed name, the cost, the defaulted quantity and
      the date. */
  function NewMaterial(id: Id, name: string, cost: real, quantity: string, date: string): Material
  {
    Material(id, Trim(name), cost, QuantityOf(quantity), date)
  }

  /** `handleAdd`: rejected as above; otherwise the new material goes at the end and nothing
      else changes. */
  function Add(p: Project, id: Id, name: string, cost: Input<real>, quantity: string, date: string): (r: Project)
    ensures Rejected(name, cost) ==> r == p
    ensures !Rejected(name, cost) ==>
      && r == p.(materials := r.materials)
      && |r.materials| == |p.materials| + 1
      && r.materials[..|p.materials|] == p.materials
      && r.materials[|p.materials|] == Material(id, Trim(name), cost.value, QuantityOf(quantity), date)
      && r.materials[|p.materials|].name != []
  {
    if Rejected(name, cost) then p
    else p.(materials := p.materials + [NewMaterial(id, name, cost.value, quantity, date)])
  }

  function Edited(m: Material, name: string, cost: real, quantity: string, date: string): Material
  {
    m.(name := Trim(name), cost := cost, quantity := QuantityOf(quantity), date := date)
  }

  /** `materials.map(m => m.id === editingId ? { ...m, ...edit } : m)`. */
  function EditedMaterials(ms: seq<Material>, editingId: Id, name: string, cost: real, quantity: string, date: string): seq<Material>
  {
    Replace(ms, (m: Material) => m.id == editingId, (m: Material) => Edited(m, name, cost, quantity, date))
  }

  /** `handleUpdate`: rejected like `Add`; otherwise every material with the edited id gets
      the form's fields, quantity defaulted as on `Add`, and the list keeps its length, order
      and ids. */
  function Update(p: Project, editingId: Id, name: string, cost: Input<real>, quantity: string, date: string): (r: Project)
    ensures Rejected(name, cost) ==> r == p
    ensures !Rejected(name, cost) ==>
      && r == p.(materials := r.materials)
      && |r.materials| == |p.materials|
      && forall i :: 0 <= i < |p.materials| ==>
           var m, m' := p.materials[i], r.materials[i];
           && m'.id == m.id
           && (m.id == editingId ==>
                 && m'.name == Trim(name) && m'.cost == cost.value
                 && m'.quantity == QuantityOf(quantity) && m'.date == date)
           && (m.id != editingId ==> m' == m)
  {
    if Rejected(name, cost) then p
    else p.(materials := EditedMaterials(p.materials, editingId, name, cost.value, quantity, date))
  }

  /** `handleDelete`: nothing happens unless the user confirms; then every material with the
      id goes and nothing else changes. `DeleteKeepsRest` says that the rest stays. */
  function Delete(p: Project, materialId: Id, confirmed: bool): (r: Project)
    ensures !confirmed ==> r == p
    ensures r == p.(materials := r.materials)
    ensures confirmed ==> forall m :: m in r.materials ==> m.id != materialId
  {
    if !confirmed then p
    else
      FilterMembers(p.materials, (m: Material) => m.id != materialId);
      p.(materials := Filter(p.materials, (m: Material) => m.id != materialId))
  }

  /** A confirmed delete keeps exactly the materials with other ids, in order. */
  lemma DeleteKeepsRest(p: Project, materialId: Id)
    ensures KeepsExactly(Delete(p, materialId, true).materials, p.materials, (m: Material) => m.id != materialId)
  {
    FilterKeepsExactly(p.materials, (m: Material) => m.id != materialId);
  }

  // ---------------------------------------------------------------------------
  // Lemmas tying the handlers to the budget metrics

  /** A material of cost `c` raises the materials total by `c` and lowers the remaining
      budget by `c`; nothing else moves. */
  lemma AddEffectOnMetrics(p: Project, id: Id, name: string, cost: Input<real>, quantity: string, date: string)
    requires !Rejected(name, cost)
    ensures var m, m' := ProjectMetrics(Some(p)), ProjectMetrics(Some(Add(p, id, name, cost, quantity, date)));
            && m'.totalMaterials == m.totalMaterials + cost.value
            && m'.remainingBudget == m.remainingBudget - cost.value
            && m'.(totalMaterials := m.totalMaterials, remainingBudget := m.remainingBudget) == m
  {
    SumSnoc(p.materials, NewMaterial(id, name, cost.value, quantity, date), Cost);
    MaterialsOnlyChange(p, Add(p, id, name, cost, quantity, date), cost.value);
  }

  /** Editing moves the materials total by the sum, over the edited materials, of the new
      cost less the old one, and the remaining budget the other way. */
  lemma UpdateEffectOnMetrics(p: Project, editingId: Id, name: string, cost: Input<real>, quantity: string, date: string)
    requires !Rejected(name, cost)
    ensures var m, m' := ProjectMetrics(Some(p)), ProjectMetrics(Some(Update(p, editingId, name, cost, quantity, date)));
            var delta := Sum(Filter(p.materials, (x: Material) => x.id == editingId), (x: Material) => cost.value - x.cost);
            && m'.totalMaterials == m.totalMaterials + delta
            && m'.remainingBudget == m.remainingBudget - delta
            && m'.(totalMaterials := m.totalMaterials, remainingBudget := m.remainingBudget) == m
  {
    var d := (x: Material) => cost.value - x.cost;
    SumReplace(p.materials, (x: Material) => x.id == editingId,
               (x: Material) => Edited(x, name, cost.value, quantity, date), Cost, d);
    MaterialsOnlyChange(p, Update(p, editingId, name, cost, quantity, date),
                        Sum(Filter(p.materials, (x: Material) => x.id == editingId), d));
  }

  /** A confirmed delete takes the cost of the removed materials off the materials total and
      gives it back to the remaining budget. */
  lemma DeleteEffectOnMetrics(p: Project, materialId: Id)
    ensures var m, m' := ProjectMetrics(Some(p)), ProjectMetrics(Some(Delete(p, materialId, true)));
            var removed := Sum(Filter(p.materials, (x: Material) => x.id == materialId), Cost);
            && m'.totalMaterials == m.totalMaterials - removed
            && m'.remainingBudget == m.remainingBudget + removed
            && m'.(totalMaterials := m.totalMaterials, remainingBudget := m.remainingBudget) == m
  {
    var removed := Sum(Filter(p.materials, (x: Material) => x.id == materialId), Cost);
    SumSplit(p.materials, (x: Material) => x.id != materialId, (x: Material) => x.id == materialId, Cost);
    MaterialsOnlyChange(p, Delete(p, materialId, true), -removed);
  }
}
