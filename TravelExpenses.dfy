/** The travel-expense handlers of js/components/TravelExpenses.js: the mileage cost
    formula, the handlers over the optional `travelExpenses` list (`travelExpenses || []`),
    the fuel-price settings and the two totals the component shows. A cost is computed once,
    from the fuel prices of the moment, and stored with the expense. */
module TravelExpenses {
  import opened Wrappers
  import opened Seqs
  import opened Text
  import opened Types
  import opened Utils

  /** The expenses a project has; a project without the list has none. */
  function TravelList(p: Project): seq<TravelExpense>
  {
    p.travelExpenses.GetOr([])
  }

  /** `(project.fuelPrices || { gas: 0, diesel: 0 })[fuelType] || 0`: the price per gallon of
      the two fuel types the project prices, 0 for any other type or without settings. */
  function PricePerGallon(p: Project, fuelType: string): (r: real)
    ensures p.fuelPrices.None? ==> r == 0.0
    ensures fuelType != "gas" && fuelType != "diesel" ==> r == 0.0
    ensures p.fuelPrices.Some? && fuelType == "gas" ==> r == p.fuelPrices.value.gas
    ensures p.fuelPrices.Some? && fuelType == "diesel" ==> r == p.fuelPrices.value.diesel
  {
    var prices := p.fuelPrices.GetOr(FuelPrices(0.0, 0.0));
    if fuelType == "gas" then prices.gas
    else if fuelType == "diesel" then prices.diesel
    else 0.0
  }

  /** `calculateCost(miles, mpg, fuelType)`: the gallons the trip burns (`miles / mpg`) at the
      current price per gallon. */
  function CalculateCost(p: Project, miles: real, mpg: real, fuelType: string): (r: real)
    requires mpg != 0.0
    ensures PricePerGallon(p, fuelType) == 0.0 ==> r == 0.0
  {
    var gallons := miles / mpg;
    gallons * PricePerGallon(p, fuelType)
  }

  /** The cost is what the miles driven cost at the price per gallon, spread over the
      mileage: cost times miles-per-gallon is miles times price. */
  lemma CostFormula(p: Project, miles: real, mpg: real, fuelType: string)
    requires mpg != 0.0
    ensures CalculateCost(p, miles, mpg, fuelType) * mpg == miles * PricePerGallon(p, fuelType)
  {
    var price := PricePerGallon(p, fuelType);
    assert (miles / mpg) * mpg == miles;
    assert (miles / mpg) * price * mpg == (miles / mpg) * mpg * price;
  }

  /** Without a price for the fuel type the trip costs nothing. */
  lemma UnpricedFuelIsFree(p: Project, miles: real, mpg: real, fuelType: string)
    requires mpg != 0.0
    requires p.fuelPrices.None? || (fuelType != "gas" && fuelType != "diesel")
    ensures CalculateCost(p, miles, mpg, fuelType) == 0.0
  {
  }

  /** 100 miles at 25 miles per gallon, gas at 4 a gallon: 16. */
  lemma CostExample(p: Project)
    requires p.fuelPrices == Some(FuelPrices(4.0, 5.0))
    ensures CalculateCost(p, 100.0, 25.0, "gas") == 16.0
    ensures CalculateCost(p, 100.0, 25.0, "diesel") == 20.0
  {
  }

  /** The form is rejected when no member is selected or the miles, mileage or fuel type
      field is empty. */
  predicate Rejected(teamMemberId: Input<Id>, miles: Input<real>, mpg: Input<real>, fuelType: string)
  {
    teamMemberId.Blank() || miles.Blank() || mpg.Blank() || fuelType == ""
  }

  /** The expense the form describes, priced at the project's current fuel prices. */
  function NewExpense(p: Project, id: Id, teamMemberId: Id, date: string, miles: real, mpg: real,
                      fuelType: string, description: string): TravelExpense
    requires mpg != 0.0
  {
    TravelExpense(id, teamMemberId, date, miles, mpg, fuelType, CalculateCost(p, miles, mpg, fuelType), Trim(description))
  }

  /** `handleAdd`: rejected as above; otherwise the new expense, its cost computed from the
      current fuel prices, goes at the end of the list (an absent list starts empty) and
      nothing else changes. */
  function Add(p: Project, id: Id, teamMemberId: Input<Id>, date: string, miles: Input<real>, mpg: Input<real>,
               fuelType: string, description: string): (r: Project)
    requires Rejected(teamMemberId, miles, mpg, fuelType) || mpg.value != 0.0
    ensures Rejected(teamMemberId, miles, mpg, fuelType) ==> r == p
    ensures !Rejected(teamMemberId, miles, mpg, fuelType) ==>
      && r == p.(travelExpenses := r.travelExpenses)
      && r.travelExpenses == Some(TravelList(p) + [TravelExpense(id, teamMemberId.value, date, miles.value, mpg.value,
                                                                 fuelType, CalculateCost(p, miles.value, mpg.value, fuelType),
                                                                 Trim(description))])
  {
    if Rejected(teamMemberId, miles, mpg, fuelType) then p
    else
      var t := NewExpense(p, id, teamMemberId.value, date, miles.value, mpg.value, fuelType, description);
      p.(travelExpenses := Some(TravelList(p) + [t]))
  }

  function Edited(p: Project, t: TravelExpense, teamMemberId: Id, date: string, miles: real, mpg: real,
                  fuelType: string, description: string): TravelExpense
    requires mpg != 0.0
  {
    NewExpense(p, t.id, teamMemberId, date, miles, mpg, fuelType, description)
  }

  /** `travelExpenses.map(t => t.id === editingId ? { ...t, ...edit, cost } : t)`. */
  function EditedExpenses(p: Project, editingId: Id, teamMemberId: Id, date: string, miles: real, mpg: real,
                          fuelType: string, description: string): seq<TravelExpense>
    requires mpg != 0.0
  {
    Replace(TravelList(p), (t: TravelExpense) => t.id == editingId,
            (t: TravelExpense) => Edited(p, t, teamMemberId, date, miles, mpg, fuelType, description))
  }

  /** `handleUpdate`: rejected like `Add`; otherwise every expense with the edited id gets the
      form's fields and a cost recomputed from the current fuel prices; every other expense
      keeps its stored cost, and the list keeps its length, order and ids. */
  function Update(p: Project, editingId: Id, teamMemberId: Input<Id>, date: string, miles: Input<real>, mpg: Input<real>,
                  fuelType: string, description: string): (r: Project)
    requires Rejected(teamMemberId, miles, mpg, fuelType) || mpg.value != 0.0
    ensures Rejected(teamMemberId, miles, mpg, fuelType) ==> r == p
    ensures !Rejected(teamMemberId, miles, mpg, fuelType) ==>
      && r == p.(travelExpenses := r.travelExpenses)
      && r.travelExpenses.Some?
      && |TravelList(r)| == |TravelList(p)|
      && forall i :: 0 <= i < |TravelList(p)| ==>
           var t, t' := TravelList(p)[i], TravelList(r)[i];
           && t'.id == t.id
           && (t.id == editingId ==>
                 && t' == TravelExpense(t.id, teamMemberId.value, date, miles.value, mpg.value, fuelType, t'.cost, Trim(description))
                 && t'.cost == CalculateCost(p, miles.value, mpg.value, fuelType))
           && (t.id != editingId ==> t' == t)
  {
    if Rejected(teamMemberId, miles, mpg, fuelType) then p
    else p.(travelExpenses := Some(EditedExpenses(p, editingId, teamMemberId.value, date, miles.value, mpg.value, fuelType, description)))
  }

  /** `handleDelete`: nothing happens unless the user confirms; then every expense with the
      id goes and nothing else changes. `DeleteKeepsRest` says that the rest stays. */
  function Delete(p: Project, expenseId: Id, confirmed: bool): (r: Project)
    ensures !confirmed ==> r == p
    ensures r == p.(travelExpenses := r.travelExpenses)
    ensures confirmed ==> r.travelExpenses.Some? && forall t :: t in TravelList(r) ==> t.id != expenseId
  {
    if !confirmed then p
    else
      FilterMembers(TravelList(p), (t: TravelExpense) => t.id != expenseId);
      p.(travelExpenses := Some(Filter(TravelList(p), (t: TravelExpense) => t.id != expenseId)))
  }

  /** A confirmed delete keeps exactly the expenses with other ids, in order. */
  lemma DeleteKeepsRest(p: Project, expenseId: Id)
    ensures KeepsExactly(TravelList(Delete(p, expenseId, true)), TravelList(p), (t: TravelExpense) => t.id != expenseId)
  {
    FilterKeepsExactly(TravelList(p), (t: TravelExpense) => t.id != expenseId);
  }

  /** "Save Settings": the project gets the two prices of the settings form and nothing else
      changes; in particular every stored cost stays as it was. */
  function SaveSettings(p: Project, gas: real, diesel: real): (r: Project)
    ensures r == p.(fuelPrices := r.fuelPrices)
    ensures r.fuelPrices == Some(FuelPrices(gas, diesel))
    ensures TravelList(r) == TravelList(p)
    ensures PricePerGallon(r, "gas") == gas && PricePerGallon(r, "diesel") == diesel
  {
    p.(fuelPrices := Some(FuelPrices(gas, diesel)))
  }

  // ---------------------------------------------------------------------------
  // The totals the component shows

  function Cost(t: TravelExpense): real { t.cost }
  function Miles(t: TravelExpense): real { t.miles }

  /** `totalTravelCost`: the stored costs summed, 0 without a list. */
  function TotalTravelCost(p: Project): (r: real)
    ensures p.travelExpenses.None? ==> r == 0.0
  {
    Sum(TravelList(p), Cost)
  }

  /** `totalMiles`: the miles summed, 0 without a list. */
  function TotalMiles(p: Project): (r: real)
    ensures p.travelExpenses.None? ==> r == 0.0
  {
    Sum(TravelList(p), Miles)
  }

  /** A new expense adds its miles and its cost at the current prices to the two totals. */
  lemma AddEffectOnTotals(p: Project, id: Id, teamMemberId: Input<Id>, date: string, miles: Input<real>, mpg: Input<real>,
                          fuelType: string, description: string)
    requires !Rejected(teamMemberId, miles, mpg, fuelType) && mpg.value != 0.0
    ensures var q := Add(p, id, teamMemberId, date, miles, mpg, fuelType, description);
            && TotalTravelCost(q) == TotalTravelCost(p) + CalculateCost(p, miles.value, mpg.value, fuelType)
            && TotalMiles(q) == TotalMiles(p) + miles.value
  {
    var q := Add(p, id, teamMemberId, date, miles, mpg, fuelType, description);
    var t := NewExpense(p, id, teamMemberId.value, date, miles.value, mpg.value, fuelType, description);
    assert TravelList(q) == TravelList(p) + [t];
    AppendedTotals(p, q, t);
  }

  /** An expense put at the end of the list adds its miles and stored cost to the totals. */
  lemma AppendedTotals(p: Project, q: Project, t: TravelExpense)
    requires TravelList(q) == TravelList(p) + [t]
    ensures TotalTravelCost(q) == TotalTravelCost(p) + t.cost && TotalMiles(q) == TotalMiles(p) + t.miles
  {
    SumSnoc(TravelList(p), t, Cost);
    SumSnoc(TravelList(p), t, Miles);
  }

  /** A confirmed delete takes the removed expenses' miles and stored costs off the totals. */
  lemma DeleteEffectOnTotals(p: Project, expenseId: Id)
    ensures var q, removed := Delete(p, expenseId, true), Filter(TravelList(p), (t: TravelExpense) => t.id == expenseId);
            && TotalTravelCost(q) == TotalTravelCost(p) - Sum(removed, Cost)
            && TotalMiles(q) == TotalMiles(p) - Sum(removed, Miles)
  {
    SumSplit(TravelList(p), (t: TravelExpense) => t.id != expenseId, (t: TravelExpense) => t.id == expenseId, Cost);
    SumSplit(TravelList(p), (t: TravelExpense) => t.id != expenseId, (t: TravelExpense) => t.id == expenseId, Miles);
  }

  /** Saving fuel prices moves neither total. */
  lemma SaveSettingsKeepsTotals(p: Project, gas: real, diesel: real)
    ensures TotalTravelCost(SaveSettings(p, gas, diesel)) == TotalTravelCost(p)
    ensures TotalMiles(SaveSettings(p, gas, diesel)) == TotalMiles(p)
  {
  }

  /** No travel handler moves any budget metric: the roll-up never reads travel expenses or
      fuel prices. */
  lemma TravelKeepsMetrics(p: Project, id: Id, teamMemberId: Input<Id>, date: string, miles: Input<real>, mpg: Input<real>,
                           fuelType: string, description: string, confirmed: bool, gas: real, diesel: real)
    requires Rejected(teamMemberId, miles, mpg, fuelType) || mpg.value != 0.0
    ensures ProjectMetrics(Some(Add(p, id, teamMemberId, date, miles, mpg, fuelType, description))) == ProjectMetrics(Some(p))
    ensures ProjectMetrics(Some(Update(p, id, teamMemberId, date, miles, mpg, fuelType, description))) == ProjectMetrics(Some(p))
    ensures ProjectMetrics(Some(Delete(p, id, confirmed))) == ProjectMetrics(Some(p))
    ensures ProjectMetrics(Some(SaveSettings(p, gas, diesel))) == ProjectMetrics(Some(p))
  {
    MetricsReadOnly(p, Add(p, id, teamMemberId, date, miles, mpg, fuelType, description));
    MetricsReadOnly(p, Update(p, id, teamMemberId, date, miles, mpg, fuelType, description));
    MetricsReadOnly(p, Delete(p, id, confirmed));
    MetricsReadOnly(p, SaveSettings(p, gas, diesel));
  }

  // ---------------------------------------------------------------------------
  // Stored costs against the current prices

  /** The stored cost of `t` is what the fuel prices of `p` would give. */
  predicate CostCurrent(p: Project, t: TravelExpense)
  {
    t.mpg != 0.0 && t.cost == CalculateCost(p, t.miles, t.mpg, t.fuelType)
  }

  /** Every stored cost is what the current fuel prices would give. */
  predicate CostsCurrent(p: Project)
  {
    forall t :: t in TravelList(p) ==> CostCurrent(p, t)
  }

  /** Adding keeps the stored costs current: the new expense is priced now and the prices
      the others were priced at have not changed. */
  lemma AddKeepsCostsCurrent(p: Project, id: Id, teamMemberId: Input<Id>, date: string, miles: Input<real>, mpg: Input<real>,
                             fuelType: string, description: string)
    requires CostsCurrent(p)
    requires Rejected(teamMemberId, miles, mpg, fuelType) || mpg.value != 0.0
    ensures CostsCurrent(Add(p, id, teamMemberId, date, miles, mpg, fuelType, description))
  {
    if !Rejected(teamMemberId, miles, mpg, fuelType) {
      var q := Add(p, id, teamMemberId, date, miles, mpg, fuelType, description);
      var n := NewExpense(p, id, teamMemberId.value, date, miles.value, mpg.value, fuelType, description);
      assert TravelList(q) == TravelList(p) + [n];
      forall t | t in TravelList(q) ensures CostCurrent(q, t) {
        SamePrices(p, q, t);
      }
    }
  }

  /** Editing keeps the stored costs current: the edited expenses are priced now and the
      others keep prices that have not changed. */
  lemma UpdateKeepsCostsCurrent(p: Project, editingId: Id, teamMemberId: Input<Id>, date: string, miles: Input<real>, mpg: Input<real>,
                                fuelType: string, description: string)
    requires CostsCurrent(p)
    requires Rejected(teamMemberId, miles, mpg, fuelType) || mpg.value != 0.0
    ensures CostsCurrent(Update(p, editingId, teamMemberId, date, miles, mpg, fuelType, description))
  {
    var q := Update(p, editingId, teamMemberId, date, miles, mpg, fuelType, description);
    if !Rejected(teamMemberId, miles, mpg, fuelType) {
      forall t' | t' in TravelList(q) ensures CostCurrent(q, t') {
        var i :| 0 <= i < |TravelList(q)| && TravelList(q)[i] == t';
        assert TravelList(p)[i] in TravelList(p);
        EditedCostCurrent(p, q, TravelList(p)[i], t', editingId, miles.value, mpg.value, fuelType);
      }
    }
  }

  /** One expense after an edit: the edited one was priced at the same prices as now, and any
      other one is the expense that was current before. */
  lemma EditedCostCurrent(p: Project, q: Project, t: TravelExpense, t': TravelExpense, editingId: Id,
                          miles: real, mpg: real, fuelType: string)
    requires p.fuelPrices == q.fuelPrices && CostCurrent(p, t) && mpg != 0.0
    requires t.id == editingId ==>
               t'.miles == miles && t'.mpg == mpg && t'.fuelType == fuelType && t'.cost == CalculateCost(p, miles, mpg, fuelType)
    requires t.id != editingId ==> t' == t
    ensures CostCurrent(q, t')
  {
    SamePrices(p, q, t');
  }

  /** Deleting keeps the stored costs current: what is left was current before. */
  lemma DeleteKeepsCostsCurrent(p: Project, expenseId: Id, confirmed: bool)
    requires CostsCurrent(p)
    ensures CostsCurrent(Delete(p, expenseId, confirmed))
  {
    var q := Delete(p, expenseId, confirmed);
    if confirmed {
      FilterMembers(TravelList(p), (t: TravelExpense) => t.id != expenseId);
    }
    forall t | t in TravelList(q) ensures CostCurrent(q, t) {
      SamePrices(p, q, t);
    }
  }

  /** Two projects with the same fuel prices price every trip alike. */
  lemma SamePrices(p: Project, q: Project, t: TravelExpense)
    requires p.fuelPrices == q.fuelPrices && t.mpg != 0.0
    ensures CalculateCost(q, t.miles, t.mpg, t.fuelType) == CalculateCost(p, t.miles, t.mpg, t.fuelType)
  {
  }

  /** Saving new prices does not re-price what is stored: an expense of 100 miles at 25
      miles per gallon stored at 16 while gas cost 4 keeps its 16 after gas goes to 5,
      where the formula now gives 20. */
  lemma SettingsDoNotReprice(p: Project)
    requires p.fuelPrices == Some(FuelPrices(4.0, 0.0))
    requires p.travelExpenses == Some([TravelExpense(1, 2, "", 100.0, 25.0, "gas", 16.0, "")])
    ensures CostsCurrent(p)
    ensures var q := SaveSettings(p, 5.0, 0.0);
            TravelList(q)[0].cost == 16.0 && CalculateCost(q, 100.0, 25.0, "gas") == 20.0 && !CostsCurrent(q)
  {
    var q := SaveSettings(p, 5.0, 0.0);
    assert TravelList(q)[0] in TravelList(q);
  }
}
