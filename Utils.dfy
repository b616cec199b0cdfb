/** The budget roll-up of js/utils.js: `calculateProjectMetrics` folds a project's child
    lists into eight totals; `getTotalHours` and `getTeamMemberName` are the per-member
    lookups the components share. */
module Utils {
  import opened Wrappers
  import opened Seqs
  import opened Types

  /** The record `calculateProjectMetrics` returns; every field is a money amount. */
  datatype Metrics = Metrics(
    adjustedPrice: real,
    totalMaterials: real,
    totalChangeOrders: real,
    remainingBudget: real,
    totalLaborCost: real,
    totalInvoicesPaid: real,
    totalInvoices: real,
    outstandingBalance: real)

  /** What an absent project yields. */
  const NoMetrics := Metrics(0.0, 0.0, 0.0, 0.0, 0.0, 0.0, 0.0, 0.0)

  // Projections the folds sum, and the invoice status filters.
  function Price(co: ChangeOrder): real { co.price }
  function Cost(m: Material): real { m.cost }
  function Amount(inv: Invoice): real { inv.amount }
  function Hours(h: HoursEntry): real { h.hours }
  predicate IsPaid(inv: Invoice) { inv.status == "Paid" }
  predicate NotCancelled(inv: Invoice) { inv.status != "Cancelled" }

  /** `teamMembers.find(m => m.id === id)`: the first member with that id. */
  function MemberWithId(members: seq<TeamMember>, id: Id): (r: Option<TeamMember>)
    ensures r.Some? ==> r.value in members && r.value.id == id
  {
    Find(members, (m: TeamMember) => m.id == id)
  }

  /** The lookup fails exactly when no member has the id. */
  lemma MemberWithIdNone(members: seq<TeamMember>, id: Id)
    ensures MemberWithId(members, id).None? <==> forall m :: m in members ==> m.id != id
  {
    FindNone(members, (m: TeamMember) => m.id == id);
  }

  /** The lookup finds the member at the first index holding the id. */
  lemma MemberWithIdFirst(members: seq<TeamMember>, id: Id)
    ensures forall i :: 0 <= i < |members| && members[i].id == id && (forall j :: 0 <= j < i ==> members[j].id != id) ==>
              MemberWithId(members, id) == Some(members[i])
  {
    forall i | 0 <= i < |members| && members[i].id == id && (forall j :: 0 <= j < i ==> members[j].id != id)
      ensures MemberWithId(members, id) == Some(members[i])
    {
      FindIsFirst(members, (m: TeamMember) => m.id == id, i);
    }
  }

  /** What the lookup finds sits at an index holding the id, with none before it. */
  lemma MemberWithIdIndex(members: seq<TeamMember>, id: Id)
    ensures MemberWithId(members, id).Some? ==>
              exists i :: 0 <= i < |members| && members[i] == MemberWithId(members, id).value &&
                          members[i].id == id && forall j :: 0 <= j < i ==> members[j].id != id
  {
    FindFirst(members, (m: TeamMember) => m.id == id);
  }

  /** One hours entry's share of the labor cost: its hours times the rate of the first member
      with its `teamMemberId`, or 0 when no member has that id. */
  function EntryLaborCost(members: seq<TeamMember>, h: HoursEntry): real
  {
    match MemberWithId(members, h.teamMemberId)
    case Some(m) => h.hours * m.hourlyRate
    case None => 0.0
  }

  /** The rate the labor cost charges an id's hours at: that of the first member with the
      id, 0 when no member has it. */
  function RateOf(members: seq<TeamMember>, id: Id): real
  {
    match MemberWithId(members, id)
    case Some(m) => m.hourlyRate
    case None => 0.0
  }

  /** Each entry costs its hours at the rate of its member id. */
  lemma EntryCostAtRate(members: seq<TeamMember>, h: HoursEntry)
    ensures EntryLaborCost(members, h) == h.hours * RateOf(members, h.teamMemberId)
  {
  }

  function LaborCost(members: seq<TeamMember>, hours: seq<HoursEntry>): real
  {
    Sum(hours, (h: HoursEntry) => EntryLaborCost(members, h))
  }

  /** The invoices a project has; a project without the list has none (`invoices || []`). */
  function InvoiceList(p: Project): seq<Invoice>
  {
    p.invoices.GetOr([])
  }

  /** `calculateProjectMetrics(project)`. An absent project gives all zeros. Otherwise the
      adjusted price is the agreed price plus the change orders, the remaining budget takes
      materials and labor (and nothing else) off the adjusted price, and the outstanding
      balance takes off what the paid invoices bring in. */
  function ProjectMetrics(project: Option<Project>): (r: Metrics)
    ensures project.None? ==> r == NoMetrics
    ensures project.Some? ==>
      && r.adjustedPrice == project.value.agreedPrice + r.totalChangeOrders
      && r.remainingBudget == r.adjustedPrice - r.totalMaterials - r.totalLaborCost
      && r.outstandingBalance == r.adjustedPrice - r.totalInvoicesPaid
  {
    match project
    case None => NoMetrics
    case Some(p) =>
      var totalChangeOrders := Sum(p.changeOrders, Price);
      var totalMaterials := Sum(p.materials, Cost);
      var totalLaborCost := LaborCost(p.teamMembers, p.hours);
      var totalInvoicesPaid := Sum(Filter(InvoiceList(p), IsPaid), Amount);
      var totalInvoices := Sum(Filter(InvoiceList(p), NotCancelled), Amount);
      var adjustedPrice := p.agreedPrice + totalChangeOrders;
      var remainingBudget := adjustedPrice - totalMaterials - totalLaborCost;
      var outstandingBalance := adjustedPrice - totalInvoicesPaid;
      Metrics(adjustedPrice, totalMaterials, totalChangeOrders, remainingBudget,
              totalLaborCost, totalInvoicesPaid, totalInvoices, outstandingBalance)
  }

  /** `getTotalHours(project, teamMemberId)`: the hours logged for that member, 0 for an absent
      project or when no entry names the member. */
  function TotalHours(project: Option<Project>, teamMemberId: Id): (r: real)
    ensures project.None? ==> r == 0.0
    ensures project.Some? && (forall h :: h in project.value.hours ==> h.teamMemberId != teamMemberId) ==> r == 0.0
  {
    match project
    case None => 0.0
    case Some(p) =>
      var hs := Filter(p.hours, (h: HoursEntry) => h.teamMemberId == teamMemberId);
      FilterMembers(p.hours, (h: HoursEntry) => h.teamMemberId == teamMemberId);
      assert (forall h :: h in p.hours ==> h.teamMemberId != teamMemberId) ==> hs == [] by {
        if hs != [] { assert hs[0] in hs; }
      }
      Sum(hs, Hours)
  }

  /** `getTeamMemberName(project, teamMemberId)`: the name of the first member with that id,
      `"Unknown"` for an absent project or when no member has it. */
  function TeamMemberName(project: Option<Project>, teamMemberId: Id): (r: string)
    ensures project.None? || (forall m :: m in project.value.teamMembers ==> m.id != teamMemberId) ==>
              r == "Unknown"
    ensures project.Some? ==>
              var ms := project.value.teamMembers;
              forall i :: 0 <= i < |ms| && ms[i].id == teamMemberId && (forall j :: 0 <= j < i ==> ms[j].id != teamMemberId) ==>
                r == ms[i].name
  {
    match project
    case None => "Unknown"
    case Some(p) =>
      MemberWithIdNone(p.teamMembers, teamMemberId);
      MemberWithIdFirst(p.teamMembers, teamMemberId);
      match MemberWithId(p.teamMembers, teamMemberId)
      case Some(m) => m.name
      case None => "Unknown"
  }

  // ---------------------------------------------------------------------------
  // Lemmas

  /** Same as the fold in `calculateProjectMetrics`, but without the filter: each hours entry
      counts its member's hours when it names the member, 0 otherwise. */
  lemma TotalHoursAsSum(p: Project, teamMemberId: Id)
    ensures TotalHours(Some(p), teamMemberId) == HoursFor(p.hours, teamMemberId)
  {
    HoursForAsFilter(p.hours, teamMemberId);
  }

  /** The hours of an entry logged at the end count towards exactly the member it names. */
  lemma TotalHoursAppend(p: Project, e: HoursEntry, teamMemberId: Id)
    ensures TotalHours(Some(p.(hours := p.hours + [e])), teamMemberId) ==
            TotalHours(Some(p), teamMemberId) + (if e.teamMemberId == teamMemberId then e.hours else 0.0)
  {
    var sel := (h: HoursEntry) => h.teamMemberId == teamMemberId;
    FilterAppend(p.hours, [e], sel);
    assert Filter([e], sel) == if sel(e) then [e] else [] by {
      assert [e][..0] == [];
    }
    SumAppend(Filter(p.hours, sel), Filter([e], sel), Hours);
    assert Sum([e], Hours) == e.hours;
  }

  /** The hours logged for a member, written as a fold over the hours list. */
  function HoursFor(hours: seq<HoursEntry>, teamMemberId: Id): real
  {
    Sum(hours, (h: HoursEntry) => if h.teamMemberId == teamMemberId then h.hours else 0.0)
  }

  /** The fold counts what the filter of `getTotalHours` keeps. */
  lemma HoursForAsFilter(hours: seq<HoursEntry>, teamMemberId: Id)
    ensures HoursFor(hours, teamMemberId) == Sum(Filter(hours, (h: HoursEntry) => h.teamMemberId == teamMemberId), Hours)
  {
    SumFilter(hours, (h: HoursEntry) => h.teamMemberId == teamMemberId, Hours,
              (h: HoursEntry) => if h.teamMemberId == teamMemberId then h.hours else 0.0);
  }

  /** If a new team list changes each entry's labor cost by `c` per hour for the entries that
      name `teamMemberId` and leaves the others, the labor cost moves by `c` times that
      member's hours. */
  lemma LaborShift(members: seq<TeamMember>, members': seq<TeamMember>, hours: seq<HoursEntry>, teamMemberId: Id, c: real)
    requires forall h :: h in hours ==>
      EntryLaborCost(members', h) ==
      EntryLaborCost(members, h) + (if h.teamMemberId == teamMemberId then h.hours * c else 0.0)
    ensures LaborCost(members', hours) == LaborCost(members, hours) + c * HoursFor(hours, teamMemberId)
  {
    var g := (h: HoursEntry) => if h.teamMemberId == teamMemberId then h.hours * c else 0.0;
    HoursScaled(hours, teamMemberId, c);
    SumPointwise(hours, (h: HoursEntry) => EntryLaborCost(members', h),
                 (h: HoursEntry) => EntryLaborCost(members, h), g);
    assert LaborCost(members', hours) == LaborCost(members, hours) + Sum(hours, g);
  }

  /** A project whose team or hours change, and nothing else the metrics read, differs only
      in the labor cost, by the change in `LaborCost`, and by as much the other way in the
      remaining budget. */
  lemma LaborOnlyChange(p: Project, q: Project, delta: real)
    requires p.agreedPrice == q.agreedPrice && p.changeOrders == q.changeOrders
    requires p.materials == q.materials && InvoiceList(p) == InvoiceList(q)
    requires LaborCost(q.teamMembers, q.hours) == LaborCost(p.teamMembers, p.hours) + delta
    ensures var m, m' := ProjectMetrics(Some(p)), ProjectMetrics(Some(q));
      && m'.totalLaborCost == m.totalLaborCost + delta
      && m'.remainingBudget == m.remainingBudget - delta
      && m'.(totalLaborCost := m.totalLaborCost, remainingBudget := m.remainingBudget) == m
  {
  }

  /** A project whose change orders change, and nothing else the metrics read, differs by
      the change in their total in that total, the adjusted price, the remaining budget and
      the outstanding balance, and in nothing else. */
  lemma ChangeOrdersOnlyChange(p: Project, q: Project, delta: real)
    requires p.agreedPrice == q.agreedPrice && p.teamMembers == q.teamMembers && p.hours == q.hours
    requires p.materials == q.materials && InvoiceList(p) == InvoiceList(q)
    requires Sum(q.changeOrders, Price) == Sum(p.changeOrders, Price) + delta
    ensures var m, m' := ProjectMetrics(Some(p)), ProjectMetrics(Some(q));
      && m'.totalChangeOrders == m.totalChangeOrders + delta
      && m'.adjustedPrice == m.adjustedPrice + delta
      && m'.remainingBudget == m.remainingBudget + delta
      && m'.outstandingBalance == m.outstandingBalance + delta
      && m'.(totalChangeOrders := m.totalChangeOrders, adjustedPrice := m.adjustedPrice,
             remainingBudget := m.remainingBudget, outstandingBalance := m.outstandingBalance) == m
  {
  }

  /** A project whose materials change, and nothing else the metrics read, differs by the
      change in their total in that total and, the other way, in the remaining budget. */
  lemma MaterialsOnlyChange(p: Project, q: Project, delta: real)
    requires p.agreedPrice == q.agreedPrice && p.teamMembers == q.teamMembers && p.hours == q.hours
    requires p.changeOrders == q.changeOrders && InvoiceList(p) == InvoiceList(q)
    requires Sum(q.materials, Cost) == Sum(p.materials, Cost) + delta
    ensures var m, m' := ProjectMetrics(Some(p)), ProjectMetrics(Some(q));
      && m'.totalMaterials == m.totalMaterials + delta
      && m'.remainingBudget == m.remainingBudget - delta
      && m'.(totalMaterials := m.totalMaterials, remainingBudget := m.remainingBudget) == m
  {
  }

  /** A project whose invoices change, and nothing else the metrics read, moves the two
      invoice totals by the changes of the two sums; the outstanding balance follows what
      the paid invoices bring in, and nothing else moves. */
  lemma InvoicesOnlyChange(p: Project, q: Project, paid: real, billed: real)
    requires p.agreedPrice == q.agreedPrice && p.teamMembers == q.teamMembers && p.hours == q.hours
    requires p.changeOrders == q.changeOrders && p.materials == q.materials
    requires Sum(InvoiceList(q), PaidAmount) == Sum(InvoiceList(p), PaidAmount) + paid
    requires Sum(InvoiceList(q), BilledAmount) == Sum(InvoiceList(p), BilledAmount) + billed
    ensures var m, m' := ProjectMetrics(Some(p)), ProjectMetrics(Some(q));
      && m'.totalInvoicesPaid == m.totalInvoicesPaid + paid
      && m'.totalInvoices == m.totalInvoices + billed
      && m'.outstandingBalance == m.outstandingBalance - paid
      && m'.(totalInvoicesPaid := m.totalInvoicesPaid, totalInvoices := m.totalInvoices,
             outstandingBalance := m.outstandingBalance) == m
  {
    InvoiceTotalsAsSums(p);
    InvoiceTotalsAsSums(q);
  }

  /** A member's hours charged at `c` per hour cost `c` times those hours. */
  lemma {:induction false} HoursScaled(hours: seq<HoursEntry>, teamMemberId: Id, c: real)
    ensures Sum(hours, (h: HoursEntry) => if h.teamMemberId == teamMemberId then h.hours * c else 0.0) ==
            c * HoursFor(hours, teamMemberId)
  {
    if hours != [] {
      HoursScaled(hours[..|hours| - 1], teamMemberId, c);
    }
  }

  /** What an invoice brings in: its amount when it is `'Paid'`, 0 otherwise. */
  function PaidAmount(inv: Invoice): real
  {
    if IsPaid(inv) then inv.amount else 0.0
  }

  /** What an invoice bills: its amount unless it is `'Cancelled'`, 0 otherwise. */
  function BilledAmount(inv: Invoice): real
  {
    if NotCancelled(inv) then inv.amount else 0.0
  }

  /** Invoice totals written without the filters: every invoice counts what it brings in
      (resp. bills). */
  lemma InvoiceTotalsAsSums(p: Project)
    ensures ProjectMetrics(Some(p)).totalInvoicesPaid == Sum(InvoiceList(p), PaidAmount)
    ensures ProjectMetrics(Some(p)).totalInvoices == Sum(InvoiceList(p), BilledAmount)
  {
    SumFilter(InvoiceList(p), IsPaid, Amount, PaidAmount);
    SumFilter(InvoiceList(p), NotCancelled, Amount, BilledAmount);
  }

  /** The labor fold written out: every entry's hours are charged at the rate of its member
      id. */
  lemma MetricsAsSums(p: Project)
    ensures ProjectMetrics(Some(p)).totalLaborCost ==
            Sum(p.hours, (h: HoursEntry) => h.hours * RateOf(p.teamMembers, h.teamMemberId))
  {
    var cost := (h: HoursEntry) => EntryLaborCost(p.teamMembers, h);
    var atRate := (h: HoursEntry) => h.hours * RateOf(p.teamMembers, h.teamMemberId);
    forall h | h in p.hours ensures cost(h) == atRate(h) {
      EntryCostAtRate(p.teamMembers, h);
    }
    SumCongruent(p.hours, cost, atRate);
  }

  /** With non-negative amounts, what paid invoices bring in never exceeds the invoiced total:
      a `'Paid'` invoice is never `'Cancelled'`. */
  lemma PaidWithinInvoiced(p: Project)
    requires forall inv :: inv in InvoiceList(p) ==> inv.amount >= 0.0
    ensures ProjectMetrics(Some(p)).totalInvoicesPaid <= ProjectMetrics(Some(p)).totalInvoices
  {
    SumFilterMonotone(InvoiceList(p), IsPaid, NotCancelled, Amount);
  }

  /** With no invoice list both invoice totals are 0 and the outstanding balance is the
      adjusted price. */
  lemma AbsentInvoicesAreZero(p: Project)
    requires p.invoices.None?
    ensures ProjectMetrics(Some(p)).totalInvoicesPaid == 0.0 && ProjectMetrics(Some(p)).totalInvoices == 0.0
    ensures ProjectMetrics(Some(p)).outstandingBalance == ProjectMetrics(Some(p)).adjustedPrice
  {
  }

  /** An hours entry whose member is gone contributes nothing to the labor cost. */
  lemma OrphanEntryCostsNothing(members: seq<TeamMember>, h: HoursEntry)
    requires forall m :: m in members ==> m.id != h.teamMemberId
    ensures EntryLaborCost(members, h) == 0.0
  {
    MemberWithIdNone(members, h.teamMemberId);
  }

  /** The metrics read only the agreed price, the team, the hours, the change orders, the
      materials and the invoices: travel expenses, payments, fuel prices, names, descriptions
      and status play no part. */
  lemma MetricsReadOnly(p: Project, q: Project)
    requires p.agreedPrice == q.agreedPrice && p.teamMembers == q.teamMembers && p.hours == q.hours
    requires p.changeOrders == q.changeOrders && p.materials == q.materials && InvoiceList(p) == InvoiceList(q)
    ensures ProjectMetrics(Some(p)) == ProjectMetrics(Some(q))
  {
  }

  // Worked examples.

  /** One member at 50 an hour logging 10 hours costs 500. */
  lemma LaborExample(p: Project)
    requires p.teamMembers == [TeamMember(1, "A", "", 50.0)]
    requires p.hours == [HoursEntry(7, 1, "", 10.0)]
    ensures ProjectMetrics(Some(p)).totalLaborCost == 500.0
  {
    var hs := p.hours;
    var cost := (h: HoursEntry) => EntryLaborCost(p.teamMembers, h);
    assert MemberWithId(p.teamMembers, 1) == Some(p.teamMembers[0]);
    assert hs[..0] == [];
    assert Sum(hs, cost) == Sum(hs[..0], cost) + 10.0 * 50.0;
  }

  /** Materials of 100 and 250.50 total 350.50. */
  lemma MaterialsExample(p: Project)
    requires p.materials == [Material(2, "M", 100.0, One, ""), Material(3, "N", 250.50, One, "")]
    ensures ProjectMetrics(Some(p)).totalMaterials == 350.50
  {
    var ms := p.materials;
    assert ms[..1][..0] == [];
    assert Sum(ms[..1], Cost) == 100.0;
    assert Sum(ms, Cost) == Sum(ms[..1], Cost) + 250.50;
  }

  /** Invoices of 1000 paid, 500 pending and 200 cancelled: 1500 invoiced, 1000 paid. */
  lemma InvoicesExample(p: Project)
    requires p.invoices == Some([Invoice(4, 1000.0, "", "", "Paid"), Invoice(5, 500.0, "", "", "Pending"),
                                 Invoice(6, 200.0, "", "", "Cancelled")])
    ensures ProjectMetrics(Some(p)).totalInvoices == 1500.0
    ensures ProjectMetrics(Some(p)).totalInvoicesPaid == 1000.0
  {
    var invs := InvoiceList(p);
    assert invs[..2][..1] == invs[..1];
    assert invs[..1][..0] == [];
    var paid := Filter(invs, IsPaid);
    assert Filter(invs[..1], IsPaid) == [invs[0]];
    assert Filter(invs[..2], IsPaid) == [invs[0]];
    assert paid == [invs[0]];
    assert paid[..0] == [];
    assert Sum(paid, Amount) == 1000.0;
    var billed := Filter(invs, NotCancelled);
    assert Filter(invs[..1], NotCancelled) == [invs[0]];
    assert Filter(invs[..2], NotCancelled) == [invs[0], invs[1]];
    assert billed == [invs[0], invs[1]];
    assert billed[..1] == [invs[0]] && billed[..1][..0] == [];
    assert Sum(billed, Amount) == Sum(billed[..1], Amount) + 500.0;
  }

  /** No change orders leave the agreed price; a change order of -300 lowers it by 300. */
  lemma ChangeOrderExample(p: Project)
    requires p.changeOrders == []
    ensures ProjectMetrics(Some(p)).adjustedPrice == p.agreedPrice
    ensures ProjectMetrics(Some(p.(changeOrders := [ChangeOrder(8, "credit", -300.0)]))).adjustedPrice ==
            p.agreedPrice - 300.0
  {
    var cos := [ChangeOrder(8, "credit", -300.0)];
    assert cos[..0] == [];
    assert Sum(cos, Price) == -300.0;
  }
}
