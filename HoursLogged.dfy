/** The hours-entry handlers of js/components/HoursLogged.js. Each builds the project the
    component hands to `onUpdate`; only the `hours` list ever changes. */
module HoursLogged {
  import opened Wrappers
  import opened Seqs
  import opened Types
  import opened Utils

  /** `getMemberName(memberId)`: the component's own copy of `getTeamMemberName`, the same
      lookup with the same `'Unknown'` fallback. Any other name it gives is that of a team
      member with the id. */
  function MemberName(project: Option<Project>, memberId: Id): (r: string)
    ensures project.None? ==> r == "Unknown"
    ensures r != "Unknown" ==>
              project.Some? && exists m :: m in project.value.teamMembers && m.id == memberId && m.name == r
  {
    TeamMemberName(project, memberId)
  }

  /** The entry the form describes: the member id (`Number` of the selected option), the
      date and the hours (`parseFloat` of the typed text). */
  function NewEntry(id: Id, teamMemberId: Input<Id>, date: string, hours: Input<real>): HoursEntry
  {
    HoursEntry(id, teamMemberId.value, date, hours.value)
  }

  /** `handleAdd`: rejected when no member is selected or the hours field is empty; otherwise
      the new entry goes at the end of the list and nothing else changes. */
  function Add(p: Project, id: Id, teamMemberId: Input<Id>, date: string, hours: Input<real>): (r: Project)
    ensures teamMemberId.Blank() || hours.Blank() ==> r == p
    ensures !teamMemberId.Blank() && !hours.Blank() ==>
      && r == p.(hours := r.hours)
      && |r.hours| == |p.hours| + 1
      && r.hours[..|p.hours|] == p.hours
      && r.hours[|p.hours|] == HoursEntry(id, teamMemberId.value, date, hours.value)
  {
    if teamMemberId.Blank() || hours.Blank() then p
    else p.(hours := p.hours + [NewEntry(id, teamMemberId, date, hours)])
  }

  /** The entry an edit produces: the same id, the form's member, date and hours. */
  function Edited(h: HoursEntry, teamMemberId: Id, date: string, hours: real): HoursEntry
  {
    h.(teamMemberId := teamMemberId, date := date, hours := hours)
  }

  /** `hours.map(h => h.id === editingId ? { ...h, ...edit } : h)`. */
  function EditedHours(hs: seq<HoursEntry>, editingId: Id, teamMemberId: Id, date: string, hours: real): seq<HoursEntry>
  {
    Replace(hs, (h: HoursEntry) => h.id == editingId, (h: HoursEntry) => Edited(h, teamMemberId, date, hours))
  }

  /** `handleUpdate`: rejected like `Add`; otherwise every entry with the edited id gets the
      form's member, date and hours, and the list keeps its length, order and ids. */
  function Update(p: Project, editingId: Id, teamMemberId: Input<Id>, date: string, hours: Input<real>): (r: Project)
    ensures teamMemberId.Blank() || hours.Blank() ==> r == p
    ensures !teamMemberId.Blank() && !hours.Blank() ==>
      && r == p.(hours := r.hours)
      && |r.hours| == |p.hours|
      && forall i :: 0 <= i < |p.hours| ==>
           var h, h' := p.hours[i], r.hours[i];
           && h'.id == h.id
           && (h.id == editingId ==>
                 h'.teamMemberId == teamMemberId.value && h'.date == date && h'.hours == hours.value)
           && (h.id != editingId ==> h' == h)
  {
    if teamMemberId.Blank() || hours.Blank() then p
    else p.(hours := EditedHours(p.hours, editingId, teamMemberId.value, date, hours.value))
  }

  /** `handleDelete`: nothing happens unless the user confirms; then every entry with the id
      goes and nothing else changes. `DeleteKeepsRest` says that the rest stays, in order. */
  function Delete(p: Project, hoursId: Id, confirmed: bool): (r: Project)
    ensures !confirmed ==> r == p
    ensures r == p.(hours := r.hours)
    ensures confirmed ==> forall h :: h in r.hours ==> h.id != hoursId
  {
    if !confirmed then p
    else
      FilterMembers(p.hours, (h: HoursEntry) => h.id != hoursId);
      p.(hours := Filter(p.hours, (h: HoursEntry) => h.id != hoursId))
  }

  /** A confirmed delete keeps exactly the entries with other ids, each as often as before
      and in the same order. */
  lemma DeleteKeepsRest(p: Project, hoursId: Id)
    ensures KeepsExactly(Delete(p, hoursId, true).hours, p.hours, (h: HoursEntry) => h.id != hoursId)
  {
    FilterKeepsExactly(p.hours, (h: HoursEntry) => h.id != hoursId);
  }

  // ---------------------------------------------------------------------------
  // Lemmas tying the handlers to the budget metrics

  /** Logging hours charges them at the rate of the first member with the entry's member id
      (nothing when no member has it): the labor cost rises and the remaining budget falls
      by that much, and no other metric moves. */
  lemma AddEffectOnMetrics(p: Project, id: Id, teamMemberId: Input<Id>, date: string, hours: Input<real>)
    requires !teamMemberId.Blank() && !hours.Blank()
    ensures var m, m' := ProjectMetrics(Some(p)), ProjectMetrics(Some(Add(p, id, teamMemberId, date, hours)));
            var extra := hours.value * RateOf(p.teamMembers, teamMemberId.value);
            && m'.totalLaborCost == m.totalLaborCost + extra
            && m'.remainingBudget == m.remainingBudget - extra
            && m'.(totalLaborCost := m.totalLaborCost, remainingBudget := m.remainingBudget) == m
  {
    var e := NewEntry(id, teamMemberId, date, hours);
    AppendedEntryLabor(p.teamMembers, p.hours, e);
    LaborOnlyChange(p, Add(p, id, teamMemberId, date, hours), hours.value * RateOf(p.teamMembers, teamMemberId.value));
  }

  /** An entry logged at the end adds its own cost to the labor cost. */
  lemma AppendedEntryLabor(ms: seq<TeamMember>, hs: seq<HoursEntry>, e: HoursEntry)
    ensures LaborCost(ms, hs + [e]) == LaborCost(ms, hs) + e.hours * RateOf(ms, e.teamMemberId)
  {
    var cost := (h: HoursEntry) => EntryLaborCost(ms, h);
    var hs' := hs + [e];
    assert hs'[..|hs'| - 1] == hs;
    assert Sum(hs', cost) == Sum(hs, cost) + cost(e);
    EntryCostAtRate(ms, e);
  }

  /** Logging hours adds them to the total of the member they name and of no other. */
  lemma AddEffectOnTotalHours(p: Project, id: Id, teamMemberId: Input<Id>, date: string, hours: Input<real>, memberId: Id)
    requires !teamMemberId.Blank() && !hours.Blank()
    ensures TotalHours(Some(Add(p, id, teamMemberId, date, hours)), memberId) ==
            TotalHours(Some(p), memberId) + (if teamMemberId.value == memberId then hours.value else 0.0)
  {
    TotalHoursAppend(p, NewEntry(id, teamMemberId, date, hours), memberId);
  }

  /** What an edit does to one entry's cost: the edited entry's cost less the old one's. */
  function CostChange(ms: seq<TeamMember>, h: HoursEntry, teamMemberId: Id, date: string, hours: real): real
  {
    EntryLaborCost(ms, Edited(h, teamMemberId, date, hours)) - EntryLaborCost(ms, h)
  }

  /** An edit moves the labor cost by the change of cost of each edited entry. */
  lemma UpdatedLabor(ms: seq<TeamMember>, hs: seq<HoursEntry>, editingId: Id, teamMemberId: Id, date: string, hours: real)
    ensures LaborCost(ms, EditedHours(hs, editingId, teamMemberId, date, hours)) ==
            LaborCost(ms, hs) +
            Sum(Filter(hs, (h: HoursEntry) => h.id == editingId), (h: HoursEntry) => CostChange(ms, h, teamMemberId, date, hours))
  {
    SumReplace(hs, (h: HoursEntry) => h.id == editingId, (h: HoursEntry) => Edited(h, teamMemberId, date, hours),
               (h: HoursEntry) => EntryLaborCost(ms, h), (h: HoursEntry) => CostChange(ms, h, teamMemberId, date, hours));
  }

  /** Editing an entry re-prices the edited entries and no others: the labor cost moves by
      the sum of their changes of cost, the remaining budget the other way, and no other
      metric moves. */
  lemma UpdateEffectOnMetrics(p: Project, editingId: Id, teamMemberId: Input<Id>, date: string, hours: Input<real>)
    requires !teamMemberId.Blank() && !hours.Blank()
    ensures var m, m' := ProjectMetrics(Some(p)), ProjectMetrics(Some(Update(p, editingId, teamMemberId, date, hours)));
            var delta := Sum(Filter(p.hours, (h: HoursEntry) => h.id == editingId),
                             (h: HoursEntry) => CostChange(p.teamMembers, h, teamMemberId.value, date, hours.value));
            && m'.totalLaborCost == m.totalLaborCost + delta
            && m'.remainingBudget == m.remainingBudget - delta
            && m'.(totalLaborCost := m.totalLaborCost, remainingBudget := m.remainingBudget) == m
  {
    UpdatedLabor(p.teamMembers, p.hours, editingId, teamMemberId.value, date, hours.value);
    LaborOnlyChange(p, Update(p, editingId, teamMemberId, date, hours),
                    Sum(Filter(p.hours, (h: HoursEntry) => h.id == editingId),
                        (h: HoursEntry) => CostChange(p.teamMembers, h, teamMemberId.value, date, hours.value)));
  }

  /** Resubmitting an entry unchanged leaves the project as it was. */
  lemma UpdateUnchanged(p: Project, h: HoursEntry, teamMemberId: Input<Id>, hours: Input<real>)
    requires forall x :: x in p.hours && x.id == h.id ==> x == h
    requires !teamMemberId.Blank() && !hours.Blank()
    requires teamMemberId.value == h.teamMemberId && hours.value == h.hours
    ensures Update(p, h.id, teamMemberId, h.date, hours) == p
  {
    var q := Update(p, h.id, teamMemberId, h.date, hours);
    forall i | 0 <= i < |p.hours| ensures q.hours[i] == p.hours[i] {
      assert p.hours[i] in p.hours;
    }
  }

  /** A confirmed delete takes the cost of the removed entries off the labor cost and adds it
      back to the remaining budget; no other metric moves. */
  lemma DeleteEffectOnMetrics(p: Project, hoursId: Id)
    ensures var m, m' := ProjectMetrics(Some(p)), ProjectMetrics(Some(Delete(p, hoursId, true)));
            var removed := LaborCost(p.teamMembers, Filter(p.hours, (h: HoursEntry) => h.id == hoursId));
            && m'.totalLaborCost == m.totalLaborCost - removed
            && m'.remainingBudget == m.remainingBudget + removed
            && m'.(totalLaborCost := m.totalLaborCost, remainingBudget := m.remainingBudget) == m
  {
    var removed := LaborCost(p.teamMembers, Filter(p.hours, (h: HoursEntry) => h.id == hoursId));
    SumSplit(p.hours, (h: HoursEntry) => h.id != hoursId, (h: HoursEntry) => h.id == hoursId,
             (h: HoursEntry) => EntryLaborCost(p.teamMembers, h));
    LaborOnlyChange(p, Delete(p, hoursId, true), -removed);
  }

  /** Deleting an id no entry has, or declining the confirmation, changes nothing. */
  lemma DeleteAbsent(p: Project, hoursId: Id, confirmed: bool)
    requires !confirmed || forall h :: h in p.hours ==> h.id != hoursId
    ensures Delete(p, hoursId, confirmed) == p
  {
    if confirmed {
      FilterAll(p.hours, (h: HoursEntry) => h.id != hoursId);
    }
  }
}
