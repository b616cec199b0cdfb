/** The team-member handlers of js/components/TeamMembers.js. Each builds the project the
    component hands to `onUpdate`; the form and editing state of the component are not
    modelled, only the values its handlers read. */
module TeamMembers {
  import opened Wrappers
  import opened Seqs
  import opened Types
  import opened Utils

  predicate UniqueIds(members: seq<TeamMember>)
  {
    forall i, j :: 0 <= i < j < |members| ==> members[i].id != members[j].id
  }

  /** `handleAdd`: rejected when the name or the rate field is empty; otherwise the new member
      goes at the end of the team and nothing else changes. */
  function Add(p: Project, id: Id, name: string, role: string, hourlyRate: Input<real>): (r: Project)
    ensures name == "" || hourlyRate.Blank() ==> r == p
    ensures name != "" && !hourlyRate.Blank() ==>
      && r == p.(teamMembers := r.teamMembers)
      && |r.teamMembers| == |p.teamMembers| + 1
      && r.teamMembers[..|p.teamMembers|] == p.teamMembers
      && r.teamMembers[|p.teamMembers|] == TeamMember(id, name, role, hourlyRate.value)
  {
    if name == "" || hourlyRate.Blank() then p
    else p.(teamMembers := p.teamMembers + [TeamMember(id, name, role, hourlyRate.value)])
  }

  /** The member record an edit produces: the same id, the form's name, role and rate. */
  function Edited(m: TeamMember, name: string, role: string, hourlyRate: real): TeamMember
  {
    m.(name := name, role := role, hourlyRate := hourlyRate)
  }

  /** `handleUpdate`: rejected like `Add`; otherwise every member with the edited id gets the
      new name, role and rate, and the team keeps its length, order and ids. */
  function Update(p: Project, editingId: Id, name: string, role: string, hourlyRate: Input<real>): (r: Project)
    ensures name == "" || hourlyRate.Blank() ==> r == p
    ensures name != "" && !hourlyRate.Blank() ==>
      && r == p.(teamMembers := r.teamMembers)
      && |r.teamMembers| == |p.teamMembers|
      && forall i :: 0 <= i < |p.teamMembers| ==>
           var m, m' := p.teamMembers[i], r.teamMembers[i];
           && m'.id == m.id
           && (m.id == editingId ==> m'.name == name && m'.role == role && m'.hourlyRate == hourlyRate.value)
           && (m.id != editingId ==> m' == m)
  {
    if name == "" || hourlyRate.Blank() then p
    else p.(teamMembers := EditedTeam(p.teamMembers, editingId, name, role, hourlyRate.value))
  }

  /** `teamMembers.map(m => m.id === editingId ? { ...m, ...edit } : m)`. */
  function EditedTeam(ms: seq<TeamMember>, editingId: Id, name: string, role: string, rate: real): seq<TeamMember>
  {
    Replace(ms, (m: TeamMember) => m.id == editingId, (m: TeamMember) => Edited(m, name, role, rate))
  }

  /** `handleDelete`: removes every member with the id and, in cascade, every hours entry
      that names it; no other part of the project changes (travel expenses naming the
      member stay). `DeleteKeepsRest` says that the rest of both lists stays, in order. */
  function Delete(p: Project, memberId: Id): (r: Project)
    ensures r == p.(teamMembers := r.teamMembers, hours := r.hours)
    ensures forall m :: m in r.teamMembers ==> m.id != memberId
    ensures forall h :: h in r.hours ==> h.teamMemberId != memberId
  {
    var members := Filter(p.teamMembers, (m: TeamMember) => m.id != memberId);
    var hours := Filter(p.hours, (h: HoursEntry) => h.teamMemberId != memberId);
    FilterMembers(p.teamMembers, (m: TeamMember) => m.id != memberId);
    FilterMembers(p.hours, (h: HoursEntry) => h.teamMemberId != memberId);
    p.(teamMembers := members, hours := hours)
  }

  /** What the cascade keeps: exactly the members with other ids and the entries naming
      other ids, each as often as before and in the same order. */
  lemma DeleteKeepsRest(p: Project, memberId: Id)
    ensures KeepsExactly(Delete(p, memberId).teamMembers, p.teamMembers, (m: TeamMember) => m.id != memberId)
    ensures KeepsExactly(Delete(p, memberId).hours, p.hours, (h: HoursEntry) => h.teamMemberId != memberId)
  {
    FilterKeepsExactly(p.teamMembers, (m: TeamMember) => m.id != memberId);
    FilterKeepsExactly(p.hours, (h: HoursEntry) => h.teamMemberId != memberId);
  }

  /** `getHours(memberId)`, the component's fallback for `getTotalHours`: the same total. */
  function GetHours(p: Project, memberId: Id): (r: real)
    ensures r == TotalHours(Some(p), memberId)
    ensures r == HoursFor(p.hours, memberId)
  {
    TotalHoursAsSum(p, memberId);
    Sum(Filter(p.hours, (h: HoursEntry) => h.teamMemberId == memberId), Hours)
  }

  /** `getLaborCost(memberId, hourlyRate)`: the member's hours times the rate given, whichever
      of `getTotalHours` and the fallback `getHours` supplies the hours. */
  function LaborCostFor(p: Project, memberId: Id, hourlyRate: real): (r: real)
    ensures r == TotalHours(Some(p), memberId) * hourlyRate
    ensures r == GetHours(p, memberId) * hourlyRate
  {
    TotalHours(Some(p), memberId) * hourlyRate
  }

  /** The per-member labor costs the component lists, summed. */
  function MemberLaborCosts(p: Project): real
  {
    Sum(p.teamMembers, (m: TeamMember) => LaborCostFor(p, m.id, m.hourlyRate))
  }

  // ---------------------------------------------------------------------------
  // Lemmas tying the handlers to the budget metrics

  /** With unique member ids, the labor costs listed per member add up to the project's
      `totalLaborCost`. Hours entries whose member is gone count on neither side. */
  lemma MemberCostsAddUp(p: Project)
    requires UniqueIds(p.teamMembers)
    ensures MemberLaborCosts(p) == ProjectMetrics(Some(p)).totalLaborCost
  {
    var ms := p.teamMembers;
    forall m | m in ms
      ensures LaborCostFor(p, m.id, m.hourlyRate) == HoursFor(p.hours, m.id) * m.hourlyRate
    {
      TotalHoursAsSum(p, m.id);
    }
    SumCongruent(ms, (m: TeamMember) => LaborCostFor(p, m.id, m.hourlyRate),
                 (m: TeamMember) => HoursFor(p.hours, m.id) * m.hourlyRate);
    MemberHoursAddUp(ms, p.hours);
  }

  lemma {:induction false} MemberHoursAddUp(ms: seq<TeamMember>, hs: seq<HoursEntry>)
    requires UniqueIds(ms)
    ensures Sum(ms, (m: TeamMember) => HoursFor(hs, m.id) * m.hourlyRate) == LaborCost(ms, hs)
  {
    if ms == [] {
      SumZero(hs, (h: HoursEntry) => EntryLaborCost(ms, h));
    } else {
      var ms', m := ms[..|ms| - 1], ms[|ms| - 1];
      assert ms == ms' + [m];
      LastIsNew(ms);
      MemberHoursAddUp(ms', hs);
      AppendedLabor(ms', m, hs);
      var cost := (m: TeamMember) => HoursFor(hs, m.id) * m.hourlyRate;
      assert Sum(ms, cost) == Sum(ms', cost) + cost(m);
      assert HoursFor(hs, m.id) * m.hourlyRate == m.hourlyRate * HoursFor(hs, m.id);
    }
  }

  /** In a team with unique ids, the members before the last have unique ids and none of
      them has the last one's id. */
  lemma LastIsNew(ms: seq<TeamMember>)
    requires UniqueIds(ms) && ms != []
    ensures UniqueIds(ms[..|ms| - 1])
    ensures MemberWithId(ms[..|ms| - 1], ms[|ms| - 1].id).None?
  {
    var ms', m := ms[..|ms| - 1], ms[|ms| - 1];
    forall i, j | 0 <= i < j < |ms'| ensures ms'[i].id != ms'[j].id {
      assert ms'[i] == ms[i] && ms'[j] == ms[j];
    }
    forall x | x in ms' ensures x.id != m.id {
      var i :| 0 <= i < |ms'| && ms'[i] == x;
      assert ms[i] == ms'[i];
    }
    MemberWithIdNone(ms', m.id);
  }

  /** A member appended under an id no earlier member has charges its id's hours at its
      rate, on top of what the team cost before. */
  lemma AppendedLabor(ms: seq<TeamMember>, n: TeamMember, hs: seq<HoursEntry>)
    requires MemberWithId(ms, n.id).None?
    ensures LaborCost(ms + [n], hs) == LaborCost(ms, hs) + n.hourlyRate * HoursFor(hs, n.id)
  {
    forall h | h in hs
      ensures EntryLaborCost(ms + [n], h) ==
              EntryLaborCost(ms, h) + (if h.teamMemberId == n.id then h.hours * n.hourlyRate else 0.0)
    {
      EntryCostAppend(ms, n, h);
    }
    LaborShift(ms, ms + [n], hs, n.id, n.hourlyRate);
  }

  /** A member appended to a team prices only the entries that name it, and only when no
      earlier member has its id. */
  lemma EntryCostAppend(ms: seq<TeamMember>, n: TeamMember, h: HoursEntry)
    ensures var c := if MemberWithId(ms, n.id).None? then n.hourlyRate else 0.0;
            EntryLaborCost(ms + [n], h) ==
            EntryLaborCost(ms, h) + (if h.teamMemberId == n.id then h.hours * c else 0.0)
  {
    FindAppend(ms, n, (x: TeamMember) => x.id == h.teamMemberId);
  }

  /** Without unique ids the per-member list counts an entry once per member sharing the id. */
  lemma DuplicateIdsCountTwice()
    ensures var p := Project(None, "", 0.0, "", "",
                             [TeamMember(1, "A", "", 10.0), TeamMember(1, "B", "", 10.0)],
                             [HoursEntry(9, 1, "", 2.0)], [], [], None, None, None, None);
            MemberLaborCosts(p) == 40.0 && ProjectMetrics(Some(p)).totalLaborCost == 20.0
  {
    var a, b := TeamMember(1, "A", "", 10.0), TeamMember(1, "B", "", 10.0);
    var e := HoursEntry(9, 1, "", 2.0);
    var p := Project(None, "", 0.0, "", "", [a, b], [e], [], [], None, None, None, None);
    assert [e][..0] == [];
    assert Sum([e], Hours) == 2.0;
    assert TotalHours(Some(p), 1) == 2.0 by {
      assert Filter([e], (h: HoursEntry) => h.teamMemberId == 1) == [e];
    }
    var f := (m: TeamMember) => LaborCostFor(p, m.id, m.hourlyRate);
    assert f(a) == 20.0 && f(b) == 20.0;
    assert [a, b][..1] == [a] && [a][..0] == [];
    assert Sum([a], f) == 20.0;
    assert MemberWithId(p.teamMembers, 1) == Some(a);
    assert EntryLaborCost(p.teamMembers, e) == 20.0;
  }

  /** Adding a member changes only the labor cost and the remaining budget, and those only for
      hours already logged under the new id with no member to charge them to: the lookup
      takes the first match, and the new member is last. */
  lemma AddEffectOnMetrics(p: Project, id: Id, name: string, role: string, hourlyRate: Input<real>)
    requires name != "" && !hourlyRate.Blank()
    ensures var m, m' := ProjectMetrics(Some(p)), ProjectMetrics(Some(Add(p, id, name, role, hourlyRate)));
            var extra := if MemberWithId(p.teamMembers, id).None? then TotalHours(Some(p), id) * hourlyRate.value else 0.0;
            && m'.totalLaborCost == m.totalLaborCost + extra
            && m'.remainingBudget == m.remainingBudget - extra
            && m'.(totalLaborCost := m.totalLaborCost, remainingBudget := m.remainingBudget) == m
  {
    var ms := p.teamMembers;
    var n := TeamMember(id, name, role, hourlyRate.value);
    var c := if MemberWithId(ms, id).None? then hourlyRate.value else 0.0;
    forall h | h in p.hours
      ensures EntryLaborCost(ms + [n], h) ==
              EntryLaborCost(ms, h) + (if h.teamMemberId == id then h.hours * c else 0.0)
    {
      EntryCostAppend(ms, n, h);
    }
    LaborShift(ms, ms + [n], p.hours, id, c);
    TotalHoursAsSum(p, id);
    var extra := if MemberWithId(ms, id).None? then TotalHours(Some(p), id) * hourlyRate.value else 0.0;
    assert c * TotalHours(Some(p), id) == TotalHours(Some(p), id) * c;
    assert LaborCost(ms + [n], p.hours) == LaborCost(ms, p.hours) + extra;
    LaborOnlyChange(p, Add(p, id, name, role, hourlyRate), extra);
  }

  /** Adding a member under an id no hours entry names leaves every metric as it was. */
  lemma AddFreshKeepsMetrics(p: Project, id: Id, name: string, role: string, hourlyRate: Input<real>)
    requires forall h :: h in p.hours ==> h.teamMemberId != id
    ensures ProjectMetrics(Some(Add(p, id, name, role, hourlyRate))) == ProjectMetrics(Some(p))
  {
    if name != "" && !hourlyRate.Blank() {
      AddEffectOnMetrics(p, id, name, role, hourlyRate);
    }
  }

  /** After an edit the lookup by id finds the edited version of what it found before. */
  lemma MemberWithIdAfterUpdate(ms: seq<TeamMember>, editingId: Id, name: string, role: string, rate: real, id: Id)
    ensures MemberWithId(EditedTeam(ms, editingId, name, role, rate), id) ==
              match MemberWithId(ms, id)
              case Some(m) => Some(if m.id == editingId then Edited(m, name, role, rate) else m)
              case None => None
  {
    var ms' := EditedTeam(ms, editingId, name, role, rate);
    var sel := (m: TeamMember) => m.id == id;
    MemberWithIdNone(ms, id);
    MemberWithIdNone(ms', id);
    match MemberWithId(ms, id)
    case None =>
      forall x | x in ms' ensures x.id != id {
        var i :| 0 <= i < |ms'| && ms'[i] == x;
        assert x.id == ms[i].id;
      }
    case Some(m) =>
      MemberWithIdIndex(ms, id);
      var i :| 0 <= i < |ms| && ms[i] == m && m.id == id && forall j :: 0 <= j < i ==> ms[j].id != id;
      FindIsFirst(ms', sel, i);
  }

  /** How much an edit raises the rate charged for the edited id: the new rate less that of
      the member the lookup found, nothing when it found none. */
  function RateChange(ms: seq<TeamMember>, editingId: Id, rate: real): real
  {
    match MemberWithId(ms, editingId)
    case Some(was) => rate - was.hourlyRate
    case None => 0.0
  }

  /** An edit re-prices the entries of the edited id by the change of rate, and no others. */
  lemma EntryCostAfterUpdate(ms: seq<TeamMember>, editingId: Id, name: string, role: string, rate: real, h: HoursEntry)
    ensures EntryLaborCost(EditedTeam(ms, editingId, name, role, rate), h) ==
            EntryLaborCost(ms, h) +
            (if h.teamMemberId == editingId then h.hours * RateChange(ms, editingId, rate) else 0.0)
  {
    MemberWithIdAfterUpdate(ms, editingId, name, role, rate, h.teamMemberId);
    match MemberWithId(ms, h.teamMemberId)
    case None =>
    case Some(m) =>
      if m.id == editingId {
        assert h.hours * rate == h.hours * m.hourlyRate + h.hours * (rate - m.hourlyRate);
      }
  }

  /** An edit moves the labor cost by the edited id's hours times the change of rate. */
  lemma UpdatedLabor(ms: seq<TeamMember>, hs: seq<HoursEntry>, editingId: Id, name: string, role: string, rate: real)
    ensures LaborCost(EditedTeam(ms, editingId, name, role, rate), hs) ==
            LaborCost(ms, hs) + RateChange(ms, editingId, rate) * HoursFor(hs, editingId)
  {
    var ms' := EditedTeam(ms, editingId, name, role, rate);
    var c := RateChange(ms, editingId, rate);
    forall h | h in hs
      ensures EntryLaborCost(ms', h) ==
              EntryLaborCost(ms, h) + (if h.teamMemberId == editingId then h.hours * c else 0.0)
    {
      EntryCostAfterUpdate(ms, editingId, name, role, rate, h);
    }
    LaborShift(ms, ms', hs, editingId, c);
  }

  /** Editing a member's rate re-prices exactly the hours of the member the lookup finds
      first: the labor cost moves by those hours times the change of rate. */
  lemma UpdateEffectOnMetrics(p: Project, editingId: Id, name: string, role: string, hourlyRate: Input<real>)
    requires name != "" && !hourlyRate.Blank()
    ensures var m, m' := ProjectMetrics(Some(p)), ProjectMetrics(Some(Update(p, editingId, name, role, hourlyRate)));
            var delta := TotalHours(Some(p), editingId) * RateChange(p.teamMembers, editingId, hourlyRate.value);
            && m'.totalLaborCost == m.totalLaborCost + delta
            && m'.remainingBudget == m.remainingBudget - delta
            && m'.(totalLaborCost := m.totalLaborCost, remainingBudget := m.remainingBudget) == m
  {
    UpdateLabor(p, editingId, name, role, hourlyRate);
    LaborOnlyChange(p, Update(p, editingId, name, role, hourlyRate),
                    TotalHours(Some(p), editingId) * RateChange(p.teamMembers, editingId, hourlyRate.value));
  }

  /** The edit moves the project's labor cost by the edited id's hours times the change of rate. */
  lemma UpdateLabor(p: Project, editingId: Id, name: string, role: string, hourlyRate: Input<real>)
    requires name != "" && !hourlyRate.Blank()
    ensures var q := Update(p, editingId, name, role, hourlyRate);
            LaborCost(q.teamMembers, q.hours) ==
            LaborCost(p.teamMembers, p.hours) + TotalHours(Some(p), editingId) * RateChange(p.teamMembers, editingId, hourlyRate.value)
  {
    var c := RateChange(p.teamMembers, editingId, hourlyRate.value);
    LaborCostForAsSum(p, editingId, c);
    UpdatedLabor(p.teamMembers, p.hours, editingId, name, role, hourlyRate.value);
  }

  /** Removing the members with an id does not re-price an entry that names another id. */
  lemma EntryCostAfterDelete(ms: seq<TeamMember>, memberId: Id, h: HoursEntry)
    requires h.teamMemberId != memberId
    ensures EntryLaborCost(Filter(ms, (m: TeamMember) => m.id != memberId), h) == EntryLaborCost(ms, h)
  {
    FindFilter(ms, (m: TeamMember) => m.id != memberId, (x: TeamMember) => x.id == h.teamMemberId);
  }

  /** The entries the cascade keeps are priced as before. */
  lemma KeptLabor(ms: seq<TeamMember>, hs: seq<HoursEntry>, memberId: Id)
    ensures LaborCost(Filter(ms, (m: TeamMember) => m.id != memberId), Filter(hs, (h: HoursEntry) => h.teamMemberId != memberId)) ==
            Sum(Filter(hs, (h: HoursEntry) => h.teamMemberId != memberId), (h: HoursEntry) => EntryLaborCost(ms, h))
  {
    var keepH := (h: HoursEntry) => h.teamMemberId != memberId;
    var ms', hs' := Filter(ms, (m: TeamMember) => m.id != memberId), Filter(hs, keepH);
    FilterMembers(hs, keepH);
    forall h | h in hs' ensures EntryLaborCost(ms', h) == EntryLaborCost(ms, h) {
      EntryCostAfterDelete(ms, memberId, h);
    }
    SumCongruent(hs', (h: HoursEntry) => EntryLaborCost(ms', h), (h: HoursEntry) => EntryLaborCost(ms, h));
  }

  /** The entries the cascade drops cost the removed id's hours at the rate charged for it. */
  lemma DroppedLabor(ms: seq<TeamMember>, hs: seq<HoursEntry>, memberId: Id)
    ensures Sum(Filter(hs, (h: HoursEntry) => h.teamMemberId == memberId), (h: HoursEntry) => EntryLaborCost(ms, h)) ==
            RateOf(ms, memberId) * HoursFor(hs, memberId)
  {
    FilterMembers(hs, (h: HoursEntry) => h.teamMemberId == memberId);
    EntriesOfOneMember(ms, Filter(hs, (h: HoursEntry) => h.teamMemberId == memberId), memberId);
    HoursForAsFilter(hs, memberId);
  }

  /** Entries that all name one id cost their hours at the rate charged for that id. */
  lemma EntriesOfOneMember(ms: seq<TeamMember>, hs: seq<HoursEntry>, memberId: Id)
    requires forall h :: h in hs ==> h.teamMemberId == memberId
    ensures Sum(hs, (h: HoursEntry) => EntryLaborCost(ms, h)) == RateOf(ms, memberId) * Sum(hs, Hours)
  {
    var rate := RateOf(ms, memberId);
    forall h | h in hs ensures EntryLaborCost(ms, h) == rate * Hours(h) {
      EntryCostAtRate(ms, h);
      assert h.hours * rate == rate * h.hours;
    }
    SumScale(hs, Hours, (h: HoursEntry) => EntryLaborCost(ms, h), rate);
  }

  /** The cascade takes off the labor cost exactly the removed member's hours at the rate
      charged for its id. */
  lemma DeletedLabor(ms: seq<TeamMember>, hs: seq<HoursEntry>, memberId: Id)
    ensures LaborCost(Filter(ms, (m: TeamMember) => m.id != memberId), Filter(hs, (h: HoursEntry) => h.teamMemberId != memberId)) ==
            LaborCost(ms, hs) - RateOf(ms, memberId) * HoursFor(hs, memberId)
  {
    KeptLabor(ms, hs, memberId);
    DroppedLabor(ms, hs, memberId);
    SumSplit(hs, (h: HoursEntry) => h.teamMemberId != memberId, (h: HoursEntry) => h.teamMemberId == memberId,
             (h: HoursEntry) => EntryLaborCost(ms, h));
  }

  /** The cascade takes the removed member's hours, at the rate charged for its id, off the
      project's labor cost. */
  lemma DeleteLabor(p: Project, memberId: Id)
    ensures var q := Delete(p, memberId);
            LaborCost(q.teamMembers, q.hours) ==
            LaborCost(p.teamMembers, p.hours) - RateOf(p.teamMembers, memberId) * HoursFor(p.hours, memberId)
  {
    DeletedLabor(p.teamMembers, p.hours, memberId);
  }

  /** A member's listed labor cost is the rate times the fold of its hours. */
  lemma LaborCostForAsSum(p: Project, memberId: Id, rate: real)
    ensures LaborCostFor(p, memberId, rate) == rate * HoursFor(p.hours, memberId)
  {
    TotalHoursAsSum(p, memberId);
    assert rate * TotalHours(Some(p), memberId) == TotalHours(Some(p), memberId) * rate;
  }

  /** Deleting a member takes that member's labor cost (its hours at the rate of the first
      member with the id) off the labor total and adds it back to the remaining budget;
      no other metric moves. */
  lemma DeleteEffectOnMetrics(p: Project, memberId: Id)
    ensures var m, m' := ProjectMetrics(Some(p)), ProjectMetrics(Some(Delete(p, memberId)));
            var removed := LaborCostFor(p, memberId, RateOf(p.teamMembers, memberId));
            && m'.totalLaborCost == m.totalLaborCost - removed
            && m'.remainingBudget == m.remainingBudget + removed
            && m'.(totalLaborCost := m.totalLaborCost, remainingBudget := m.remainingBudget) == m
  {
    var removed := LaborCostFor(p, memberId, RateOf(p.teamMembers, memberId));
    DeleteLabor(p, memberId);
    LaborCostForAsSum(p, memberId, RateOf(p.teamMembers, memberId));
    LaborOnlyChange(p, Delete(p, memberId), -removed);
  }
}
