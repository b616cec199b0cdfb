/** The project-list handlers of js/components/ProjectList.js. They work on the
    application's state: `onProjectsChange` replaces the list of projects and
    `onSelectProject` the selection. Projects are matched by `id`, which a project created
    here does not carry: JavaScript's `undefined === undefined` makes every id-less project
    match every other, and the model keeps that, with `None == None`. */
module ProjectList {
  import opened Wrappers
  import opened Seqs
  import opened Types
  import opened Utils

  /** The statuses the form offers. */
  const StatusOptions: seq<string> :=
    ["Scheduling", "Quoting", "In Progress", "Awaiting Final Payment", "Awaiting Materials Payment", "Completed"]

  const Gray := "bg-gray-100 text-gray-700"

  /** `getStatusColor(status)`: the badge class of each offered status; any other status gets
      the gray class `'Scheduling'` also has. */
  function StatusColor(status: string): (r: string)
    ensures r == Gray <==> status == "Scheduling" || status !in StatusOptions
  {
    if status == "Scheduling" then Gray
    else if status == "Quoting" then "bg-yellow-100 text-yellow-700"
    else if status == "In Progress" then "bg-blue-100 text-blue-700"
    else if status == "Awaiting Final Payment" then "bg-orange-100 text-orange-700"
    else if status == "Awaiting Materials Payment" then "bg-purple-100 text-purple-700"
    else if status == "Completed" then "bg-green-100 text-green-700"
    else Gray
  }

  /** Every offered status has a badge of its own. */
  lemma StatusColorsDistinct(s: string, t: string)
    requires s in StatusOptions && t in StatusOptions && s != t
    ensures StatusColor(s) != StatusColor(t)
  {
  }

  /** The form is rejected when the name or the agreed price field is empty (the name is not
      trimmed). */
  predicate Rejected(name: string, agreedPrice: Input<real>)
  {
    name == "" || agreedPrice.Blank()
  }

  /** The project `handleCreateProject` builds: the form's fields, empty team, hours, change
      orders, materials and payments, no travel expenses, invoices or fuel prices, and no
      `id`. */
  function NewProject(name: string, agreedPrice: real, description: string, status: string): Project
  {
    Project(None, name, agreedPrice, description, status, [], [], [], [], None, None, Some([]), None)
  }

  /** A new project's budget is its agreed price: nothing is spent, billed or paid. */
  lemma NewProjectMetrics(name: string, agreedPrice: real, description: string, status: string)
    ensures ProjectMetrics(Some(NewProject(name, agreedPrice, description, status))) ==
            Metrics(agreedPrice, 0.0, 0.0, agreedPrice, 0.0, 0.0, 0.0, agreedPrice)
  {
  }

  /** `handleCreateProject`: rejected as above; otherwise the new project goes at the end of
      the list and the selection stays. */
  function CreateProject(s: AppState, name: string, agreedPrice: Input<real>, description: string, status: string): (r: AppState)
    ensures Rejected(name, agreedPrice) ==> r == s
    ensures !Rejected(name, agreedPrice) ==>
      && r.selected == s.selected
      && |r.projects| == |s.projects| + 1
      && r.projects[..|s.projects|] == s.projects
      && var q := r.projects[|s.projects|];
         && q.id.None? && q.name == name && q.agreedPrice == agreedPrice.value
         && q.description == description && q.status == status
         && q.teamMembers == [] && q.hours == [] && q.changeOrders == [] && q.materials == []
         && q.payments == Some([]) && q.travelExpenses.None? && q.invoices.None? && q.fuelPrices.None?
  {
    if Rejected(name, agreedPrice) then s
    else s.(projects := s.projects + [NewProject(name, agreedPrice.value, description, status)])
  }

  /** The creation the rest of the tracker evidently relies on: the new project carries an
      id, as every other record the tracker creates does (`Date.now()`), so that the id
      matches pick it out. */
  function CreateProjectWithId(s: AppState, id: Id, name: string, agreedPrice: Input<real>, description: string, status: string): (r: AppState)
    ensures Rejected(name, agreedPrice) ==> r == s
    ensures !Rejected(name, agreedPrice) ==>
      && r.selected == s.selected
      && |r.projects| == |s.projects| + 1
      && r.projects[..|s.projects|] == s.projects
      && r.projects[|s.projects|] == NewProject(name, agreedPrice.value, description, status).(id := Some(id))
  {
    if Rejected(name, agreedPrice) then s
    else s.(projects := s.projects + [NewProject(name, agreedPrice.value, description, status).(id := Some(id))])
  }

  /** `selectedProject?.id`: absent both when nothing is selected and when the selected
      project has no id. */
  function SelectedId(selected: Option<Project>): Option<Id>
  {
    match selected
    case None => None
    case Some(q) => q.id
  }

  /** The four fields the project form edits; the child lists are kept. */
  function Edited(q: Project, name: string, agreedPrice: real, description: string, status: string): Project
  {
    q.(name := name, agreedPrice := agreedPrice, description := description, status := status)
  }

  /** The project `{ ...selectedProject, ...edit }` makes. Spreading a null selection gives
      an object with only the four edited fields; the model gives it empty lists. */
  function EditedSelection(selected: Option<Project>, name: string, agreedPrice: real, description: string, status: string): Project
  {
    Edited(selected.GetOr(NewProject("", 0.0, "", "").(payments := None)), name, agreedPrice, description, status)
  }

  /** `handleUpdateProject`: rejected like the creation; otherwise every project whose id
      equals the edited one gets the four form fields and keeps its lists, the others and
      the order stay, and when the selection's id equals the edited one the selection gets
      the same four fields. */
  function UpdateProject(s: AppState, editingId: Option<Id>, name: string, agreedPrice: Input<real>,
                         description: string, status: string): (r: AppState)
    ensures Rejected(name, agreedPrice) ==> r == s
    ensures !Rejected(name, agreedPrice) ==>
      && |r.projects| == |s.projects|
      && (forall i :: 0 <= i < |s.projects| ==>
            var q, q' := s.projects[i], r.projects[i];
            && (q.id == editingId ==> q' == q.(name := name, agreedPrice := agreedPrice.value,
                                               description := description, status := status))
            && (q.id != editingId ==> q' == q))
      && (SelectedId(s.selected) == editingId ==>
            r.selected.Some? && r.selected.value.name == name && r.selected.value.agreedPrice == agreedPrice.value &&
            r.selected.value.description == description && r.selected.value.status == status)
      && (s.selected.Some? && SelectedId(s.selected) == editingId ==>
            r.selected == Some(Edited(s.selected.value, name, agreedPrice.value, description, status)))
      && (SelectedId(s.selected) != editingId ==> r.selected == s.selected)
  {
    if Rejected(name, agreedPrice) then s
    else
      var projects := Replace(s.projects, (q: Project) => q.id == editingId,
                              (q: Project) => Edited(q, name, agreedPrice.value, description, status));
      var selected := if SelectedId(s.selected) == editingId
                      then Some(EditedSelection(s.selected, name, agreedPrice.value, description, status))
                      else s.selected;
      AppState(projects, selected)
  }

  /** `handleDeleteProject(project)`: every project whose id equals the deleted one's goes,
      the rest stay in order, and the selection is cleared when its id equals it. */
  function DeleteProject(s: AppState, project: Project): (r: AppState)
    ensures forall q :: q in r.projects ==> q.id != project.id
    ensures SelectedId(s.selected) == project.id ==> r.selected.None?
    ensures SelectedId(s.selected) != project.id ==> r.selected == s.selected
  {
    FilterMembers(s.projects, (q: Project) => q.id != project.id);
    AppState(Filter(s.projects, (q: Project) => q.id != project.id),
             if SelectedId(s.selected) == project.id then None else s.selected)
  }

  /** The delete keeps exactly the projects with other ids, in order. */
  lemma DeleteKeepsRest(s: AppState, project: Project)
    ensures KeepsExactly(DeleteProject(s, project).projects, s.projects, (q: Project) => q.id != project.id)
  {
    FilterKeepsExactly(s.projects, (q: Project) => q.id != project.id);
  }

  /** Editing a project whose id no other project shares changes that project alone. */
  lemma UpdateTouchesOnlyEdited(s: AppState, i: nat, name: string, agreedPrice: Input<real>, description: string, status: string)
    requires i < |s.projects| && !Rejected(name, agreedPrice)
    requires forall j :: 0 <= j < |s.projects| && j != i ==> s.projects[j].id != s.projects[i].id
    ensures UpdateProject(s, s.projects[i].id, name, agreedPrice, description, status).projects ==
            s.projects[i := Edited(s.projects[i], name, agreedPrice.value, description, status)]
  {
  }
}
