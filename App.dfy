/** `updateProject` of js/App.js, the `onUpdate` every project component calls: the edited
    project replaces the projects with its id and becomes the selection. Also the two
    consequences of project ids being optional, and what creating projects with ids gives. */
module App {
  import opened Wrappers
  import opened Seqs
  import opened Types
  import ProjectList
  import TeamMembers

  /** `updateProject(updatedProject)`: every project whose id equals the updated project's is
      replaced by it, the others and the order stay, and the selection becomes the updated
      project whatever it was. */
  function UpdateProject(s: AppState, updated: Project): (r: AppState)
    ensures |r.projects| == |s.projects|
    ensures forall i :: 0 <= i < |s.projects| ==>
              r.projects[i] == if s.projects[i].id == updated.id then updated else s.projects[i]
    ensures r.selected == Some(updated)
  {
    AppState(Replace(s.projects, (q: Project) => q.id == updated.id, (q: Project) => updated), Some(updated))
  }

  /** When no project has the id the list stays as it was. */
  lemma UpdateNoMatch(s: AppState, updated: Project)
    requires forall q :: q in s.projects ==> q.id != updated.id
    ensures UpdateProject(s, updated).projects == s.projects
  {
    var r := UpdateProject(s, updated);
    forall i | 0 <= i < |s.projects| ensures r.projects[i] == s.projects[i] {
      assert s.projects[i] in s.projects;
    }
  }

  /** Applying the same update twice is applying it once. */
  lemma UpdateIdempotent(s: AppState, updated: Project)
    ensures UpdateProject(UpdateProject(s, updated), updated) == UpdateProject(s, updated)
  {
  }

  /** Every project carries an id and no two share one. */
  predicate DistinctIds(projects: seq<Project>)
  {
    && (forall i :: 0 <= i < |projects| ==> projects[i].id.Some?)
    && (forall i, j :: 0 <= i < j < |projects| ==> projects[i].id != projects[j].id)
  }

  /** With distinct ids an update replaces the one project with its id and nothing else. */
  lemma UpdateReplacesOne(s: AppState, i: nat, updated: Project)
    requires DistinctIds(s.projects) && i < |s.projects| && s.projects[i].id == updated.id
    ensures UpdateProject(s, updated).projects == s.projects[i := updated]
  {
    var r := UpdateProject(s, updated);
    forall j | 0 <= j < |s.projects| ensures r.projects[j] == s.projects[i := updated][j] {
      if j < i {
        assert s.projects[j].id != s.projects[i].id;
      } else if j > i {
        assert s.projects[i].id != s.projects[j].id;
      }
    }
  }

  // ---------------------------------------------------------------------------
  // Projects created without ids

  /** Two projects created from the list, then a team member added to the first: the
      dashboard's update matches both id-less projects, so the second is overwritten by the
      first and lost. */
  lemma IdlessUpdateOverwrites()
    ensures var pa, pb := ProjectList.NewProject("A", 1.0, "", "Scheduling"), ProjectList.NewProject("B", 2.0, "", "Scheduling");
            var s := ProjectList.CreateProject(ProjectList.CreateProject(AppState([], None), "A", Input("1", 1.0), "", "Scheduling"),
                                               "B", Input("2", 2.0), "", "Scheduling");
            var a := TeamMembers.Add(pa, 7, "Ana", "", Input("30", 30.0));
            && s.projects == [pa, pb]
            && UpdateProject(s.(selected := Some(pa)), a).projects == [a, a]
  {
    var pa, pb := ProjectList.NewProject("A", 1.0, "", "Scheduling"), ProjectList.NewProject("B", 2.0, "", "Scheduling");
    var s1 := ProjectList.CreateProject(AppState([], None), "A", Input("1", 1.0), "", "Scheduling");
    assert s1.projects == [pa];
  }

  /** With ids given at creation, the same steps keep the second project. */
  lemma WithIdsUpdateKeepsOthers()
    ensures var pa, pb := ProjectList.NewProject("A", 1.0, "", "Scheduling").(id := Some(1)),
                          ProjectList.NewProject("B", 2.0, "", "Scheduling").(id := Some(2));
            var s := ProjectList.CreateProjectWithId(ProjectList.CreateProjectWithId(AppState([], None), 1, "A", Input("1", 1.0), "", "Scheduling"),
                                                     2, "B", Input("2", 2.0), "", "Scheduling");
            var a := TeamMembers.Add(pa, 7, "Ana", "", Input("30", 30.0));
            && s.projects == [pa, pb]
            && UpdateProject(s.(selected := Some(pa)), a).projects == [a, pb]
  {
    var pa, pb := ProjectList.NewProject("A", 1.0, "", "Scheduling").(id := Some(1)),
                  ProjectList.NewProject("B", 2.0, "", "Scheduling").(id := Some(2));
    var s1 := ProjectList.CreateProjectWithId(AppState([], None), 1, "A", Input("1", 1.0), "", "Scheduling");
    assert s1.projects == [pa];
    var s := ProjectList.CreateProjectWithId(s1, 2, "B", Input("2", 2.0), "", "Scheduling");
    assert s.projects == [pa, pb];
    var a := TeamMembers.Add(pa, 7, "Ana", "", Input("30", 30.0));
    assert a.id == Some(1);
  }

  /** Two projects created from the list, then the first one's delete button: the filter
      keeps the projects whose id differs from the first's, and neither has an id, so both
      go. */
  lemma IdlessDeleteRemovesBoth()
    ensures var pa, pb := ProjectList.NewProject("A", 1.0, "", "Scheduling"), ProjectList.NewProject("B", 2.0, "", "Scheduling");
            var s := ProjectList.CreateProject(ProjectList.CreateProject(AppState([], None), "A", Input("1", 1.0), "", "Scheduling"),
                                               "B", Input("2", 2.0), "", "Scheduling");
            && s.projects == [pa, pb]
            && ProjectList.DeleteProject(s, pa).projects == []
  {
    var pa, pb := ProjectList.NewProject("A", 1.0, "", "Scheduling"), ProjectList.NewProject("B", 2.0, "", "Scheduling");
    var s1 := ProjectList.CreateProject(AppState([], None), "A", Input("1", 1.0), "", "Scheduling");
    assert s1.projects == [pa];
    var s := ProjectList.CreateProject(s1, "B", Input("2", 2.0), "", "Scheduling");
    assert s.projects == [pa, pb];
    var keep := (q: Project) => q.id != pa.id;
    assert s.projects[..1] == [pa] && [pa][..0] == [];
    assert Filter([pa], keep) == [];
  }

  /** With ids given at creation, deleting the first project keeps the second. */
  lemma WithIdsDeleteKeepsOthers()
    ensures var pa, pb := ProjectList.NewProject("A", 1.0, "", "Scheduling").(id := Some(1)),
                          ProjectList.NewProject("B", 2.0, "", "Scheduling").(id := Some(2));
            var s := ProjectList.CreateProjectWithId(ProjectList.CreateProjectWithId(AppState([], None), 1, "A", Input("1", 1.0), "", "Scheduling"),
                                                     2, "B", Input("2", 2.0), "", "Scheduling");
            && s.projects == [pa, pb]
            && ProjectList.DeleteProject(s, pa).projects == [pb]
  {
    var pa, pb := ProjectList.NewProject("A", 1.0, "", "Scheduling").(id := Some(1)),
                  ProjectList.NewProject("B", 2.0, "", "Scheduling").(id := Some(2));
    var s1 := ProjectList.CreateProjectWithId(AppState([], None), 1, "A", Input("1", 1.0), "", "Scheduling");
    assert s1.projects == [pa];
    var s := ProjectList.CreateProjectWithId(s1, 2, "B", Input("2", 2.0), "", "Scheduling");
    assert s.projects == [pa, pb];
    var keep := (q: Project) => q.id != pa.id;
    assert s.projects[..1] == [pa] && [pa][..0] == [];
    assert Filter([pa], keep) == [];
  }

  /** Creating with a fresh id keeps the ids distinct, so that every later update replaces
      exactly one project (`UpdateReplacesOne`). */
  lemma CreateWithIdKeepsDistinct(s: AppState, id: Id, name: string, agreedPrice: Input<real>, description: string, status: string)
    requires DistinctIds(s.projects)
    requires forall q :: q in s.projects ==> q.id != Some(id)
    ensures DistinctIds(ProjectList.CreateProjectWithId(s, id, name, agreedPrice, description, status).projects)
  {
    var r := ProjectList.CreateProjectWithId(s, id, name, agreedPrice, description, status);
    if !ProjectList.Rejected(name, agreedPrice) {
      forall i, j | 0 <= i < j < |r.projects| ensures r.projects[i].id != r.projects[j].id {
        if j == |s.projects| {
          assert r.projects[i] == s.projects[i];
          assert s.projects[i] in s.projects;
        } else {
          assert r.projects[i] == s.projects[i] && r.projects[j] == s.projects[j];
        }
      }
    }
  }

  /** Editing an id-less project from the list while nothing is selected selects a project:
      `undefined === undefined` makes the absent selection match, and the spread of the null
      selection makes a project of the four edited fields alone. */
  lemma IdlessEditSelects()
    ensures var s := ProjectList.CreateProject(AppState([], None), "A", Input("1", 1.0), "", "Scheduling");
            var r := ProjectList.UpdateProject(s, s.projects[0].id, "A2", Input("1", 1.0), "", "Scheduling");
            s.selected.None? && r.selected.Some? && r.selected.value.name == "A2"
  {
  }

  /** When the edited project has an id, as `CreateProjectWithId` gives it, an edit never
      selects a project where none was selected. */
  lemma EditWithIdKeepsNoSelection(s: AppState, id: Id, name: string, agreedPrice: Input<real>, description: string, status: string)
    requires s.selected.None?
    ensures ProjectList.UpdateProject(s, Some(id), name, agreedPrice, description, status).selected.None?
  {
  }
}
