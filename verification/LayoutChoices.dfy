/** Which session a project brings back: the one remembered for it, else the current one, else the one
    used last; and where the selection goes when what is selected is closed or removed. */
module LayoutChoices {
  import opened Results
  import opened Lists
  import opened Layout
  import opened LayoutSteps
  import opened LayoutRuns
  import opened LayoutUndo

  // ---------- The preferred session ----------

  ghost predicate HasDurable(st: State, projectId: Id) {
    exists t :: t in st.sessions && t.body.projectId == projectId && t.body.Durable()
  }

  /** A session of the project, and a durable one if it has any. */
  ghost predicate Eligible(st: State, projectId: Id, t: Session) {
    t in st.sessions && t.body.projectId == projectId && (HasDurable(st, projectId) ==> t.body.Durable())
  }

  ghost predicate Earlier(ids: seq<Id>, x: Id, y: Id) {
    exists i, j :: 0 <= i < j < |ids| && ids[i] == x && ids[j] == y
  }

  /** Among the eligible sessions it was used last; of those used at the same time it is listed last. */
  ghost predicate LastUsed(st: State, project: Project, s: Session) {
    && Eligible(st, project.id, s)
    && forall t :: Eligible(st, project.id, t) ==>
         || t.body.updatedAt < s.body.updatedAt || t == s
         || (t.body.updatedAt == s.body.updatedAt && Earlier(project.body.sessionIds, t.id, s.id))
  }

  /** Position `k` holds the last of the greatest timestamps, of the durable sessions only if asked. */
  ghost predicate LastBest(sessions: seq<Session>, durable: bool, k: nat) {
    && k < |sessions| && (durable ==> sessions[k].body.Durable())
    && forall i :: 0 <= i < |sessions| && (durable ==> sessions[i].body.Durable()) ==>
         sessions[i].body.updatedAt <= sessions[k].body.updatedAt
         && (i > k ==> sessions[i].body.updatedAt < sessions[k].body.updatedAt)
  }

  function Among(sessions: seq<Session>, durable: bool): seq<Session> {
    if durable then DurableOnes(sessions) else sessions
  }

  /** What MostRecent of the sessions asked for is. */
  ghost predicate Best(sessions: seq<Session>, durable: bool, r: Option<Session>) {
    && (r.None? ==> forall t <- sessions :: durable && !t.body.Durable())
    && (r.Some? ==> exists k: nat :: LastBest(sessions, durable, k) && sessions[k] == r.value)
  }

  lemma {:induction false} MostRecentIsLastBest(sessions: seq<Session>, durable: bool)
    ensures Best(sessions, durable, MostRecent(Among(sessions, durable)))
  {
    if sessions != [] {
      var n := |sessions| - 1;
      var front, last := sessions[..n], sessions[n];
      MostRecentIsLastBest(front, durable);
      Snoc(sessions);
      var before, now := Among(front, durable), Among(sessions, durable);
      OneMoreBest(front, last, durable, MostRecent(before));
      hide Best;
      if !durable || last.body.Durable() {
        assert now == before + [last] && now[..|now| - 1] == before;
      }
    }
  }

  lemma OneMoreBest(front: seq<Session>, last: Session, durable: bool, before: Option<Session>)
    requires Best(front, durable, before)
    ensures var later := before.None? || last.body.updatedAt >= before.value.body.updatedAt;
            Best(front + [last], durable, if (!durable || last.body.Durable()) && later then Some(last) else before)
  {
    var all := front + [last];
    if (!durable || last.body.Durable()) && (before.None? || last.body.updatedAt >= before.value.body.updatedAt) {
      assert LastBest(all, durable, |front|) && all[|front|] == last;
    } else if before.Some? {
      var k: nat :| LastBest(front, durable, k) && front[k] == before.value;
      assert LastBest(all, durable, k) && all[k] == before.value;
    }
  }

  predicate Holds(sessions: seq<Session>, projectId: Id, id: Id) {
    var s := Find(sessions, id);
    s.Some? && s.value.body.projectId == projectId
  }

  /** The listed sessions, in the order of the list. */
  lemma {:induction false} ResolvedInOrder(sessions: seq<Session>, projectId: Id, ids: seq<Id>)
    requires forall id <- ids :: Holds(sessions, projectId, id)
    ensures var all := Resolve(sessions, projectId, ids); |all| == |ids| && forall i :: 0 <= i < |ids| ==> all[i].id == ids[i]
  {
    if ids != [] {
      var front, last := ids[..|ids| - 1], ids[|ids| - 1];
      assert last in ids;
      HeldIsFound(sessions, projectId, last);
      hide Find, Holds, Ids;
      ResolvedInOrder(sessions, projectId, front);
      OneMoreInOrder(Resolve(sessions, projectId, front), Find(sessions, last).value, ids);
    }
  }

  lemma HeldIsFound(sessions: seq<Session>, projectId: Id, id: Id)
    requires Holds(sessions, projectId, id)
    ensures var s := Find(sessions, id); s.Some? && s.value.body.projectId == projectId && s.value.id == id
  {
    FindNone(sessions, id);
  }

  lemma OneMoreInOrder(before: seq<Session>, s: Session, ids: seq<Id>)
    requires ids != [] && |before| == |ids| - 1 && s.id == ids[|ids| - 1]
    requires forall i :: 0 <= i < |before| ==> before[i].id == ids[..|ids| - 1][i]
    ensures forall i :: 0 <= i < |ids| ==> (before + [s])[i].id == ids[i]
  {}

  lemma ListedAreOwned(st: State, project: Project)
    requires Partitioned(st.projects, st.sessions) && project in st.projects
    ensures forall id <- project.body.sessionIds :: Holds(st.sessions, project.id, id)
  {
    forall id | id in project.body.sessionIds ensures Holds(st.sessions, project.id, id) {
      ListedIsOwned(st, project, id);
    }
  }

  lemma ListedIsOwned(st: State, project: Project, id: Id)
    requires Partitioned(st.projects, st.sessions) && project in st.projects && id in project.body.sessionIds
    ensures Holds(st.sessions, project.id, id)
  {
    assert ListsItsOwn(st.sessions, project) && Owns(st.sessions, project.id, id);
    var s :| s in st.sessions && s.id == id && s.body.projectId == project.id;
    FindIs(st.sessions, s);
  }

  /** Every session of the project is one of them. */
  lemma OwnedIsResolved(st: State, project: Project, t: Session) returns (i: nat)
    requires Partitioned(st.projects, st.sessions) && project in st.projects
    requires t in st.sessions && t.body.projectId == project.id
    ensures var all := Resolve(st.sessions, project.id, project.body.sessionIds);
            i < |all| && all[i] == t && i < |project.body.sessionIds| && project.body.sessionIds[i] == t.id
  {
    var ids := project.body.sessionIds;
    assert ListsItsOwn(st.sessions, project) && Owns(st.sessions, project.id, t.id);
    i :| 0 <= i < |ids| && ids[i] == t.id;
    ListedAreOwned(st, project);
    ResolvedInOrder(st.sessions, project.id, ids);
    FindIs(st.sessions, t);
    FindIs(st.sessions, Resolve(st.sessions, project.id, ids)[i]);
  }

  /** What is remembered for a project is what it brings back. */
  lemma RememberedIsPreferred(st: State, projectId: Id)
    requires Remembering(st) && Lookup(st.remembered, projectId).Some?
    ensures var s := Preferred(st, projectId);
            s.Some? && s.value.id == Lookup(st.remembered, projectId).value && s.value.body.Durable()
  {
    var m := Find(st.remembered, projectId).value;
    assert m == Record(projectId, Lookup(st.remembered, projectId).value);
    assert Recallable(st.sessions, m);
    hide Distinct;
  }

  /** With nothing remembered, a project of the current session brings that one back. */
  lemma CurrentIsPreferred(st: State, projectId: Id, s: Session)
    requires Consistent(st) && Lookup(st.remembered, projectId).None?
    requires s in st.sessions && s.body.projectId == projectId && st.selectedSession == Some(s.id)
    ensures Preferred(st, projectId) == Some(s)
  {
    DistinctSessions(st);
    FindIs(st.sessions, s);
  }

  lemma PreferredOfTheList(st: State, project: Project)
    requires Find(st.projects, project.id) == Some(project) && Lookup(st.remembered, project.id).None?
    requires var g := FindSession(st.sessions, st.selectedSession); g.Some? ==> g.value.body.projectId != project.id
    ensures var all := Resolve(st.sessions, project.id, project.body.sessionIds);
            Preferred(st, project.id) == MostRecent(Among(all, MostRecent(Among(all, true)).Some?))
  {
    hide Resolve, MostRecent, DurableOnes;
  }

  /** The list holds exactly the project's sessions. */
  ghost predicate AllOf(st: State, project: Project, all: seq<Session>) {
    && |all| == |project.body.sessionIds|
    && (forall i :: 0 <= i < |all| ==> all[i].id == project.body.sessionIds[i])
    && (forall t :: t in all <==> t in st.sessions && t.body.projectId == project.id)
  }

  lemma ResolvedIsAll(st: State, project: Project)
    requires Partitioned(st.projects, st.sessions) && project in st.projects
    ensures AllOf(st, project, Resolve(st.sessions, project.id, project.body.sessionIds))
  {
    var ids := project.body.sessionIds;
    ListedAreOwned(st, project);
    ResolvedInOrder(st.sessions, project.id, ids);
    hide Partitioned, Resolve;
    forall t | t in st.sessions && t.body.projectId == project.id ensures t in Resolve(st.sessions, project.id, ids) {
      var i := OwnedIsResolved(st, project, t);
    }
  }

  lemma LastBestIsLastUsed(st: State, project: Project, all: seq<Session>, durable: bool, k: nat)
    requires AllOf(st, project, all) && LastBest(all, durable, k) && (durable <==> HasDurable(st, project.id))
    ensures LastUsed(st, project, all[k])
  {
    var s := all[k];
    assert s in all;
    forall t | Eligible(st, project.id, t) && t != s
      ensures t.body.updatedAt < s.body.updatedAt
              || (t.body.updatedAt == s.body.updatedAt && Earlier(project.body.sessionIds, t.id, s.id))
    {
      assert t in all;
      var i :| 0 <= i < |all| && all[i] == t;
      assert i < k ==> project.body.sessionIds[i] == t.id && project.body.sessionIds[k] == s.id;
    }
  }

  /** Otherwise it brings back the session used last, a durable one if it has any. */
  lemma LastUsedIsPreferred(st: State, project: Project)
    requires Partitioned(st.projects, st.sessions) && project in st.projects && Lookup(st.remembered, project.id).None?
    requires var g := FindSession(st.sessions, st.selectedSession); g.Some? ==> g.value.body.projectId != project.id
    ensures Preferred(st, project.id).Some? <==> project.body.sessionIds != []
    ensures Preferred(st, project.id).Some? ==> LastUsed(st, project, Preferred(st, project.id).value)
  {
    var all := Resolve(st.sessions, project.id, project.body.sessionIds);
    FindIs(st.projects, project);
    PreferredOfTheList(st, project);
    ResolvedIsAll(st, project);
    MostRecentIsLastBest(all, true);
    MostRecentIsLastBest(all, false);
    var durable := MostRecent(Among(all, true)).Some?;
    hide Resolve, MostRecent, DurableOnes, Partitioned, Find, Preferred, LastUsed;
    if durable {
      var k: nat :| LastBest(all, true, k);
      assert all[k] in all;
    }
    assert durable <==> HasDurable(st, project.id);
    if all != [] {
      assert all[0] in all;
      var k: nat :| LastBest(all, durable, k) && all[k] == MostRecent(Among(all, durable)).value;
      LastBestIsLastUsed(st, project, all, durable, k);
    }
  }

  // ---------- Coming back ----------

  datatype Choice = ToSession(id: Id) | ToProject(projectId: Id)

  function Choose(st: State, c: Choice): State {
    match c
    case ToSession(id) => SessionSelected(st, id)
    case ToProject(projectId) => ProjectSelected(st, projectId)
  }

  function ChooseAll(st: State, cs: seq<Choice>): State {
    if cs == [] then st else Choose(ChooseAll(st, cs[..|cs| - 1]), cs[|cs| - 1])
  }

  /** The choice is not of another session of the same project. */
  predicate Spares(st: State, s: Session, c: Choice) {
    c.ToSession? ==>
      var other := Find(st.sessions, c.id);
      other.Some? && other.value.body.projectId == s.body.projectId ==> c.id == s.id
  }

  /** The session is remembered for its project, and no other one of it is selected. */
  ghost predicate Returning(st: State, t: State, s: Session) {
    && Consistent(t) && t.sessions == st.sessions && t.projects == st.projects
    && Lookup(t.remembered, s.body.projectId) == Some(s.id)
    && var current := FindSession(t.sessions, t.selectedSession);
       current.Some? && current.value.body.projectId == s.body.projectId ==> current.value == s
  }

  lemma SelectedReturns(st: State, t: State, s: Session, next: Session)
    requires Returning(st, t, s) && s in st.sessions && next in t.sessions
    requires next.body.projectId == s.body.projectId ==> next == s
    ensures Returning(st, Remember(Select(t, next.body.projectId, Some(next.id)), next), s)
  {
    RememberSelectKeeps(t, next);
    DistinctSessions(t);
    FindIs(t.sessions, next);
    LookupPut(t.remembered, next.body.projectId, next.id, s.body.projectId);
    hide Consistent, Put, Lookup, Distinct, Find;
  }

  lemma ChoiceReturns(st: State, t: State, s: Session, c: Choice)
    requires Returning(st, t, s) && s in st.sessions && Spares(st, s, c)
    ensures Returning(st, Choose(t, c), s)
  {
    DistinctSessions(t);
    match c {
      case ToSession(id) =>
        var next := Find(t.sessions, id);
        if next.Some? {
          FindIs(t.sessions, s);
          SelectedReturns(st, t, s, next.value);
        }
      case ToProject(pid) =>
        SelectProjectKeeps(t, pid);
        var next := Preferred(t, pid);
        if pid == s.body.projectId {
          RememberedIsPreferred(t, pid);
          FindIs(t.sessions, s);
          FindIs(t.sessions, next.value);
        }
        hide Consistent, Preferred, Lookup, Distinct, Find;
        if next.Some? {
          SelectedReturns(st, t, s, next.value);
        }
    }
  }

  lemma {:induction false} ChoicesReturn(st: State, t: State, s: Session, cs: seq<Choice>)
    requires Returning(st, t, s) && s in st.sessions && forall c <- cs :: Spares(st, s, c)
    ensures Returning(st, ChooseAll(t, cs), s)
  {
    hide Returning, Choose, Spares;
    if cs != [] {
      ChoicesReturn(st, t, s, cs[..|cs| - 1]);
      ChoiceReturns(st, ChooseAll(t, cs[..|cs| - 1]), s, cs[|cs| - 1]);
    }
  }

  /** A durable session that was chosen comes back whenever its project is chosen again, whatever was
      chosen in between except another session of that project. */
  lemma ChosenSessionComesBack(st: State, s: Session, cs: seq<Choice>)
    requires Consistent(st) && s in st.sessions && s.body.Durable() && forall c <- cs :: Spares(st, s, c)
    ensures var t := ProjectSelected(ChooseAll(SessionSelected(st, s.id), cs), s.body.projectId);
            && t.selectedSession == Some(s.id) && t.selectedProject == Some(s.body.projectId)
            && t.sessions == st.sessions && t.projects == st.projects && Consistent(t)
  {
    var chosen := SessionSelected(st, s.id);
    DistinctSessions(st);
    FindIs(st.sessions, s);
    SelectSessionKeeps(st, s.id);
    LookupPut(st.remembered, s.body.projectId, s.id, s.body.projectId);
    assert Returning(st, chosen, s);
    ChoicesReturn(st, chosen, s, cs);
    var t := ChooseAll(chosen, cs);
    hide ChooseAll, SessionSelected, Put, Lookup;
    SelectProjectKeeps(t, s.body.projectId);
    PartitionedHouses(t, s);
    FindNone(t.projects, s.body.projectId);
    RememberedIsPreferred(t, s.body.projectId);
    hide Consistent, Distinct, Preferred;
  }

  // ---------- Where a close leads ----------

  /** Of all sessions it was used last; of those used at the same time it comes last. */
  ghost predicate LastUsedOfAll(sessions: seq<Session>, selection: Selection) {
    exists k: nat :: LastBest(sessions, false, k)
                     && selection == Selection(Some(sessions[k].body.projectId), Some(sessions[k].id))
  }

  ghost predicate LeadsTo(r: State, project: Project) {
    exists x :: x in r.sessions && SelectionOf(r) == Selection(Some(project.id), Some(x.id)) && LastUsed(r, project, x)
  }

  /** The selection that the closing of a selected session leaves. */
  function ClosedSelection(cut: State, projectId: Id): Selection {
    var next := CloseFallback(cut, projectId);
    if next.Some? then Selection(Some(next.value.body.projectId), Some(next.value.id)) else Selection(Some(projectId), None)
  }

  lemma ClosedAtItsCut(st: State, s: Session, project: Project)
    requires Consistent(st) && s in st.sessions && project in st.projects && s.body.projectId == project.id
    requires st.selectedSession == Some(s.id)
    ensures var r, cut := Closed(st, s.id), SessionCut(st, s, project);
            SelectionOf(r) == ClosedSelection(cut, project.id) && r.sessions == cut.sessions
  {
    DistinctSessions(st);
    FindIs(st.sessions, s);
    FindIs(st.projects, project);
    hide Consistent, SessionCut, CloseFallback;
  }

  lemma LastOfAllIsSelected(sessions: seq<Session>, r: Session)
    requires MostRecent(sessions) == Some(r)
    ensures LastUsedOfAll(sessions, Selection(Some(r.body.projectId), Some(r.id)))
  {
    MostRecentIsLastBest(sessions, false);
  }

  /** Where the selection is after the selected session is closed: at the session remembered for its
      project unless that is the closed one, else at the one of the project used last, else at the one
      used last of all, else at the project alone. */
  lemma CloseLeadsOn(st: State, s: Session, project: Project)
    requires Consistent(st) && s in st.sessions && project in st.projects && s.body.projectId == project.id
    requires st.selectedSession == Some(s.id)
    ensures var r, mapped := Closed(st, s.id), Lookup(st.remembered, project.id);
            var left := Record(project.id, project.body.(sessionIds := Without(project.body.sessionIds, {s.id})));
            if mapped.Some? && mapped.value != s.id then SelectionOf(r) == Selection(Some(project.id), mapped)
            else if left.body.sessionIds != [] then LeadsTo(r, left)
            else if r.sessions != [] then LastUsedOfAll(r.sessions, SelectionOf(r))
            else SelectionOf(r) == Selection(Some(project.id), None)
  {
    var cut, r := SessionCut(st, s, project), Closed(st, s.id);
    var left := Record(project.id, project.body.(sessionIds := Without(project.body.sessionIds, {s.id})));
    CutKeeps(st, s, project);
    CutHas(st, s, project);
    ClosedAtItsCut(st, s, project);
    PreferredBelongs(cut, project.id);
    hide Consistent, SessionCut, Closed, Preferred, MostRecent, Lookup, Without;
    if Lookup(cut.remembered, project.id).Some? {
      RememberedIsPreferred(cut, project.id);
    } else {
      LastUsedIsPreferred(cut, left);
      if left.body.sessionIds != [] {
        SameLastUsed(cut, r, left);
      } else if r.sessions != [] {
        LastOfAllIsSelected(cut.sessions, MostRecent(cut.sessions).value);
      }
    }
  }

  lemma PreferredBelongs(st: State, projectId: Id)
    ensures var s := Preferred(st, projectId); s.Some? ==> s.value.body.projectId == projectId && s.value in st.sessions
  {}

  lemma SameLastUsed(a: State, b: State, project: Project)
    requires a.sessions == b.sessions
    ensures forall x :: LastUsed(a, project, x) ==> LastUsed(b, project, x)
  {
    assert HasDurable(a, project.id) <==> HasDurable(b, project.id);
    assert forall t :: Eligible(a, project.id, t) <==> Eligible(b, project.id, t);
  }

  lemma CutHas(st: State, s: Session, project: Project)
    requires Consistent(st) && s in st.sessions && project in st.projects && s.body.projectId == project.id
    ensures var cut := SessionCut(st, s, project);
            && Record(project.id, project.body.(sessionIds := Without(project.body.sessionIds, {s.id}))) in cut.projects
            && FindSession(cut.sessions, Some(s.id)).None?
            && Lookup(cut.remembered, project.id)
               == if Lookup(st.remembered, project.id) == Some(s.id) then None else Lookup(st.remembered, project.id)
  {
    var body := project.body.(sessionIds := Without(project.body.sessionIds, {s.id}));
    AmendHas(st.projects, project.id, body);
    IdsHas(st.projects);
    WithoutIdsHas(st.sessions, {s.id});
    WithoutHas(Ids(st.sessions), {s.id});
    FindNone(WithoutIds(st.sessions, {s.id}), s.id);
    LookupWithout(st.remembered, {project.id}, project.id);
    hide Consistent, Without, Amend, WithoutIds, Distinct, Ids, Find;
  }

  // ---------- Where a removal leads ----------

  /** The order of the sidebar: pinned projects, then the others. */
  function Sidebar(st: State): seq<Id> { st.pinnedProjects + Without(Ids(st.projects), AsSet(st.pinnedProjects)) }

  lemma {:induction false} FirstOfRest(ids: seq<Id>, a: set<Id>, b: set<Id>)
    ensures Without(Without(ids, a), b) == Without(ids, a + b)
  {
    if ids != [] {
      FirstOfRest(ids[..|ids| - 1], a, b);
    }
  }

  /** The next project is the first of the sidebar that is not left out. */
  lemma FirstOrderedIsFirst(st: State, except: set<Id>)
    ensures var order := Without(Sidebar(st), except);
            FirstOrdered(st.projects, st.pinnedProjects, except) == if order == [] then None else Some(order[0])
  {
    var pins := AsSet(st.pinnedProjects);
    WithoutConcat(st.pinnedProjects, Without(Ids(st.projects), pins), except);
    FirstOfRest(Ids(st.projects), pins, except);
    var first := Without(st.pinnedProjects, except);
    if first == [] {
      WithoutHas(st.pinnedProjects, except);
      assert pins <= except by {
        forall id | id in pins ensures id in except {
          assert id !in first;
        }
      }
      assert pins + except == except;
      assert [] + Without(Ids(st.projects), except) == Without(Ids(st.projects), except);
    }
    hide Without, Ids, AsSet;
  }

  /** Where the selection is after the selected project is removed: at the first other project of the
      sidebar, there at the session remembered for it, else at the one used last, else at none. */
  lemma RemovalLeadsOn(st: State, project: Project)
    requires Consistent(st) && project in st.projects && st.selectedProject == Some(project.id)
    ensures var r, order := Removed(st, project.id), Without(Sidebar(st), {project.id});
            if order == [] then SelectionOf(r) == Selection(None, None)
            else
              var mapped := Lookup(st.remembered, order[0]);
              if mapped.Some? then SelectionOf(r) == Selection(Some(order[0]), mapped)
              else
                var next := Find(r.projects, order[0]);
                next.Some? && if next.value.body.sessionIds == [] then SelectionOf(r) == Selection(Some(order[0]), None)
                              else LeadsTo(r, next.value)
  {
    var cut, order := ProjectCut(st, project.id), Without(Sidebar(st), {project.id});
    FindIs(st.projects, project);
    FirstOrderedIsFirst(st, {project.id});
    FirstOrderedIs(st.projects, st.pinnedProjects, {project.id});
    ProjectCutKeeps(st, project.id);
    SelectionIsGone(st, project);
    hide Consistent, ProjectCut, FirstOrdered, Sidebar, Preferred, Lookup, Without;
    if order != [] {
      NextIsLeft(st, project, order[0]);
      var next := Find(cut.projects, order[0]).value;
      PreferredBelongs(cut, order[0]);
      if Lookup(cut.remembered, order[0]).Some? {
        RememberedIsPreferred(cut, order[0]);
      } else {
        LastUsedIsPreferred(cut, next);
        SameLastUsed(cut, Removed(st, project.id), next);
      }
    }
  }

  /** Nothing of a removed selection is found any more. */
  lemma SelectionIsGone(st: State, project: Project)
    requires Consistent(st) && project in st.projects && st.selectedProject == Some(project.id)
    ensures FindSession(ProjectCut(st, project.id).sessions, st.selectedSession).None?
  {
    if st.selectedSession.Some? {
      var s := Find(st.sessions, st.selectedSession.value).value;
      DistinctSessions(st);
      OwnSetIs(st.sessions, project.id);
      WithoutIdsHas(st.sessions, AsSet(OwnIds(st.sessions, project.id)));
      WithoutHas(Ids(st.sessions), AsSet(OwnIds(st.sessions, project.id)));
      hide OwnIds, OutsideProject, AsSet, Distinct, Without, WithoutIds, Partitioned, Pinned, Remembering, Ids;
      FindNone(ProjectCut(st, project.id).sessions, s.id);
    }
  }

  lemma NextIsLeft(st: State, project: Project, id: Id)
    requires Consistent(st) && project in st.projects && id in Ids(st.projects) && id != project.id
    ensures var cut := ProjectCut(st, project.id);
            && Find(cut.projects, id).Some? && Find(cut.projects, id) == Find(st.projects, id)
            && Find(cut.projects, id).value in cut.projects
            && Lookup(cut.remembered, id) == Lookup(st.remembered, id)
  {
    LookupWithout(st.projects, {project.id}, id);
    LookupWithout(st.remembered, {project.id}, id);
    FindNone(st.projects, id);
    hide Consistent, OwnIds, OutsideProject, AsSet, Without, WithoutIds, Ids;
  }

  /** Closing or removing what is not selected leaves the selection alone. */
  lemma SelectionElsewhereStays(st: State, s: Session, project: Project)
    requires Consistent(st) && s in st.sessions && project in st.projects
    ensures st.selectedSession != Some(s.id) ==> SelectionOf(Closed(st, s.id)) == SelectionOf(st)
    ensures st.selectedProject != Some(project.id) ==> SelectionOf(Removed(st, project.id)) == SelectionOf(st)
  {
    DistinctSessions(st);
    OwnSetIs(st.sessions, project.id);
    if SelectionInProject(st, project.id) && st.selectedSession.Some? {
      var chosen := Find(st.sessions, st.selectedSession.value).value;
      assert chosen in st.sessions;
    }
    hide OwnIds, OutsideProject, FirstOrdered, Preferred, Partitioned, Pinned, Remembering, Distinct, Put;
  }

  // ---------- Duplicates ----------

  /** A duplicate stands right after its source, among the sessions and in the project's list, and
      nothing else moves; it is new, empty and selected. */
  lemma DuplicateFollowsItsSource(st: State, s: Session, project: Project, id: Id, at: int)
    requires Consistent(st) && s in st.sessions && project in st.projects && s.body.projectId == project.id
    requires id !in Ids(st.sessions)
    ensures var r := Duplicated(st, s.id, id, at);
            && Find(r.sessions, id) == Some(Record(id, SessionBody(project.id, None, false, false, at, s.body.content)))
            && WithoutIds(r.sessions, {id}) == st.sessions && Follows(Ids(r.sessions), s.id, id)
            && SelectionOf(r) == Selection(Some(project.id), Some(id))
            && ListedOnceMore(st.projects, r.projects, project.id, id)
            && (forall p <- r.projects :: p.id == project.id ==> Follows(p.body.sessionIds, s.id, id))
  {
    var new_ := Record(id, SessionBody(project.id, None, false, false, at, s.body.content));
    var list := project.body.sessionIds;
    DistinctSessions(st);
    FindIs(st.sessions, s);
    FindIs(st.projects, project);
    IdsHas(st.sessions);
    assert ListsItsOwn(st.sessions, project) && Owns(st.sessions, project.id, s.id);
    NotListed(st, project, id);
    FindSpliced(st.sessions, After(Ids(st.sessions), s.id), new_, id);
    WithoutIdsSplice(st.sessions, After(Ids(st.sessions), s.id), new_);
    IdsSplice(st.sessions, After(Ids(st.sessions), s.id), new_);
    SplicedFollows(Ids(st.sessions), s.id, id);
    SplicedFollows(list, s.id, id);
    OneListed(st.projects, project, id, After(list, s.id));
    AmendHas(st.projects, project.id, project.body.(sessionIds := Splice(list, After(list, s.id), id)));
    hide Consistent, Splice, Amend, Without, WithoutIds, Ids, Find, Distinct, After, ListsItsOwn;
  }

  predicate Follows(ids: seq<Id>, x: Id, y: Id) {
    exists i :: 0 <= i < |ids| - 1 && ids[i] == x && ids[i + 1] == y
  }

  lemma SplicedFollows(ids: seq<Id>, x: Id, y: Id)
    requires x in ids
    ensures Follows(Splice(ids, After(ids, x), y), x, y)
  {
    var i := IndexOf(ids, x);
    var r := Splice(ids, After(ids, x), y);
    assert r[i] == x && r[i + 1] == y;
  }
}
