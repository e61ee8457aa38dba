/** Every operation keeps the layout consistent, so every run of operations does. */
module LayoutRuns {
  import opened Results
  import opened Lists
  import opened Layout
  import opened LayoutSteps

  // ---------- Adding a session ----------

  lemma IdsSplice<T>(s: seq<Record<T>>, at: nat, r: Record<T>)
    ensures Ids(Splice(s, at, r)) == Splice(Ids(s), at, r.id)
  {
    var i := Clamped(at, |s|);
    IdsAt(s);
    assert s == s[..i] + s[i..];
    IdsConcat(s[..i], s[i..]);
    IdsConcat(s[..i] + [r], s[i..]);
    IdsConcat(s[..i], [r]);
    assert Ids([r]) == [r.id];
    IdsAt(s[..i]);
    assert Ids(s)[..i] == Ids(s[..i]) && Ids(s)[i..] == Ids(s[i..]);
  }

  lemma OwnsMore(sessions: seq<Session>, at: nat, s: Session, projectId: Id)
    ensures forall id :: Owns(Splice(sessions, at, s), projectId, id)
                         <==> Owns(sessions, projectId, id) || (id == s.id && projectId == s.body.projectId)
  {
    SpliceHas(sessions, at, s);
    assert s in Splice(sessions, at, s);
    forall id ensures Owns(Splice(sessions, at, s), projectId, id)
                      <==> Owns(sessions, projectId, id) || (id == s.id && projectId == s.body.projectId)
    {
      if Owns(sessions, projectId, id) {
        var t :| t in sessions && t.id == id && t.body.projectId == projectId;
        assert t in Splice(sessions, at, s);
      }
    }
  }

  /** One more session in the state and in its project's list. */
  ghost predicate Extends(st: State, s: Session, r: State) {
    && Partitioned(r.projects, r.sessions) && Pinned(r) && Remembering(r)
    && s in r.sessions && Ids(r.projects) == Ids(st.projects)
  }

  lemma ExtendedList(st: State, s: Session, at: nat, project: Project, listedAt: nat)
    requires Partitioned(st.projects, st.sessions) && s.id !in Ids(st.sessions)
    requires project in st.projects && s.body.projectId == project.id
    ensures ListsItsOwn(Splice(st.sessions, at, s),
                        Record(project.id, project.body.(sessionIds := Splice(project.body.sessionIds, listedAt, s.id))))
  {
    var list := project.body.sessionIds;
    assert ListsItsOwn(st.sessions, project);
    OwnsMore(st.sessions, at, s, project.id);
    IdsHas(st.sessions);
    assert s.id !in list;
    SpliceHas(list, listedAt, s.id);
    SpliceDistinct(list, listedAt, s.id);
    hide Distinct, Owns;
  }

  lemma ListUnchanged(sessions: seq<Session>, at: nat, s: Session, p: Project)
    requires ListsItsOwn(sessions, p) && s.body.projectId != p.id
    ensures ListsItsOwn(Splice(sessions, at, s), p)
  {
    OwnsMore(sessions, at, s, p.id);
    hide Owns, Distinct;
  }

  lemma WithSessionPartitioned(st: State, s: Session, at: nat, project: Project, listedAt: nat)
    requires Partitioned(st.projects, st.sessions) && s.id !in Ids(st.sessions)
    requires project in st.projects && s.body.projectId == project.id
    ensures var r := WithSession(st, s, at, project, listedAt);
            Partitioned(r.projects, r.sessions) && Ids(r.projects) == Ids(st.projects) && s in r.sessions
  {
    var body := project.body.(sessionIds := Splice(project.body.sessionIds, listedAt, s.id));
    AmendHas(st.projects, project.id, body);
    SpliceHas(st.sessions, at, s);
    ExtendedList(st, s, at, project, listedAt);
    hide Distinct, Owns, Splice, Amend, ListsItsOwn, Ids;
    IdsHas(st.projects);
    SessionGained(st.projects, st.sessions, at, s, Record(project.id, body));
  }

  lemma SessionGained(projects: seq<Project>, sessions: seq<Session>, at: nat, s: Session, changed: Project)
    requires Partitioned(projects, sessions) && ListsItsOwn(Splice(sessions, at, s), changed)
    requires s.id !in Ids(sessions) && s.body.projectId == changed.id && changed.id in Ids(projects)
    ensures Partitioned(Amend(projects, changed.id, changed.body), Splice(sessions, at, s))
  {
    var gained, more := Amend(projects, changed.id, changed.body), Splice(sessions, at, s);
    AmendHas(projects, changed.id, changed.body);
    IdsSplice(sessions, at, s);
    SpliceDistinct(Ids(sessions), at, s.id);
    hide Distinct, ListsItsOwn, Owns, Splice, Ids, Amend;
    assert Distinct(Ids(gained)) && Distinct(Ids(more));
    forall t | t in more ensures t.body.projectId in Ids(gained) {
      SpliceHas(sessions, at, s);
    }
    forall p | p in gained ensures ListsItsOwn(more, p) {
      if p.id != changed.id {
        ListUnchanged(sessions, at, s, p);
      }
    }
  }

  /** Sessions that are still there are found again, wherever they now are. */
  lemma StillRecallable(before: seq<Session>, after: seq<Session>, r: Record<Id>)
    requires Distinct(Ids(after)) && Recallable(before, r)
    requires Find(before, r.body).value in after
    ensures Recallable(after, r)
  {
    FindIs(after, Find(before, r.body).value);
  }

  lemma WithSessionExtends(st: State, s: Session, at: nat, project: Project, listedAt: nat)
    requires Consistent(st) && s.id !in Ids(st.sessions) && project in st.projects && s.body.projectId == project.id
    ensures Extends(st, s, WithSession(st, s, at, project, listedAt))
  {
    var r := WithSession(st, s, at, project, listedAt);
    WithSessionPartitioned(st, s, at, project, listedAt);
    IdsSplice(st.sessions, at, s);
    SpliceHas(Ids(st.sessions), at, s.id);
    SpliceHas(st.sessions, at, s);
    hide Splice, Owns, ListsItsOwn, Distinct;
    forall m | m in st.remembered ensures Recallable(r.sessions, m) {
      StillRecallable(st.sessions, r.sessions, m);
    }
  }

  lemma SelectingIt(st: State, s: Session)
    requires Partitioned(st.projects, st.sessions) && s in st.sessions
    ensures Selecting(Select(st, s.body.projectId, Some(s.id)))
  {
    FindIs(st.sessions, s);
  }

  lemma CreateKeeps(st: State, projectId: Id, id: Id, at: int, content: string)
    requires Consistent(st) && id !in Ids(st.sessions)
    ensures Consistent(Created(st, projectId, id, at, content))
  {
    var project := Find(st.projects, projectId);
    if project.Some? {
      var s := Record(id, SessionBody(projectId, None, false, false, at, content));
      var i, j := |st.sessions|, |project.value.body.sessionIds|;
      WithSessionExtends(st, s, i, project.value, j);
      hide Partitioned, WithSession;
      SelectingIt(WithSession(st, s, i, project.value, j), s);
    }
  }

  lemma DuplicateKeeps(st: State, source: Id, id: Id, at: int)
    requires Consistent(st) && id !in Ids(st.sessions)
    ensures Consistent(Duplicated(st, source, id, at))
  {
    hide WithSession, After, Partitioned, Pinned, Remembering, Selecting;
    var original := Find(st.sessions, source);
    if original.Some? {
      var project := Find(st.projects, original.value.body.projectId);
      if project.Some? && source in project.value.body.sessionIds {
        var s := Record(id, SessionBody(original.value.body.projectId, None, false, false, at, original.value.body.content));
        var i, j := After(Ids(st.sessions), source), After(project.value.body.sessionIds, source);
        WithSessionExtends(st, s, i, project.value, j);
        SelectingIt(WithSession(st, s, i, project.value, j), s);
        SamePins(WithSession(st, s, i, project.value, j), s.body.projectId, Some(id));
      }
    }
  }

  lemma SamePins(st: State, projectId: Id, sessionId: Option<Id>)
    ensures Pinned(Select(st, projectId, sessionId)) <==> Pinned(st)
    ensures Remembering(Select(st, projectId, sessionId)) <==> Remembering(st)
  {}

  // ---------- Selecting ----------

  lemma RememberSelectKeeps(st: State, s: Session)
    requires Partitioned(st.projects, st.sessions) && Pinned(st) && Remembering(st) && s in st.sessions
    ensures Consistent(Remember(Select(st, s.body.projectId, Some(s.id)), s))
  {
    var chosen := Select(st, s.body.projectId, Some(s.id));
    SelectingIt(st, s);
    SamePins(st, s.body.projectId, Some(s.id));
    DistinctSessions(st);
    RememberKeeps(chosen, s);
    hide Partitioned, Distinct, Recallable, ValidIds;
  }

  lemma SelectProjectOnly(st: State, projectId: Id)
    requires Partitioned(st.projects, st.sessions) && Pinned(st) && Remembering(st) && projectId in Ids(st.projects)
    ensures Consistent(Select(st, projectId, None))
  {
    SamePins(st, projectId, None);
  }

  lemma SelectSessionKeeps(st: State, id: Id)
    requires Consistent(st)
    ensures Consistent(SessionSelected(st, id))
  {
    hide Partitioned, Pinned, Remembering, Selecting;
    var s := Find(st.sessions, id);
    if s.Some? {
      RememberSelectKeeps(st, s.value);
    }
  }

  lemma SelectProjectKeeps(st: State, projectId: Id)
    requires Consistent(st)
    ensures Consistent(ProjectSelected(st, projectId))
  {
    hide Partitioned, Pinned, Remembering, Preferred;
    FindNone(st.projects, projectId);
    var current, next := FindSession(st.sessions, st.selectedSession), Preferred(st, projectId);
    if Find(st.projects, projectId).None? {
    } else if current.Some? && current.value.body.projectId == projectId {
      assert st.(selectedProject := Some(projectId)) == st;
    } else if next.Some? {
      RememberSelectKeeps(st, next.value);
    } else {
      SelectProjectOnly(st, projectId);
    }
  }

  lemma AddKeeps(st: State, path: string, id: Id)
    requires Consistent(st) && id !in Ids(st.projects)
    ensures Consistent(Added(st, path, id))
  {
    var existing := ProjectAtPath(st.projects, path);
    if existing.Some? {
      SelectProjectKeeps(st, existing.value.id);
    } else {
      var p := Record(id, ProjectBody(path, []));
      NewProjectPartitioned(st.projects, st.sessions, p);
      IdsConcat([p], st.projects);
      assert Ids([p]) == [id];
      hide Partitioned, Distinct, Recallable;
    }
  }

  lemma NewProjectPartitioned(projects: seq<Project>, sessions: seq<Session>, p: Project)
    requires Partitioned(projects, sessions) && p.id !in Ids(projects) && p.body.sessionIds == []
    ensures Partitioned([p] + projects, sessions)
  {
    IdsConcat([p], projects);
    assert Ids([p]) == [p.id];
    DistinctConcat([p.id], Ids(projects));
    assert ListsItsOwn(sessions, p);
  }

  // ---------- Removing sessions ----------

  lemma OwnsFewer(sessions: seq<Session>, gone: set<Id>, projectId: Id)
    ensures forall id :: Owns(WithoutIds(sessions, gone), projectId, id)
                         <==> Owns(sessions, projectId, id) && id !in gone
  {
    WithoutIdsHas(sessions, gone);
    forall id ensures Owns(WithoutIds(sessions, gone), projectId, id) <==> Owns(sessions, projectId, id) && id !in gone {
      if Owns(sessions, projectId, id) && id !in gone {
        var t :| t in sessions && t.id == id && t.body.projectId == projectId;
        assert t in WithoutIds(sessions, gone);
      }
    }
  }

  /** The pins and settled sessions after some sessions are gone. */
  lemma FewerPinned(st: State, r: State, gone: set<Id>, goneProjects: set<Id>)
    requires Pinned(st)
    requires Ids(r.sessions) == Without(Ids(st.sessions), gone) && Ids(r.projects) == Without(Ids(st.projects), goneProjects)
    requires r.pinnedProjects == Without(st.pinnedProjects, goneProjects)
    requires r.pinnedSessions == Without(st.pinnedSessions, gone) && r.settled == Without(st.settled, gone)
    ensures Pinned(r)
  {
    WithoutHas(Ids(st.sessions), gone);
    WithoutHas(Ids(st.projects), goneProjects);
    WithoutHas(st.pinnedProjects, goneProjects);
    WithoutHas(st.pinnedSessions, gone);
    WithoutHas(st.settled, gone);
    hide Distinct, Without, Ids;
  }

  lemma ForgetHas(remembered: seq<Record<Id>>, projectId: Id, sessionId: Id)
    requires Distinct(Ids(remembered))
    ensures var r := Forget(remembered, projectId, sessionId);
            Distinct(Ids(r)) && forall m :: m in r ==> m in remembered && !(m.id == projectId && m.body == sessionId)
  {
    WithoutIdsHas(remembered, {projectId});
    WithoutHas(Ids(remembered), {projectId});
    var r := Forget(remembered, projectId, sessionId);
    forall m | m in r ensures m in remembered && !(m.id == projectId && m.body == sessionId) {
      InWithoutIds(remembered, {projectId}, m);
      if m in remembered {
        FindIs(remembered, m);
      }
    }
  }

  lemma CloseRemembers(st: State, s: Session, project: Project)
    requires Consistent(st) && s in st.sessions && project in st.projects && s.body.projectId == project.id
    requires Distinct(Ids(SessionCut(st, s, project).sessions))
    ensures Remembering(SessionCut(st, s, project))
  {
    var r := SessionCut(st, s, project);
    FindIs(st.sessions, s);
    ForgetHas(st.remembered, project.id, s.id);
    hide Distinct, Recallable, Forget, Partitioned, Pinned, Selecting, Without, Amend, WithoutIds;
    forall m | m in r.remembered ensures Recallable(r.sessions, m) {
      RecallableTarget(st.sessions, m);
      InWithoutIds(st.sessions, {s.id}, Find(st.sessions, m.body).value);
      StillRecallable(st.sessions, r.sessions, m);
    }
  }

  lemma RecallableTarget(sessions: seq<Session>, m: Record<Id>)
    requires Recallable(sessions, m)
    ensures var s := Find(sessions, m.body); s.Some? && s.value.id == m.body && s.value.body.projectId == m.id
  {}

  /** The list of a project that loses some of its sessions. */
  lemma ListLoses(sessions: seq<Session>, gone: set<Id>, p: Project)
    requires ListsItsOwn(sessions, p)
    ensures ListsItsOwn(WithoutIds(sessions, gone), Record(p.id, p.body.(sessionIds := Without(p.body.sessionIds, gone))))
  {
    OwnsFewer(sessions, gone, p.id);
    WithoutHas(p.body.sessionIds, gone);
    hide Owns, Distinct;
  }

  /** The list of a project that loses none. */
  lemma ListStays(sessions: seq<Session>, gone: set<Id>, p: Project)
    requires ListsItsOwn(sessions, p) && forall id <- gone :: !Owns(sessions, p.id, id)
    ensures ListsItsOwn(WithoutIds(sessions, gone), p)
  {
    OwnsFewer(sessions, gone, p.id);
    hide Owns, Distinct;
  }

  lemma CutPartitioned(st: State, s: Session, project: Project)
    requires Partitioned(st.projects, st.sessions) && s in st.sessions && project in st.projects
    requires s.body.projectId == project.id
    ensures var r := SessionCut(st, s, project); Partitioned(r.projects, r.sessions) && Ids(r.projects) == Ids(st.projects)
  {
    var r := SessionCut(st, s, project);
    var body := project.body.(sessionIds := Without(project.body.sessionIds, {s.id}));
    AmendHas(st.projects, project.id, body);
    ListLoses(st.sessions, {s.id}, project);
    hide Distinct, ListsItsOwn, Owns, Without, WithoutIds, Ids, Amend;
    forall p | p in st.projects && p.id != project.id ensures !Owns(st.sessions, p.id, s.id) {
      OnlyOwner(st.sessions, s, p.id);
    }
    SessionLost(st.projects, st.sessions, s.id, Record(project.id, body));
  }

  lemma SessionLost(projects: seq<Project>, sessions: seq<Session>, id: Id, changed: Project)
    requires Partitioned(projects, sessions) && ListsItsOwn(WithoutIds(sessions, {id}), changed)
    requires forall p <- projects :: p.id != changed.id ==> !Owns(sessions, p.id, id)
    ensures Partitioned(Amend(projects, changed.id, changed.body), WithoutIds(sessions, {id}))
  {
    AmendHas(projects, changed.id, changed.body);
    WithoutIdsHas(sessions, {id});
    WithoutHas(Ids(sessions), {id});
    hide Distinct, ListsItsOwn, Owns, Without, WithoutIds, Ids, Amend;
    forall p | p in projects && p.id != changed.id ensures ListsItsOwn(WithoutIds(sessions, {id}), p) {
      ListStays(sessions, {id}, p);
    }
  }

  lemma OnlyOwner(sessions: seq<Session>, s: Session, projectId: Id)
    requires Distinct(Ids(sessions)) && s in sessions
    ensures Owns(sessions, projectId, s.id) <==> s.body.projectId == projectId
  {
    if Owns(sessions, projectId, s.id) {
      var t :| t in sessions && t.id == s.id && t.body.projectId == projectId;
      FindIs(sessions, t);
      FindIs(sessions, s);
    }
  }

  lemma CutKeeps(st: State, s: Session, project: Project)
    requires Consistent(st) && s in st.sessions && project in st.projects && s.body.projectId == project.id
    ensures var r := SessionCut(st, s, project);
            Partitioned(r.projects, r.sessions) && Pinned(r) && Remembering(r) && Ids(r.projects) == Ids(st.projects)
  {
    var r := SessionCut(st, s, project);
    CutPartitioned(st, s, project);
    WithoutIdsHas(st.sessions, {s.id});
    DistinctSessions(r);
    CloseRemembers(st, s, project);
    WithoutNone(Ids(st.projects), {});
    WithoutNone(st.pinnedProjects, {});
    FewerPinned(st, r, {s.id}, {});
  }

  lemma CloseKeeps(st: State, id: Id)
    requires Consistent(st)
    ensures Consistent(Closed(st, id))
  {
    var s := Find(st.sessions, id);
    var project := if s.Some? then Find(st.projects, s.value.body.projectId) else None;
    if project.Some? {
      var cut := SessionCut(st, s.value, project.value);
      CutKeeps(st, s.value, project.value);
      IdsHas(st.projects);
      if st.selectedSession == Some(id) {
        var next := CloseFallback(cut, project.value.id);
        hide Partitioned, Pinned, Remembering, SessionCut, CloseFallback;
        if next.Some? {
          RememberSelectKeeps(cut, next.value);
        } else {
          SelectProjectOnly(cut, project.value.id);
        }
      } else {
        CutSelecting(st, s.value, project.value);
      }
    }
  }

  lemma CutSelecting(st: State, s: Session, project: Project)
    requires Consistent(st) && s in st.sessions && project in st.projects && st.selectedSession != Some(s.id)
    requires Partitioned(SessionCut(st, s, project).projects, SessionCut(st, s, project).sessions)
    ensures Selecting(SessionCut(st, s, project))
  {
    var r := SessionCut(st, s, project);
    AmendHas(st.projects, project.id, project.body.(sessionIds := Without(project.body.sessionIds, {s.id})));
    NoIdsNoRecords(r.projects);
    if st.selectedSession.Some? {
      var chosen := Find(st.sessions, st.selectedSession.value).value;
      WithoutIdsHas(st.sessions, {s.id});
      FindIs(r.sessions, chosen);
    }
  }

  // ---------- Removing a project ----------

  lemma {:induction false} OutsideIsWithout(sessions: seq<Session>, projectId: Id, gone: set<Id>)
    requires forall s <- sessions :: s.id in gone <==> s.body.projectId == projectId
    ensures OutsideProject(sessions, projectId) == WithoutIds(sessions, gone)
  {
    if sessions != [] {
      assert sessions[|sessions| - 1] in sessions;
      OutsideIsWithout(sessions[..|sessions| - 1], projectId, gone);
    }
  }

  lemma OwnSetIs(sessions: seq<Session>, projectId: Id)
    requires Distinct(Ids(sessions))
    ensures var gone := AsSet(OwnIds(sessions, projectId));
            && OutsideProject(sessions, projectId) == WithoutIds(sessions, gone)
            && forall s <- sessions :: s.id in gone <==> s.body.projectId == projectId
  {
    var gone := AsSet(OwnIds(sessions, projectId));
    OwnHas(sessions, projectId);
    forall s | s in sessions ensures s.id in gone <==> s.body.projectId == projectId {
      OnlyOwner(sessions, s, projectId);
    }
    OutsideIsWithout(sessions, projectId, gone);
  }

  lemma ProjectCutPartitioned(st: State, projectId: Id)
    requires Partitioned(st.projects, st.sessions)
    ensures Partitioned(ProjectCut(st, projectId).projects, ProjectCut(st, projectId).sessions)
  {
    var gone := AsSet(OwnIds(st.sessions, projectId));
    OwnSetIs(st.sessions, projectId);
    hide OutsideProject, OwnIds, AsSet, Distinct, ListsItsOwn, Owns;
    assert ProjectCut(st, projectId).sessions == WithoutIds(st.sessions, gone);
    forall p | p in st.projects && p.id != projectId ensures forall id <- gone :: !Owns(st.sessions, p.id, id) {
      NoneShared(st.sessions, projectId, p.id);
    }
    ProjectLost(st, ProjectCut(st, projectId), projectId, gone);
  }

  lemma ProjectLost(st: State, r: State, projectId: Id, gone: set<Id>)
    requires Partitioned(st.projects, st.sessions)
    requires forall s <- st.sessions :: s.id in gone <==> s.body.projectId == projectId
    requires forall p <- st.projects :: p.id != projectId ==> forall id <- gone :: !Owns(st.sessions, p.id, id)
    requires r.projects == WithoutIds(st.projects, {projectId}) && r.sessions == WithoutIds(st.sessions, gone)
    ensures Partitioned(r.projects, r.sessions)
  {
    WithoutIdsHas(st.sessions, gone);
    WithoutHas(Ids(st.sessions), gone);
    WithoutIdsHas(st.projects, {projectId});
    WithoutHas(Ids(st.projects), {projectId});
    hide Distinct, ListsItsOwn, Owns, Without, WithoutIds, Ids;
    forall p | p in r.projects ensures ListsItsOwn(r.sessions, p) {
      InWithoutIds(st.projects, {projectId}, p);
      ListStays(st.sessions, gone, p);
    }
  }

  lemma NoneShared(sessions: seq<Session>, a: Id, b: Id)
    requires Distinct(Ids(sessions)) && a != b
    ensures forall id <- AsSet(OwnIds(sessions, a)) :: !Owns(sessions, b, id)
  {
    OwnHas(sessions, a);
    forall id | Owns(sessions, a, id) ensures !Owns(sessions, b, id) {
      var s :| s in sessions && s.id == id && s.body.projectId == a;
      OnlyOwner(sessions, s, b);
    }
  }

  lemma ProjectCutRemembers(st: State, projectId: Id)
    requires Consistent(st) && Distinct(Ids(ProjectCut(st, projectId).sessions))
    ensures Remembering(ProjectCut(st, projectId))
  {
    var r, gone := ProjectCut(st, projectId), AsSet(OwnIds(st.sessions, projectId));
    OwnSetIs(st.sessions, projectId);
    WithoutIdsHas(st.sessions, gone);
    WithoutIdsHas(st.remembered, {projectId});
    WithoutHas(Ids(st.remembered), {projectId});
    hide Distinct, Recallable;
    forall m | m in r.remembered ensures Recallable(r.sessions, m) {
      RecallableTarget(st.sessions, m);
      StillRecallable(st.sessions, r.sessions, m);
    }
  }

  lemma ProjectCutKeeps(st: State, projectId: Id)
    requires Consistent(st)
    ensures var r := ProjectCut(st, projectId);
            Partitioned(r.projects, r.sessions) && Pinned(r) && Remembering(r)
            && Ids(r.projects) == Without(Ids(st.projects), {projectId})
  {
    var r, gone := ProjectCut(st, projectId), AsSet(OwnIds(st.sessions, projectId));
    ProjectCutPartitioned(st, projectId);
    DistinctSessions(r);
    ProjectCutRemembers(st, projectId);
    OwnSetIs(st.sessions, projectId);
    WithoutIdsHas(st.sessions, gone);
    WithoutIdsHas(st.projects, {projectId});
    hide Distinct, Recallable, Partitioned, OwnIds, OutsideProject, AsSet;
    FewerPinned(st, r, gone, {projectId});
  }

  lemma ProjectCutSelecting(st: State, projectId: Id)
    requires Consistent(st) && !SelectionInProject(st, projectId)
    requires Distinct(Ids(ProjectCut(st, projectId).sessions))
    ensures Selecting(ProjectCut(st, projectId))
  {
    var r := ProjectCut(st, projectId);
    WithoutIdsHas(st.projects, {projectId});
    WithoutHas(Ids(st.projects), {projectId});
    if st.selectedSession.Some? {
      var chosen := Find(st.sessions, st.selectedSession.value).value;
      OwnSetIs(st.sessions, projectId);
      WithoutIdsHas(st.sessions, AsSet(OwnIds(st.sessions, projectId)));
      FindIs(r.sessions, chosen);
    }
  }

  lemma RemoveKeeps(st: State, projectId: Id)
    requires Consistent(st)
    ensures Consistent(Removed(st, projectId))
  {
    if Find(st.projects, projectId).Some? {
      var cut := ProjectCut(st, projectId);
      ProjectCutKeeps(st, projectId);
      DistinctSessions(cut);
      if SelectionInProject(st, projectId) {
        FirstOrderedIs(st.projects, st.pinnedProjects, {projectId});
        WithoutHas(Ids(st.projects), {projectId});
        hide Partitioned, Pinned, Remembering, ProjectCut, FirstOrdered, Preferred;
        AfterRemovalKeeps(st, cut, projectId);
      } else {
        ProjectCutSelecting(st, projectId);
      }
    }
  }

  lemma AfterRemovalKeeps(st: State, cut: State, projectId: Id)
    requires Partitioned(cut.projects, cut.sessions) && Pinned(cut) && Remembering(cut)
    requires Ids(cut.projects) == Without(Ids(st.projects), {projectId})
    requires forall id <- st.pinnedProjects :: id in Ids(st.projects)
    ensures Consistent(SelectionAfterRemoval(st, cut, projectId))
  {
    FirstOrderedIs(st.projects, st.pinnedProjects, {projectId});
    WithoutHas(Ids(st.projects), {projectId});
    hide Partitioned, FirstOrdered, Preferred;
    var next := FirstOrdered(st.projects, st.pinnedProjects, {projectId});
    if next.None? {
      NoIdsNoRecords(cut.projects);
    } else {
      var session := Preferred(cut, next.value);
      hide Pinned, Remembering;
      if session.Some? {
        RememberSelectKeeps(cut, session.value);
      } else {
        SelectProjectOnly(cut, next.value);
      }
    }
  }

  // ---------- Pins and settled sessions ----------

  lemma UnpinnedOrder(projects: seq<Project>, sessions: seq<Session>, p: Project)
    requires Partitioned(projects, sessions) && p in projects
    ensures Partitioned([p] + WithoutIds(projects, {p.id}), sessions)
    ensures forall id :: id in Ids([p] + WithoutIds(projects, {p.id})) <==> id in Ids(projects)
  {
    var rest := WithoutIds(projects, {p.id});
    WithoutIdsHas(projects, {p.id});
    WithoutHas(Ids(projects), {p.id});
    IdsConcat([p], rest);
    IdsHas(projects);
    assert Ids([p]) == [p.id];
    DistinctConcat([p.id], Ids(rest));
    hide Distinct, ListsItsOwn;
  }

  lemma OneMore(ids: seq<Id>, valid: seq<Id>, limit: nat, id: Id)
    requires ValidIds(ids, valid, limit) && id in valid && id !in ids && |ids| < limit
    ensures ValidIds(ids + [id], valid, limit) && ValidIds([id] + ids, valid, limit)
  {
    assert Distinct([id]);
    DistinctConcat(ids, [id]);
    DistinctConcat([id], ids);
    hide Distinct;
  }

  lemma SomeFewer(ids: seq<Id>, valid: seq<Id>, limit: nat, gone: set<Id>)
    requires ValidIds(ids, valid, limit)
    ensures ValidIds(Without(ids, gone), valid, limit)
  {
    WithoutHas(ids, gone);
    hide Distinct;
  }

  lemma OldestShifted(ids: seq<Id>, valid: seq<Id>, limit: nat)
    requires ValidIds(ids, valid, limit) && ids != []
    ensures ValidIds(ids[1..], valid, limit - 1)
  {}

  lemma PinProjectKeeps(st: State, projectId: Id, pinned: bool)
    requires Consistent(st)
    ensures Consistent(ProjectPinned(st, projectId, pinned).state)
  {
    FindNone(st.projects, projectId);
    var project := Find(st.projects, projectId);
    SomeFewer(st.pinnedProjects, Ids(st.projects), MAX_PINNED_PROJECTS, {projectId});
    if project.Some? && pinned && projectId !in st.pinnedProjects && |st.pinnedProjects| < MAX_PINNED_PROJECTS {
      OneMore(st.pinnedProjects, Ids(st.projects), MAX_PINNED_PROJECTS, projectId);
    }
    if project.Some? && !pinned && projectId in st.pinnedProjects {
      UnpinnedOrder(st.projects, st.sessions, project.value);
    }
    hide Partitioned, Distinct, Recallable;
  }

  lemma PinSessionKeeps(st: State, id: Id, pinned: bool)
    requires Consistent(st)
    ensures Consistent(SessionPinned(st, id, pinned).state)
  {
    hide Partitioned, Distinct, Recallable, ValidIds;
    var valid := Ids(st.sessions);
    FindNone(st.sessions, id);
    WithoutHas(st.settled, {id});
    WithoutHas(st.pinnedSessions, {id});
    SomeFewer(st.settled, valid, MAX_SETTLED_SESSIONS, {id});
    SomeFewer(st.pinnedSessions, valid, MAX_PINNED_SESSIONS, {id});
    if id !in st.pinnedSessions && id in valid {
      if |st.pinnedSessions| >= MAX_PINNED_SESSIONS {
        OldestShifted(st.pinnedSessions, valid, MAX_PINNED_SESSIONS);
        Loosened(st.pinnedSessions[1..], valid, MAX_PINNED_SESSIONS - 1, id);
      } else {
        OneMore(st.pinnedSessions, valid, MAX_PINNED_SESSIONS, id);
      }
    }
  }

  lemma Loosened(ids: seq<Id>, valid: seq<Id>, limit: nat, id: Id)
    requires ValidIds(ids, valid, limit) && id in valid && id !in ids
    ensures ValidIds(ids + [id], valid, limit + 1)
  {
    OneMore(ids, valid, limit + 1, id);
  }

  lemma SettleKeeps(st: State, id: Id, settled: bool, settleable: bool)
    requires Consistent(st)
    ensures Consistent(SessionSettled(st, id, settled, settleable).state)
  {
    hide Partitioned, Distinct, Recallable, ValidIds;
    var valid := Ids(st.sessions);
    FindNone(st.sessions, id);
    WithoutHas(st.settled, {id});
    WithoutHas(st.pinnedSessions, {id});
    SomeFewer(st.settled, valid, MAX_SETTLED_SESSIONS, {id});
    SomeFewer(st.pinnedSessions, valid, MAX_PINNED_SESSIONS, {id});
    if id in valid && id !in st.settled && |st.settled| < MAX_SETTLED_SESSIONS {
      OneMore(st.settled, valid, MAX_SETTLED_SESSIONS, id);
    }
  }

  /** A settle that fails leaves the state alone, unless a pinned session finds the list full. */
  lemma RefusedSettleIsHarmlessExactly(st: State, id: Id, settled: bool, settleable: bool)
    ensures var o := SessionSettled(st, id, settled, settleable);
            o.error.Some? ==>
              (o.state == st <==>
                 !(id in Ids(st.sessions) && settled && settleable && id !in st.settled
                   && |st.settled| >= MAX_SETTLED_SESSIONS && id in st.pinnedSessions))
  {
    FindNone(st.sessions, id);
    WithoutHas(st.pinnedSessions, {id});
    hide Distinct;
    if id !in st.pinnedSessions {
      WithoutNone(st.pinnedSessions, {id});
    }
  }

  /** With the list full, settling a pinned session fails, and takes the pin and nothing else. */
  lemma RefusedSettleLosesThePin(st: State, id: Id)
    requires Consistent(st) && id in st.pinnedSessions && |st.settled| == MAX_SETTLED_SESSIONS
    ensures var o := SessionSettled(st, id, true, true);
            && o.error == Some(TooManySettled) && id !in o.state.pinnedSessions
            && o.state == st.(pinnedSessions := Without(st.pinnedSessions, {id})) && Consistent(o.state)
  {
    SettleKeeps(st, id, true, true);
    FindNone(st.sessions, id);
    WithoutHas(st.pinnedSessions, {id});
    hide Partitioned, Distinct, Remembering;
  }

  // A state in which that happens: one project, its first session pinned and all others settled.

  function Numbered(n: nat): Id { seq(n, _ => 'i') }

  function NumberedIds(n: nat): (r: seq<Id>)
    ensures |r| == n && forall i :: 0 <= i < n ==> r[i] == Numbered(i)
  {
    seq(n, (i: nat) => Numbered(i))
  }

  function NumberedSessions(n: nat): (r: seq<Session>)
    ensures |r| == n && forall i :: 0 <= i < n ==> r[i] == Record(Numbered(i), SessionBody("p", None, false, false, 0, ""))
  {
    seq(n, (i: nat) => Record(Numbered(i), SessionBody("p", None, false, false, 0, "")))
  }

  function RestSettled(n: nat): State
    requires n > 0
  {
    State([Record("p", ProjectBody("/p", NumberedIds(n)))], NumberedSessions(n), [], [Numbered(0)], NumberedIds(n)[1..], [],
          Some("p"), None)
  }

  lemma NumberedDistinct(n: nat)
    ensures Distinct(NumberedIds(n)) && Ids(NumberedSessions(n)) == NumberedIds(n)
  {
    IdsAt(NumberedSessions(n));
    forall i, j | 0 <= i < j < n ensures NumberedIds(n)[i] != NumberedIds(n)[j] {
      assert |Numbered(i)| != |Numbered(j)|;
    }
  }

  lemma NumberedListed(n: nat, p: Project)
    requires p == Record("p", ProjectBody("/p", NumberedIds(n)))
    ensures Partitioned([p], NumberedSessions(n))
  {
    NumberedDistinct(n);
    assert Ids([p]) == ["p"];
    var sessions := NumberedSessions(n);
    forall id ensures id in NumberedIds(n) <==> Owns(sessions, "p", id) {
      if id in NumberedIds(n) {
        var i :| 0 <= i < n && NumberedIds(n)[i] == id;
        assert sessions[i] in sessions;
      }
      if Owns(sessions, "p", id) {
        var s :| s in sessions && s.id == id && s.body.projectId == "p";
        var i :| 0 <= i < n && sessions[i] == s;
        assert NumberedIds(n)[i] == id;
      }
    }
  }

  lemma RestIsApart(n: nat)
    requires n > 0
    ensures Numbered(0) in NumberedIds(n) && Numbered(0) !in NumberedIds(n)[1..]
    ensures ValidIds(NumberedIds(n)[1..], NumberedIds(n), n - 1)
  {
    NumberedDistinct(n);
    var ids := NumberedIds(n);
    assert ids[0] in ids && [ids[0]] + ids[1..] == ids;
    DistinctConcat([ids[0]], ids[1..]);
    hide Distinct;
    assert ids[0] in [ids[0]];
  }

  /** One pinned session with all others settled is a consistent state, up to the limit. */
  lemma RestSettledIsConsistent(n: nat)
    requires 0 < n <= MAX_SETTLED_SESSIONS + 1
    ensures var st := RestSettled(n); Consistent(st) && Numbered(0) in st.pinnedSessions && |st.settled| == n - 1
  {
    var st := RestSettled(n);
    NumberedListed(n, st.projects[0]);
    NumberedDistinct(n);
    RestIsApart(n);
    assert Ids(st.projects) == ["p"];
    assert Distinct([Numbered(0)]) && Distinct(Ids(st.remembered)) && Distinct([]);
    hide Partitioned, Distinct, Numbered, NumberedIds, NumberedSessions;
  }

  /** So a full list and a pinned session can be met. */
  lemma FullAndPinned()
    ensures var st := RestSettled(MAX_SETTLED_SESSIONS + 1);
            Consistent(st) && Numbered(0) in st.pinnedSessions && |st.settled| == MAX_SETTLED_SESSIONS
  {
    hide RestSettled, Consistent, Numbered;
    RestSettledIsConsistent(MAX_SETTLED_SESSIONS + 1);
  }

  // ---------- Moving a project ----------

  lemma SwappedHas<T>(s: seq<T>, i: nat, j: nat)
    ensures |Swapped(s, i, j)| == |s| && forall x :: x in Swapped(s, i, j) <==> x in s
  {
    if i < |s| && j < |s| {
      var r := Swapped(s, i, j);
      assert r[i] == s[j] && r[j] == s[i];
      forall k | 0 <= k < |s| ensures r[k] in s && s[k] in r {
        assert k != i && k != j ==> r[k] == s[k];
      }
    }
  }

  lemma SwappedDistinct(s: seq<Id>, i: nat, j: nat)
    requires Distinct(s)
    ensures Distinct(Swapped(s, i, j))
  {}

  lemma IdsSwapped<T>(s: seq<Record<T>>, i: nat, j: nat)
    ensures Ids(Swapped(s, i, j)) == Swapped(Ids(s), i, j)
  {
    IdsAt(s);
    IdsAt(Swapped(s, i, j));
  }

  lemma MoveKeeps(st: State, projectId: Id, up: bool)
    requires Consistent(st)
    ensures Consistent(ProjectMoved(st, projectId, up))
  {
    hide Distinct, Recallable, ListsItsOwn;
    var r := ProjectMoved(st, projectId, up);
    if projectId in st.pinnedProjects {
      var i := IndexOf(st.pinnedProjects, projectId);
      if HasNeighbour(st.pinnedProjects, projectId, up) {
        var j := if up then i - 1 else i + 1;
        SwappedHas(st.pinnedProjects, i, j);
        SwappedDistinct(st.pinnedProjects, i, j);
      }
    } else if r.projects != st.projects {
      var ids := Ids(st.projects);
      var other := Neighbour(Without(ids, AsSet(st.pinnedProjects)), projectId, up);
      var i, j := IndexOf(ids, projectId), IndexOf(ids, other);
      SwappedHas(st.projects, i, j);
      SwappedHas(ids, i, j);
      SwappedDistinct(ids, i, j);
      IdsSwapped(st.projects, i, j);
    }
  }

  // ---------- Updating a record ----------

  /** The same records but for one, whose project stays and whose durability is not lost. */
  lemma RecordAmended(sessions: seq<Session>, s: Session, c: Change)
    requires Distinct(Ids(sessions)) && s in sessions
    ensures var r := Amend(sessions, s.id, Changed(s.body, c));
            && Ids(r) == Ids(sessions) && Record(s.id, Changed(s.body, c)) in r
            && (forall p, id :: Owns(r, p, id) <==> Owns(sessions, p, id))
            && (forall t <- r :: t in sessions || (t.id == s.id && t.body.projectId == s.body.projectId))
            && (forall id :: Find(r, id) == if id == s.id then Some(Record(id, Changed(s.body, c))) else Find(sessions, id))
  {
    var body := Changed(s.body, c);
    var r := Amend(sessions, s.id, body);
    AmendHas(sessions, s.id, body);
    IdsHas(sessions);
    forall id ensures Find(r, id) == if id == s.id then Some(Record(id, body)) else Find(sessions, id) {
      FindAmended(sessions, s.id, body, id);
    }
    forall p, id ensures Owns(r, p, id) <==> Owns(sessions, p, id) {
      OwnsAmended(sessions, s, body, p, id);
    }
  }

  lemma OwnsAmended(sessions: seq<Session>, s: Session, body: SessionBody, projectId: Id, id: Id)
    requires Distinct(Ids(sessions)) && s in sessions && body.projectId == s.body.projectId
    ensures Owns(Amend(sessions, s.id, body), projectId, id) <==> Owns(sessions, projectId, id)
  {
    var r := Amend(sessions, s.id, body);
    AmendHas(sessions, s.id, body);
    IdsHas(sessions);
    hide Amend, Ids;
    if Owns(sessions, projectId, id) {
      var t :| t in sessions && t.id == id && t.body.projectId == projectId;
      if id == s.id {
        FindIs(sessions, t);
        FindIs(sessions, s);
        assert Record(s.id, body) in r;
      } else {
        assert t in r;
      }
    }
  }

  /** The updated record keeps what is remembered recallable. */
  lemma UpdateKeepsRecallable(sessions: seq<Session>, s: Session, c: Change, m: Record<Id>)
    requires Distinct(Ids(sessions)) && s in sessions && Recallable(sessions, m)
    ensures Recallable(Amend(sessions, s.id, Changed(s.body, c)), m)
  {
    FindAmended(sessions, s.id, Changed(s.body, c), m.body);
    IdsHas(sessions);
    FindIs(sessions, s);
  }

  lemma UpdateKeeps(st: State, id: Id, c: Change)
    requires Consistent(st)
    ensures Consistent(RecordUpdated(st, id, c))
  {
    var s := Find(st.sessions, id);
    if s.Some? {
      var next := Record(id, Changed(s.value.body, c));
      var updated := st.(sessions := Amend(st.sessions, id, next.body));
      RecordAmended(st.sessions, s.value, c);
      forall m | m in st.remembered ensures Recallable(updated.sessions, m) {
        UpdateKeepsRecallable(st.sessions, s.value, c, m);
      }
      hide Owns, Distinct, Amend, Recallable, Put;
      UpdatedPartitioned(st, updated, s.value);
      assert Consistent(updated);
      if st.selectedSession == Some(id) {
        hide Partitioned, Pinned, Selecting;
        RememberKeepsAll(updated, next);
      }
    }
  }

  lemma UpdatedPartitioned(st: State, r: State, s: Session)
    requires Partitioned(st.projects, st.sessions) && r.projects == st.projects && Ids(r.sessions) == Ids(st.sessions)
    requires s in st.sessions
    requires forall p, id :: Owns(r.sessions, p, id) <==> Owns(st.sessions, p, id)
    requires forall t <- r.sessions :: t in st.sessions || (t.id == s.id && t.body.projectId == s.body.projectId)
    ensures Partitioned(r.projects, r.sessions)
  {
    hide Owns, Distinct;
    forall p | p in r.projects ensures ListsItsOwn(r.sessions, p) {
      assert ListsItsOwn(st.sessions, p);
    }
  }

  lemma RememberKeepsAll(st: State, s: Session)
    requires Consistent(st) && s in st.sessions
    ensures Consistent(Remember(st, s))
  {
    DistinctSessions(st);
    RememberKeeps(st, s);
    hide Partitioned, Recallable, Put, Distinct;
  }

  // ---------- Runs ----------

  datatype Step =
    | Add(path: string, newId: Id)
    | Create(projectId: Id, newId: Id, at: int, content: string)
    | Duplicate(sessionId: Id, newId: Id, at: int)
    | ChooseProject(projectId: Id)
    | ChooseSession(sessionId: Id)
    | Close(sessionId: Id)
    | Remove(projectId: Id)
    | PinProject(projectId: Id, on: bool)
    | PinSession(sessionId: Id, on: bool)
    | Settle(sessionId: Id, on: bool, settleable: bool)
    | Move(projectId: Id, up: bool)
    | Update(sessionId: Id, change: Change)

  function Do(st: State, step: Step): State {
    match step
    case Add(path, id) => Added(st, path, id)
    case Create(pid, id, at, content) => Created(st, pid, id, at, content)
    case Duplicate(source, id, at) => Duplicated(st, source, id, at)
    case ChooseProject(pid) => ProjectSelected(st, pid)
    case ChooseSession(id) => SessionSelected(st, id)
    case Close(id) => Closed(st, id)
    case Remove(pid) => Removed(st, pid)
    case PinProject(pid, on) => ProjectPinned(st, pid, on).state
    case PinSession(id, on) => SessionPinned(st, id, on).state
    case Settle(id, on, settleable) => SessionSettled(st, id, on, settleable).state
    case Move(pid, up) => ProjectMoved(st, pid, up)
    case Update(id, change) => RecordUpdated(st, id, change)
  }

  /** A random UUID that is not in use. */
  predicate Fresh(st: State, step: Step) {
    && (step.Add? ==> step.newId !in Ids(st.projects))
    && (step.Create? || step.Duplicate? ==> step.newId !in Ids(st.sessions))
  }

  function Run(st: State, steps: seq<Step>): State {
    if steps == [] then st else Do(Run(st, steps[..|steps| - 1]), steps[|steps| - 1])
  }

  predicate AllFresh(st: State, steps: seq<Step>) {
    steps == [] || (AllFresh(st, steps[..|steps| - 1]) && Fresh(Run(st, steps[..|steps| - 1]), steps[|steps| - 1]))
  }

  lemma StepKeeps(st: State, step: Step)
    requires Consistent(st) && Fresh(st, step)
    ensures Consistent(Do(st, step))
  {
    hide Consistent, Added, Created, Duplicated, ProjectSelected, SessionSelected, Closed, Removed, ProjectPinned,
         SessionPinned, SessionSettled, ProjectMoved, RecordUpdated;
    match step
    case Add(path, id) => AddKeeps(st, path, id);
    case Create(pid, id, at, content) => CreateKeeps(st, pid, id, at, content);
    case Duplicate(source, id, at) => DuplicateKeeps(st, source, id, at);
    case ChooseProject(pid) => SelectProjectKeeps(st, pid);
    case ChooseSession(id) => SelectSessionKeeps(st, id);
    case Close(id) => CloseKeeps(st, id);
    case Remove(pid) => RemoveKeeps(st, pid);
    case PinProject(pid, on) => PinProjectKeeps(st, pid, on);
    case PinSession(id, on) => PinSessionKeeps(st, id, on);
    case Settle(id, on, settleable) => SettleKeeps(st, id, on, settleable);
    case Move(pid, up) => MoveKeeps(st, pid, up);
    case Update(id, change) => UpdateKeeps(st, id, change);
  }

  /** From whatever was loaded, normalized once, every run of operations stays consistent. */
  lemma {:induction false} EveryRunStaysConsistent(loaded: State, steps: seq<Step>)
    requires Distinct(Ids(loaded.remembered)) && AllFresh(Normalized(loaded), steps)
    ensures Consistent(Run(Normalized(loaded), steps))
  {
    hide Normalized, Consistent, Do, Fresh;
    if steps == [] {
      NormalizedIsConsistent(loaded);
    } else {
      EveryRunStaysConsistent(loaded, steps[..|steps| - 1]);
      StepKeeps(Run(Normalized(loaded), steps[..|steps| - 1]), steps[|steps| - 1]);
    }
  }
}
