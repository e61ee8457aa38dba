/** The state-changing methods of AppController over the workspace layout. */
module Workspace {
  import opened Results
  import opened Lists
  import opened Layout
  import opened LayoutSteps
  import opened LayoutRuns
  import opened LayoutUndo

  // ---------- Loops ----------

  /** `filter` with a set of what has been seen: the project's own identifiers, once each. */
  method KeepOwn(ids: seq<Id>, own: seq<Id>) returns (kept: seq<Id>)
    ensures kept == Unique(Keep(ids, AsSet(own)))
  {
    kept := [];
    for i := 0 to |ids|
      invariant kept == Unique(Keep(ids[..i], AsSet(own)))
    {
      OneMoreKept(ids, own, i);
      if ids[i] in own && ids[i] !in kept {
        kept := kept + [ids[i]];
      }
    }
    assert ids[..|ids|] == ids;
  }

  lemma OneMoreKept(ids: seq<Id>, own: seq<Id>, i: nat)
    requires i < |ids|
    ensures var kept := Unique(Keep(ids[..i], AsSet(own)));
            Unique(Keep(ids[..i + 1], AsSet(own))) == if ids[i] in own && ids[i] !in kept then kept + [ids[i]] else kept
  {
    var before := Keep(ids[..i], AsSet(own));
    assert ids[..i + 1][..i] == ids[..i];
    UniqueHas(before);
    if ids[i] in own {
      assert Keep(ids[..i + 1], AsSet(own)) == before + [ids[i]];
      assert (before + [ids[i]])[..|before|] == before;
    }
  }

  /** The inner loop: every session of the project that is not listed yet is appended. */
  method AppendUnlisted(kept: seq<Id>, sessions: seq<Session>, projectId: Id) returns (listed: seq<Id>)
    requires Distinct(Ids(sessions))
    ensures listed == kept + Without(OwnIds(sessions, projectId), AsSet(kept))
  {
    listed := kept;
    for i := 0 to |sessions|
      invariant listed == kept + Without(OwnIds(sessions[..i], projectId), AsSet(kept))
    {
      OneMoreOwn(kept, sessions, projectId, i);
      if sessions[i].body.projectId == projectId && sessions[i].id !in listed {
        listed := listed + [sessions[i].id];
      }
    }
    assert sessions[..|sessions|] == sessions;
  }

  lemma OneMoreOwn(kept: seq<Id>, sessions: seq<Session>, projectId: Id, i: nat)
    requires Distinct(Ids(sessions)) && i < |sessions|
    ensures var listed := kept + Without(OwnIds(sessions[..i], projectId), AsSet(kept)); var s := sessions[i];
            kept + Without(OwnIds(sessions[..i + 1], projectId), AsSet(kept))
            == if s.body.projectId == projectId && s.id !in listed then listed + [s.id] else listed
  {
    var s, own := sessions[i], OwnIds(sessions[..i], projectId);
    assert sessions[..i + 1][..i] == sessions[..i];
    WithoutHas(own, AsSet(kept));
    NotEarlier(sessions, projectId, i);
    assert Without([s.id], AsSet(kept)) == if s.id in kept then [] else [s.id];
    WithoutConcat(own, [s.id], AsSet(kept));
    hide Distinct, Without, AsSet;
    assert kept + (Without(own, AsSet(kept)) + [s.id]) == kept + Without(own, AsSet(kept)) + [s.id];
    assert OwnIds(sessions[..i + 1], projectId) == if s.body.projectId == projectId then own + [s.id] else own;
  }

  lemma NotEarlier(sessions: seq<Session>, projectId: Id, i: nat)
    requires Distinct(Ids(sessions)) && i < |sessions|
    ensures sessions[i].id !in OwnIds(sessions[..i], projectId)
  {
    OwnHas(sessions[..i], projectId);
    IdsAt(sessions);
    forall j | 0 <= j < i ensures sessions[j].id != sessions[i].id {
      assert Ids(sessions)[j] != Ids(sessions)[i];
    }
  }

  method AdoptSessions(projects: seq<Project>, sessions: seq<Session>) returns (r: seq<Project>)
    requires Distinct(Ids(sessions))
    ensures r == AdoptAll(projects, sessions)
  {
    r := [];
    for i := 0 to |projects|
      invariant r == AdoptAll(projects[..i], sessions)
    {
      var p := projects[i];
      assert projects[..i + 1][..i] == projects[..i];
      var kept := KeepOwn(p.body.sessionIds, OwnIds(sessions, p.id));
      var listed := AppendUnlisted(kept, sessions, p.id);
      r := r + [Record(p.id, p.body.(sessionIds := listed))];
    }
    assert projects[..|projects|] == projects;
  }

  /** restoreTrackedIds */
  method RestoreTrackedIds(current: seq<Id>, original: seq<Id>, tracked: set<Id>) returns (restored: seq<Id>)
    ensures restored == RestoreTracked(current, original, tracked)
  {
    restored := Without(current, tracked);
    for index := 0 to |original|
      invariant restored == RestoredUpTo(Without(current, tracked), original, tracked, index)
    {
      if original[index] in tracked && original[index] !in restored {
        restored := Splice(restored, index, original[index]);
      }
    }
  }

  method RestoreSessions(sessions: seq<Session>, removed: seq<Displaced>, now: int) returns (r: seq<Session>)
    ensures r == SessionsBack(sessions, removed, now)
  {
    r := sessions;
    for i := 0 to |removed|
      invariant r == SessionsBack(sessions, removed[..i], now)
    {
      assert removed[..i + 1][..i] == removed[..i];
      if removed[i].session.id !in Ids(r) {
        var s := removed[i].session;
        r := Splice(r, removed[i].index, Record(s.id, Quiesced(s.body, now)));
      }
    }
    assert removed[..|removed|] == removed;
  }

  // ---------- The controller ----------

  class AppController {
    var state: State

    constructor (loaded: State)
      requires Distinct(Ids(loaded.remembered))
      ensures state == Normalized(loaded) && Consistent(state)
    {
      state := loaded;
      new;
      NormalizeLayoutState();
    }

    method NormalizeLayoutState()
      requires Distinct(Ids(state.remembered))
      modifies this
      ensures state == Normalized(old(state)) && Consistent(state)
    {
      NormalizedIsConsistent(state);
      FirstByIdHas(state.sessions);
      hide Consistent, AdoptAll, ValidOnes, RecallableOnes, Reselected, Distinct;
      state := state.(projects := FirstById(state.projects), sessions := FirstById(state.sessions));
      var projectIds := Ids(state.projects);
      InProjectsDistinct(state.sessions, projectIds);
      state := state.(sessions := InProjects(state.sessions, projectIds));
      var adopted := AdoptSessions(state.projects, state.sessions);
      state := state.(projects := adopted);
      var sessionIds := Ids(state.sessions);
      var pinned := ValidOnes(state.pinnedSessions, sessionIds, MAX_PINNED_SESSIONS);
      state := state.(
        pinnedProjects := ValidOnes(state.pinnedProjects, projectIds, MAX_PINNED_PROJECTS),
        pinnedSessions := pinned);
      state := state.(settled := Without(ValidOnes(state.settled, sessionIds, MAX_SETTLED_SESSIONS), AsSet(pinned)));
      state := state.(remembered := Take(RecallableOnes(state.sessions, state.remembered), MAX_REMEMBERED));
      assert state == Trimmed(old(state));
      state := Reselected(state);
    }

    method CreateSession(projectId: Id, id: Id, at: int, content: string) returns (r: Result<(), Error>)
      requires Consistent(state) && id !in Ids(state.sessions)
      modifies this
      ensures Consistent(state) && state == Created(old(state), projectId, id, at, content)
      ensures r.Success? <==> Find(old(state).projects, projectId).Some?
    {
      CreateKeeps(state, projectId, id, at, content);
      hide Consistent, Amend, Splice;
      var project := Find(state.projects, projectId);
      if project.None? { return Failure(UnknownProject); }
      var session := Record(id, SessionBody(projectId, None, false, false, at, content));
      var body := project.value.body;
      AtTheEnd(state.sessions, session);
      AtTheEnd(body.sessionIds, id);
      state := state.(sessions := state.sessions + [session]);
      state := state.(projects := Amend(state.projects, projectId, body.(sessionIds := body.sessionIds + [id])));
      state := state.(selectedProject := Some(projectId), selectedSession := Some(id));
      return Success(());
    }

    method CloseSession(id: Id) returns (r: Result<ClosedRollback, Error>)
      requires Consistent(state)
      modifies this
      ensures Consistent(state) && state == Closed(old(state), id)
      ensures r.Success? ==> Find(old(state).sessions, id).Some? && Find(old(state).projects, r.value.projectId).Some?
                             && r.value == RollbackOfClose(old(state), Find(old(state).sessions, id).value,
                                                           Find(old(state).projects, r.value.projectId).value)
      ensures r.Failure? ==> Find(old(state).sessions, id).None?
    {
      CloseKeeps(state, id);
      SessionHasProject(state, id);
      hide Consistent, Amend, CloseFallback, RollbackOfClose, Remember;
      var session := Find(state.sessions, id);
      if session.None? { return Failure(UnknownSession); }
      var project := Find(state.projects, session.value.body.projectId).value;
      var rollback := RollbackOfClose(state, session.value, project);
      var body := project.body;
      state := state.(sessions := WithoutIds(state.sessions, {id}));
      state := state.(projects := Amend(state.projects, project.id, body.(sessionIds := Without(body.sessionIds, {id}))));
      state := state.(pinnedSessions := Without(state.pinnedSessions, {id}), settled := Without(state.settled, {id}));
      if Lookup(state.remembered, project.id) == Some(id) {
        state := state.(remembered := WithoutIds(state.remembered, {project.id}));
      }
      if state.selectedSession == Some(id) {
        var fallback := CloseFallback(state, project.id);
        if fallback.Some? {
          state := state.(selectedProject := Some(fallback.value.body.projectId), selectedSession := Some(fallback.value.id));
          state := Remember(state, fallback.value);
        } else {
          state := state.(selectedProject := Some(project.id), selectedSession := None);
        }
      }
      return Success(rollback);
    }

    method RestoreClosedSession(rollback: ClosedRollback, committed: Selection, committedMapped: Option<Id>, now: int)
      modifies this
      ensures state == CloseUndone(old(state), rollback, committed, committedMapped, now)
    {
      hide Splice, Amend, Put, Lookup;
      var id := rollback.session.id;
      if id !in Ids(state.sessions) {
        var restored := Record(id, Quiesced(rollback.session.body, now));
        state := state.(sessions := Splice(state.sessions, rollback.sessionIndex, restored));
      }
      state := state.(projects := ListedAgain(state.projects, rollback));
      if rollback.pinnedIndex.Some? && id !in state.pinnedSessions {
        state := state.(pinnedSessions := Splice(state.pinnedSessions, rollback.pinnedIndex.value, id));
      }
      if rollback.settledIndex.Some? && id !in state.pinnedSessions && id !in state.settled {
        state := state.(settled := Splice(state.settled, rollback.settledIndex.value, id));
      }
      if Lookup(state.remembered, rollback.projectId) == committedMapped {
        state := state.(remembered := Remap(state.remembered, rollback.projectId, rollback.mapped));
      }
      if SelectionOf(state) == committed {
        state := state.(selectedProject := rollback.selection.project, selectedSession := rollback.selection.session);
      }
    }

    method RemoveProject(projectId: Id) returns (r: Result<RemovedRollback, Error>)
      requires Consistent(state)
      modifies this
      ensures Consistent(state) && state == Removed(old(state), projectId)
      ensures r.Success? <==> Find(old(state).projects, projectId).Some?
      ensures r.Success? ==> r.value == RollbackOfRemoval(old(state), Find(old(state).projects, projectId).value)
    {
      RemoveKeeps(state, projectId);
      hide Consistent, RollbackOfRemoval, FirstOrdered, Preferred, Remember;
      var project := Find(state.projects, projectId);
      if project.None? { return Failure(UnknownProject); }
      var rollback := RollbackOfRemoval(state, project.value);
      var next := FirstOrdered(state.projects, state.pinnedProjects, {projectId});
      var gone := AsSet(OwnIds(state.sessions, projectId));
      state := state.(sessions := OutsideProject(state.sessions, projectId));
      state := state.(projects := WithoutIds(state.projects, {projectId}));
      state := state.(pinnedProjects := Without(state.pinnedProjects, {projectId}));
      state := state.(pinnedSessions := Without(state.pinnedSessions, gone), settled := Without(state.settled, gone));
      state := state.(remembered := WithoutIds(state.remembered, {projectId}));
      if state.selectedProject == Some(projectId) || (state.selectedSession.Some? && state.selectedSession.value in gone) {
        if next.Some? {
          var session := Preferred(state, next.value);
          state := state.(selectedProject := next);
          if session.Some? {
            state := state.(selectedSession := Some(session.value.id));
            state := Remember(state, session.value);
          } else {
            state := state.(selectedSession := None);
          }
        } else {
          state := state.(selectedProject := None, selectedSession := None);
        }
      }
      return Success(rollback);
    }

    method RestoreRemovedProject(rollback: RemovedRollback, committed: Selection, now: int)
      modifies this
      ensures state == RemovalUndone(old(state), rollback, committed, now)
    {
      hide Splice, Put, Lookup, SessionsBack, RestoreTracked;
      var projectId, gone := rollback.project.id, DisplacedIds(rollback.removed);
      if projectId !in Ids(state.projects) {
        state := state.(projects := Splice(state.projects, rollback.index, rollback.project));
      }
      var sessions := RestoreSessions(state.sessions, rollback.removed, now);
      state := state.(sessions := sessions);
      var pinnedProjects := RestoreTrackedIds(state.pinnedProjects, rollback.pinnedProjects, {projectId});
      var pinnedSessions := RestoreTrackedIds(state.pinnedSessions, rollback.pinnedSessions, gone);
      var settled := RestoreTrackedIds(state.settled, rollback.settled, gone);
      state := state.(pinnedProjects := pinnedProjects, pinnedSessions := pinnedSessions,
                      settled := Without(settled, AsSet(pinnedSessions)));
      if Lookup(state.remembered, projectId).None? && rollback.mapped.Some? {
        state := state.(remembered := Put(state.remembered, projectId, rollback.mapped.value));
      }
      if SelectionOf(state) == committed {
        state := state.(selectedProject := rollback.selection.project, selectedSession := rollback.selection.session);
      }
    }

    /** An event of a running session replaces its record in place. */
    method UpdateSessionRecord(id: Id, c: Change)
      requires Consistent(state)
      modifies this
      ensures Consistent(state) && state == RecordUpdated(old(state), id, c)
    {
      UpdateKeeps(state, id, c);
      FindNone(state.sessions, id);
      hide Consistent;
      if id !in Ids(state.sessions) { return; }
      var index := IndexOf(Ids(state.sessions), id);
      AmendedAt(state, id, c);
      var next := Record(id, Changed(state.sessions[index].body, c));
      state := state.(sessions := state.sessions[index := next]);
      if state.selectedSession == Some(id) {
        state := Remember(state, next);
      }
    }

    method SetProjectPinned(projectId: Id, pinned: bool) returns (error: Option<Error>)
      requires Consistent(state)
      modifies this
      ensures Consistent(state) && Outcome(state, error) == ProjectPinned(old(state), projectId, pinned)
    {
      PinProjectKeeps(state, projectId, pinned);
      hide Consistent;
      var project := Find(state.projects, projectId);
      if project.None? { return Some(UnknownProject); }
      if pinned == (projectId in state.pinnedProjects) { return None; }
      if pinned {
        if |state.pinnedProjects| >= MAX_PINNED_PROJECTS { return Some(TooManyPins); }
        state := state.(pinnedProjects := [projectId] + state.pinnedProjects);
      } else {
        state := state.(pinnedProjects := Without(state.pinnedProjects, {projectId}));
        state := state.(projects := [project.value] + WithoutIds(state.projects, {projectId}));
      }
      return None;
    }

    method SetSessionPinned(id: Id, pinned: bool) returns (error: Option<Error>)
      requires Consistent(state)
      modifies this
      ensures Consistent(state) && Outcome(state, error) == SessionPinned(old(state), id, pinned)
    {
      PinSessionKeeps(state, id, pinned);
      hide Consistent;
      if Find(state.sessions, id).None? { return Some(UnknownSession); }
      if pinned == (id in state.pinnedSessions) {
        if pinned {
          state := state.(settled := Without(state.settled, {id}));
        }
        return None;
      }
      if pinned {
        if |state.pinnedSessions| >= MAX_PINNED_SESSIONS {
          state := state.(pinnedSessions := state.pinnedSessions[1..]);
        }
        state := state.(pinnedSessions := state.pinnedSessions + [id]);
        state := state.(settled := Without(state.settled, {id}));
      } else {
        state := state.(pinnedSessions := Without(state.pinnedSessions, {id}));
      }
      return None;
    }

    method SetSessionSettled(id: Id, settled: bool, settleable: bool) returns (error: Option<Error>)
      requires Consistent(state)
      modifies this
      ensures Consistent(state) && Outcome(state, error) == SessionSettled(old(state), id, settled, settleable)
    {
      SettleKeeps(state, id, settled, settleable);
      SettledAlready(state, id);
      hide Consistent;
      if Find(state.sessions, id).None? { return Some(UnknownSession); }
      if !settled {
        if id in state.settled {
          state := state.(settled := Without(state.settled, {id}));
        }
        return None;
      }
      if !settleable { return Some(SessionBusy); }
      if id in state.settled && id !in state.pinnedSessions { return None; }
      state := state.(pinnedSessions := Without(state.pinnedSessions, {id}));
      if id !in state.settled {
        if |state.settled| >= MAX_SETTLED_SESSIONS { return Some(TooManySettled); }
        state := state.(settled := state.settled + [id]);
      }
      return None;
    }
  }

  lemma AmendedAt(st: State, id: Id, c: Change)
    requires Consistent(st) && id in Ids(st.sessions)
    ensures var i := IndexOf(Ids(st.sessions), id);
            && i < |st.sessions| && Find(st.sessions, id) == Some(st.sessions[i])
            && Amend(st.sessions, id, Changed(st.sessions[i].body, c))
               == st.sessions[i := Record(id, Changed(st.sessions[i].body, c))]
  {
    DistinctSessions(st);
    IdsAt(st.sessions);
    var i := IndexOf(Ids(st.sessions), id);
    FindIs(st.sessions, st.sessions[i]);
    hide Consistent, Distinct, Ids, Find, Amend;
    CutRecord(st.sessions, id, Changed(st.sessions[i].body, c));
  }

  lemma AtTheEnd<T>(s: seq<T>, x: T)
    ensures Splice(s, |s|, x) == s + [x]
  {}

  lemma SettledAlready(st: State, id: Id)
    ensures id !in st.settled ==> Without(st.settled, {id}) == st.settled
    ensures id !in st.pinnedSessions ==> Without(st.pinnedSessions, {id}) == st.pinnedSessions
  {
    if id !in st.settled {
      WithoutNone(st.settled, {id});
    }
    if id !in st.pinnedSessions {
      WithoutNone(st.pinnedSessions, {id});
    }
  }

  lemma SessionHasProject(st: State, id: Id)
    requires Consistent(st)
    ensures var s := Find(st.sessions, id);
            s.Some? ==> var p := Find(st.projects, s.value.body.projectId); p.Some? && p.value.id == s.value.body.projectId
  {
    var s := Find(st.sessions, id);
    if s.Some? {
      FindNone(st.projects, s.value.body.projectId);
    }
  }
}
