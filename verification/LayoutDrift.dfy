/** Rolling back a close or a removal after something else has happened: what it adds and leaves alone
    whatever the state has become, and that after everything an open transaction lets happen the layout is
    as it was. */
module LayoutDrift {
  import opened Results
  import opened Lists
  import opened Layout
  import opened LayoutSteps
  import opened LayoutRuns
  import opened LayoutUndo

  // ---------- When an undone close is consistent ----------

  /** There is room for the pin, or for the settled session if it had no pin. */
  predicate RoomAgain(st: State, rb: ClosedRollback) {
    && (rb.pinnedIndex.Some? ==> |st.pinnedSessions| < MAX_PINNED_SESSIONS)
    && (rb.pinnedIndex.None? && rb.settledIndex.Some? ==> |st.settled| < MAX_SETTLED_SESSIONS)
  }

  /** If the remembered session is to be put back, it is the restored one or still there. */
  predicate MappedAgain(st: State, rb: ClosedRollback, committedMapped: Option<Id>) {
    Lookup(st.remembered, rb.projectId) == committedMapped && rb.mapped.Some? ==>
      if rb.mapped.value == rb.session.id then rb.session.body.Durable()
      else Recallable(st.sessions, Record(rb.projectId, rb.mapped.value))
  }

  /** If the selection is to be put back, its project and session are there. */
  predicate SelectedAgain(st: State, rb: ClosedRollback, committed: Selection) {
    SelectionOf(st) == committed ==>
      && rb.selection.project.Some? && rb.selection.project.value in Ids(st.projects)
      && (rb.selection.session.Some? ==>
            if rb.selection.session.value == rb.session.id then rb.selection.project == Some(rb.projectId)
            else
              var s := Find(st.sessions, rb.selection.session.value);
              s.Some? && rb.selection.project == Some(s.value.body.projectId))
  }

  /** In any state whatever, undoing a close leaves a consistent layout exactly when there is room for the
      pin or settled session and what is put back in the selection still exists. */
  lemma UndoneCloseIsConsistentExactly(st: State, rb: ClosedRollback, committed: Selection, mapped: Option<Id>, now: int)
    requires Consistent(st) && rb.session.id !in Ids(st.sessions)
    requires rb.session.body.projectId == rb.projectId && rb.projectId in Ids(st.projects)
    ensures Consistent(CloseUndone(st, rb, committed, mapped, now))
            <==> RoomAgain(st, rb) && MappedAgain(st, rb, mapped) && SelectedAgain(st, rb, committed)
  {
    UndoAfterDriftOnlyAdds(st, rb, committed, mapped, now);
    UndoneSessions(st, rb, committed, mapped, now);
    UndoneIsPinnedExactly(st, rb, committed, mapped, now);
    UndoneRemembersExactly(st, rb, committed, mapped, now);
    UndoneIsSelectingExactly(st, rb, committed, mapped, now);
    hide Partitioned, Pinned, Remembering, Selecting, RoomAgain, MappedAgain, SelectedAgain, CloseUndone;
  }

  lemma UndoneSessions(st: State, rb: ClosedRollback, committed: Selection, mapped: Option<Id>, now: int)
    requires Consistent(st) && rb.session.id !in Ids(st.sessions)
    ensures var r := CloseUndone(st, rb, committed, mapped, now);
            && (forall id :: id in Ids(r.sessions) <==> id in Ids(st.sessions) || id == rb.session.id)
            && Ids(r.projects) == Ids(st.projects)
            && forall id :: Find(r.sessions, id) ==
                 if id == rb.session.id then Some(Record(id, Quiesced(rb.session.body, now))) else Find(st.sessions, id)
  {
    var s := Record(rb.session.id, Quiesced(rb.session.body, now));
    IdsSplice(st.sessions, rb.sessionIndex, s);
    SpliceHas(Ids(st.sessions), rb.sessionIndex, s.id);
    ListedAgainIds(st.projects, rb);
    hide Splice, Ids, Consistent, ListedAgain, Remap, PutBack;
    forall id ensures Find(Splice(st.sessions, rb.sessionIndex, s), id) == if id == s.id then Some(s) else Find(st.sessions, id) {
      FindSpliced(st.sessions, rb.sessionIndex, s, id);
    }
  }

  lemma ListedAgainIds(projects: seq<Project>, rb: ClosedRollback)
    ensures Ids(ListedAgain(projects, rb)) == Ids(projects)
  {
    var project := Find(projects, rb.projectId);
    if project.Some? {
      var body := project.value.body;
      AmendHas(projects, rb.projectId, body.(sessionIds := PutBack(body.sessionIds, Some(rb.listedIndex), rb.session.id)));
    }
  }

  lemma PutBackValid(ids: seq<Id>, valid: seq<Id>, more: seq<Id>, limit: nat, index: Option<nat>, id: Id)
    requires ValidIds(ids, valid, limit) && id !in valid && forall x :: x in more <==> x in valid || x == id
    ensures id !in ids
    ensures ValidIds(PutBack(ids, index, id), more, limit) <==> (index.Some? ==> |ids| < limit)
    ensures forall x :: x in PutBack(ids, index, id) <==> x in ids || (x == id && index.Some?)
  {
    if index.Some? {
      SpliceHas(ids, index.value, id);
      assert id !in ids;
      SpliceDistinct(ids, index.value, id);
    }
    hide Distinct, Splice;
  }

  lemma UndoneIsPinnedExactly(st: State, rb: ClosedRollback, committed: Selection, mapped: Option<Id>, now: int)
    requires Consistent(st) && rb.session.id !in Ids(st.sessions)
    requires var r := CloseUndone(st, rb, committed, mapped, now);
             && (forall id :: id in Ids(r.sessions) <==> id in Ids(st.sessions) || id == rb.session.id)
             && Ids(r.projects) == Ids(st.projects)
    ensures Pinned(CloseUndone(st, rb, committed, mapped, now)) <==> RoomAgain(st, rb)
  {
    var r := CloseUndone(st, rb, committed, mapped, now);
    PutBackValid(st.pinnedSessions, Ids(st.sessions), Ids(r.sessions), MAX_PINNED_SESSIONS, rb.pinnedIndex, rb.session.id);
    PutBackValid(st.settled, Ids(st.sessions), Ids(r.sessions), MAX_SETTLED_SESSIONS, rb.settledIndex, rb.session.id);
    PutBackValid(st.settled, Ids(st.sessions), Ids(r.sessions), MAX_SETTLED_SESSIONS, None, rb.session.id);
    hide Partitioned, Remembering, Selecting, PutBack, SessionBack, ListedAgain, Remap, ValidIds, Ids;
    assert PutBack(st.settled, None, rb.session.id) == st.settled by { PutBackNothing(st.settled, rb.session.id); }
  }

  lemma PutBackNothing(ids: seq<Id>, id: Id)
    ensures PutBack(ids, None, id) == ids
  {}

  lemma UndoneRemembersExactly(st: State, rb: ClosedRollback, committed: Selection, mapped: Option<Id>, now: int)
    requires Consistent(st) && rb.session.id !in Ids(st.sessions) && rb.session.body.projectId == rb.projectId
    requires var r := CloseUndone(st, rb, committed, mapped, now);
             forall id :: Find(r.sessions, id) ==
               if id == rb.session.id then Some(Record(id, Quiesced(rb.session.body, now))) else Find(st.sessions, id)
    ensures Remembering(CloseUndone(st, rb, committed, mapped, now)) <==> MappedAgain(st, rb, mapped)
  {
    var r := CloseUndone(st, rb, committed, mapped, now);
    FindNone(st.sessions, rb.session.id);
    forall m | m in st.remembered ensures Recallable(r.sessions, m) {
      assert Recallable(st.sessions, m);
    }
    RemapRemembersExactly(r.sessions, st.remembered, rb.projectId, rb.mapped);
    hide Partitioned, Pinned, Selecting, PutBack, SessionBack, ListedAgain, Distinct, Find, Lookup, Remap;
  }

  lemma RemapRemembersExactly(sessions: seq<Session>, remembered: seq<Record<Id>>, projectId: Id, mapped: Option<Id>)
    requires Distinct(Ids(remembered)) && forall m <- remembered :: Recallable(sessions, m)
    ensures var r := Remap(remembered, projectId, mapped);
            Distinct(Ids(r)) && ((forall m <- r :: Recallable(sessions, m))
                                 <==> (mapped.Some? ==> Recallable(sessions, Record(projectId, mapped.value))))
  {
    hide Recallable, Distinct, Put, WithoutIds, Ids;
    if mapped.Some? {
      PutHas(remembered, projectId, mapped.value);
      assert Record(projectId, mapped.value) in Put(remembered, projectId, mapped.value);
    } else {
      WithoutIdsHas(remembered, {projectId});
      WithoutHas(Ids(remembered), {projectId});
      forall m | m in WithoutIds(remembered, {projectId}) ensures Recallable(sessions, m) {
        InWithoutIds(remembered, {projectId}, m);
      }
    }
  }

  lemma UndoneIsSelectingExactly(st: State, rb: ClosedRollback, committed: Selection, mapped: Option<Id>, now: int)
    requires Consistent(st) && rb.session.id !in Ids(st.sessions) && rb.session.body.projectId == rb.projectId
    requires rb.projectId in Ids(st.projects)
    requires var r := CloseUndone(st, rb, committed, mapped, now);
             && Ids(r.projects) == Ids(st.projects)
             && forall id :: Find(r.sessions, id) ==
                  if id == rb.session.id then Some(Record(id, Quiesced(rb.session.body, now))) else Find(st.sessions, id)
    ensures Selecting(CloseUndone(st, rb, committed, mapped, now)) <==> SelectedAgain(st, rb, committed)
  {
    var r := CloseUndone(st, rb, committed, mapped, now);
    FindNone(st.sessions, rb.session.id);
    hide Partitioned, Pinned, Remembering, PutBack, SessionBack, ListedAgain, Remap, Find;
    NoProjects(r.projects);
    NoProjects(st.projects);
    hide Ids;
    if SelectionOf(st) == committed {
      ReselectedExactly(st, rb, r, committed, now);
    }
  }

  lemma NoProjects(projects: seq<Project>)
    ensures projects == [] <==> Ids(projects) == []
  {}

  lemma ReselectedExactly(st: State, rb: ClosedRollback, r: State, committed: Selection, now: int)
    requires SelectionOf(st) == committed && SelectionOf(r) == rb.selection && r.projects != [] && Ids(r.projects) == Ids(st.projects)
    requires rb.session.body.projectId == rb.projectId
    requires forall id :: Find(r.sessions, id) ==
               if id == rb.session.id then Some(Record(id, Quiesced(rb.session.body, now))) else Find(st.sessions, id)
    ensures Selecting(r) <==> SelectedAgain(st, rb, committed)
  {
    hide Find, Ids;
  }

  // ---------- A removal undone after other operations ----------

  lemma SplicedGone<T>(s: seq<Record<T>>, at: nat, r: Record<T>, gone: set<Id>)
    requires r.id in gone
    ensures WithoutIds(Splice(s, at, r), gone) == WithoutIds(s, gone)
  {
    var i := Clamped(at, |s|);
    assert s == s[..i] + s[i..];
    WithoutIdsConcat(s[..i] + [r], s[i..], gone);
    WithoutIdsConcat(s[..i], [r], gone);
    WithoutIdsConcat(s[..i], s[i..], gone);
    assert WithoutIds([r], gone) == [];
  }

  /** The displaced sessions come back, one of each, among whatever is there. */
  lemma {:induction false} BackAmongOthers(base: seq<Session>, removed: seq<Displaced>, now: int, gone: set<Id>)
    requires DisplacedIds(removed) <= gone
    ensures var r := SessionsBack(base, removed, now);
            && WithoutIds(r, gone) == WithoutIds(base, gone)
            && (Distinct(Ids(base)) ==> Distinct(Ids(r)))
            && (forall id :: id in Ids(r) <==> id in Ids(base) || id in DisplacedIds(removed))
  {
    if removed != [] {
      var front, d := removed[..|removed| - 1], removed[|removed| - 1];
      Snoc(removed);
      OneDisplacedMore(front, d);
      BackAmongOthers(base, front, now, gone);
      hide Distinct, DisplacedIds, Splice, WithoutIds, Ids;
      var before := SessionsBack(base, front, now);
      if d.session.id !in Ids(before) {
        var s := Record(d.session.id, Quiesced(d.session.body, now));
        SplicedGone(before, d.index, s, gone);
        IdsSplice(before, d.index, s);
        SpliceHas(Ids(before), d.index, s.id);
        if Distinct(Ids(base)) {
          SpliceDistinct(Ids(before), d.index, s.id);
        }
      }
    }
  }

  /** Where the sessions of a restored list come from. */
  lemma {:induction false} BackOrigins(base: seq<Session>, removed: seq<Displaced>, now: int, projectId: Id)
    requires forall d <- removed :: d.session.body.projectId == projectId
    ensures var r := SessionsBack(base, removed, now);
            && (forall s <- base :: s in r)
            && (forall s <- r :: s in base || (s.id in DisplacedIds(removed) && s.body.projectId == projectId))
  {
    if removed != [] {
      var front, d := removed[..|removed| - 1], removed[|removed| - 1];
      assert d in removed;
      BackOrigins(base, front, now, projectId);
      OneDisplacedMore(front, d);
      Snoc(removed);
      hide DisplacedIds, SessionBack;
      OneBackAmong(SessionsBack(base, front, now), d.session, d.index, now);
    }
  }

  lemma OneBackAmong(sessions: seq<Session>, s: Session, at: nat, now: int)
    ensures var r := SessionBack(sessions, s, at, now);
            && (forall t <- sessions :: t in r)
            && (forall t <- r :: t in sessions || (t.id == s.id && t.body.projectId == s.body.projectId))
  {
    SpliceHas(sessions, at, Record(s.id, Quiesced(s.body, now)));
    hide Splice, Ids;
  }

  /** The rollback lists exactly the sessions it brings back, all of its project. */
  ghost predicate ListsDisplaced(rb: RemovedRollback) {
    && Distinct(rb.project.body.sessionIds)
    && (forall id :: id in rb.project.body.sessionIds <==> id in DisplacedIds(rb.removed))
    && (forall d <- rb.removed :: d.session.body.projectId == rb.project.id)
  }

  lemma {:induction false} DisplacedBelong(sessions: seq<Session>, projectId: Id)
    ensures forall d <- DisplacedOf(sessions, projectId) :: d.session in sessions && d.session.body.projectId == projectId
  {
    if sessions != [] {
      DisplacedBelong(sessions[..|sessions| - 1], projectId);
    }
  }

  /** Every rollback recorded from a consistent layout does. */
  lemma RecordedListsDisplaced(before: State, project: Project)
    requires Consistent(before) && project in before.projects
    ensures ListsDisplaced(RollbackOfRemoval(before, project))
  {
    assert ListsItsOwn(before.sessions, project);
    DisplacedIdsAre(before.sessions, project.id);
    DisplacedBelong(before.sessions, project.id);
    OwnHas(before.sessions, project.id);
    hide Distinct, Owns, DisplacedIds, OwnIds, DisplacedOf;
  }

  /** After any other operations, an undone removal adds the project and its sessions and leaves the
      order of everything else alone; pins win over settled sessions, and a selection or a remembered
      session chosen meanwhile stays. */
  lemma RemovalUndoneAfterDriftOnlyAdds(st: State, rb: RemovedRollback, committed: Selection, now: int)
    ensures var r, pid, gone := RemovalUndone(st, rb, committed, now), rb.project.id, DisplacedIds(rb.removed);
            && WithoutIds(r.projects, {pid}) == WithoutIds(st.projects, {pid}) && pid in Ids(r.projects)
            && WithoutIds(r.sessions, gone) == WithoutIds(st.sessions, gone) && (forall id <- gone :: id in Ids(r.sessions))
            && Without(r.pinnedProjects, {pid}) == Without(st.pinnedProjects, {pid})
            && Without(r.pinnedSessions, gone) == Without(st.pinnedSessions, gone)
            && Without(r.settled, gone) == Without(Without(st.settled, gone), AsSet(r.pinnedSessions))
            && SelectionOf(r) == if SelectionOf(st) == committed then rb.selection else SelectionOf(st)
    ensures forall key :: Lookup(RemovalUndone(st, rb, committed, now).remembered, key) ==
              if key == rb.project.id && Lookup(st.remembered, key).None? then rb.mapped else Lookup(st.remembered, key)
  {
    var pid, gone := rb.project.id, DisplacedIds(rb.removed);
    var pinned := RestoreTracked(st.pinnedSessions, rb.pinnedSessions, gone);
    BackAmongOthers(st.sessions, rb.removed, now, gone);
    SplicedGone(st.projects, rb.index, rb.project, {pid});
    IdsSplice(st.projects, rb.index, rb.project);
    SpliceHas(Ids(st.projects), rb.index, pid);
    RestoreTrackedOnDriftedList(st.pinnedProjects, rb.pinnedProjects, {pid}, pid);
    RestoreTrackedOnDriftedList(st.pinnedSessions, rb.pinnedSessions, gone, pid);
    RestoreTrackedOnDriftedList(st.settled, rb.settled, gone, pid);
    WithoutSwapped(RestoreTracked(st.settled, rb.settled, gone), AsSet(pinned), gone);
    hide SessionsBack, RestoreTracked, Splice, Without, WithoutIds, Ids, Put, DisplacedIds, AsSet;
    forall key ensures Lookup(RemovalUndone(st, rb, committed, now).remembered, key) ==
              if key == pid && Lookup(st.remembered, key).None? then rb.mapped else Lookup(st.remembered, key)
    {
      if rb.mapped.Some? {
        LookupPut(st.remembered, pid, rb.mapped.value, key);
      }
    }
  }

  lemma {:induction false} WithoutSwapped(s: seq<Id>, a: set<Id>, b: set<Id>)
    ensures Without(Without(s, a), b) == Without(Without(s, b), a)
  {
    if s != [] {
      WithoutSwapped(s[..|s| - 1], a, b);
    }
  }

  /** `sessions` is `base` and the sessions `gone`, all of one project. */
  ghost predicate Joins(base: seq<Session>, gone: set<Id>, projectId: Id, sessions: seq<Session>) {
    && (forall s <- base :: s in sessions)
    && (forall s <- sessions :: s in base || (s.id in gone && s.body.projectId == projectId))
    && (forall id <- gone :: Held(sessions, id))
  }

  lemma RestoredList(base: seq<Session>, gone: set<Id>, sessions: seq<Session>, p: Project)
    requires Joins(base, gone, p.id, sessions) && Distinct(p.body.sessionIds)
    requires forall s <- base :: s.id !in gone && s.body.projectId != p.id
    requires forall id :: id in p.body.sessionIds <==> id in gone
    ensures ListsItsOwn(sessions, p)
  {
    hide Distinct;
    forall id ensures id in p.body.sessionIds <==> Owns(sessions, p.id, id) {
      if id in gone {
        var s :| s in sessions && s.id == id;
        assert s.body.projectId == p.id;
      }
    }
  }

  lemma OtherList(base: seq<Session>, gone: set<Id>, projectId: Id, sessions: seq<Session>, p: Project)
    requires Joins(base, gone, projectId, sessions) && ListsItsOwn(base, p) && p.id != projectId
    ensures ListsItsOwn(sessions, p)
  {
    hide Distinct;
    forall id ensures Owns(base, p.id, id) <==> Owns(sessions, p.id, id) {
      if Owns(base, p.id, id) {
        var s :| s in base && s.id == id && s.body.projectId == p.id;
        assert s in sessions;
      }
    }
  }

  lemma JoinedPartitioned(projects: seq<Project>, base: seq<Session>, gone: set<Id>, sessions: seq<Session>, p: Project, at: nat)
    requires Partitioned(projects, base) && Distinct(Ids(sessions)) && p.id !in Ids(projects)
    requires Joins(base, gone, p.id, sessions) && ListsItsOwn(sessions, p)
    ensures Partitioned(Splice(projects, at, p), sessions)
  {
    var more := Splice(projects, at, p);
    IdsSplice(projects, at, p);
    SpliceHas(Ids(projects), at, p.id);
    SpliceDistinct(Ids(projects), at, p.id);
    hide Distinct, Splice, Ids, ListsItsOwn, Held;
    forall s | s in sessions ensures s.body.projectId in Ids(more) {}
    forall q | q in more ensures ListsItsOwn(sessions, q) {
      JoinedList(projects, base, gone, sessions, p, at, q);
    }
  }

  lemma JoinedList(projects: seq<Project>, base: seq<Session>, gone: set<Id>, sessions: seq<Session>, p: Project, at: nat, q: Project)
    requires Partitioned(projects, base) && p.id !in Ids(projects) && q in Splice(projects, at, p)
    requires Joins(base, gone, p.id, sessions) && ListsItsOwn(sessions, p)
    ensures ListsItsOwn(sessions, q)
  {
    SpliceHas(projects, at, p);
    IdsHas(projects);
    hide Distinct, Splice, Ids, ListsItsOwn, Joins;
    if q in projects {
      OtherList(base, gone, p.id, sessions, q);
    }
  }

  /** The restored project lists exactly its restored sessions, next to all others. */
  lemma UndoneRemovalIsPartitioned(st: State, rb: RemovedRollback, committed: Selection, now: int)
    requires Partitioned(st.projects, st.sessions) && ListsDisplaced(rb)
    requires rb.project.id !in Ids(st.projects) && forall id <- DisplacedIds(rb.removed) :: id !in Ids(st.sessions)
    ensures var r := RemovalUndone(st, rb, committed, now); Partitioned(r.projects, r.sessions)
  {
    var pid, gone, sessions := rb.project.id, DisplacedIds(rb.removed), SessionsBack(st.sessions, rb.removed, now);
    BackAmongOthers(st.sessions, rb.removed, now, gone);
    BackOrigins(st.sessions, rb.removed, now, pid);
    IdsHas(st.sessions);
    IdsHas(sessions);
    hide Distinct, Splice, SessionsBack, RestoreTracked, DisplacedIds, Put, Ids, ListsItsOwn, Held;
    assert Joins(st.sessions, gone, pid, sessions);
    RestoredList(st.sessions, gone, sessions, rb.project);
    JoinedPartitioned(st.projects, st.sessions, gone, sessions, rb.project, rb.index);
  }

  // ---------- The sessions of an undone removal ----------

  /** The layout that the removal started from, and one in which nothing of the project is left. */
  ghost predicate Drifted(before: State, project: Project, st: State) {
    && Consistent(before) && project in before.projects && Consistent(st)
    && project.id !in Ids(st.projects)
    && forall id <- DisplacedIds(RollbackOfRemoval(before, project).removed) :: id !in Ids(st.sessions)
  }

  /** What each session of a restored list is. */
  lemma {:induction false} BackBodies(base: seq<Session>, removed: seq<Displaced>, now: int)
    ensures forall s <- SessionsBack(base, removed, now) :: s in base || ComesFrom(removed, s, now)
  {
    if removed != [] {
      var front, d := removed[..|removed| - 1], removed[|removed| - 1];
      BackBodies(base, front, now);
      var back := Record(d.session.id, Quiesced(d.session.body, now));
      SpliceHas(SessionsBack(base, front, now), d.index, back);
      hide Splice;
      forall s | s in SessionsBack(base, removed, now) && s !in base ensures ComesFrom(removed, s, now) {
        if s in SessionsBack(base, front, now) {
          var e :| e in front && s == Record(e.session.id, Quiesced(e.session.body, now));
          assert e in removed;
        } else {
          assert d in removed;
        }
      }
    }
  }

  ghost predicate ComesFrom(removed: seq<Displaced>, s: Session, now: int) {
    exists d :: d in removed && s == Record(d.session.id, Quiesced(d.session.body, now))
  }

  /** A session of the removed project is found again as it was recorded, quiesced. */
  lemma DisplacedFound(before: State, project: Project, st: State, id: Id, now: int)
    requires Drifted(before, project, st)
    requires Find(before.sessions, id).Some? && Find(before.sessions, id).value.body.projectId == project.id
    ensures var rb := RollbackOfRemoval(before, project);
            Find(SessionsBack(st.sessions, rb.removed, now), id)
            == Some(Record(id, Quiesced(Find(before.sessions, id).value.body, now)))
  {
    var rb, s := RollbackOfRemoval(before, project), Find(before.sessions, id).value;
    var r := SessionsBack(st.sessions, rb.removed, now);
    DisplacedIdsAre(before.sessions, project.id);
    OwnHas(before.sessions, project.id);
    assert Owns(before.sessions, project.id, id);
    assert id in DisplacedIds(rb.removed);
    BackAmongOthers(st.sessions, rb.removed, now, DisplacedIds(rb.removed));
    FindNone(r, id);
    BackBodies(st.sessions, rb.removed, now);
    IdsHas(st.sessions);
    DisplacedBelong(before.sessions, project.id);
    var t := Find(r, id).value;
    assert ComesFrom(rb.removed, t, now);
    var d :| d in rb.removed && t == Record(d.session.id, Quiesced(d.session.body, now));
    FindIs(before.sessions, d.session);
  }

  lemma OthersFound(before: State, project: Project, st: State, id: Id, now: int)
    requires Drifted(before, project, st) && Find(st.sessions, id).Some?
    ensures Find(SessionsBack(st.sessions, RollbackOfRemoval(before, project).removed, now), id) == Find(st.sessions, id)
  {
    var rb := RollbackOfRemoval(before, project);
    BackAmongOthers(st.sessions, rb.removed, now, DisplacedIds(rb.removed));
    DisplacedBelong(before.sessions, project.id);
    BackOrigins(st.sessions, rb.removed, now, project.id);
    FindIs(SessionsBack(st.sessions, rb.removed, now), Find(st.sessions, id).value);
  }

  lemma UndoneRemovalRemembers(before: State, project: Project, st: State, committed: Selection, now: int)
    requires Drifted(before, project, st)
    ensures Remembering(RemovalUndone(st, RollbackOfRemoval(before, project), committed, now))
  {
    var rb := RollbackOfRemoval(before, project);
    var sessions := SessionsBack(st.sessions, rb.removed, now);
    DriftedRemembers(before, project, st);
    forall m | m in st.remembered ensures Recallable(sessions, m) {
      OthersFound(before, project, st, m.body, now);
    }
    if rb.mapped.Some? {
      MappedRecallable(before, project);
      DisplacedFound(before, project, st, rb.mapped.value, now);
      hide Drifted, Consistent, DisplacedOf, DisplacedIds;
      assert Recallable(sessions, Record(project.id, rb.mapped.value));
    }
    hide Recallable, Drifted, Consistent, Distinct, SessionsBack, RestoreTracked, Splice, DisplacedOf, DisplacedIds;
    if rb.mapped.Some? {
      PutRemembers(sessions, st.remembered, Record(project.id, rb.mapped.value));
    }
  }

  lemma PutRemembers(sessions: seq<Session>, remembered: seq<Record<Id>>, m: Record<Id>)
    requires Distinct(Ids(remembered)) && (forall r <- remembered :: Recallable(sessions, r)) && Recallable(sessions, m)
    ensures var r := Put(remembered, m.id, m.body); Distinct(Ids(r)) && forall x <- r :: Recallable(sessions, x)
  {
    PutHas(remembered, m.id, m.body);
    hide Recallable, Put, Distinct;
  }

  lemma DriftedRemembers(before: State, project: Project, st: State)
    requires Drifted(before, project, st)
    ensures Distinct(Ids(st.remembered)) && Remembering(st) && Consistent(before)
  {}

  lemma MappedRecallable(before: State, project: Project)
    requires Consistent(before) && Lookup(before.remembered, project.id).Some?
    ensures Recallable(before.sessions, Record(project.id, Lookup(before.remembered, project.id).value))
  {
    hide Recallable, Distinct, Partitioned, Pinned, Selecting;
  }

  // ---------- What an open transaction lets happen ----------

  // While a close or a removal is under way, every operation on the layout is refused; only events of
  // running sessions still update their records, while the bindings are cleared and while the state is saved.

  datatype Happening = Happening(sessionId: Id, change: Change)

  function Happen(st: State, hs: seq<Happening>): State {
    if hs == [] then st
    else
      var h := hs[|hs| - 1];
      RecordUpdated(Happen(st, hs[..|hs| - 1]), h.sessionId, h.change)
  }

  /** The session found in the second state is the one found in the first, with a later record. */
  predicate LaterRecord(a: Option<Session>, b: Option<Session>) {
    a.Some? == b.Some? && (a.Some? ==> b.value.body.projectId == a.value.body.projectId
                                       && (a.value.body.Durable() ==> b.value.body.Durable()))
  }

  ghost predicate RecordsLater(a: State, b: State) {
    && b.projects == a.projects && Ids(b.sessions) == Ids(a.sessions)
    && b.pinnedProjects == a.pinnedProjects && b.pinnedSessions == a.pinnedSessions && b.settled == a.settled
    && SelectionOf(b) == SelectionOf(a)
    && (forall id :: LaterRecord(Find(a.sessions, id), Find(b.sessions, id)))
  }

  lemma UpdateIsLater(st: State, id: Id, c: Change)
    requires Consistent(st)
    ensures RecordsLater(st, RecordUpdated(st, id, c))
  {
    var s := Find(st.sessions, id);
    if s.Some? {
      var body := Changed(s.value.body, c);
      assert s.value.body.Durable() ==> body.Durable();
      assert body.projectId == s.value.body.projectId;
      AmendHas(st.sessions, id, body);
      AmendedIsLater(st.sessions, id, body);
      hide Consistent, Amend, Put, Ids, Find, LaterRecord, Changed;
    } else {
      hide Consistent;
      forall key ensures LaterRecord(Find(st.sessions, key), Find(st.sessions, key)) {}
    }
  }

  lemma AmendedIsLater(sessions: seq<Session>, id: Id, body: SessionBody)
    requires var s := Find(sessions, id);
             s.Some? && body.projectId == s.value.body.projectId && (s.value.body.Durable() ==> body.Durable())
    ensures forall key :: LaterRecord(Find(sessions, key), Find(Amend(sessions, id, body), key))
  {
    forall key ensures LaterRecord(Find(sessions, key), Find(Amend(sessions, id, body), key)) {
      FindAmended(sessions, id, body, key);
      FindNone(sessions, key);
    }
  }

  lemma {:induction false} HappenIsLater(st: State, hs: seq<Happening>)
    requires Consistent(st)
    ensures Consistent(Happen(st, hs)) && RecordsLater(st, Happen(st, hs))
  {
    hide Consistent, RecordUpdated;
    if hs != [] {
      var front, h := hs[..|hs| - 1], hs[|hs| - 1];
      HappenIsLater(st, front);
      UpdateKeeps(Happen(st, front), h.sessionId, h.change);
      UpdateIsLater(Happen(st, front), h.sessionId, h.change);
    }
  }

  /** A close whose rollback was recorded in `before`: records change, the session is taken out, records
      change again while the state is saved, the save fails. */
  function FailedClose(before: State, s: Session, project: Project, hs: seq<Happening>, later: seq<Happening>, now: int): State {
    var closed := Closed(Happen(before, hs), s.id);
    CloseUndone(Happen(closed, later), RollbackOfClose(before, s, project), SelectionOf(closed),
                Lookup(closed.remembered, project.id), now)
  }

  /** The layout of `before`: every list in its order, and the selection. */
  ghost predicate SameLayout(before: State, r: State) {
    && r.projects == before.projects && Ids(r.sessions) == Ids(before.sessions)
    && r.pinnedProjects == before.pinnedProjects && r.pinnedSessions == before.pinnedSessions && r.settled == before.settled
    && SelectionOf(r) == SelectionOf(before)
  }

  /** The lists while the close is being saved. */
  lemma WhileClosing(before: State, s: Session, project: Project, hs: seq<Happening>, later: seq<Happening>)
    requires Consistent(before) && s in before.sessions && project in before.projects && s.body.projectId == project.id
    ensures var closed := Closed(Happen(before, hs), s.id); var st := Happen(closed, later);
            && Consistent(st) && SelectionOf(st) == SelectionOf(closed)
            && st.projects == Amend(before.projects, project.id,
                                    project.body.(sessionIds := Without(project.body.sessionIds, {s.id})))
            && Ids(st.sessions) == Without(Ids(before.sessions), {s.id})
            && st.pinnedProjects == before.pinnedProjects
            && st.pinnedSessions == Without(before.pinnedSessions, {s.id}) && st.settled == Without(before.settled, {s.id})
            && (forall id :: id != s.id ==> LaterRecord(Find(before.sessions, id), Find(st.sessions, id)))
  {
    var mid := Happen(before, hs);
    HappenIsLater(before, hs);
    FindIs(before.sessions, s);
    assert LaterRecord(Find(before.sessions, s.id), Find(mid.sessions, s.id));
    var s' := Find(mid.sessions, s.id).value;
    FindIs(before.projects, project);
    ClosedLists(mid, s', project);
    CloseKeeps(mid, s.id);
    WithoutIdsHas(mid.sessions, {s.id});
    hide Consistent, Closed, Happen, Without, WithoutIds, Amend, Find, Ids, Distinct;
    var closed := Closed(mid, s.id);
    HappenIsLater(closed, later);
    forall id | id != s.id ensures LaterRecord(Find(before.sessions, id), Find(Happen(closed, later).sessions, id)) {
      FindWithout(mid.sessions, {s.id}, id);
      assert LaterRecord(Find(before.sessions, id), Find(mid.sessions, id));
      assert LaterRecord(Find(closed.sessions, id), Find(Happen(closed, later).sessions, id));
    }
  }

  lemma FindWithout<T>(s: seq<Record<T>>, gone: set<Id>, id: Id)
    requires id !in gone
    ensures Find(WithoutIds(s, gone), id) == Find(s, id)
  {
    LookupWithout(s, gone, id);
  }

  /** What is known of the state in which a close is undone. */
  ghost predicate Closing(before: State, s: Session, project: Project, st: State) {
    && Consistent(before) && s in before.sessions && project in before.projects && s.body.projectId == project.id
    && st.projects == Amend(before.projects, project.id, project.body.(sessionIds := Without(project.body.sessionIds, {s.id})))
    && Ids(st.sessions) == Without(Ids(before.sessions), {s.id})
    && st.pinnedProjects == before.pinnedProjects
    && st.pinnedSessions == Without(before.pinnedSessions, {s.id}) && st.settled == Without(before.settled, {s.id})
    && (forall id :: id != s.id ==> LaterRecord(Find(before.sessions, id), Find(st.sessions, id)))
  }

  lemma OneFewer(ids: seq<Id>, id: Id)
    requires Distinct(ids) && id in ids
    ensures |Without(ids, {id})| == |ids| - 1
  {
    WithoutOne(ids, id);
  }

  /** Then there is room, and what is put back exists. */
  lemma ClosingHasRoom(before: State, s: Session, project: Project, st: State, committed: Selection, mapped: Option<Id>)
    requires Closing(before, s, project, st)
    ensures var rb := RollbackOfClose(before, s, project);
            RoomAgain(st, rb) && MappedAgain(st, rb, mapped) && SelectedAgain(st, rb, committed)
  {
    var rb := RollbackOfClose(before, s, project);
    FindIs(before.sessions, s);
    IdsHas(before.projects);
    AmendHas(before.projects, project.id, project.body.(sessionIds := Without(project.body.sessionIds, {s.id})));
    if s.id in before.pinnedSessions {
      OneFewer(before.pinnedSessions, s.id);
    }
    if s.id in before.settled {
      OneFewer(before.settled, s.id);
    }
    if rb.mapped.Some? {
      MappedRecallable(before, project);
      assert LaterRecord(Find(before.sessions, rb.mapped.value), Find(st.sessions, rb.mapped.value)) || rb.mapped.value == s.id;
    }
    if before.selectedSession.Some? && before.selectedSession.value != s.id {
      assert LaterRecord(Find(before.sessions, before.selectedSession.value), Find(st.sessions, before.selectedSession.value));
    }
    hide Partitioned, Distinct, Remembering, Amend, Without, Find, Ids;
  }

  lemma ClosingListsBack(before: State, s: Session, project: Project, st: State)
    requires Closing(before, s, project, st)
    ensures var rb := RollbackOfClose(before, s, project);
            && ListedAgain(st.projects, rb) == before.projects
            && PutBack(st.pinnedSessions, rb.pinnedIndex, s.id) == before.pinnedSessions
            && (if s.id in before.pinnedSessions then st.settled else PutBack(st.settled, rb.settledIndex, s.id)) == before.settled
            && Splice(Ids(st.sessions), rb.sessionIndex, s.id) == Ids(before.sessions)
  {
    var rb := RollbackOfClose(before, s, project);
    IdsHas(before.sessions);
    assert ListsItsOwn(before.sessions, project) && Owns(before.sessions, project.id, s.id);
    DistinctSessions(before);
    SpliceBack(Ids(before.sessions), s.id);
    ListedBackExactly(before.projects, project, rb);
    PutBackExactly(before.pinnedSessions, s.id);
    PutBackExactly(before.settled, s.id);
    if s.id in before.pinnedSessions {
      WithoutNone(before.settled, {s.id});
    }
  }

  /** Whatever sessions did meanwhile, a close that fails leaves a consistent layout with every list as it
      was and the same selection; the closed session comes back as it was recorded, all others as they
      are by then. */
  lemma FailedCloseRestoresTheLayout(
    before: State, s: Session, project: Project, hs: seq<Happening>, later: seq<Happening>, now: int)
    requires Consistent(before) && s in before.sessions && project in before.projects && s.body.projectId == project.id
    ensures var r := FailedClose(before, s, project, hs, later, now);
            var st := Happen(Closed(Happen(before, hs), s.id), later);
            && Consistent(r) && SameLayout(before, r) && ComesBack(s, Find(r.sessions, s.id), now)
            && (forall id :: id != s.id ==> Find(r.sessions, id) == Find(st.sessions, id))
  {
    QuiescedComesBack(s, now);
    hide ComesBack, Quiesced;
    var closed := Closed(Happen(before, hs), s.id);
    var st, rb := Happen(closed, later), RollbackOfClose(before, s, project);
    var mapped := Lookup(closed.remembered, project.id);
    WhileClosing(before, s, project, hs, later);
    hide Happen, Closed;
    assert Closing(before, s, project, st);
    ClosingUndone(before, s, project, st, SelectionOf(closed), mapped, now);
  }

  lemma ClosingUndone(before: State, s: Session, project: Project, st: State, committed: Selection, mapped: Option<Id>, now: int)
    requires Closing(before, s, project, st) && Consistent(st) && SelectionOf(st) == committed
    ensures var r := CloseUndone(st, RollbackOfClose(before, s, project), committed, mapped, now);
            && Consistent(r) && SameLayout(before, r)
            && (forall id :: Find(r.sessions, id) ==
                  if id == s.id then Some(Record(id, Quiesced(s.body, now))) else Find(st.sessions, id))
  {
    var rb := RollbackOfClose(before, s, project);
    ClosingHasRoom(before, s, project, st, committed, mapped);
    ClosingListsBack(before, s, project, st);
    WithoutHas(Ids(before.sessions), {s.id});
    AmendHas(before.projects, project.id, project.body.(sessionIds := Without(project.body.sessionIds, {s.id})));
    IdsHas(before.projects);
    UndoneCloseIsConsistentExactly(st, rb, committed, mapped, now);
    UndoneSessions(st, rb, committed, mapped, now);
    IdsSplice(st.sessions, rb.sessionIndex, Record(s.id, Quiesced(s.body, now)));
    hide Consistent, RoomAgain, MappedAgain, SelectedAgain, Amend, Without, ListedAgain, PutBack, Splice, Find, Ids, Distinct, Remap;
  }

  /** The same for a removal. */
  function FailedRemoval(before: State, project: Project, hs: seq<Happening>, later: seq<Happening>, now: int): State {
    var removed := Removed(Happen(before, hs), project.id);
    RemovalUndone(Happen(removed, later), RollbackOfRemoval(before, project), SelectionOf(removed), now)
  }

  lemma {:induction false} SameOwners(a: seq<Session>, b: seq<Session>, projectId: Id)
    requires |a| == |b| && forall i :: 0 <= i < |a| ==> b[i].id == a[i].id && b[i].body.projectId == a[i].body.projectId
    ensures OwnIds(a, projectId) == OwnIds(b, projectId)
  {
    if a != [] {
      SameOwners(a[..|a| - 1], b[..|b| - 1], projectId);
    }
  }

  lemma LaterOwners(before: State, after: State, projectId: Id)
    requires Consistent(before) && Consistent(after) && RecordsLater(before, after)
    ensures OwnIds(before.sessions, projectId) == OwnIds(after.sessions, projectId)
  {
    IdsAt(before.sessions);
    IdsAt(after.sessions);
    DistinctSessions(before);
    DistinctSessions(after);
    hide Consistent, Distinct;
    forall i | 0 <= i < |before.sessions|
      ensures after.sessions[i].id == before.sessions[i].id
              && after.sessions[i].body.projectId == before.sessions[i].body.projectId
    {
      var s, t := before.sessions[i], after.sessions[i];
      assert Ids(after.sessions)[i] == Ids(before.sessions)[i];
      FindIs(before.sessions, s);
      FindIs(after.sessions, t);
      assert LaterRecord(Find(before.sessions, s.id), Find(after.sessions, s.id));
    }
    SameOwners(before.sessions, after.sessions, projectId);
  }

  /** What is known of the state in which a removal is undone. */
  ghost predicate Removing(before: State, project: Project, st: State) {
    var gone := AsSet(OwnIds(before.sessions, project.id));
    && Consistent(before) && project in before.projects && Consistent(st)
    && st.projects == WithoutIds(before.projects, {project.id})
    && Ids(st.sessions) == Without(Ids(before.sessions), gone)
    && st.pinnedProjects == Without(before.pinnedProjects, {project.id})
    && st.pinnedSessions == Without(before.pinnedSessions, gone) && st.settled == Without(before.settled, gone)
    && (forall id :: id !in gone ==> LaterRecord(Find(before.sessions, id), Find(st.sessions, id)))
  }

  lemma WhileRemoving(before: State, project: Project, hs: seq<Happening>, later: seq<Happening>)
    requires Consistent(before) && project in before.projects
    ensures var removed := Removed(Happen(before, hs), project.id); var st := Happen(removed, later);
            Removing(before, project, st) && SelectionOf(st) == SelectionOf(removed)
  {
    var mid, gone := Happen(before, hs), AsSet(OwnIds(before.sessions, project.id));
    HappenIsLater(before, hs);
    LaterOwners(before, mid, project.id);
    FindIs(before.projects, project);
    RemovedLists(mid, project);
    RemoveKeeps(mid, project.id);
    DistinctSessions(mid);
    OwnSetIs(mid.sessions, project.id);
    WithoutIdsHas(mid.sessions, gone);
    hide Consistent, Removed, Happen, Without, WithoutIds, Find, Ids, Distinct, OwnIds, AsSet, OutsideProject;
    var removed := Removed(mid, project.id);
    HappenIsLater(removed, later);
    forall id | id !in gone ensures LaterRecord(Find(before.sessions, id), Find(Happen(removed, later).sessions, id)) {
      FindWithout(mid.sessions, gone, id);
      assert LaterRecord(Find(before.sessions, id), Find(mid.sessions, id));
      assert LaterRecord(Find(removed.sessions, id), Find(Happen(removed, later).sessions, id));
    }
  }

  lemma {:induction false} BackSameIds(a: seq<Session>, b: seq<Session>, removed: seq<Displaced>, now: int)
    requires Ids(a) == Ids(b)
    ensures Ids(SessionsBack(a, removed, now)) == Ids(SessionsBack(b, removed, now))
  {
    hide Ids, Splice;
    if removed != [] {
      var front, d := removed[..|removed| - 1], removed[|removed| - 1];
      BackSameIds(a, b, front, now);
      var s := Record(d.session.id, Quiesced(d.session.body, now));
      IdsSplice(SessionsBack(a, front, now), d.index, s);
      IdsSplice(SessionsBack(b, front, now), d.index, s);
    }
  }

  lemma RemovingIsDrifted(before: State, project: Project, st: State)
    requires Removing(before, project, st)
    ensures Drifted(before, project, st)
  {
    DisplacedIdsAre(before.sessions, project.id);
    WithoutHas(Ids(before.sessions), AsSet(OwnIds(before.sessions, project.id)));
    WithoutIdsHas(before.projects, {project.id});
    WithoutHas(Ids(before.projects), {project.id});
    hide Consistent, Without, WithoutIds, Ids, OwnIds, AsSet, DisplacedIds, DisplacedOf;
  }

  lemma RemovingListsBack(before: State, project: Project, st: State, committed: Selection, now: int)
    requires Removing(before, project, st) && SelectionOf(st) == committed
    ensures SameLayout(before, RemovalUndone(st, RollbackOfRemoval(before, project), committed, now))
  {
    var rb, gone := RollbackOfRemoval(before, project), AsSet(OwnIds(before.sessions, project.id));
    RemovingIsDrifted(before, project, st);
    DisplacedIdsAre(before.sessions, project.id);
    RemovalListsBack(before, project, now);
    DistinctSessions(before);
    OwnSetIs(before.sessions, project.id);
    WithoutIdsHas(before.sessions, gone);
    BackSameIds(st.sessions, OutsideProject(before.sessions, project.id), rb.removed, now);
    CalmedIds(before.sessions, project.id, now);
    WithoutNone(before.settled, AsSet(before.pinnedSessions));
    hide Partitioned, Remembering, Selecting, Distinct, SessionsBack, RestoreTracked, Splice, DisplacedOf, DisplacedIds, OwnIds,
         Put, Without, WithoutIds, Ids, OutsideProject, Calmed, Drifted;
  }

  lemma RemovingSelects(before: State, project: Project, st: State, committed: Selection, now: int)
    requires Removing(before, project, st) && SelectionOf(st) == committed
    ensures Selecting(RemovalUndone(st, RollbackOfRemoval(before, project), committed, now))
  {
    var r := RemovalUndone(st, RollbackOfRemoval(before, project), committed, now);
    RemovingListsBack(before, project, st, committed, now);
    RemovingIsDrifted(before, project, st);
    RemovingSelected(before, project);
    hide Drifted, Consistent, RestoreTracked, Splice, Put, Without, WithoutIds, DisplacedOf, DisplacedIds, SessionsBack, Ids;
    if before.selectedSession.Some? {
      RemovingFound(before, project, st, before.selectedSession.value, now);
    }
  }

  lemma RemovingSelected(before: State, project: Project)
    requires Consistent(before) && project in before.projects
    ensures Selecting(before) && before.selectedProject.Some?
  {}

  /** A session of the removed project is found as it was recorded, any other as it is by now. */
  lemma RemovingFound(before: State, project: Project, st: State, id: Id, now: int)
    requires Removing(before, project, st) && Find(before.sessions, id).Some?
    ensures var s := Find(before.sessions, id).value;
            var t := Find(SessionsBack(st.sessions, RollbackOfRemoval(before, project).removed, now), id);
            && t == (if s.body.projectId == project.id then Some(Record(id, Quiesced(s.body, now))) else Find(st.sessions, id))
            && t.Some? && t.value.body.projectId == s.body.projectId
  {
    var s := Find(before.sessions, id).value;
    RemovingIsDrifted(before, project, st);
    DistinctSessions(before);
    OwnSetIs(before.sessions, project.id);
    hide Consistent, Drifted, OwnIds, AsSet, OutsideProject, DisplacedOf, Distinct, SessionsBack;
    if s.body.projectId == project.id {
      DisplacedFound(before, project, st, id, now);
    } else {
      assert LaterRecord(Find(before.sessions, id), Find(st.sessions, id));
      OthersFound(before, project, st, id, now);
    }
  }

  /** Whatever sessions did meanwhile, a removal that fails leaves a consistent layout with every list as
      it was and the same selection; the sessions of the project come back as they were recorded, all
      others as they are by then. */
  lemma FailedRemovalRestoresTheLayout(
    before: State, project: Project, hs: seq<Happening>, later: seq<Happening>, now: int)
    requires Consistent(before) && project in before.projects
    ensures var r := FailedRemoval(before, project, hs, later, now);
            var st := Happen(Removed(Happen(before, hs), project.id), later);
            && Consistent(r) && SameLayout(before, r)
            && (forall s <- before.sessions ::
                  if s.body.projectId == project.id then ComesBack(s, Find(r.sessions, s.id), now)
                  else Find(r.sessions, s.id) == Find(st.sessions, s.id))
  {
    var removed := Removed(Happen(before, hs), project.id);
    var st, rb, committed := Happen(removed, later), RollbackOfRemoval(before, project), SelectionOf(removed);
    WhileRemoving(before, project, hs, later);
    RemovingIsDrifted(before, project, st);
    RemovingListsBack(before, project, st, committed, now);
    RemovingSelects(before, project, st, committed, now);
    UndoneRemovalRemembers(before, project, st, committed, now);
    RecordedListsDisplaced(before, project);
    DriftedPartitions(before, project, st);
    UndoneRemovalIsPartitioned(st, rb, committed, now);
    DistinctSessions(before);
    forall s | s in before.sessions
      ensures Find(SessionsBack(st.sessions, rb.removed, now), s.id) ==
              if s.body.projectId == project.id then Some(Record(s.id, Quiesced(s.body, now))) else Find(st.sessions, s.id)
    {
      FindIs(before.sessions, s);
      RemovingFound(before, project, st, s.id, now);
    }
    forall s | s in before.sessions ensures ComesBack(s, Some(Record(s.id, Quiesced(s.body, now))), now) {
      QuiescedComesBack(s, now);
    }
    hide ComesBack, Quiesced;
    hide Happen, Removed, Partitioned, Remembering, Selecting, Removing, Drifted, SessionsBack, DisplacedOf, RestoreTracked,
         Splice, Put, Without, Distinct, Ids, Find;
  }

  lemma DriftedPartitions(before: State, project: Project, st: State)
    requires Drifted(before, project, st)
    ensures Partitioned(st.projects, st.sessions) && Pinned(before)
  {}
}
