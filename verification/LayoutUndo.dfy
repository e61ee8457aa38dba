/** Rollback of a failed close or project removal: re-insertion at remembered indices. */
module LayoutUndo {
  import opened Results
  import opened Lists
  import opened Layout
  import opened LayoutSteps
  import opened LayoutRuns

  datatype Selection = Selection(project: Option<Id>, session: Option<Id>)

  function SelectionOf(st: State): Selection { Selection(st.selectedProject, st.selectedSession) }

  /** A session comes back without the work it was doing. */
  function Quiesced(body: SessionBody, now: int): SessionBody {
    if body.active then body.(active := false, updatedAt := now) else body
  }

  /** A session that was taken out is there again, as it was recorded but idle. */
  predicate ComesBack(s: Session, t: Option<Session>, now: int) {
    && t.Some? && t.value.id == s.id && t.value.body.projectId == s.body.projectId && t.value.body.acp == s.body.acp
    && t.value.body.transcribed == s.body.transcribed && t.value.body.content == s.body.content && !t.value.body.active
    && t.value.body.updatedAt == if s.body.active then now else s.body.updatedAt
  }

  lemma QuiescedComesBack(s: Session, now: int)
    ensures ComesBack(s, Some(Record(s.id, Quiesced(s.body, now))), now)
  {}

  // ---------- Tracked identifiers ----------

  function RestoredUpTo(base: seq<Id>, original: seq<Id>, tracked: set<Id>, n: nat): seq<Id>
    requires n <= |original|
  {
    if n == 0 then base
    else
      var before, id := RestoredUpTo(base, original, tracked, n - 1), original[n - 1];
      if id in tracked && id !in before then Splice(before, n - 1, id) else before
  }

  function RestoreTracked(current: seq<Id>, original: seq<Id>, tracked: set<Id>): seq<Id> {
    RestoredUpTo(Without(current, tracked), original, tracked, |original|)
  }

  lemma WithoutSplice(s: seq<Id>, at: nat, x: Id, gone: set<Id>)
    requires x in gone
    ensures Without(Splice(s, at, x), gone) == Without(s, gone)
  {
    var i := Clamped(at, |s|);
    assert s == s[..i] + s[i..];
    WithoutConcat(s[..i], s[i..], gone);
    WithoutConcat(s[..i] + [x], s[i..], gone);
    WithoutConcat(s[..i], [x], gone);
    assert Without([x], gone) == [];
  }

  /** Untracked identifiers keep their order, whatever the current list has become. */
  lemma {:induction false} UntrackedStay(base: seq<Id>, original: seq<Id>, tracked: set<Id>, n: nat)
    requires n <= |original| && forall id <- base :: id !in tracked
    ensures Without(RestoredUpTo(base, original, tracked, n), tracked) == base
    decreases n
  {
    if n == 0 {
      WithoutNone(base, tracked);
    } else {
      UntrackedStay(base, original, tracked, n - 1);
      WithoutSplice(RestoredUpTo(base, original, tracked, n - 1), n - 1, original[n - 1],
                    if original[n - 1] in tracked then tracked else {original[n - 1]});
    }
  }

  /** How often an identifier occurs. */
  function Times(s: seq<Id>, x: Id): nat {
    if s == [] then 0 else Times(s[..|s| - 1], x) + (if s[|s| - 1] == x then 1 else 0)
  }

  lemma {:induction false} TimesConcat(a: seq<Id>, b: seq<Id>, x: Id)
    ensures Times(a + b, x) == Times(a, x) + Times(b, x)
  {
    if b == [] {
      assert a + b == a;
    } else {
      TimesConcat(a, b[..|b| - 1], x);
      assert (a + b)[..|a + b| - 1] == a + b[..|b| - 1];
    }
  }

  lemma TimesSplice(s: seq<Id>, at: nat, y: Id, x: Id)
    ensures Times(Splice(s, at, y), x) == Times(s, x) + if x == y then 1 else 0
  {
    var i := Clamped(at, |s|);
    assert s == s[..i] + s[i..];
    TimesConcat(s[..i], s[i..], x);
    TimesConcat(s[..i] + [y], s[i..], x);
    TimesConcat(s[..i], [y], x);
    assert Times([y], x) == if x == y then 1 else 0;
  }

  lemma {:induction false} TimesZero(s: seq<Id>, x: Id)
    ensures Times(s, x) == 0 <==> x !in s
  {
    if s != [] {
      TimesZero(s[..|s| - 1], x);
      LastApart(s);
    }
  }

  lemma {:induction false} TrackedOnce(base: seq<Id>, original: seq<Id>, tracked: set<Id>, n: nat, x: Id)
    requires n <= |original| && x in tracked && x !in base
    ensures Times(RestoredUpTo(base, original, tracked, n), x) == if x in original[..n] then 1 else 0
    decreases n
  {
    if n == 0 {
      TimesZero(base, x);
    } else {
      TrackedOnce(base, original, tracked, n - 1, x);
      assert original[..n] == original[..n - 1] + [original[n - 1]];
      var before := RestoredUpTo(base, original, tracked, n - 1);
      TimesSplice(before, n - 1, original[n - 1], x);
      TimesZero(before, x);
    }
  }

  /** For any drifted list: what is not tracked keeps its order, and of the tracked identifiers
      exactly the original ones are there, each once. */
  lemma RestoreTrackedOnDriftedList(current: seq<Id>, original: seq<Id>, tracked: set<Id>, x: Id)
    ensures var r := RestoreTracked(current, original, tracked);
            && Without(r, tracked) == Without(current, tracked)
            && (x in tracked ==> Times(r, x) == if x in original then 1 else 0)
  {
    WithoutHas(current, tracked);
    UntrackedStay(Without(current, tracked), original, tracked, |original|);
    if x in tracked {
      TrackedOnce(Without(current, tracked), original, tracked, |original|, x);
      assert original[..|original|] == original;
    }
  }

  lemma GlueMiddle(front: seq<Id>, id: Id, kept: seq<Id>)
    ensures [] + kept == kept && front + ([id] + kept) == front + [id] + kept
    ensures Splice(front + kept, |front|, id) == front + [id] + kept
  {}

  lemma NotAround(front: seq<Id>, id: Id, rest: seq<Id>)
    requires Distinct(front + [id] + rest)
    ensures id !in front && id !in rest
  {
    DistinctConcat(front + [id], rest);
    DistinctConcat(front, [id]);
    assert id in front + [id];
  }

  lemma OneBack(front: seq<Id>, id: Id, rest: seq<Id>, tracked: set<Id>)
    requires Distinct(front + [id] + rest)
    ensures var before := front + Without([id] + rest, tracked); var after := front + [id] + Without(rest, tracked);
            if id in tracked then id !in before && Splice(before, |front|, id) == after else before == after
  {
    NotAround(front, id, rest);
    WithoutConcat([id], rest, tracked);
    WithoutHas(rest, tracked);
    assert Without([id], tracked) == if id in tracked then [] else [id];
    hide Distinct, Without, Splice;
    GlueMiddle(front, id, Without(rest, tracked));
  }

  lemma {:induction false} RestoredExactly(original: seq<Id>, tracked: set<Id>, n: nat)
    requires Distinct(original) && n <= |original|
    ensures RestoredUpTo(Without(original, tracked), original, tracked, n) == original[..n] + Without(original[n..], tracked)
    decreases n
  {
    hide Distinct, Without, Splice;
    if n == 0 {
      assert original[0..] == original;
    } else {
      RestoredExactly(original, tracked, n - 1);
      var front, id, rest := original[..n - 1], original[n - 1], original[n..];
      assert original == front + [id] + rest;
      assert original[n - 1..] == [id] + rest && original[..n] == front + [id];
      OneBack(front, id, rest, tracked);
    }
  }

  /** When only the tracked identifiers were taken out, the list comes back exactly. */
  lemma RestoreTrackedExactly(current: seq<Id>, original: seq<Id>, tracked: set<Id>)
    requires Distinct(original) && Without(current, tracked) == Without(original, tracked)
    ensures RestoreTracked(current, original, tracked) == original
  {
    RestoredExactly(original, tracked, |original|);
    assert original[..|original|] == original && original[|original|..] == [];
  }

  // ---------- One record taken out and put back ----------

  lemma CutRecord<T>(s: seq<Record<T>>, id: Id, body: T)
    requires Distinct(Ids(s)) && id in Ids(s)
    ensures var i := IndexOf(Ids(s), id);
            && i < |s| && s[i].id == id
            && WithoutIds(s, {id}) == s[..i] + s[i + 1..]
            && Amend(s, id, body) == s[..i] + [Record(id, body)] + s[i + 1..]
  {
    IdsAt(s);
    var i := IndexOf(Ids(s), id);
    var a, b := s[..i], s[i + 1..];
    assert s == a + [s[i]] + b;
    IdsConcat(a + [s[i]], b);
    IdsConcat(a, [s[i]]);
    assert Ids([s[i]]) == [id];
    DistinctConcat(Ids(a) + [id], Ids(b));
    DistinctConcat(Ids(a), [id]);
    assert id in Ids(a) + [id];
    CutParts(a, s[i], b, id, body);
  }

  lemma CutParts<T>(a: seq<Record<T>>, r: Record<T>, b: seq<Record<T>>, id: Id, body: T)
    requires id !in Ids(a) && id !in Ids(b) && r.id == id
    ensures WithoutIds(a + [r] + b, {id}) == a + b
    ensures Amend(a + [r] + b, id, body) == a + [Record(id, body)] + b
  {
    WithoutIdsConcat(a + [r], b, {id});
    WithoutIdsConcat(a, [r], {id});
    WithoutIdsNone(a, id);
    WithoutIdsNone(b, id);
    assert WithoutIds([r], {id}) == [];
    AmendConcat(a + [r], b, id, body);
    AmendConcat(a, [r], id, body);
    AmendNone(a, id, body);
    AmendNone(b, id, body);
    assert Amend([r], id, body) == [Record(id, body)];
  }

  lemma {:induction false} WithoutIdsConcat<T>(a: seq<Record<T>>, b: seq<Record<T>>, gone: set<Id>)
    ensures WithoutIds(a + b, gone) == WithoutIds(a, gone) + WithoutIds(b, gone)
  {
    if b == [] {
      assert a + b == a;
    } else {
      WithoutIdsConcat(a, b[..|b| - 1], gone);
      assert (a + b)[..|a + b| - 1] == a + b[..|b| - 1];
    }
  }

  lemma {:induction false} AmendConcat<T>(a: seq<Record<T>>, b: seq<Record<T>>, id: Id, body: T)
    ensures Amend(a + b, id, body) == Amend(a, id, body) + Amend(b, id, body)
  {
    if b == [] {
      assert a + b == a;
    } else {
      AmendConcat(a, b[..|b| - 1], id, body);
      assert (a + b)[..|a + b| - 1] == a + b[..|b| - 1];
    }
  }

  lemma {:induction false} WithoutIdsNone<T>(s: seq<Record<T>>, id: Id)
    requires id !in Ids(s)
    ensures WithoutIds(s, {id}) == s
  {
    if s != [] {
      WithoutIdsNone(s[..|s| - 1], id);
      Snoc(s);
    }
  }

  /** Cutting a record out and splicing another body in at its index is amending it in place. */
  lemma SpliceBackRecord<T>(s: seq<Record<T>>, id: Id, body: T)
    requires Distinct(Ids(s)) && id in Ids(s)
    ensures Splice(WithoutIds(s, {id}), IndexOf(Ids(s), id), Record(id, body)) == Amend(s, id, body)
  {
    CutRecord(s, id, body);
  }

  lemma FindSpliced<T>(s: seq<Record<T>>, at: nat, r: Record<T>, id: Id)
    requires r.id !in Ids(s)
    ensures Find(Splice(s, at, r), id) == if id == r.id then Some(r) else Find(s, id)
  {
    var i := Clamped(at, |s|);
    assert s == s[..i] + s[i..];
    FindConcat(s[..i] + [r], s[i..], id);
    FindConcat(s[..i], [r], id);
    FindConcat(s[..i], s[i..], id);
    FindNone(s, r.id);
    assert Find([r], id) == if id == r.id then Some(r) else Find([], id);
  }

  lemma AmendToSame<T>(s: seq<Record<T>>, r: Record<T>)
    requires Distinct(Ids(s)) && r in s
    ensures Amend(s, r.id, r.body) == s
  {
    var i :| 0 <= i < |s| && s[i] == r;
    var a, b := s[..i], s[i + 1..];
    assert s == a + [r] + b;
    IdsConcat(a + [r], b);
    IdsConcat(a, [r]);
    assert Ids([r]) == [r.id];
    DistinctConcat(Ids(a) + [r.id], Ids(b));
    DistinctConcat(Ids(a), [r.id]);
    assert r.id in Ids(a) + [r.id];
    hide Distinct, Ids, Amend;
    CutParts(a, r, b, r.id, r.body);
  }

  lemma {:induction false} AmendTwice<T>(s: seq<Record<T>>, id: Id, first: T, second: T)
    ensures Amend(Amend(s, id, first), id, second) == Amend(s, id, second)
  {
    if s != [] {
      AmendTwice(s[..|s| - 1], id, first, second);
    }
  }

  // ---------- A failed close ----------

  datatype ClosedRollback = ClosedRollback(
    session: Session, sessionIndex: nat, projectId: Id, listedIndex: nat, pinnedIndex: Option<nat>,
    settledIndex: Option<nat>, mapped: Option<Id>, selection: Selection)

  function MaybeIndex(ids: seq<Id>, id: Id): Option<nat> { if id in ids then Some(IndexOf(ids, id)) else None }

  function RollbackOfClose(st: State, s: Session, project: Project): ClosedRollback {
    ClosedRollback(s, if s.id in Ids(st.sessions) then IndexOf(Ids(st.sessions), s.id) else 0, project.id,
                   if s.id in project.body.sessionIds then IndexOf(project.body.sessionIds, s.id) else 0,
                   MaybeIndex(st.pinnedSessions, s.id), MaybeIndex(st.settled, s.id),
                   Lookup(st.remembered, project.id), SelectionOf(st))
  }

  function PutBack(ids: seq<Id>, index: Option<nat>, id: Id): seq<Id> {
    if index.Some? && id !in ids then Splice(ids, index.value, id) else ids
  }

  function ListedAgain(projects: seq<Project>, rb: ClosedRollback): seq<Project> {
    var project := Find(projects, rb.projectId);
    if project.None? then projects
    else
      var body := project.value.body;
      Amend(projects, rb.projectId, body.(sessionIds := PutBack(body.sessionIds, Some(rb.listedIndex), rb.session.id)))
  }

  function SessionBack(sessions: seq<Session>, s: Session, at: nat, now: int): seq<Session> {
    if s.id in Ids(sessions) then sessions else Splice(sessions, at, Record(s.id, Quiesced(s.body, now)))
  }

  function Remap(remembered: seq<Record<Id>>, projectId: Id, mapped: Option<Id>): seq<Record<Id>> {
    if mapped.Some? then Put(remembered, projectId, mapped.value) else WithoutIds(remembered, {projectId})
  }

  function Reselect(st: State, committed: Selection, before: Selection): State {
    if SelectionOf(st) == committed then st.(selectedProject := before.project, selectedSession := before.session) else st
  }

  function CloseUndone(st: State, rb: ClosedRollback, committed: Selection, committedMapped: Option<Id>, now: int): State {
    var id := rb.session.id;
    var pinned := PutBack(st.pinnedSessions, rb.pinnedIndex, id);
    var back := st.(
      sessions := SessionBack(st.sessions, rb.session, rb.sessionIndex, now),
      projects := ListedAgain(st.projects, rb),
      pinnedSessions := pinned,
      settled := if id in pinned then st.settled else PutBack(st.settled, rb.settledIndex, id),
      remembered := if Lookup(st.remembered, rb.projectId) == committedMapped
                    then Remap(st.remembered, rb.projectId, rb.mapped) else st.remembered);
    Reselect(back, committed, rb.selection)
  }

  /** Where a close has sent the selection, if the closed session was selected. */
  function Fallback(st: State, s: Session, project: Project): (r: Option<Session>) {
    if st.selectedSession == Some(s.id) then CloseFallback(SessionCut(st, s, project), project.id) else None
  }

  lemma RemapLooksUp(remembered: seq<Record<Id>>, projectId: Id, mapped: Option<Id>, key: Id)
    ensures Lookup(Remap(remembered, projectId, mapped), key) == if key == projectId then mapped else Lookup(remembered, key)
  {
    LookupWithout(remembered, {projectId}, key);
    if mapped.Some? {
      LookupPut(remembered, projectId, mapped.value, key);
    }
  }

  lemma PutBackExactly(ids: seq<Id>, id: Id)
    requires Distinct(ids)
    ensures PutBack(Without(ids, {id}), MaybeIndex(ids, id), id) == ids
  {
    WithoutHas(ids, {id});
    if id in ids {
      SpliceBack(ids, id);
    } else {
      WithoutNone(ids, {id});
    }
  }

  lemma ListedBackExactly(projects: seq<Project>, project: Project, rb: ClosedRollback)
    requires Distinct(Ids(projects)) && project in projects && Distinct(project.body.sessionIds)
    requires rb.projectId == project.id && rb.session.id in project.body.sessionIds
    requires rb.listedIndex == IndexOf(project.body.sessionIds, rb.session.id)
    ensures var cut := project.body.(sessionIds := Without(project.body.sessionIds, {rb.session.id}));
            ListedAgain(Amend(projects, project.id, cut), rb) == projects
  {
    var ids := project.body.sessionIds;
    var cut := project.body.(sessionIds := Without(ids, {rb.session.id}));
    IdsHas(projects);
    FindAmended(projects, project.id, cut, project.id);
    PutBackExactly(ids, rb.session.id);
    AmendTwice(projects, project.id, cut, project.body);
    AmendToSame(projects, project);
  }

  lemma ClosedLists(st: State, s: Session, project: Project)
    requires Find(st.sessions, s.id) == Some(s) && Find(st.projects, s.body.projectId) == Some(project)
    ensures var r, cut := Closed(st, s.id), SessionCut(st, s, project);
            r.(remembered := cut.remembered, selectedProject := cut.selectedProject, selectedSession := cut.selectedSession)
            == cut
  {
    hide SessionCut, CloseFallback, Put;
  }

  lemma ForgetLooksUp(remembered: seq<Record<Id>>, projectId: Id, sessionId: Id, key: Id)
    requires key != projectId
    ensures Lookup(Forget(remembered, projectId, sessionId), key) == Lookup(remembered, key)
  {
    LookupWithout(remembered, {projectId}, key);
  }

  lemma ClosedRemembered(st: State, s: Session, project: Project, key: Id)
    requires Find(st.sessions, s.id) == Some(s) && Find(st.projects, s.body.projectId) == Some(project)
    requires key != project.id
    ensures var next := Fallback(st, s, project);
            Lookup(Closed(st, s.id).remembered, key)
            == if next.Some? && next.value.body.Durable() && next.value.body.projectId == key then Some(next.value.id)
               else Lookup(st.remembered, key)
  {
    ForgetLooksUp(st.remembered, project.id, s.id, key);
    var next, cut := Fallback(st, s, project), SessionCut(st, s, project);
    hide CloseFallback, Put, Forget;
    if next.Some? {
      LookupPut(cut.remembered, next.value.body.projectId, next.value.id, key);
    }
  }

  /** If only the close happened in between, its rollback gives back every list and the selection;
      the session itself comes back quiesced, and the one thing not undone is what the close
      remembered for a different project it fell back to. */
  lemma FailedCloseIsUndone(st: State, s: Session, project: Project, now: int)
    requires Consistent(st) && s in st.sessions && project in st.projects && s.body.projectId == project.id
    ensures var closed := Closed(st, s.id);
            var r := CloseUndone(closed, RollbackOfClose(st, s, project), SelectionOf(closed),
                                 Lookup(closed.remembered, project.id), now);
            && r.(remembered := st.remembered) == st.(sessions := Amend(st.sessions, s.id, Quiesced(s.body, now)))
            && forall key :: Lookup(r.remembered, key) ==
                 var next := Fallback(st, s, project);
                 if key != project.id && next.Some? && next.value.body.Durable() && next.value.body.projectId == key
                 then Some(next.value.id) else Lookup(st.remembered, key)
  {
    var closed, rb := Closed(st, s.id), RollbackOfClose(st, s, project);
    FindIs(st.sessions, s);
    FindIs(st.projects, project);
    ClosedLists(st, s, project);
    ListsBack(st, s, project, now);
    var r := CloseUndone(closed, rb, SelectionOf(closed), Lookup(closed.remembered, project.id), now);
    hide Closed, Partitioned, Pinned, Remembering, Selecting, Lookup, SessionBack, ListedAgain, PutBack, Fallback, Remap;
    forall key ensures Lookup(r.remembered, key) ==
                 var next := Fallback(st, s, project);
                 if key != project.id && next.Some? && next.value.body.Durable() && next.value.body.projectId == key
                 then Some(next.value.id) else Lookup(st.remembered, key)
    {
      RemapLooksUp(closed.remembered, project.id, rb.mapped, key);
      if key != project.id {
        ClosedRemembered(st, s, project, key);
      }
    }
  }

  lemma ListsBack(st: State, s: Session, project: Project, now: int)
    requires Consistent(st) && s in st.sessions && project in st.projects && s.body.projectId == project.id
    ensures var cut, rb := SessionCut(st, s, project), RollbackOfClose(st, s, project);
            && SessionBack(cut.sessions, s, rb.sessionIndex, now) == Amend(st.sessions, s.id, Quiesced(s.body, now))
            && ListedAgain(cut.projects, rb) == st.projects
            && PutBack(cut.pinnedSessions, rb.pinnedIndex, s.id) == st.pinnedSessions
            && (s.id in st.pinnedSessions ==> cut.settled == st.settled)
            && (s.id !in st.pinnedSessions ==> PutBack(cut.settled, rb.settledIndex, s.id) == st.settled)
  {
    IdsHas(st.sessions);
    var cut, rb := SessionCut(st, s, project), RollbackOfClose(st, s, project);
    WithoutIdsHas(st.sessions, {s.id});
    WithoutHas(Ids(st.sessions), {s.id});
    SpliceBackRecord(st.sessions, s.id, Quiesced(s.body, now));
    assert ListsItsOwn(st.sessions, project) && Owns(st.sessions, project.id, s.id);
    ListedBackExactly(st.projects, project, rb);
    PutBackExactly(st.pinnedSessions, s.id);
    PutBackExactly(st.settled, s.id);
    if s.id in st.pinnedSessions {
      WithoutNone(st.settled, {s.id});
    }
  }

  // ---------- A close undone after other operations ----------

  /** Whatever happened meanwhile, the undone close adds the one session and its listings and
      leaves the order of everything else alone; a selection and a remembered session chosen
      meanwhile stay. */
  lemma UndoAfterDriftOnlyAdds(st: State, rb: ClosedRollback, committed: Selection, mapped: Option<Id>, now: int)
    requires Partitioned(st.projects, st.sessions) && rb.session.id !in Ids(st.sessions)
    requires rb.session.body.projectId == rb.projectId && rb.projectId in Ids(st.projects)
    ensures var r, id := CloseUndone(st, rb, committed, mapped, now), rb.session.id;
            && Partitioned(r.projects, r.sessions)
            && WithoutIds(r.sessions, {id}) == st.sessions
            && Without(r.pinnedSessions, {id}) == Without(st.pinnedSessions, {id})
            && Without(r.settled, {id}) == Without(st.settled, {id})
            && r.pinnedProjects == st.pinnedProjects
            && SelectionOf(r) == if SelectionOf(st) == committed then rb.selection else SelectionOf(st)
    ensures ListedOnceMore(st.projects, CloseUndone(st, rb, committed, mapped, now).projects, rb.projectId, rb.session.id)
    ensures forall key :: Lookup(CloseUndone(st, rb, committed, mapped, now).remembered, key) ==
              if key == rb.projectId && Lookup(st.remembered, key) == mapped then rb.mapped else Lookup(st.remembered, key)
  {
    FindNone(st.projects, rb.projectId);
    var project := Find(st.projects, rb.projectId).value;
    var s := Record(rb.session.id, Quiesced(rb.session.body, now));
    UndoneIsWithSession(st, rb, committed, mapped, now);
    WithSessionPartitioned(st, s, rb.sessionIndex, project, rb.listedIndex);
    WithoutIdsSplice(st.sessions, rb.sessionIndex, s);
    PutBackOnlyAdds(st.pinnedSessions, rb.pinnedIndex, s.id);
    PutBackOnlyAdds(st.settled, rb.settledIndex, s.id);
    NotListed(st, project, s.id);
    OneListed(st.projects, project, s.id, rb.listedIndex);
    hide Partitioned, Splice, WithoutIds, Without, Amend, ListedAgain, SessionBack, Remap, Find, PutBack;
    forall key ensures Lookup(CloseUndone(st, rb, committed, mapped, now).remembered, key) ==
              if key == rb.projectId && Lookup(st.remembered, key) == mapped then rb.mapped else Lookup(st.remembered, key)
    {
      RemapLooksUp(st.remembered, rb.projectId, rb.mapped, key);
    }
  }

  /** The same projects in the same places, one of them listing one more session. */
  ghost predicate ListedOnceMore(before: seq<Project>, after: seq<Project>, projectId: Id, id: Id) {
    |after| == |before| && forall i :: 0 <= i < |before| ==>
      && after[i].id == before[i].id && after[i].body.path == before[i].body.path
      && (before[i].id != projectId ==> after[i] == before[i])
      && (before[i].id == projectId ==> id in after[i].body.sessionIds
                                        && Without(after[i].body.sessionIds, {id}) == before[i].body.sessionIds)
  }

  lemma OneListed(projects: seq<Project>, project: Project, id: Id, at: nat)
    requires Distinct(Ids(projects)) && project in projects && id !in project.body.sessionIds
    ensures ListedOnceMore(projects, Amend(projects, project.id, project.body.(sessionIds := Splice(project.body.sessionIds, at, id))),
                           project.id, id)
  {
    hide Distinct, Amend, Splice, Without, Ids;
    var ids := project.body.sessionIds;
    WithoutSplice(ids, at, id, {id});
    WithoutNone(ids, {id});
    SpliceHas(ids, at, id);
    AmendAt(projects, project.id, project.body.(sessionIds := Splice(ids, at, id)));
    forall i | 0 <= i < |projects| ensures projects[i].id == project.id ==> projects[i] == project {
      if projects[i].id == project.id {
        OnlyOne(projects, project, i);
      }
    }
  }

  lemma OnlyOne<T>(s: seq<Record<T>>, r: Record<T>, i: nat)
    requires Distinct(Ids(s)) && r in s && i < |s| && s[i].id == r.id
    ensures s[i] == r
  {
    FindIs(s, s[i]);
    FindIs(s, r);
    hide Find, Ids, Distinct;
  }

  lemma {:induction false} AmendAt<T>(s: seq<Record<T>>, id: Id, body: T)
    ensures var r := Amend(s, id, body);
            |r| == |s| && forall i :: 0 <= i < |s| ==> r[i] == if s[i].id == id then Record(id, body) else s[i]
  {
    if s != [] {
      AmendAt(s[..|s| - 1], id, body);
    }
  }

  lemma PutBackOnlyAdds(ids: seq<Id>, index: Option<nat>, id: Id)
    ensures Without(PutBack(ids, index, id), {id}) == Without(ids, {id})
  {
    if index.Some? && id !in ids {
      WithoutSplice(ids, index.value, id, {id});
    }
  }

  lemma UndoneIsWithSession(st: State, rb: ClosedRollback, committed: Selection, mapped: Option<Id>, now: int)
    requires Partitioned(st.projects, st.sessions) && rb.session.id !in Ids(st.sessions) && Find(st.projects, rb.projectId).Some?
    ensures var r := CloseUndone(st, rb, committed, mapped, now);
            var w := WithSession(st, Record(rb.session.id, Quiesced(rb.session.body, now)), rb.sessionIndex,
                                 Find(st.projects, rb.projectId).value, rb.listedIndex);
            r.projects == w.projects && r.sessions == w.sessions
  {
    NotListed(st, Find(st.projects, rb.projectId).value, rb.session.id);
    hide Partitioned, Splice, Amend, Remap, PutBack;
    assert PutBack(Find(st.projects, rb.projectId).value.body.sessionIds, Some(rb.listedIndex), rb.session.id)
           == Splice(Find(st.projects, rb.projectId).value.body.sessionIds, rb.listedIndex, rb.session.id)
    by { PutBackNew(Find(st.projects, rb.projectId).value.body.sessionIds, rb.listedIndex, rb.session.id); }
  }

  lemma PutBackNew(ids: seq<Id>, index: nat, id: Id)
    requires id !in ids
    ensures PutBack(ids, Some(index), id) == Splice(ids, index, id)
  {}

  lemma NotListed(st: State, project: Project, id: Id)
    requires Partitioned(st.projects, st.sessions) && project in st.projects && id !in Ids(st.sessions)
    ensures id !in project.body.sessionIds
  {
    assert ListsItsOwn(st.sessions, project);
    IdsHas(st.sessions);
  }

  lemma WithoutIdsSplice<T>(s: seq<Record<T>>, at: nat, r: Record<T>)
    requires r.id !in Ids(s)
    ensures WithoutIds(Splice(s, at, r), {r.id}) == s
  {
    var i := Clamped(at, |s|);
    assert s == s[..i] + s[i..];
    WithoutIdsConcat(s[..i] + [r], s[i..], {r.id});
    WithoutIdsConcat(s[..i], [r], {r.id});
    WithoutIdsConcat(s[..i], s[i..], {r.id});
    WithoutIdsNone(s, r.id);
    assert WithoutIds([r], {r.id}) == [];
  }

  // ---------- A failed project removal ----------

  datatype Displaced = Displaced(session: Session, index: nat)

  datatype RemovedRollback = RemovedRollback(
    project: Project, index: nat, removed: seq<Displaced>, pinnedProjects: seq<Id>, pinnedSessions: seq<Id>,
    settled: seq<Id>, mapped: Option<Id>, selection: Selection)

  function DisplacedOf(sessions: seq<Session>, projectId: Id): seq<Displaced> {
    if sessions == [] then []
    else
      var n := |sessions| - 1;
      var front := DisplacedOf(sessions[..n], projectId);
      if sessions[n].body.projectId == projectId then front + [Displaced(sessions[n], n)] else front
  }

  function RollbackOfRemoval(st: State, project: Project): RemovedRollback {
    RemovedRollback(project, if project.id in Ids(st.projects) then IndexOf(Ids(st.projects), project.id) else 0,
                    DisplacedOf(st.sessions, project.id), st.pinnedProjects, st.pinnedSessions, st.settled,
                    Lookup(st.remembered, project.id), SelectionOf(st))
  }

  function SessionsBack(sessions: seq<Session>, removed: seq<Displaced>, now: int): seq<Session> {
    if removed == [] then sessions
    else
      var last := removed[|removed| - 1];
      SessionBack(SessionsBack(sessions, removed[..|removed| - 1], now), last.session, last.index, now)
  }

  function DisplacedIds(removed: seq<Displaced>): set<Id> { set d | d in removed :: d.session.id }

  function RemovalUndone(st: State, rb: RemovedRollback, committed: Selection, now: int): State {
    var pid, gone := rb.project.id, DisplacedIds(rb.removed);
    var pinned := RestoreTracked(st.pinnedSessions, rb.pinnedSessions, gone);
    var back := st.(
      projects := if pid in Ids(st.projects) then st.projects else Splice(st.projects, rb.index, rb.project),
      sessions := SessionsBack(st.sessions, rb.removed, now),
      pinnedProjects := RestoreTracked(st.pinnedProjects, rb.pinnedProjects, {pid}),
      pinnedSessions := pinned,
      settled := Without(RestoreTracked(st.settled, rb.settled, gone), AsSet(pinned)),
      remembered := if Lookup(st.remembered, pid).None? && rb.mapped.Some?
                    then Put(st.remembered, pid, rb.mapped.value) else st.remembered);
    Reselect(back, committed, rb.selection)
  }

  /** The project's own sessions quiesced, in place. */
  function Calmed(sessions: seq<Session>, projectId: Id, now: int): seq<Session> {
    if sessions == [] then []
    else
      var last := sessions[|sessions| - 1];
      Calmed(sessions[..|sessions| - 1], projectId, now)
        + [if last.body.projectId == projectId then Record(last.id, Quiesced(last.body, now)) else last]
  }

  lemma {:induction false} CalmedIds(sessions: seq<Session>, projectId: Id, now: int)
    ensures Ids(Calmed(sessions, projectId, now)) == Ids(sessions) && |Calmed(sessions, projectId, now)| == |sessions|
  {
    if sessions != [] {
      CalmedIds(sessions[..|sessions| - 1], projectId, now);
    }
  }

  /** Each displaced session is new to what is there when its turn comes, and its index in reach. */
  predicate Separate(base: seq<Session>, removed: seq<Displaced>) {
    removed == [] ||
    var front, d := removed[..|removed| - 1], removed[|removed| - 1];
    && Separate(base, front) && d.index <= |base| + |front|
    && d.session.id !in Ids(base) && d.session.id !in DisplacedIds(front)
  }

  lemma {:induction false} BackIds(base: seq<Session>, removed: seq<Displaced>, now: int, id: Id)
    requires Separate(base, removed)
    ensures id in Ids(SessionsBack(base, removed, now)) <==> id in Ids(base) || id in DisplacedIds(removed)
  {
    if removed != [] {
      var n := |removed| - 1;
      var front, d := removed[..n], removed[n];
      BackIds(base, front, now, id);
      BackIds(base, front, now, d.session.id);
      assert removed == front + [d];
      assert id in DisplacedIds(removed) <==> id in DisplacedIds(front) || id == d.session.id;
      hide Separate, DisplacedIds;
      var before := SessionsBack(base, front, now);
      IdsSplice(before, d.index, Record(d.session.id, Quiesced(d.session.body, now)));
      SpliceHas(Ids(before), d.index, d.session.id);
    }
  }

  lemma {:induction false} BackSize(base: seq<Session>, removed: seq<Displaced>, now: int)
    requires Separate(base, removed)
    ensures |SessionsBack(base, removed, now)| == |base| + |removed|
  {
    if removed != [] {
      var n := |removed| - 1;
      BackSize(base, removed[..n], now);
      BackIds(base, removed[..n], now, removed[n].session.id);
    }
  }

  lemma SpliceAppended<T>(s: seq<T>, tail: seq<T>, at: nat, x: T)
    requires at <= |s|
    ensures Splice(s + tail, at, x) == Splice(s, at, x) + tail
  {}

  /** Re-insertion within reach does not look past the end. */
  lemma {:induction false} BackBeforeTail(base: seq<Session>, last: Session, removed: seq<Displaced>, now: int)
    requires Separate(base, removed) && last.id !in DisplacedIds(removed)
    ensures SessionsBack(base + [last], removed, now) == SessionsBack(base, removed, now) + [last]
  {
    if removed != [] {
      var n := |removed| - 1;
      var front, d := removed[..n], removed[n];
      assert d in removed && forall e <- front :: e in removed;
      BackBeforeTail(base, last, front, now);
      BackIds(base, front, now, d.session.id);
      BackSize(base, front, now);
      var before := SessionsBack(base, front, now);
      IdsConcat(before, [last]);
      assert Ids([last]) == [last.id];
      SpliceAppended(before, [last], d.index, Record(d.session.id, Quiesced(d.session.body, now)));
    }
  }

  lemma {:induction false} DisplacedAreIn(sessions: seq<Session>, projectId: Id)
    ensures forall id <- DisplacedIds(DisplacedOf(sessions, projectId)) :: id in Ids(sessions)
    ensures forall id <- Ids(OutsideProject(sessions, projectId)) :: id in Ids(sessions)
    ensures |DisplacedOf(sessions, projectId)| + |OutsideProject(sessions, projectId)| == |sessions|
  {
    if sessions != [] {
      DisplacedAreIn(sessions[..|sessions| - 1], projectId);
    }
  }

  lemma {:induction false} SeparateMore(base: seq<Session>, last: Session, removed: seq<Displaced>)
    requires Separate(base, removed) && last.id !in DisplacedIds(removed)
    ensures Separate(base + [last], removed)
  {
    if removed != [] {
      var n := |removed| - 1;
      assert removed[n] in removed && forall e <- removed[..n] :: e in removed;
      SeparateMore(base, last, removed[..n]);
      IdsConcat(base, [last]);
      assert Ids([last]) == [last.id];
    }
  }

  lemma {:induction false} DisplacedSeparate(sessions: seq<Session>, projectId: Id)
    requires Distinct(Ids(sessions))
    ensures Separate(OutsideProject(sessions, projectId), DisplacedOf(sessions, projectId))
  {
    hide Distinct;
    if sessions != [] {
      var n := |sessions| - 1;
      var front, last := sessions[..n], sessions[n];
      LastApart(Ids(sessions));
      assert Ids(sessions)[..|Ids(sessions)| - 1] == Ids(front);
      DisplacedSeparate(front, projectId);
      DisplacedAreIn(front, projectId);
      if last.body.projectId != projectId {
        SeparateMore(OutsideProject(front, projectId), last, DisplacedOf(front, projectId));
      } else {
        var removed := DisplacedOf(sessions, projectId);
        assert removed[..|removed| - 1] == DisplacedOf(front, projectId);
      }
    }
  }

  /** The removed sessions go back to exactly where they were. */
  lemma {:induction false} SessionsComeBack(sessions: seq<Session>, projectId: Id, now: int)
    requires Distinct(Ids(sessions))
    ensures SessionsBack(OutsideProject(sessions, projectId), DisplacedOf(sessions, projectId), now)
            == Calmed(sessions, projectId, now)
  {
    hide Distinct;
    if sessions != [] {
      var n := |sessions| - 1;
      var front, last := sessions[..n], sessions[n];
      LastApart(Ids(sessions));
      assert Ids(sessions)[..|Ids(sessions)| - 1] == Ids(front);
      SessionsComeBack(front, projectId, now);
      DisplacedAreIn(front, projectId);
      DisplacedSeparate(front, projectId);
      var base, removed := OutsideProject(front, projectId), DisplacedOf(front, projectId);
      if last.body.projectId != projectId {
        BackBeforeTail(base, last, removed, now);
      } else {
        CalmedIds(front, projectId, now);
        LastBack(base, removed, last, n, now);
      }
    }
  }

  lemma LastBack(base: seq<Session>, removed: seq<Displaced>, last: Session, n: nat, now: int)
    requires var before := SessionsBack(base, removed, now); |before| == n && last.id !in Ids(before)
    ensures SessionsBack(base, removed + [Displaced(last, n)], now)
            == SessionsBack(base, removed, now) + [Record(last.id, Quiesced(last.body, now))]
  {
    assert (removed + [Displaced(last, n)])[..|removed|] == removed;
  }

  /** Which project the selection fell back to, if the removed project was selected. */
  function RemovalFallback(st: State, projectId: Id): Option<Session> {
    var next := FirstOrdered(st.projects, st.pinnedProjects, {projectId});
    if SelectionInProject(st, projectId) && next.Some? then Preferred(ProjectCut(st, projectId), next.value) else None
  }

  lemma {:induction false} DisplacedIdsAre(sessions: seq<Session>, projectId: Id)
    ensures DisplacedIds(DisplacedOf(sessions, projectId)) == AsSet(OwnIds(sessions, projectId))
  {
    if sessions != [] {
      var n := |sessions| - 1;
      DisplacedIdsAre(sessions[..n], projectId);
      OneDisplacedMore(DisplacedOf(sessions[..n], projectId), Displaced(sessions[n], n));
      OneIdMore(OwnIds(sessions[..n], projectId), sessions[n].id);
      hide DisplacedIds, AsSet;
    }
  }

  lemma OneDisplacedMore(removed: seq<Displaced>, d: Displaced)
    ensures DisplacedIds(removed + [d]) == DisplacedIds(removed) + {d.session.id}
  {
    assert forall e :: e in removed + [d] <==> e in removed || e == d;
  }

  lemma OneIdMore(ids: seq<Id>, id: Id)
    ensures AsSet(ids + [id]) == AsSet(ids) + {id}
  {}

  lemma TrackedBack(ids: seq<Id>, gone: set<Id>)
    requires Distinct(ids)
    ensures RestoreTracked(Without(ids, gone), ids, gone) == ids
  {
    WithoutHas(ids, gone);
    WithoutNone(Without(ids, gone), gone);
    RestoreTrackedExactly(Without(ids, gone), ids, gone);
  }

  lemma RemovedLists(st: State, project: Project)
    requires Find(st.projects, project.id) == Some(project)
    ensures var r, cut := Removed(st, project.id), ProjectCut(st, project.id);
            r.(remembered := cut.remembered, selectedProject := cut.selectedProject, selectedSession := cut.selectedSession)
            == cut
  {
    hide ProjectCut, FirstOrdered, Preferred, Put, SelectionInProject;
  }

  lemma RemovalListsBack(st: State, project: Project, now: int)
    requires Consistent(st) && project in st.projects
    ensures var cut, rb := ProjectCut(st, project.id), RollbackOfRemoval(st, project);
            var gone := DisplacedIds(rb.removed);
            && project.id !in Ids(cut.projects) && Splice(cut.projects, rb.index, project) == st.projects
            && SessionsBack(cut.sessions, rb.removed, now) == Calmed(st.sessions, project.id, now)
            && RestoreTracked(cut.pinnedProjects, rb.pinnedProjects, {project.id}) == st.pinnedProjects
            && RestoreTracked(cut.pinnedSessions, rb.pinnedSessions, gone) == st.pinnedSessions
            && RestoreTracked(cut.settled, rb.settled, gone) == st.settled
  {
    IdsHas(st.projects);
    WithoutIdsHas(st.projects, {project.id});
    WithoutHas(Ids(st.projects), {project.id});
    SpliceBackRecord(st.projects, project.id, project.body);
    AmendToSame(st.projects, project);
    hide Partitioned, Distinct, ListsItsOwn;
    DistinctSessions(st);
    SessionsComeBack(st.sessions, project.id, now);
    DisplacedIdsAre(st.sessions, project.id);
    TrackedBack(st.pinnedProjects, {project.id});
    TrackedBack(st.pinnedSessions, AsSet(OwnIds(st.sessions, project.id)));
    TrackedBack(st.settled, AsSet(OwnIds(st.sessions, project.id)));
  }

  lemma RemovedRemembered(st: State, project: Project, key: Id)
    requires Find(st.projects, project.id) == Some(project)
    requires forall id <- st.pinnedProjects :: id in Ids(st.projects)
    ensures Lookup(Removed(st, project.id).remembered, key)
            == var next := RemovalFallback(st, project.id);
               if next.Some? && next.value.body.Durable() && next.value.body.projectId == key then Some(next.value.id)
               else if key == project.id then None else Lookup(st.remembered, key)
  {
    LookupWithout(st.remembered, {project.id}, key);
    var next, cut := RemovalFallback(st, project.id), ProjectCut(st, project.id);
    assert cut.remembered == WithoutIds(st.remembered, {project.id});
    hide ProjectCut, FirstOrdered, Preferred, Put, SelectionInProject;
    if next.Some? {
      LookupPut(cut.remembered, next.value.body.projectId, next.value.id, key);
    }
  }

  /** A project removal that fails is undone the same way. */
  lemma FailedRemovalIsUndone(st: State, project: Project, now: int)
    requires Consistent(st) && project in st.projects
    ensures var removed := Removed(st, project.id);
            var r := RemovalUndone(removed, RollbackOfRemoval(st, project), SelectionOf(removed), now);
            && r.(remembered := st.remembered) == st.(sessions := Calmed(st.sessions, project.id, now))
            && forall key :: Lookup(r.remembered, key) ==
                 var next := RemovalFallback(st, project.id);
                 if next.Some? && next.value.body.Durable() && next.value.body.projectId == key
                 then Some(next.value.id) else Lookup(st.remembered, key)
  {
    var pid, removed, rb := project.id, Removed(st, project.id), RollbackOfRemoval(st, project);
    FindIs(st.projects, project);
    RemovedLists(st, project);
    RemovalListsBack(st, project, now);
    FirstOrderedIs(st.projects, st.pinnedProjects, {pid});
    WithoutNone(st.settled, AsSet(st.pinnedSessions));
    var r := RemovalUndone(removed, rb, SelectionOf(removed), now);
    hide Removed, Partitioned, Pinned, Remembering, Selecting, SessionsBack, RestoreTracked, Splice, DisplacedOf, Preferred,
         FirstOrdered, Calmed, Ids;
    forall key ensures Lookup(r.remembered, key) ==
                 var next := RemovalFallback(st, pid);
                 if next.Some? && next.value.body.Durable() && next.value.body.projectId == key
                 then Some(next.value.id) else Lookup(st.remembered, key)
    {
      RemovedRemembered(st, project, key);
      RemovedRemembered(st, project, pid);
      if rb.mapped.Some? {
        LookupPut(removed.remembered, pid, rb.mapped.value, key);
      }
    }
  }
}
