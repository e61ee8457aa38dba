/** What the smaller edits of the layout amount to: updates of a session's record over time, pins and
    settled sessions, moves in the sidebar, adding a project, and a session created and closed again. */
module LayoutEdits {
  import opened Results
  import opened Lists
  import opened Layout
  import opened LayoutSteps
  import opened LayoutRuns
  import opened LayoutUndo
  import opened LayoutDrift
  import opened LayoutChoices

  // ---------- Records over time ----------

  /** Event `i` is the last one about the session for which `p` holds. */
  ghost predicate LastAbout(hs: seq<Happening>, id: Id, i: nat) {
    i < |hs| && hs[i].sessionId == id && forall j :: i < j < |hs| ==> hs[j].sessionId != id
  }

  ghost predicate LastNaming(hs: seq<Happening>, id: Id, i: nat) {
    && i < |hs| && hs[i].sessionId == id && hs[i].change.acp.Some?
    && forall j :: i < j < |hs| && hs[j].sessionId == id ==> hs[j].change.acp.None?
  }

  ghost predicate About(hs: seq<Happening>, id: Id, i: nat) { i < |hs| && hs[i].sessionId == id }

  ghost predicate Transcribes(hs: seq<Happening>, id: Id, i: nat) { About(hs, id, i) && hs[i].change.transcribed }

  /** The record shows the last event about the session; the session identifier is the last one named,
      and a transcript is there if it was or once an event had one. */
  ghost predicate ShowsEvents(was: SessionBody, now: SessionBody, hs: seq<Happening>, id: Id) {
    && now.projectId == was.projectId
    && (forall i: nat :: LastAbout(hs, id, i) ==>
          now.active == hs[i].change.active && now.updatedAt == hs[i].change.updatedAt && now.content == hs[i].change.content)
    && (forall i: nat :: LastNaming(hs, id, i) ==> now.acp == hs[i].change.acp)
    && ((forall i: nat :: About(hs, id, i) ==> hs[i].change.acp.None?) ==> now.acp == was.acp)
    && (now.transcribed <==> was.transcribed || exists i: nat :: Transcribes(hs, id, i))
    && ((forall i: nat :: !About(hs, id, i)) ==> now == was)
  }

  lemma OneMoreEvent(was: SessionBody, now: SessionBody, hs: seq<Happening>, h: Happening, id: Id)
    requires ShowsEvents(was, now, hs, id)
    ensures ShowsEvents(was, if h.sessionId == id then Changed(now, h.change) else now, hs + [h], id)
  {
    var more := hs + [h];
    var next := if h.sessionId == id then Changed(now, h.change) else now;
    assert more[|hs|] == h;
    assert forall i: nat :: i < |hs| ==> more[i] == hs[i];
    assert forall i: nat :: About(hs, id, i) ==> About(more, id, i);
    assert forall i: nat :: Transcribes(hs, id, i) ==> Transcribes(more, id, i);
    if h.sessionId == id {
      assert About(more, id, |hs|) && LastAbout(more, id, |hs|);
      forall i: nat | LastNaming(more, id, i) ensures next.acp == more[i].change.acp {
        assert i < |hs| ==> LastNaming(hs, id, i);
      }
      assert h.change.transcribed ==> Transcribes(more, id, |hs|);
    } else {
      assert forall i: nat :: LastAbout(more, id, i) ==> LastAbout(hs, id, i);
      assert forall i: nat :: LastNaming(more, id, i) ==> LastNaming(hs, id, i);
    }
    assert forall i: nat :: Transcribes(more, id, i) ==> i == |hs| || Transcribes(hs, id, i);
  }

  /** Events of running sessions change each session's record as its own events say, and nothing else;
      the selected session, once its record is durable, is the one its project remembers. */
  lemma {:induction false} EventsShow(st: State, hs: seq<Happening>, s: Session)
    requires Consistent(st) && s in st.sessions
    ensures var r := Happen(st, hs);
            && Consistent(r) && r.projects == st.projects && Ids(r.sessions) == Ids(st.sessions)
            && SelectionOf(r) == SelectionOf(st)
            && Find(r.sessions, s.id).Some? && ShowsEvents(s.body, Find(r.sessions, s.id).value.body, hs, s.id)
  {
    DistinctSessions(st);
    FindIs(st.sessions, s);
    if hs != [] {
      var front, h := hs[..|hs| - 1], hs[|hs| - 1];
      EventsShow(st, front, s);
      Snoc(hs);
      var before := Happen(st, front);
      hide ShowsEvents, Consistent;
      UpdateKeeps(before, h.sessionId, h.change);
      OneEvent(before, h, s.id);
      OneMoreEvent(s.body, Find(before.sessions, s.id).value.body, front, h, s.id);
      hide RecordUpdated, Changed;
    }
  }

  lemma OneEvent(st: State, h: Happening, id: Id)
    requires Find(st.sessions, id).Some?
    ensures var r, was := RecordUpdated(st, h.sessionId, h.change), Find(st.sessions, id).value;
            && r.projects == st.projects && Ids(r.sessions) == Ids(st.sessions) && SelectionOf(r) == SelectionOf(st)
            && Find(r.sessions, id).Some?
            && Find(r.sessions, id).value.body == if h.sessionId == id then Changed(was.body, h.change) else was.body
  {
    var s := Find(st.sessions, h.sessionId);
    if s.Some? {
      AmendHas(st.sessions, h.sessionId, Changed(s.value.body, h.change));
      FindAmended(st.sessions, h.sessionId, Changed(s.value.body, h.change), id);
    }
    hide Changed, Amend, Put;
  }

  /** A selected session is remembered by the event that makes it durable. */
  lemma DurableIsRemembered(st: State, s: Session, c: Change)
    requires Consistent(st) && s in st.sessions && st.selectedSession == Some(s.id) && Changed(s.body, c).Durable()
    ensures Lookup(RecordUpdated(st, s.id, c).remembered, s.body.projectId) == Some(s.id)
  {
    DistinctSessions(st);
    FindIs(st.sessions, s);
    LookupPut(st.remembered, s.body.projectId, s.id, s.body.projectId);
    hide Put, Amend, Consistent;
  }

  // ---------- Pins ----------

  function LastOnes(ids: seq<Id>, limit: nat): seq<Id> { if |ids| <= limit then ids else ids[|ids| - limit..] }

  function PinAll(st: State, ids: seq<Id>): State {
    if ids == [] then st else SessionPinned(PinAll(st, ids[..|ids| - 1]), ids[|ids| - 1], true).state
  }

  /** Sessions pinned one after the other: the pins are the last ones, as many as there is room for,
      and what was pinned is settled no more. */
  lemma {:induction false} PinsAreTheLastOnes(st: State, ids: seq<Id>)
    requires Consistent(st) && Distinct(st.pinnedSessions + ids) && forall id <- ids :: id in Ids(st.sessions)
    ensures PinAll(st, ids) == st.(pinnedSessions := LastOnes(st.pinnedSessions + ids, MAX_PINNED_SESSIONS),
                                   settled := Without(st.settled, AsSet(ids)))
  {
    if ids == [] {
      WithoutNone(st.settled, AsSet(ids));
      assert st.pinnedSessions + [] == st.pinnedSessions;
    } else {
      var front, id := ids[..|ids| - 1], ids[|ids| - 1];
      LastPin(st, ids);
      PinsAreTheLastOnes(st, front);
      FirstOfRest(st.settled, AsSet(front), {id});
      hide Consistent, Distinct, Without, AsSet, Find, Ids, LastOnes;
      PinOne(st, ids);
      hide PinAll;
      PinOneMore(PinAll(st, front), st.pinnedSessions + front, id);
    }
  }

  lemma LastPin(st: State, ids: seq<Id>)
    requires ids != [] && Distinct(st.pinnedSessions + ids) && forall id <- ids :: id in Ids(st.sessions)
    ensures var front, id := ids[..|ids| - 1], ids[|ids| - 1]; var before := st.pinnedSessions + front;
            && before + [id] == st.pinnedSessions + ids && Distinct(before) && id !in before
            && (forall x <- front :: x in Ids(st.sessions)) && Find(st.sessions, id).Some?
            && AsSet(front) + {id} == AsSet(ids)
  {
    var all := st.pinnedSessions + ids;
    var front, id := ids[..|ids| - 1], ids[|ids| - 1];
    assert all[..|all| - 1] == st.pinnedSessions + front && all[|all| - 1] == id && id in ids;
    LastApart(all);
    FindNone(st.sessions, id);
    hide Distinct;
  }

  lemma PinOneMore(st: State, all: seq<Id>, id: Id)
    requires st.pinnedSessions == LastOnes(all, MAX_PINNED_SESSIONS) && id !in all && Find(st.sessions, id).Some?
    ensures SessionPinned(st, id, true).state
            == st.(pinnedSessions := LastOnes(all + [id], MAX_PINNED_SESSIONS), settled := Without(st.settled, {id}))
  {
    OneMorePinned(all, id);
    hide LastOnes, Without;
  }

  lemma PinOne(st: State, ids: seq<Id>)
    requires ids != []
    ensures PinAll(st, ids) == SessionPinned(PinAll(st, ids[..|ids| - 1]), ids[|ids| - 1], true).state
  {
    hide SessionPinned;
  }

  lemma OneMorePinned(ids: seq<Id>, id: Id)
    requires id !in ids
    ensures var last := LastOnes(ids, MAX_PINNED_SESSIONS);
            && id !in last
            && LastOnes(ids + [id], MAX_PINNED_SESSIONS)
               == (if |last| >= MAX_PINNED_SESSIONS then last[1..] else last) + [id]
  {}

  lemma LastUnpinned(ids: seq<Id>, id: Id)
    requires id !in ids
    ensures Without(ids + [id], {id}) == ids && Without([id] + ids, {id}) == ids
  {
    WithoutConcat(ids, [id], {id});
    WithoutConcat([id], ids, {id});
    WithoutNone(ids, {id});
    assert Without([id], {id}) == [];
    assert [] + ids == ids && ids + [] == ids;
  }

  function SettleAll(st: State, ids: seq<Id>): State {
    if ids == [] then st else SessionSettled(SettleAll(st, ids[..|ids| - 1]), ids[|ids| - 1], true, true).state
  }

  /** Sessions settled one after the other, with room for them: they are listed in that order, and none
      of them is pinned. */
  lemma {:induction false} SettledInOrder(st: State, ids: seq<Id>)
    requires Distinct(st.settled + ids) && |st.settled + ids| <= MAX_SETTLED_SESSIONS && forall id <- ids :: id in Ids(st.sessions)
    ensures SettleAll(st, ids) == st.(settled := st.settled + ids, pinnedSessions := Without(st.pinnedSessions, AsSet(ids)))
  {
    if ids == [] {
      WithoutNone(st.pinnedSessions, AsSet(ids));
      assert st.settled + [] == st.settled;
    } else {
      var front, id := ids[..|ids| - 1], ids[|ids| - 1];
      LastSettled(st, ids);
      SettledInOrder(st, front);
      FirstOfRest(st.pinnedSessions, AsSet(front), {id});
      hide Distinct, Without, AsSet, Find, Ids;
    }
  }

  lemma LastSettled(st: State, ids: seq<Id>)
    requires ids != [] && Distinct(st.settled + ids) && forall id <- ids :: id in Ids(st.sessions)
    ensures var front, id := ids[..|ids| - 1], ids[|ids| - 1]; var before := st.settled + front;
            && before + [id] == st.settled + ids && Distinct(before) && id !in before
            && (forall x <- front :: x in Ids(st.sessions)) && Find(st.sessions, id).Some?
            && AsSet(front) + {id} == AsSet(ids)
  {
    LastPin(st.(pinnedSessions := st.settled), ids);
  }

  /** With room for it, unpinning undoes a pin, but for a session that was settled; unsettling undoes a
      settling of a session that was not pinned. */
  lemma MarksAreUndone(st: State, id: Id)
    requires id in Ids(st.sessions)
    ensures id !in st.pinnedSessions && |st.pinnedSessions| < MAX_PINNED_SESSIONS ==>
              SessionPinned(SessionPinned(st, id, true).state, id, false)
              == Outcome(st.(settled := Without(st.settled, {id})), None)
    ensures id !in st.settled && id !in st.pinnedSessions && |st.settled| < MAX_SETTLED_SESSIONS ==>
              SessionSettled(SessionSettled(st, id, true, true).state, id, false, true) == Outcome(st, None)
  {
    FindNone(st.sessions, id);
    if id !in st.pinnedSessions {
      LastUnpinned(st.pinnedSessions, id);
      WithoutNone(st.pinnedSessions, {id});
    }
    if id !in st.settled {
      LastUnpinned(st.settled, id);
    }
    hide Without;
  }

  /** A project that is pinned or unpinned comes first in its group of the sidebar; the order of all
      other projects stays. */
  lemma PinnedProjectLeads(st: State, projectId: Id, pinned: bool)
    requires Consistent(st) && projectId in Ids(st.projects) && pinned != (projectId in st.pinnedProjects)
    requires pinned ==> |st.pinnedProjects| < MAX_PINNED_PROJECTS
    ensures var o := ProjectPinned(st, projectId, pinned);
            && o.error.None? && Without(Sidebar(o.state), {projectId}) == Without(Sidebar(st), {projectId})
            && (if pinned then o.state.pinnedProjects == [projectId] + st.pinnedProjects
                else projectId !in o.state.pinnedProjects
                     && |o.state.pinnedProjects| < |Sidebar(o.state)|
                     && Sidebar(o.state)[|o.state.pinnedProjects|] == projectId)
  {
    FindNone(st.projects, projectId);
    DistinctSessions(st);
    assert Distinct(st.pinnedProjects);
    hide Consistent;
    if pinned {
      PinnedFirst(st.pinnedProjects, Ids(st.projects), projectId);
    } else {
      WithoutIdsHas(st.projects, {projectId});
      IdsConcat([Find(st.projects, projectId).value], WithoutIds(st.projects, {projectId}));
      assert Ids([Find(st.projects, projectId).value]) == [projectId];
      UnpinnedFirst(st.pinnedProjects, Ids(st.projects), projectId);
    }
    hide ProjectPinned, Without, Ids, WithoutIds, Distinct;
  }

  /** The sidebar of pinned and all identifiers. */
  function Bar(pins: seq<Id>, ids: seq<Id>): seq<Id> { pins + Without(ids, AsSet(pins)) }

  lemma BarWithout(pins: seq<Id>, ids: seq<Id>, id: Id)
    ensures Without(Bar(pins, ids), {id}) == Without(pins, {id}) + Without(ids, AsSet(pins) + {id})
  {
    WithoutConcat(pins, Without(ids, AsSet(pins)), {id});
    FirstOfRest(ids, AsSet(pins), {id});
  }

  lemma PinnedFirst(pins: seq<Id>, ids: seq<Id>, id: Id)
    requires id !in pins
    ensures Without(Bar([id] + pins, ids), {id}) == Without(Bar(pins, ids), {id})
  {
    BarWithout(pins, ids, id);
    BarWithout([id] + pins, ids, id);
    LastUnpinned(pins, id);
    WithoutNone(pins, {id});
    assert AsSet([id] + pins) + {id} == AsSet(pins) + {id};
  }

  lemma UnpinnedFirst(pins: seq<Id>, ids: seq<Id>, id: Id)
    requires id in pins
    ensures var after := Bar(Without(pins, {id}), [id] + Without(ids, {id}));
            && Without(after, {id}) == Without(Bar(pins, ids), {id}) && id !in Without(pins, {id})
            && |Without(pins, {id})| < |after| && after[|Without(pins, {id})|] == id
  {
    var left, rest := Without(pins, {id}), Without(ids, {id});
    WithoutHas(pins, {id});
    BarWithout(pins, ids, id);
    BarWithout(left, [id] + rest, id);
    FirstOfRest(pins, {id}, {id});
    assert AsSet(left) + {id} == AsSet(pins) + {id} && {id} + {id} == {id};
    WithoutConcat([id], rest, AsSet(left) + {id});
    FirstOfRest(ids, {id}, AsSet(left) + {id});
    assert {id} + (AsSet(left) + {id}) == AsSet(pins) + {id};
    assert Without([id], AsSet(left) + {id}) == [] && Without([id], AsSet(left)) == [id];
    WithoutConcat([id], rest, AsSet(left));
    assert [] + Without(rest, AsSet(left) + {id}) == Without(rest, AsSet(left) + {id});
  }

  // ---------- Adding and closing ----------

  /** The same path added again adds nothing: the project that stands there is selected. */
  lemma AddingTwiceAddsOnce(st: State, path: string, id: Id, again: Id)
    requires Consistent(st) && id !in Ids(st.projects)
    ensures var once := Added(st, path, id); var twice := Added(once, path, again);
            && twice.projects == once.projects && twice.sessions == st.sessions && once.sessions == st.sessions
            && (exists p :: p in once.projects && p.body.path == path
                            && once.selectedProject == Some(p.id) && twice.selectedProject == Some(p.id))
            && (if exists p :: p in st.projects && p.body.path == path then once.projects == st.projects
                else once.projects == [Record(id, ProjectBody(path, []))] + st.projects)
  {
    var existing := ProjectAtPath(st.projects, path);
    PathFound(st.projects, path);
    if existing.Some? {
      SelectedAt(st, existing.value);
      var once := ProjectSelected(st, existing.value.id);
      SelectedAt(once, existing.value);
    } else {
      var added := Record(id, ProjectBody(path, []));
      var once := Added(st, path, id);
      assert once.projects[0] == added;
      assert ProjectAtPath(once.projects, path) == Some(added);
      SelectedAt(once, added);
    }
    hide ProjectSelected, Consistent;
  }

  lemma {:induction false} PathFound(projects: seq<Project>, path: string)
    ensures ProjectAtPath(projects, path).Some? <==> exists p :: p in projects && p.body.path == path
    ensures ProjectAtPath(projects, path).Some? ==> ProjectAtPath(projects, path).value.body.path == path
  {
    if projects != [] {
      PathFound(projects[1..], path);
      assert projects == [projects[0]] + projects[1..];
    }
  }

  lemma SelectedAt(st: State, p: Project)
    requires p in st.projects
    ensures var r := ProjectSelected(st, p.id);
            r.projects == st.projects && r.sessions == st.sessions && r.selectedProject == Some(p.id)
  {
    IdsHas(st.projects);
    FindNone(st.projects, p.id);
    hide Preferred;
  }

  /** A created session is the last one and selected, empty and idle; closing it leaves every list as
      it was. */
  lemma CreateIsUndoneByClose(st: State, project: Project, id: Id, at: int, content: string)
    requires Consistent(st) && project in st.projects && id !in Ids(st.sessions)
    ensures var c := Created(st, project.id, id, at, content);
            && c.sessions == st.sessions + [Record(id, SessionBody(project.id, None, false, false, at, content))]
            && SelectionOf(c) == Selection(Some(project.id), Some(id))
    ensures var r := Closed(Created(st, project.id, id, at, content), id);
            && r.sessions == st.sessions && r.projects == st.projects && r.settled == st.settled
            && r.pinnedProjects == st.pinnedProjects && r.pinnedSessions == st.pinnedSessions
  {
    var c := Created(st, project.id, id, at, content);
    var s := Record(id, SessionBody(project.id, None, false, false, at, content));
    var more := Record(project.id, project.body.(sessionIds := project.body.sessionIds + [id]));
    CreateKeeps(st, project.id, id, at, content);
    CreatedHas(st, project, s);
    NotMarked(st, id);
    NotListed(st, project, id);
    DistinctSessions(st);
    hide Created, Consistent;
    ClosedLists(c, s, more);
    LastUnpinned(project.body.sessionIds, id);
    AmendBack(st.projects, project, more.body);
    WithoutIdsLast(st.sessions, s);
    hide Closed, Amend, Without, WithoutIds, Splice, Distinct, Ids;
  }

  lemma CreatedHas(st: State, project: Project, s: Session)
    requires Consistent(st) && project in st.projects && s.body == SessionBody(project.id, None, false, false, s.body.updatedAt, s.body.content)
    ensures var c := Created(st, project.id, s.id, s.body.updatedAt, s.body.content);
            var more := Record(project.id, project.body.(sessionIds := project.body.sessionIds + [s.id]));
            && c == st.(sessions := st.sessions + [s], projects := Amend(st.projects, project.id, more.body),
                        selectedProject := Some(project.id), selectedSession := Some(s.id))
            && more in c.projects && s in c.sessions
  {
    var more := Record(project.id, project.body.(sessionIds := project.body.sessionIds + [s.id]));
    CreatedIs(st, project, s);
    hide Created, Consistent;
    IdsHas(st.projects);
    AmendHas(st.projects, project.id, more.body);
    hide Amend, Ids;
  }

  lemma CreatedIs(st: State, project: Project, s: Session)
    requires Consistent(st) && project in st.projects && s.body == SessionBody(project.id, None, false, false, s.body.updatedAt, s.body.content)
    ensures Created(st, project.id, s.id, s.body.updatedAt, s.body.content)
            == st.(sessions := st.sessions + [s],
                   projects := Amend(st.projects, project.id, project.body.(sessionIds := project.body.sessionIds + [s.id])),
                   selectedProject := Some(project.id), selectedSession := Some(s.id))
  {
    DistinctSessions(st);
    FindIs(st.projects, project);
    hide Consistent, Amend, Distinct, Ids, Find;
    var list := project.body.sessionIds;
    assert Splice(list, |list|, s.id) == list + [s.id] && Splice(st.sessions, |st.sessions|, s) == st.sessions + [s];
    hide Splice;
  }

  lemma NotMarked(st: State, id: Id)
    requires Consistent(st) && id !in Ids(st.sessions)
    ensures Without(st.pinnedSessions, {id}) == st.pinnedSessions && Without(st.settled, {id}) == st.settled
  {
    WithoutNone(st.pinnedSessions, {id});
    WithoutNone(st.settled, {id});
  }

  lemma ClosedLists(st: State, s: Session, project: Project)
    requires Consistent(st) && s in st.sessions && project in st.projects && s.body.projectId == project.id
    ensures var r, cut := Closed(st, s.id), SessionCut(st, s, project);
            && r.sessions == cut.sessions && r.projects == cut.projects && r.settled == cut.settled
            && r.pinnedProjects == cut.pinnedProjects && r.pinnedSessions == cut.pinnedSessions
  {
    DistinctSessions(st);
    FindIs(st.sessions, s);
    FindIs(st.projects, project);
    hide Consistent, SessionCut, CloseFallback;
  }

  lemma AmendBack(projects: seq<Project>, project: Project, body: ProjectBody)
    requires Distinct(Ids(projects)) && project in projects
    ensures Amend(Amend(projects, project.id, body), project.id, project.body) == projects
  {
    AmendOver(projects, project.id, body, project.body);
    AmendItself(projects, project);
  }

  lemma {:induction false} AmendOver<T>(s: seq<Record<T>>, id: Id, a: T, b: T)
    ensures Amend(Amend(s, id, a), id, b) == Amend(s, id, b) && |Amend(s, id, a)| == |s|
  {
    if s != [] {
      AmendOver(s[..|s| - 1], id, a, b);
      Snoc(Amend(s, id, a));
    }
  }

  lemma {:induction false} AmendItself<T>(s: seq<Record<T>>, r: Record<T>)
    requires Distinct(Ids(s)) && r in s
    ensures Amend(s, r.id, r.body) == s
  {
    IdsAt(s);
    CutRecord(s, r.id, r.body);
    var k :| 0 <= k < |s| && s[k] == r;
    assert IndexOf(Ids(s), r.id) == k;
    Snoc(s);
    assert s == s[..k] + [r] + s[k + 1..];
  }

  lemma WithoutIdsLast(sessions: seq<Session>, s: Session)
    requires s.id !in Ids(sessions)
    ensures WithoutIds(sessions + [s], {s.id}) == sessions
  {
    assert (sessions + [s])[..|sessions|] == sessions;
    NoneWithoutIds(sessions, s.id);
  }

  lemma {:induction false} NoneWithoutIds(sessions: seq<Session>, id: Id)
    requires id !in Ids(sessions)
    ensures WithoutIds(sessions, {id}) == sessions
  {
    if sessions != [] {
      NoneWithoutIds(sessions[..|sessions| - 1], id);
      Snoc(sessions);
    }
  }

  // ---------- Moves in the sidebar ----------

  /** Two neighbours change places, `id` going up or down. */
  ghost predicate StepsPast(before: seq<Id>, after: seq<Id>, id: Id, up: bool) {
    exists i :: 0 <= i < |before| - 1 && before[if up then i + 1 else i] == id
                && after == before[i := before[i + 1]][i + 1 := before[i]]
  }

  /** A project moves past its neighbour in its group of the sidebar, or, at the group's edge, not at
      all; nothing else changes. */
  lemma MoveStepsPast(st: State, projectId: Id, up: bool)
    requires Consistent(st) && projectId in Ids(st.projects)
    ensures var r := ProjectMoved(st, projectId, up);
            var group := if projectId in st.pinnedProjects then st.pinnedProjects
                         else Without(Ids(st.projects), AsSet(st.pinnedProjects));
            && projectId in group
            && (if HasNeighbour(group, projectId, up) then StepsPast(Sidebar(st), Sidebar(r), projectId, up)
                else r == st)
            && r == st.(projects := r.projects, pinnedProjects := r.pinnedProjects)
            && (forall p :: p in r.projects <==> p in st.projects)
  {
    DistinctSessions(st);
    hide Consistent;
    var pins, ids := st.pinnedProjects, Ids(st.projects);
    var rest := Without(ids, AsSet(pins));
    WithoutHas(ids, AsSet(pins));
    if projectId in pins {
      if HasNeighbour(pins, projectId, up) {
        PinnedSteps(pins, rest, projectId, up);
        assert AsSet(Neighboured(pins, projectId, up)) == AsSet(pins);
      }
    } else if HasNeighbour(rest, projectId, up) {
      var other := Neighbour(rest, projectId, up);
      assert other in rest;
      var i, j := IndexOf(ids, projectId), IndexOf(ids, other);
      SwappedIds(st.projects, i, j);
      hide Distinct;
      RestSteps(pins, ids, projectId, up);
    }
  }

  lemma SwappedIds(projects: seq<Project>, i: nat, j: nat)
    requires i < |Ids(projects)| && j < |Ids(projects)|
    ensures Ids(Swapped(projects, i, j)) == Swapped(Ids(projects), i, j)
    ensures forall p :: p in Swapped(projects, i, j) <==> p in projects
  {
    IdsAt(projects);
    IdsAt(Swapped(projects, i, j));
    assert Ids(Swapped(projects, i, j)) == Swapped(Ids(projects), i, j);
    hide Ids;
    forall p | p in projects ensures p in Swapped(projects, i, j) {
      var k :| 0 <= k < |projects| && projects[k] == p;
      assert Swapped(projects, i, j)[if k == i then j else if k == j then i else k] == p;
    }
  }

  lemma PinnedSteps(pins: seq<Id>, rest: seq<Id>, id: Id, up: bool)
    requires id in pins && HasNeighbour(pins, id, up)
    ensures StepsPast(pins + rest, Neighboured(pins, id, up) + rest, id, up)
    ensures forall x :: x in Neighboured(pins, id, up) <==> x in pins
  {
    var i := if up then IndexOf(pins, id) - 1 else IndexOf(pins, id);
    var before, moved := pins + rest, Neighboured(pins, id, up);
    assert moved == pins[i := pins[i + 1]][i + 1 := pins[i]];
    assert moved + rest == before[i := before[i + 1]][i + 1 := before[i]];
    forall x | x in pins ensures x in moved {
      var k :| 0 <= k < |pins| && pins[k] == x;
      assert moved[if k == i then i + 1 else if k == i + 1 then i else k] == x;
    }
  }

  lemma CutTwice(s: seq<Id>, i: nat, j: nat)
    requires i < j < |s|
    ensures s == s[..i] + [s[i]] + s[i + 1..j] + [s[j]] + s[j + 1..]
  {}

  lemma SwapCut(s: seq<Id>, i: nat, j: nat)
    requires i < j < |s|
    ensures Swapped(s, i, j) == s[..i] + [s[j]] + s[i + 1..j] + [s[i]] + s[j + 1..]
  {}

  /** Two positions of a list exchanged, seen in the list without some others. */
  lemma SwapWithout(s: seq<Id>, i: nat, j: nat, gone: set<Id>)
    requires i < j < |s| && s[i] !in gone && s[j] !in gone
    ensures var a, m, b := Without(s[..i], gone), Without(s[i + 1..j], gone), Without(s[j + 1..], gone);
            && Without(s, gone) == a + [s[i]] + m + [s[j]] + b
            && Without(Swapped(s, i, j), gone) == a + [s[j]] + m + [s[i]] + b
  {
    hide Without, Swapped;
    CutTwice(s, i, j);
    SwapCut(s, i, j);
    WithoutFive(s[..i], s[i], s[i + 1..j], s[j], s[j + 1..], gone);
    WithoutFive(s[..i], s[j], s[i + 1..j], s[i], s[j + 1..], gone);
  }

  lemma WithoutFive(a: seq<Id>, x: Id, m: seq<Id>, y: Id, b: seq<Id>, gone: set<Id>)
    requires x !in gone && y !in gone
    ensures Without(a + [x] + m + [y] + b, gone) == Without(a, gone) + [x] + Without(m, gone) + [y] + Without(b, gone)
  {
    WithoutConcat(a + [x] + m + [y], b, gone);
    WithoutConcat(a + [x] + m, [y], gone);
    WithoutConcat(a + [x], m, gone);
    WithoutConcat(a, [x], gone);
    assert Without([x], gone) == [x] && Without([y], gone) == [y];
  }

  /** The neighbours of a list, the first at `k`. */
  ghost predicate NeighboursAt(s: seq<Id>, x: Id, y: Id, k: nat) { k + 1 < |s| && s[k] == x && s[k + 1] == y }

  lemma RestSteps(pins: seq<Id>, ids: seq<Id>, id: Id, up: bool)
    requires Distinct(ids) && id in Without(ids, AsSet(pins)) && HasNeighbour(Without(ids, AsSet(pins)), id, up)
    requires Neighbour(Without(ids, AsSet(pins)), id, up) in ids && id in ids
    ensures var other := Neighbour(Without(ids, AsSet(pins)), id, up);
            StepsPast(Bar(pins, ids), Bar(pins, Swapped(ids, IndexOf(ids, id), IndexOf(ids, other))), id, up)
  {
    var gone := AsSet(pins);
    var rest := Without(ids, gone);
    var other := Neighbour(rest, id, up);
    var k := if up then IndexOf(rest, id) - 1 else IndexOf(rest, id);
    hide Without, AsSet;
    if up {
      assert NeighboursAt(rest, other, id, k);
      NeighboursSwap(ids, gone, other, id, k);
      SwappedBack(ids, IndexOf(ids, other), IndexOf(ids, id));
      Behind(pins, rest, other, id, k);
    } else {
      assert NeighboursAt(rest, id, other, k);
      NeighboursSwap(ids, gone, id, other, k);
      Behind(pins, rest, id, other, k);
    }
  }

  lemma SwappedBack(s: seq<Id>, i: nat, j: nat)
    requires i < |s| && j < |s|
    ensures Swapped(s, i, j) == Swapped(s, j, i)
  {}

  lemma Behind(pins: seq<Id>, rest: seq<Id>, x: Id, y: Id, k: nat)
    requires NeighboursAt(rest, x, y, k)
    ensures var after := pins + rest[k := y][k + 1 := x];
            StepsPast(pins + rest, after, y, true) && StepsPast(pins + rest, after, x, false)
  {
    var before, i := pins + rest, |pins| + k;
    assert before[i] == x && before[i + 1] == y;
    assert pins + rest[k := y][k + 1 := x] == before[i := before[i + 1]][i + 1 := before[i]];
  }

  lemma NeighboursSwap(ids: seq<Id>, gone: set<Id>, x: Id, y: Id, k: nat)
    requires Distinct(ids) && x in ids && y in ids && NeighboursAt(Without(ids, gone), x, y, k)
    ensures Without(Swapped(ids, IndexOf(ids, x), IndexOf(ids, y)), gone) == Without(ids, gone)[k := y][k + 1 := x]
  {
    var rest, i, j := Without(ids, gone), IndexOf(ids, x), IndexOf(ids, y);
    WithoutHas(ids, gone);
    assert rest[k] in rest && rest[k + 1] in rest && x != y;
    hide Without;
    if i < j {
      SwapWithout(ids, i, j, gone);
      hide Swapped;
      var a, m, b := Without(ids[..i], gone), Without(ids[i + 1..j], gone), Without(ids[j + 1..], gone);
      Exchanged(rest, a, m, b, x, y, k);
    } else {
      SwapWithout(ids, j, i, gone);
      hide Swapped;
      var a, m, b := Without(ids[..j], gone), Without(ids[j + 1..i], gone), Without(ids[i + 1..], gone);
      NotTheOtherWay(rest, a, m, b, x, y, k);
    }
  }

  lemma Exchanged(rest: seq<Id>, a: seq<Id>, m: seq<Id>, b: seq<Id>, x: Id, y: Id, k: nat)
    requires Distinct(rest) && rest == a + [x] + m + [y] + b && NeighboursAt(rest, x, y, k)
    ensures a + [y] + m + [x] + b == rest[k := y][k + 1 := x]
  {
    assert rest[|a|] == x && rest[|a| + 1 + |m|] == y;
    assert |a| == k && m == [];
  }

  lemma NotTheOtherWay(rest: seq<Id>, a: seq<Id>, m: seq<Id>, b: seq<Id>, x: Id, y: Id, k: nat)
    requires Distinct(rest) && rest == a + [y] + m + [x] + b
    ensures !NeighboursAt(rest, x, y, k)
  {
    assert rest[|a|] == y && rest[|a| + 1 + |m|] == x;
  }
}
