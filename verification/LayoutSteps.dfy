/** The operations of AppController that change the workspace layout, as functions of the state. */
module LayoutSteps {
  import opened Results
  import opened Lists
  import opened Layout

  // ---------- Adding sessions ----------

  /** A session placed among the sessions and in its project's list. */
  function WithSession(st: State, s: Session, at: nat, project: Project, listedAt: nat): State {
    st.(sessions := Splice(st.sessions, at, s),
        projects := Amend(st.projects, project.id, project.body.(sessionIds := Splice(project.body.sessionIds, listedAt, s.id))))
  }

  function Select(st: State, projectId: Id, sessionId: Option<Id>): State {
    st.(selectedProject := Some(projectId), selectedSession := sessionId)
  }

  function Created(st: State, projectId: Id, id: Id, at: int, content: string): State {
    var project := Find(st.projects, projectId);
    if project.None? then st
    else
      var s := Record(id, SessionBody(projectId, None, false, false, at, content));
      var sessions := |st.sessions|;
      Select(WithSession(st, s, sessions, project.value, |project.value.body.sessionIds|), projectId, Some(id))
  }

  /** Position right after an identifier. */
  function After(ids: seq<Id>, id: Id): nat { if id in ids then IndexOf(ids, id) + 1 else |ids| }

  function Duplicated(st: State, source: Id, id: Id, at: int): State {
    var original := Find(st.sessions, source);
    if original.None? then st
    else
      var pid := original.value.body.projectId;
      var project := Find(st.projects, pid);
      if project.None? || source !in project.value.body.sessionIds then st
      else
        var s := Record(id, SessionBody(pid, None, false, false, at, original.value.body.content));
        var placed := WithSession(st, s, After(Ids(st.sessions), source), project.value,
                                  After(project.value.body.sessionIds, source));
        Select(placed, pid, Some(id))
  }

  // ---------- Selecting ----------

  function SessionSelected(st: State, id: Id): State {
    var s := Find(st.sessions, id);
    if s.None? then st else Remember(Select(st, s.value.body.projectId, Some(id)), s.value)
  }

  function ProjectSelected(st: State, projectId: Id): State {
    var current := FindSession(st.sessions, st.selectedSession);
    if Find(st.projects, projectId).None? then st
    else if current.Some? && current.value.body.projectId == projectId then st.(selectedProject := Some(projectId))
    else
      var next := Preferred(st, projectId);
      if next.Some? then Remember(Select(st, projectId, Some(next.value.id)), next.value)
      else Select(st, projectId, None)
  }

  function ProjectAtPath(projects: seq<Project>, path: string): (r: Option<Project>)
    ensures r.Some? ==> r.value in projects
  {
    if projects == [] then None
    else if projects[0].body.path == path then Some(projects[0])
    else ProjectAtPath(projects[1..], path)
  }

  function Added(st: State, path: string, id: Id): State {
    var existing := ProjectAtPath(st.projects, path);
    if existing.Some? then ProjectSelected(st, existing.value.id)
    else Select(st.(projects := [Record(id, ProjectBody(path, []))] + st.projects), id, None)
  }

  // ---------- Updating a session's record ----------

  /** What an event changes in a session's record: a session identifier or a transcript, once there,
      stay. */
  datatype Change = Change(acp: Option<Id>, transcribed: bool, active: bool, updatedAt: int, content: string)

  function Changed(body: SessionBody, c: Change): SessionBody {
    SessionBody(body.projectId, if c.acp.Some? then c.acp else body.acp, body.transcribed || c.transcribed, c.active,
                c.updatedAt, c.content)
  }

  function RecordUpdated(st: State, id: Id, c: Change): State {
    var s := Find(st.sessions, id);
    if s.None? then st
    else
      var next := Record(id, Changed(s.value.body, c));
      var updated := st.(sessions := Amend(st.sessions, id, next.body));
      if st.selectedSession == Some(id) then Remember(updated, next) else updated
  }

  // ---------- Removing ----------

  function Forget(remembered: seq<Record<Id>>, projectId: Id, sessionId: Id): seq<Record<Id>> {
    if Lookup(remembered, projectId) == Some(sessionId) then WithoutIds(remembered, {projectId}) else remembered
  }

  /** The lists after a session is gone, before the selection moves on. */
  function SessionCut(st: State, s: Session, project: Project): State {
    st.(sessions := WithoutIds(st.sessions, {s.id}),
        projects := Amend(st.projects, project.id, project.body.(sessionIds := Without(project.body.sessionIds, {s.id}))),
        pinnedSessions := Without(st.pinnedSessions, {s.id}), settled := Without(st.settled, {s.id}),
        remembered := Forget(st.remembered, project.id, s.id))
  }

  /** Where the selection goes when the selected session is closed. */
  function CloseFallback(cut: State, projectId: Id): (r: Option<Session>)
    ensures r.Some? ==> r.value in cut.sessions
  {
    var preferred := Preferred(cut, projectId);
    if preferred.Some? then preferred else MostRecent(cut.sessions)
  }

  function Closed(st: State, id: Id): State {
    var s := Find(st.sessions, id);
    var project := if s.Some? then Find(st.projects, s.value.body.projectId) else None;
    if project.None? then st
    else
      var cut := SessionCut(st, s.value, project.value);
      if st.selectedSession != Some(id) then cut
      else
        var next := CloseFallback(cut, project.value.id);
        if next.Some? then Remember(Select(cut, next.value.body.projectId, Some(next.value.id)), next.value)
        else Select(cut, project.value.id, None)
  }

  function OutsideProject(sessions: seq<Session>, projectId: Id): seq<Session> {
    if sessions == [] then []
    else
      var front, last := OutsideProject(sessions[..|sessions| - 1], projectId), sessions[|sessions| - 1];
      if last.body.projectId == projectId then front else front + [last]
  }

  function AsSet(ids: seq<Id>): set<Id> { set id | id in ids }

  function ProjectCut(st: State, projectId: Id): State {
    var gone := AsSet(OwnIds(st.sessions, projectId));
    st.(sessions := OutsideProject(st.sessions, projectId), projects := WithoutIds(st.projects, {projectId}),
        pinnedProjects := Without(st.pinnedProjects, {projectId}),
        pinnedSessions := Without(st.pinnedSessions, gone), settled := Without(st.settled, gone),
        remembered := WithoutIds(st.remembered, {projectId}))
  }

  function SelectionAfterRemoval(st: State, cut: State, projectId: Id): State {
    var next := FirstOrdered(st.projects, st.pinnedProjects, {projectId});
    if next.None? then cut.(selectedProject := None, selectedSession := None)
    else
      var session := Preferred(cut, next.value);
      if session.Some? then Remember(Select(cut, next.value, Some(session.value.id)), session.value)
      else Select(cut, next.value, None)
  }

  predicate SelectionInProject(st: State, projectId: Id) {
    || st.selectedProject == Some(projectId)
    || (st.selectedSession.Some? && st.selectedSession.value in OwnIds(st.sessions, projectId))
  }

  function Removed(st: State, projectId: Id): State {
    if Find(st.projects, projectId).None? then st
    else
      var cut := ProjectCut(st, projectId);
      if SelectionInProject(st, projectId) then SelectionAfterRemoval(st, cut, projectId) else cut
  }

  // ---------- Pins and settled sessions ----------

  datatype Error = UnknownProject | UnknownSession | TooManyPins | TooManySettled | SessionBusy

  /** The state left behind and the error thrown, if any. */
  datatype Outcome = Outcome(state: State, error: Option<Error>)

  function ProjectPinned(st: State, projectId: Id, pinned: bool): Outcome {
    var project := Find(st.projects, projectId);
    if project.None? then Outcome(st, Some(UnknownProject))
    else if pinned == (projectId in st.pinnedProjects) then Outcome(st, None)
    else if pinned then
      if |st.pinnedProjects| >= MAX_PINNED_PROJECTS then Outcome(st, Some(TooManyPins))
      else Outcome(st.(pinnedProjects := [projectId] + st.pinnedProjects), None)
    else Outcome(st.(pinnedProjects := Without(st.pinnedProjects, {projectId}),
                     projects := [project.value] + WithoutIds(st.projects, {projectId})), None)
  }

  function SessionPinned(st: State, id: Id, pinned: bool): Outcome {
    if Find(st.sessions, id).None? then Outcome(st, Some(UnknownSession))
    else if pinned == (id in st.pinnedSessions) then
      Outcome(if pinned then st.(settled := Without(st.settled, {id})) else st, None)
    else if pinned then
      var room := if |st.pinnedSessions| >= MAX_PINNED_SESSIONS then st.pinnedSessions[1..] else st.pinnedSessions;
      Outcome(st.(pinnedSessions := room + [id], settled := Without(st.settled, {id})), None)
    else Outcome(st.(pinnedSessions := Without(st.pinnedSessions, {id})), None)
  }

  /** At the limit the pin is already gone when the error is thrown. */
  function SessionSettled(st: State, id: Id, settled: bool, settleable: bool): Outcome {
    if Find(st.sessions, id).None? then Outcome(st, Some(UnknownSession))
    else if !settled then Outcome(st.(settled := Without(st.settled, {id})), None)
    else if !settleable then Outcome(st, Some(SessionBusy))
    else
      var unpinned := st.(pinnedSessions := Without(st.pinnedSessions, {id}));
      if id in st.settled then Outcome(unpinned, None)
      else if |st.settled| >= MAX_SETTLED_SESSIONS then Outcome(unpinned, Some(TooManySettled))
      else Outcome(unpinned.(settled := st.settled + [id]), None)
  }

  /** A project moved one place within its group, or left alone at the edge. */
  function ProjectMoved(st: State, projectId: Id, up: bool): State {
    if projectId in st.pinnedProjects then st.(pinnedProjects := Neighboured(st.pinnedProjects, projectId, up))
    else
      var ordinary := Without(Ids(st.projects), AsSet(st.pinnedProjects));
      if projectId !in ordinary || !HasNeighbour(ordinary, projectId, up) then st
      else
        var other := Neighbour(ordinary, projectId, up);
        var ids := Ids(st.projects);
        if other in ids && projectId in ids then
          st.(projects := Swapped(st.projects, IndexOf(ids, projectId), IndexOf(ids, other)))
        else st
  }

  predicate HasNeighbour(ids: seq<Id>, id: Id, up: bool)
    requires id in ids
  {
    if up then IndexOf(ids, id) > 0 else IndexOf(ids, id) + 1 < |ids|
  }

  function Neighbour(ids: seq<Id>, id: Id, up: bool): Id
    requires id in ids && HasNeighbour(ids, id, up)
  {
    if up then ids[IndexOf(ids, id) - 1] else ids[IndexOf(ids, id) + 1]
  }

  function Neighboured(ids: seq<Id>, id: Id, up: bool): seq<Id>
    requires id in ids
  {
    if !HasNeighbour(ids, id, up) then ids
    else Swapped(ids, IndexOf(ids, id), if up then IndexOf(ids, id) - 1 else IndexOf(ids, id) + 1)
  }

  function Swapped<T>(s: seq<T>, i: nat, j: nat): seq<T> {
    if i < |s| && j < |s| then s[i := s[j]][j := s[i]] else s
  }
}
