/** mergeSwiftState: a non-destructive merge of imported projects and sessions into the current
    state. Current records always win. */
module Merge {
  import opened Results
  import opened Lists
  import opened Layout
  import opened LayoutSteps
  import opened LayoutRuns
  import opened LayoutUndo

  datatype Import = Import(
    projects: seq<Project>, sessions: seq<Session>, remembered: seq<Record<Id>>,
    selectedProject: Option<Id>, selectedSession: Option<Id>)

  // ---------- Projects ----------

  datatype ProjectMerge = ProjectMerge(projects: seq<Project>, idMap: map<Id, Id>, added: nat, matched: nat, skipped: nat)

  /** `new Map(...)` by path: the last project at a path wins. */
  function AtPath(projects: seq<Project>, path: string): (r: Option<Project>)
    ensures r.Some? ==> r.value in projects && r.value.body.path == path
    ensures r.None? ==> forall p <- projects :: p.body.path != path
  {
    if projects == [] then None
    else
      var last := projects[|projects| - 1];
      if last.body.path == path then Some(last) else AtPath(projects[..|projects| - 1], path)
  }

  function MergeProject(m: ProjectMerge, p: Project): ProjectMerge {
    var pathMatch := AtPath(m.projects, p.body.path);
    if pathMatch.Some? then m.(idMap := m.idMap[p.id := pathMatch.value.id], matched := m.matched + 1)
    else if p.id in Ids(m.projects) then m.(skipped := m.skipped + 1)
    else m.(projects := m.projects + [Record(p.id, ProjectBody(p.body.path, []))],
            idMap := m.idMap[p.id := p.id], added := m.added + 1)
  }

  function MergeProjects(current: seq<Project>, imported: seq<Project>): ProjectMerge {
    if imported == [] then ProjectMerge(current, map[], 0, 0, 0)
    else MergeProject(MergeProjects(current, imported[..|imported| - 1]), imported[|imported| - 1])
  }

  // ---------- Sessions ----------

  datatype SessionMerge = SessionMerge(
    projects: seq<Project>, sessions: seq<Session>, idMap: map<Id, Id>, added: nat, present: nat, skipped: nat)

  /** By ACP session, the last one wins. */
  function WithAcp(sessions: seq<Session>, acp: Option<Id>): (r: Option<Session>)
    ensures r.Some? ==> r.value in sessions && acp.Some? && r.value.body.acp == acp
    ensures r.None? && acp.Some? ==> forall s <- sessions :: s.body.acp != acp
  {
    if sessions == [] || acp.None? then None
    else
      var last := sessions[|sessions| - 1];
      if last.body.acp == acp then Some(last) else WithAcp(sessions[..|sessions| - 1], acp)
  }

  function Meets(m: SessionMerge, s: Session, existing: Session, target: Id): SessionMerge {
    if existing.body.projectId == target then m.(idMap := m.idMap[s.id := existing.id], present := m.present + 1)
    else m.(skipped := m.skipped + 1)
  }

  function Adopt(s: Session, target: Id): Session { Record(s.id, s.body.(projectId := target, active := false)) }

  function ListSession(projects: seq<Project>, target: Id, id: Id): seq<Project> {
    var p := Find(projects, target);
    if p.None? || id in p.value.body.sessionIds then projects
    else Amend(projects, target, p.value.body.(sessionIds := p.value.body.sessionIds + [id]))
  }

  function MergeSession(m: SessionMerge, projectIds: map<Id, Id>, s: Session): SessionMerge {
    if s.body.projectId !in projectIds then m.(skipped := m.skipped + 1)
    else
      var target := projectIds[s.body.projectId];
      var byId, byAcp := Find(m.sessions, s.id), WithAcp(m.sessions, s.body.acp);
      if byId.Some? then Meets(m, s, byId.value, target)
      else if byAcp.Some? then Meets(m, s, byAcp.value, target)
      else m.(sessions := m.sessions + [Adopt(s, target)], projects := ListSession(m.projects, target, s.id),
              idMap := m.idMap[s.id := s.id], added := m.added + 1)
  }

  function MergeSessions(projects: seq<Project>, sessions: seq<Session>, projectIds: map<Id, Id>, imported: seq<Session>): SessionMerge {
    if imported == [] then SessionMerge(projects, sessions, map[], 0, 0, 0)
    else
      MergeSession(MergeSessions(projects, sessions, projectIds, imported[..|imported| - 1]), projectIds,
                   imported[|imported| - 1])
  }

  /** The imported sessions in the order of the imported projects' lists. */
  function Listed(sessions: seq<Session>, ids: seq<Id>): (r: seq<Session>)
    ensures forall s <- r :: s in sessions
  {
    if ids == [] then []
    else
      var front, s := Listed(sessions, ids[..|ids| - 1]), Find(sessions, ids[|ids| - 1]);
      if s.Some? then front + [s.value] else front
  }

  function Flatten(projects: seq<Project>): seq<Id> {
    if projects == [] then [] else Flatten(projects[..|projects| - 1]) + projects[|projects| - 1].body.sessionIds
  }

  function Ordered(imported: Import): seq<Session> {
    var listed := Listed(imported.sessions, Flatten(imported.projects));
    listed + WithoutIds(imported.sessions, AsSet(Ids(listed)))
  }

  // ---------- Selection ----------

  /** The current selection is remembered first, then what the import remembered, never overwriting. */
  function RememberIfNew(st: State, projectId: Id, s: Session): State {
    if s.body.projectId == projectId && s.body.Durable() && Lookup(st.remembered, projectId).None?
    then st.(remembered := Put(st.remembered, projectId, s.id)) else st
  }

  function RememberImported(st: State, projectIds: map<Id, Id>, sessionIds: map<Id, Id>, remembered: seq<Record<Id>>): State {
    if remembered == [] then st
    else
      var before, r := RememberImported(st, projectIds, sessionIds, remembered[..|remembered| - 1]), remembered[|remembered| - 1];
      if r.id !in projectIds || r.body !in sessionIds then before
      else
        var s := Find(st.sessions, sessionIds[r.body]);
        if s.None? then before else RememberIfNew(before, projectIds[r.id], s.value)
  }

  function Through(ids: map<Id, Id>, id: Option<Id>): Option<Id> {
    if id.Some? && id.value in ids then Some(ids[id.value]) else None
  }

  function MergeSelection(st: State, imported: Import, projectIds: map<Id, Id>, sessionIds: map<Id, Id>): State {
    var current := FindSession(st.sessions, st.selectedSession);
    var kept := if current.Some? then RememberIfNew(st, current.value.body.projectId, current.value) else st;
    var remembering := RememberImported(kept, projectIds, sessionIds, imported.remembered);
    var projectValid := st.selectedProject.Some? && st.selectedProject.value in Ids(st.projects);
    var chosen := if projectValid then remembering
                  else remembering.(selectedProject := Through(projectIds, imported.selectedProject));
    if current.Some? then chosen
    else
      var sessionId := Through(sessionIds, imported.selectedSession);
      var s := FindSession(st.sessions, sessionId);
      if s.Some? then Select(chosen, s.value.body.projectId, Some(s.value.id))
      else if sessionId.Some? then chosen
      else chosen.(selectedSession := None)
  }

  datatype Summary = Summary(
    projectsAdded: nat, projectsMatched: nat, projectsSkipped: nat, sessionsAdded: nat, sessionsPresent: nat, sessionsSkipped: nat)

  datatype Merged = Merged(state: State, summary: Summary)

  function MergeState(current: State, imported: Import): Merged {
    var p := MergeProjects(current.projects, imported.projects);
    var s := MergeSessions(p.projects, current.sessions, p.idMap, Ordered(imported));
    var joined := current.(projects := s.projects, sessions := s.sessions);
    Merged(MergeSelection(joined, imported, p.idMap, s.idMap),
           Summary(p.added, p.matched, p.skipped, s.added, s.present, s.skipped))
  }

  // ---------- Nothing current is lost ----------

  /** Every earlier project is still in its place, with its list at most longer. */
  ghost predicate Grown(before: seq<Project>, after: seq<Project>) {
    && |before| <= |after|
    && forall i :: 0 <= i < |before| ==>
         after[i].id == before[i].id && after[i].body.path == before[i].body.path
         && before[i].body.sessionIds <= after[i].body.sessionIds
  }

  lemma GrownTrans(a: seq<Project>, b: seq<Project>, c: seq<Project>)
    requires Grown(a, b) && Grown(b, c)
    ensures Grown(a, c)
  {
    forall i | 0 <= i < |a|
      ensures c[i].id == a[i].id && c[i].body.path == a[i].body.path && a[i].body.sessionIds <= c[i].body.sessionIds
    {
      assert a[i].body.sessionIds <= b[i].body.sessionIds <= c[i].body.sessionIds;
    }
  }

  lemma {:induction false} ProjectsOnlyAppended(current: seq<Project>, imported: seq<Project>)
    ensures var m := MergeProjects(current, imported);
            current <= m.projects && |m.projects| == |current| + m.added && m.added + m.matched + m.skipped == |imported|
  {
    if imported != [] {
      ProjectsOnlyAppended(current, imported[..|imported| - 1]);
    }
  }

  // ---------- Projects: coverage ----------

  predicate HasPath(projects: seq<Project>, path: string) { exists p :: p in projects && p.body.path == path }

  /** Nothing is left to add for this project. */
  predicate Covered(projects: seq<Project>, p: Project) { HasPath(projects, p.body.path) || p.id in Ids(projects) }

  predicate DistinctPaths(projects: seq<Project>) {
    forall i, j :: 0 <= i < j < |projects| ==> projects[i].body.path != projects[j].body.path
  }

  lemma MergeProjectCovers(m: ProjectMerge, p: Project, q: Project)
    ensures Covered(m.projects, q) ==> Covered(MergeProject(m, p).projects, q)
    ensures Covered(MergeProject(m, p).projects, p)
  {
    var r := MergeProject(m, p);
    if r.projects != m.projects {
      var added := Record(p.id, ProjectBody(p.body.path, []));
      IdsConcat(m.projects, [added]);
      assert added in r.projects;
      if HasPath(m.projects, q.body.path) {
        var t :| t in m.projects && t.body.path == q.body.path;
        assert t in r.projects;
      }
    }
  }

  lemma {:induction false} EveryProjectCovered(current: seq<Project>, imported: seq<Project>, q: Project)
    requires q in imported
    ensures Covered(MergeProjects(current, imported).projects, q)
  {
    hide MergeProject, Covered;
    var front, p := imported[..|imported| - 1], imported[|imported| - 1];
    var m := MergeProjects(current, front);
    MergeProjectCovers(m, p, q);
    if q != p {
      EveryProjectCovered(current, front, q);
    }
  }

  /** A project that found no counterpart keeps its path out of the merged state. */
  lemma {:induction false} UnmappedHasNoPath(current: seq<Project>, imported: seq<Project>, q: Project)
    requires Distinct(Ids(imported)) && DistinctPaths(imported) && q in imported
    requires q.id !in MergeProjects(current, imported).idMap
    ensures !HasPath(MergeProjects(current, imported).projects, q.body.path)
  {
    var n := |imported| - 1;
    var front, p := imported[..n], imported[n];
    var m := MergeProjects(current, front);
    LastIsApart(imported, q);
    if q != p {
      UnmappedHasNoPath(current, front, q);
    }
  }

  lemma LastIsApart(projects: seq<Project>, q: Project)
    requires Distinct(Ids(projects)) && DistinctPaths(projects) && q in projects
    ensures var n := |projects| - 1; var front, p := projects[..n], projects[n];
            && Distinct(Ids(front)) && DistinctPaths(front)
            && (q != p ==> q in front && q.id != p.id && q.body.path != p.body.path)
  {
    var n := |projects| - 1;
    IdsAt(projects);
    IdsAt(projects[..n]);
    if q != projects[n] {
      var i :| 0 <= i < |projects| && projects[i] == q;
      assert projects[..n][i] == q;
      assert Ids(projects)[i] != Ids(projects)[n];
    }
  }

  /** With every project covered, merging adds none and maps just those whose path is there. */
  lemma {:induction false} CoveredMergesNothing(projects: seq<Project>, imported: seq<Project>)
    requires forall p <- imported :: Covered(projects, p)
    ensures var m := MergeProjects(projects, imported);
            && m.projects == projects && m.added == 0
            && forall id :: id in m.idMap ==> MapsByPath(projects, imported, id)
  {
    if imported != [] {
      var front, p := imported[..|imported| - 1], imported[|imported| - 1];
      assert p in imported && Covered(projects, p);
      CoveredMergesNothing(projects, front);
      var m := MergeProjects(projects, front);
      forall id | id in MergeProject(m, p).idMap ensures MapsByPath(projects, imported, id) {
        if id in m.idMap {
          assert MapsByPath(projects, front, id);
          var q :| q in front && q.id == id && HasPath(projects, q.body.path);
          assert q in imported;
        }
      }
    }
  }

  ghost predicate MapsByPath(projects: seq<Project>, imported: seq<Project>, id: Id) {
    exists q :: q in imported && q.id == id && HasPath(projects, q.body.path)
  }

  /** Everything imported is mapped to a project that is there. */
  predicate MapsInto(ids: map<Id, Id>, projects: seq<Project>) { forall k :: k in ids ==> ids[k] in Ids(projects) }

  lemma {:induction false} ProjectsMapInto(current: seq<Project>, imported: seq<Project>)
    requires Distinct(Ids(current))
    ensures var m := MergeProjects(current, imported); MapsInto(m.idMap, m.projects) && Distinct(Ids(m.projects))
  {
    hide Distinct;
    if imported != [] {
      var p := imported[|imported| - 1];
      ProjectsMapInto(current, imported[..|imported| - 1]);
      var m := MergeProjects(current, imported[..|imported| - 1]);
      IdsHas(m.projects);
      var added := Record(p.id, ProjectBody(p.body.path, []));
      IdsConcat(m.projects, [added]);
      assert Ids([added]) == [p.id];
      OneDistinctMore(Ids(m.projects), p.id);
    }
  }

  lemma OneDistinctMore(ids: seq<Id>, id: Id)
    requires Distinct(ids)
    ensures id !in ids ==> Distinct(ids + [id])
  {
    DistinctConcat(ids, [id]);
  }

  // ---------- Sessions ----------

  lemma OneGrows(a: seq<Project>, p: Project, b: seq<Project>, body: ProjectBody)
    requires body.path == p.body.path && p.body.sessionIds <= body.sessionIds
    ensures Grown(a + [p] + b, a + [Record(p.id, body)] + b)
  {}

  lemma ListedAt(a: seq<Project>, p: Project, b: seq<Project>, id: Id)
    requires Distinct(Ids(a + [p] + b)) && id !in p.body.sessionIds
    ensures ListSession(a + [p] + b, p.id, id)
            == a + [Record(p.id, p.body.(sessionIds := p.body.sessionIds + [id]))] + b
  {
    var all := a + [p] + b;
    assert p in all by { assert all[|a|] == p; }
    FindIs(all, p);
    AmendOnly(a, p, b, p.body.(sessionIds := p.body.sessionIds + [id]));
    hide Distinct, Amend, Ids, Find;
  }

  lemma ListGrows(projects: seq<Project>, target: Id, id: Id)
    requires Distinct(Ids(projects))
    ensures Grown(projects, ListSession(projects, target, id)) && Ids(ListSession(projects, target, id)) == Ids(projects)
  {
    var p := Find(projects, target);
    if p.Some? && id !in p.value.body.sessionIds {
      var body := p.value.body.(sessionIds := p.value.body.sessionIds + [id]);
      AmendHas(projects, target, body);
      var i :| 0 <= i < |projects| && projects[i] == p.value;
      SplitAt(projects, i);
      ListedAt(projects[..i], p.value, projects[i + 1..], id);
      OneGrows(projects[..i], p.value, projects[i + 1..], body);
    } else {
      GrownSame(projects);
    }
    hide Distinct, Amend, Ids, Grown;
  }

  lemma SplitAt<T>(s: seq<T>, i: nat)
    requires i < |s|
    ensures s == s[..i] + [s[i]] + s[i + 1..]
  {}

  lemma AmendOnly(a: seq<Project>, p: Project, b: seq<Project>, body: ProjectBody)
    requires Distinct(Ids(a + [p] + b))
    ensures Amend(a + [p] + b, p.id, body) == a + [Record(p.id, body)] + b
  {
    IdsConcat(a + [p], b);
    IdsConcat(a, [p]);
    assert Ids([p]) == [p.id];
    NotAround(Ids(a), p.id, Ids(b));
    hide Distinct, Amend, Ids;
    CutParts(a, p, b, p.id, body);
  }

  function StateOf(projects: seq<Project>, sessions: seq<Session>): State {
    State(projects, sessions, [], [], [], [], None, None)
  }

  /** What each imported session does to the merged lists. */
  ghost predicate Step(m: SessionMerge, r: SessionMerge) {
    && Partitioned(r.projects, r.sessions) && Grown(m.projects, r.projects)
    && Ids(r.projects) == Ids(m.projects) && m.sessions <= r.sessions
    && |r.sessions| == |m.sessions| + (r.added - m.added)
    && r.added + r.present + r.skipped == m.added + m.present + m.skipped + 1
  }

  lemma GrownSame(projects: seq<Project>)
    ensures Grown(projects, projects)
  {}

  lemma MergeSessionSteps(m: SessionMerge, projectIds: map<Id, Id>, s: Session)
    requires Partitioned(m.projects, m.sessions) && MapsInto(projectIds, m.projects)
    ensures Step(m, MergeSession(m, projectIds, s))
  {
    GrownSame(m.projects);
    FindNone(m.sessions, s.id);
    hide Partitioned, Grown, ListSession, MapsInto;
    if s.body.projectId in projectIds && Find(m.sessions, s.id).None? && WithAcp(m.sessions, s.body.acp).None? {
      var target := projectIds[s.body.projectId];
      assert target in Ids(m.projects) by { Maps(projectIds, m.projects, s.body.projectId); }
      DistinctSessions(StateOf(m.projects, m.sessions));
      ListGrows(m.projects, target, s.id);
      AdoptedPartitioned(m.projects, m.sessions, Adopt(s, target), target);
    }
  }

  lemma Maps(ids: map<Id, Id>, projects: seq<Project>, k: Id)
    requires MapsInto(ids, projects) && k in ids
    ensures ids[k] in Ids(projects)
  {}

  lemma AdoptedPartitioned(projects: seq<Project>, sessions: seq<Session>, s: Session, target: Id)
    requires Partitioned(projects, sessions) && target in Ids(projects) && s.id !in Ids(sessions) && s.body.projectId == target
    ensures Partitioned(ListSession(projects, target, s.id), sessions + [s])
  {
    FindNone(projects, target);
    var p := Find(projects, target).value;
    var st := StateOf(projects, sessions);
    NotListed(st, p, s.id);
    ExtendedList(st, s, |sessions|, p, |p.body.sessionIds|);
    SessionGained(projects, sessions, |sessions|, s, Record(target, p.body.(sessionIds := Splice(p.body.sessionIds, |p.body.sessionIds|, s.id))));
    hide Partitioned, ListsItsOwn, Amend;
    assert Splice(sessions, |sessions|, s) == sessions + [s];
    assert Splice(p.body.sessionIds, |p.body.sessionIds|, s.id) == p.body.sessionIds + [s.id];
  }

  lemma MapsIntoSame(ids: map<Id, Id>, projects: seq<Project>, more: seq<Project>)
    requires MapsInto(ids, projects) && Ids(more) == Ids(projects)
    ensures MapsInto(ids, more)
  {}

  lemma {:induction false} SessionsOnlyAppended(
    projects: seq<Project>, sessions: seq<Session>, projectIds: map<Id, Id>, imported: seq<Session>)
    requires Partitioned(projects, sessions) && MapsInto(projectIds, projects)
    ensures var m := MergeSessions(projects, sessions, projectIds, imported);
            && Partitioned(m.projects, m.sessions) && MapsInto(projectIds, m.projects)
            && Grown(projects, m.projects) && Ids(m.projects) == Ids(projects)
            && sessions <= m.sessions && |m.sessions| == |sessions| + m.added
            && m.added + m.present + m.skipped == |imported|
  {
    if imported == [] {
      GrownSame(projects);
    } else {
      var front, s := imported[..|imported| - 1], imported[|imported| - 1];
      SessionsOnlyAppended(projects, sessions, projectIds, front);
      var m := MergeSessions(projects, sessions, projectIds, front);
      MergeSessionSteps(m, projectIds, s);
      var r := MergeSession(m, projectIds, s);
      hide Partitioned, Grown, MapsInto, MergeSession;
      GrownTrans(projects, m.projects, r.projects);
      MapsIntoSame(projectIds, m.projects, r.projects);
    }
  }

  /** Nothing is left to add for this session. */
  predicate Settled(sessions: seq<Session>, projectIds: map<Id, Id>, s: Session) {
    s.body.projectId !in projectIds || s.id in Ids(sessions) || WithAcp(sessions, s.body.acp).Some?
  }

  lemma {:induction false} WithAcpMore(sessions: seq<Session>, more: seq<Session>, acp: Option<Id>)
    ensures WithAcp(sessions, acp).Some? ==> WithAcp(sessions + more, acp).Some?
  {
    if more == [] {
      assert sessions + more == sessions;
    } else {
      WithAcpMore(sessions, more[..|more| - 1], acp);
      assert (sessions + more)[..|sessions + more| - 1] == sessions + more[..|more| - 1];
    }
  }

  lemma MergeSessionSettles(m: SessionMerge, projectIds: map<Id, Id>, s: Session, q: Session)
    ensures var r := MergeSession(m, projectIds, s);
            (Settled(m.sessions, projectIds, q) ==> Settled(r.sessions, projectIds, q)) && Settled(r.sessions, projectIds, s)
  {
    FindNone(m.sessions, s.id);
    var r := MergeSession(m, projectIds, s);
    if r.sessions != m.sessions {
      var added := Adopt(s, projectIds[s.body.projectId]);
      IdsConcat(m.sessions, [added]);
      assert Ids([added]) == [s.id];
      WithAcpMore(m.sessions, [added], q.body.acp);
      assert s.id in Ids(r.sessions);
    }
  }

  lemma {:induction false} EverySessionSettled(
    projects: seq<Project>, sessions: seq<Session>, projectIds: map<Id, Id>, imported: seq<Session>, q: Session)
    requires q in imported
    ensures Settled(MergeSessions(projects, sessions, projectIds, imported).sessions, projectIds, q)
  {
    hide MergeSession, Settled;
    var front, s := imported[..|imported| - 1], imported[|imported| - 1];
    MergeSessionSettles(MergeSessions(projects, sessions, projectIds, front), projectIds, s, q);
    if q != s {
      EverySessionSettled(projects, sessions, projectIds, front, q);
    }
  }

  lemma {:induction false} SettledMergesNothing(
    projects: seq<Project>, sessions: seq<Session>, projectIds: map<Id, Id>, imported: seq<Session>)
    requires forall s <- imported :: Settled(sessions, projectIds, s)
    ensures var m := MergeSessions(projects, sessions, projectIds, imported);
            m.projects == projects && m.sessions == sessions && m.added == 0
  {
    if imported != [] {
      var s := imported[|imported| - 1];
      assert s in imported && Settled(sessions, projectIds, s);
      FindNone(sessions, s.id);
      SettledMergesNothing(projects, sessions, projectIds, imported[..|imported| - 1]);
    }
  }

  // ---------- Well-formed imports ----------

  /** What the migration service hands over: unique identifiers and paths, sessions listed project
      by project. */
  ghost predicate WellFormed(imported: Import) {
    && Distinct(Ids(imported.projects)) && DistinctPaths(imported.projects)
    && Distinct(Ids(imported.sessions)) && Flatten(imported.projects) == Ids(imported.sessions)
  }

  lemma {:induction false} ListedAll(sessions: seq<Session>, n: nat)
    requires Distinct(Ids(sessions)) && n <= |sessions|
    ensures Listed(sessions, Ids(sessions[..n])) == sessions[..n]
    decreases n
  {
    if n > 0 {
      ListedAll(sessions, n - 1);
      FindIs(sessions, sessions[n - 1]);
      hide Distinct;
      var ids := Ids(sessions[..n]);
      assert sessions[..n][..n - 1] == sessions[..n - 1];
      assert ids[..n - 1] == Ids(sessions[..n - 1]) && ids[n - 1] == sessions[n - 1].id by { IdsAt(sessions[..n]); IdsAt(sessions[..n - 1]); }
      assert |ids| == n by { IdsAt(sessions[..n]); }
      assert sessions[..n] == sessions[..n - 1] + [sessions[n - 1]];
    }
  }

  lemma {:induction false} AllGone<T>(s: seq<Record<T>>, gone: set<Id>)
    requires forall id <- Ids(s) :: id in gone
    ensures WithoutIds(s, gone) == []
  {
    if s != [] {
      var ids := Ids(s);
      assert ids[|ids| - 1] in ids;
      AllGone(s[..|s| - 1], gone);
    }
  }

  /** A well-formed import is merged in its own order, every session once. */
  lemma OrderedIsTheImport(imported: Import)
    requires WellFormed(imported)
    ensures Ordered(imported) == imported.sessions
  {
    ListedAll(imported.sessions, |imported.sessions|);
    assert imported.sessions[..|imported.sessions|] == imported.sessions;
    AllGone(imported.sessions, AsSet(Ids(imported.sessions)));
  }

  // ---------- Main results ----------

  /** Current sessions stay as they are at the front, current projects stay in place with lists
      that only grow at the end, and every imported project and session is counted once. */
  lemma MergeIsNonDestructive(current: State, imported: Import)
    requires Consistent(current) && WellFormed(imported)
    ensures var m := MergeState(current, imported); var sum := m.summary;
            && Partitioned(m.state.projects, m.state.sessions)
            && current.sessions <= m.state.sessions && Grown(current.projects, m.state.projects)
            && |m.state.projects| == |current.projects| + sum.projectsAdded
            && |m.state.sessions| == |current.sessions| + sum.sessionsAdded
            && sum.projectsAdded + sum.projectsMatched + sum.projectsSkipped == |imported.projects|
            && sum.sessionsAdded + sum.sessionsPresent + sum.sessionsSkipped == |imported.sessions|
            && m.state.pinnedProjects == current.pinnedProjects && m.state.pinnedSessions == current.pinnedSessions
            && m.state.settled == current.settled
  {
    var p := MergeProjects(current.projects, imported.projects);
    ProjectsOnlyAppended(current.projects, imported.projects);
    MergedProjectsPartitioned(current, imported);
    OrderedIsTheImport(imported);
    SessionsOnlyAppended(p.projects, current.sessions, p.idMap, imported.sessions);
    SelectionLeavesLists(current, imported);
    PrefixGrown(current.projects, p.projects);
    IdsAt(p.projects);
    IdsAt(MergeState(current, imported).state.projects);
    hide Consistent, Partitioned, MergeProjects, MergeSessions, MergeSelection, Grown, WellFormed, MapsInto;
    GrownTrans(current.projects, p.projects, MergeState(current, imported).state.projects);
  }

  lemma PrefixGrown(before: seq<Project>, after: seq<Project>)
    requires before <= after
    ensures Grown(before, after)
  {}

  lemma {:induction false} EmptyProjectsPartitioned(current: seq<Project>, sessions: seq<Session>, imported: seq<Project>)
    requires Partitioned(current, sessions)
    ensures Partitioned(MergeProjects(current, imported).projects, sessions)
  {
    if imported != [] {
      var p := imported[|imported| - 1];
      EmptyProjectsPartitioned(current, sessions, imported[..|imported| - 1]);
      var m := MergeProjects(current, imported[..|imported| - 1]);
      hide Partitioned;
      if p.id !in Ids(m.projects) {
        LastProjectPartitioned(m.projects, sessions, Record(p.id, ProjectBody(p.body.path, [])));
      }
    }
  }

  lemma LastProjectPartitioned(projects: seq<Project>, sessions: seq<Session>, p: Project)
    requires Partitioned(projects, sessions) && p.id !in Ids(projects) && p.body.sessionIds == []
    ensures Partitioned(projects + [p], sessions)
  {
    IdsConcat(projects, [p]);
    assert Ids([p]) == [p.id];
    DistinctConcat(Ids(projects), [p.id]);
    assert ListsItsOwn(sessions, p);
    hide Distinct, ListsItsOwn;
  }

  lemma MergedProjectsPartitioned(current: State, imported: Import)
    requires Consistent(current)
    ensures var p := MergeProjects(current.projects, imported.projects);
            Partitioned(p.projects, current.sessions) && MapsInto(p.idMap, p.projects)
  {
    DistinctSessions(current);
    ProjectsMapInto(current.projects, imported.projects);
    EmptyProjectsPartitioned(current.projects, current.sessions, imported.projects);
  }

  /** The lists are not touched by the selection rules. */
  predicate SameLists(a: State, b: State) {
    && a.projects == b.projects && a.sessions == b.sessions && a.pinnedProjects == b.pinnedProjects
    && a.pinnedSessions == b.pinnedSessions && a.settled == b.settled
  }

  lemma {:induction false} RememberImportedSameLists(st: State, projectIds: map<Id, Id>, sessionIds: map<Id, Id>, remembered: seq<Record<Id>>)
    ensures var r := RememberImported(st, projectIds, sessionIds, remembered);
            SameLists(r, st) && r.selectedProject == st.selectedProject && r.selectedSession == st.selectedSession
  {
    if remembered != [] {
      RememberImportedSameLists(st, projectIds, sessionIds, remembered[..|remembered| - 1]);
    }
  }

  lemma SelectionLeavesLists(current: State, imported: Import)
    ensures var p := MergeProjects(current.projects, imported.projects);
            var s := MergeSessions(p.projects, current.sessions, p.idMap, Ordered(imported));
            SameLists(MergeState(current, imported).state, current.(projects := s.projects, sessions := s.sessions))
  {
    var p := MergeProjects(current.projects, imported.projects);
    var s := MergeSessions(p.projects, current.sessions, p.idMap, Ordered(imported));
    var joined := current.(projects := s.projects, sessions := s.sessions);
    var chosen := FindSession(joined.sessions, joined.selectedSession);
    var kept := if chosen.Some? then RememberIfNew(joined, chosen.value.body.projectId, chosen.value) else joined;
    RememberImportedSameLists(kept, p.idMap, s.idMap, imported.remembered);
    hide MergeProjects, MergeSessions, RememberImported, Ordered;
  }

  /** Merging the same import again adds no project and no session. */
  lemma SecondMergeAddsNothing(current: State, imported: Import)
    requires Consistent(current) && WellFormed(imported)
    ensures var once := MergeState(current, imported); var twice := MergeState(once.state, imported);
            && twice.summary.projectsAdded == 0 && twice.summary.sessionsAdded == 0
            && twice.state.projects == once.state.projects && twice.state.sessions == once.state.sessions
  {
    var once := MergeState(current, imported).state;
    var p1 := MergeProjects(current.projects, imported.projects);
    MergedProjectsPartitioned(current, imported);
    OrderedIsTheImport(imported);
    SessionsOnlyAppended(p1.projects, current.sessions, p1.idMap, imported.sessions);
    SelectionLeavesLists(current, imported);
    SelectionLeavesLists(once, imported);
    forall q | q in imported.projects ensures Covered(once.projects, q) {
      EveryProjectCovered(current.projects, imported.projects, q);
      CoveredAfterGrowing(p1.projects, once.projects, q);
    }
    CoveredMergesNothing(once.projects, imported.projects);
    var p2 := MergeProjects(once.projects, imported.projects);
    forall s | s in imported.sessions ensures Settled(once.sessions, p2.idMap, s) {
      EverySessionSettled(p1.projects, current.sessions, p1.idMap, imported.sessions, s);
      if s.body.projectId in p2.idMap {
        MappedBefore(current, imported, once.projects, p1, s.body.projectId);
      }
    }
    hide MergeProjects, MergeSessions, MergeSelection, Consistent, Partitioned, Covered, Settled, Grown, WellFormed;
    SettledMergesNothing(once.projects, once.sessions, p2.idMap, imported.sessions);
  }

  lemma CoveredAfterGrowing(before: seq<Project>, after: seq<Project>, q: Project)
    requires Grown(before, after) && Ids(before) == Ids(after) && Covered(before, q)
    ensures Covered(after, q)
  {
    if HasPath(before, q.body.path) {
      var t :| t in before && t.body.path == q.body.path;
      var i :| 0 <= i < |before| && before[i] == t;
      assert after[i].body.path == t.body.path;
    }
  }

  lemma PathsStay(before: seq<Project>, after: seq<Project>, path: string)
    requires Grown(before, after) && Ids(before) == Ids(after) && HasPath(after, path)
    ensures HasPath(before, path)
  {
    IdsAt(before);
    IdsAt(after);
    var t :| t in after && t.body.path == path;
    var i :| 0 <= i < |after| && after[i] == t;
    assert before[i].body.path == path;
  }

  /** A project that the second merge maps was mapped by the first. */
  lemma MappedBefore(current: State, imported: Import, once: seq<Project>, p1: ProjectMerge, id: Id)
    requires WellFormed(imported) && p1 == MergeProjects(current.projects, imported.projects)
    requires Grown(p1.projects, once) && Ids(once) == Ids(p1.projects)
    requires MapsByPath(once, imported.projects, id)
    ensures id in p1.idMap
  {
    var q :| q in imported.projects && q.id == id && HasPath(once, q.body.path);
    PathsStay(p1.projects, once, q.body.path);
    if id !in p1.idMap {
      UnmappedHasNoPath(current.projects, imported.projects, q);
      assert false;
    }
  }

  // ---------- The layout after a merge ----------

  lemma RememberIfNewKeeps(st: State, projectId: Id, s: Session)
    requires Distinct(Ids(st.sessions)) && Remembering(st) && s in st.sessions
    ensures Remembering(RememberIfNew(st, projectId, s))
  {
    RememberKeeps(st, s);
  }

  lemma {:induction false} RememberImportedKeeps(st: State, projectIds: map<Id, Id>, sessionIds: map<Id, Id>, remembered: seq<Record<Id>>)
    requires Distinct(Ids(st.sessions)) && Remembering(st)
    ensures Remembering(RememberImported(st, projectIds, sessionIds, remembered))
  {
    hide Distinct, Remembering, RememberIfNew;
    if remembered != [] {
      var front, r := remembered[..|remembered| - 1], remembered[|remembered| - 1];
      RememberImportedKeeps(st, projectIds, sessionIds, front);
      RememberImportedSameLists(st, projectIds, sessionIds, front);
      var before := RememberImported(st, projectIds, sessionIds, front);
      if r.id in projectIds && r.body in sessionIds {
        var s := Find(st.sessions, sessionIds[r.body]);
        if s.Some? {
          RememberIfNewKeeps(before, projectIds[r.id], s.value);
        }
      }
    }
  }

  lemma PrefixIds<T>(before: seq<Record<T>>, after: seq<Record<T>>)
    requires before <= after
    ensures Ids(before) <= Ids(after)
  {
    assert after == before + after[|before|..];
    IdsConcat(before, after[|before|..]);
  }

  lemma ValidInMore(ids: seq<Id>, valid: seq<Id>, more: seq<Id>, limit: nat)
    requires ValidIds(ids, valid, limit) && valid <= more
    ensures ValidIds(ids, more, limit)
  {
    forall id | id in ids ensures id in more {
      assert id in valid;
    }
  }

  /** Joined lists keep pins and remembered selections valid. */
  lemma JoinedKeeps(current: State, joined: State)
    requires Consistent(current) && Partitioned(joined.projects, joined.sessions)
    requires current.sessions <= joined.sessions && Ids(current.projects) <= Ids(joined.projects)
    requires joined == current.(projects := joined.projects, sessions := joined.sessions)
    ensures Pinned(joined) && Remembering(joined) && SelectionHolds(joined)
  {
    PrefixIds(current.sessions, joined.sessions);
    DistinctSessions(joined);
    ValidInMore(current.pinnedProjects, Ids(current.projects), Ids(joined.projects), MAX_PINNED_PROJECTS);
    ValidInMore(current.pinnedSessions, Ids(current.sessions), Ids(joined.sessions), MAX_PINNED_SESSIONS);
    ValidInMore(current.settled, Ids(current.sessions), Ids(joined.sessions), MAX_SETTLED_SESSIONS);
    hide Distinct, ValidIds, Partitioned, Recallable;
    forall r | r in joined.remembered ensures Recallable(joined.sessions, r) {
      RecallableTarget(current.sessions, r);
      StillRecallable(current.sessions, joined.sessions, r);
    }
    if joined.selectedSession.Some? {
      FindIs(joined.sessions, Find(current.sessions, joined.selectedSession.value).value);
    }
  }

  lemma SelectionMerged(joined: State, imported: Import, projectIds: map<Id, Id>, sessionIds: map<Id, Id>)
    requires Partitioned(joined.projects, joined.sessions) && Remembering(joined) && SelectionHolds(joined)
    requires MapsInto(projectIds, joined.projects)
    ensures var r := MergeSelection(joined, imported, projectIds, sessionIds); Remembering(r) && SelectionHolds(r)
  {
    DistinctSessions(joined);
    var current := FindSession(joined.sessions, joined.selectedSession);
    var kept := if current.Some? then RememberIfNew(joined, current.value.body.projectId, current.value) else joined;
    if current.Some? {
      RememberIfNewKeeps(joined, current.value.body.projectId, current.value);
    }
    RememberImportedKeeps(kept, projectIds, sessionIds, imported.remembered);
    RememberImportedSameLists(kept, projectIds, sessionIds, imported.remembered);
    var sessionId := Through(sessionIds, imported.selectedSession);
    var s := FindSession(joined.sessions, sessionId);
    if s.Some? {
      FindIs(joined.sessions, s.value);
      PartitionedHouses(joined, s.value);
    }
    hide Partitioned, Distinct, Recallable, RememberImported, RememberIfNew;
  }

  /** What holds of every merged state, and that normalizing it changes no list; whether a project is
      selected is settled by `MergeIsConsistentExactly`. */
  lemma MergeKeepsTheLayout(current: State, imported: Import)
    requires Consistent(current) && WellFormed(imported)
    ensures var m := MergeState(current, imported).state;
            && Partitioned(m.projects, m.sessions) && Pinned(m) && Remembering(m) && SelectionHolds(m)
            && Consistent(Normalized(m)) && SameLists(Normalized(m), m)
  {
    var m := MergeState(current, imported).state;
    var p := MergeProjects(current.projects, imported.projects);
    ProjectsOnlyAppended(current.projects, imported.projects);
    MergedProjectsPartitioned(current, imported);
    OrderedIsTheImport(imported);
    SessionsOnlyAppended(p.projects, current.sessions, p.idMap, imported.sessions);
    SelectionLeavesLists(current, imported);
    PrefixIds(current.projects, p.projects);
    var s := MergeSessions(p.projects, current.sessions, p.idMap, imported.sessions);
    var joined := current.(projects := s.projects, sessions := s.sessions);
    hide Partitioned, MergeProjects, MergeSessions, MergeSelection, Grown, WellFormed, Pinned, Remembering, SelectionHolds;
    JoinedKeeps(current, joined);
    SelectionMerged(joined, imported, p.idMap, s.idMap);
    SamePinned(joined, m);
    NormalizingMerged(m);
  }

  // ---------- When the selection survives a merge ----------

  /** The first imported session of a known project that has the ACP session. */
  function FirstWithAcp(sessions: seq<Session>, known: set<Id>, acp: Option<Id>): (r: Option<Session>)
    ensures r.Some? ==> r.value in sessions && r.value.body.acp == acp
  {
    if sessions == [] || acp.None? then None
    else
      var before, last := FirstWithAcp(sessions[..|sessions| - 1], known, acp), sessions[|sessions| - 1];
      if before.Some? then before
      else if last.body.projectId in known && last.body.acp == acp then Some(last) else None
  }

  /** The import has the session under a project of its own, and the first one with the same ACP
      session, if it has one, is under the same project. */
  ghost predicate Lands(sessions: seq<Session>, known: set<Id>, id: Id) {
    exists s :: s in sessions && s.id == id && LandsAs(sessions, known, s)
  }

  predicate LandsAs(sessions: seq<Session>, known: set<Id>, s: Session) {
    s.body.projectId in known &&
    var first := FirstWithAcp(sessions, known, s.body.acp);
    first.Some? ==> first.value.body.projectId == s.body.projectId
  }

  /** What can be told about the merged sessions from the import alone when there were none before. */
  ghost predicate FromNothing(m: SessionMerge, known: set<Id>, sessions: seq<Session>) {
    && (forall id <- Ids(m.sessions) :: id in Ids(sessions))
    && (forall acp :: SameProject(WithAcp(m.sessions, acp), FirstWithAcp(sessions, known, acp)))
    && (forall id :: id in m.idMap <==> Lands(sessions, known, id))
    && (forall id :: id in m.idMap ==> m.idMap[id] in Ids(m.sessions))
  }

  predicate SameProject(a: Option<Session>, b: Option<Session>) {
    a.Some? == b.Some? && (a.Some? ==> a.value.body.projectId == b.value.body.projectId)
  }

  /** One more session leaves it alone who lands among those before. */
  lemma LandsBefore(front: seq<Session>, known: set<Id>, last: Session, id: Id)
    requires last.id !in Ids(front)
    ensures id != last.id ==> (Lands(front + [last], known, id) <==> Lands(front, known, id))
    ensures Lands(front + [last], known, last.id) <==> LandsAs(front + [last], known, last)
  {
    var all := front + [last];
    IdsHas(front);
    forall s | s in front ensures LandsAs(all, known, s) <==> LandsAs(front, known, s) {
      SameLanding(front, known, last, s);
    }
    hide LandsAs, Ids;
    assert all[|front|] == last;
    if Lands(front, known, id) {
      var s :| s in front && s.id == id && LandsAs(front, known, s);
      assert s in all;
    }
  }

  lemma SameLanding(front: seq<Session>, known: set<Id>, last: Session, s: Session)
    requires s in front
    ensures LandsAs(front + [last], known, s) <==> LandsAs(front, known, s)
  {
    OneMoreFirst(front, known, last, s.body.acp);
    hide FirstWithAcp;
    if s.body.projectId in known && s.body.acp.Some? {
      FirstStands(front, known, s);
    }
  }

  lemma {:induction false} FirstStands(sessions: seq<Session>, known: set<Id>, s: Session)
    requires s in sessions && s.body.projectId in known && s.body.acp.Some?
    ensures FirstWithAcp(sessions, known, s.body.acp).Some?
  {
    if s != sessions[|sessions| - 1] {
      FirstStands(sessions[..|sessions| - 1], known, s);
    }
  }

  /** The sessions of an import reach an empty state under their own projects: which ones are
      mapped is decided by the import alone. */
  lemma {:induction false} SessionsFromNothing(projects: seq<Project>, ids: map<Id, Id>, sessions: seq<Session>)
    requires Distinct(Ids(sessions)) && forall k :: k in ids ==> ids[k] == k
    ensures FromNothing(MergeSessions(projects, [], ids, sessions), ids.Keys, sessions)
  {
    if sessions != [] {
      var front, s := sessions[..|sessions| - 1], sessions[|sessions| - 1];
      LastApart(Ids(sessions));
      assert Ids(sessions)[..|Ids(sessions)| - 1] == Ids(front);
      SessionsFromNothing(projects, ids, front);
      hide Distinct;
      Snoc(sessions);
      OneFromNothing(MergeSessions(projects, [], ids, front), ids, front, s);
    }
  }

  lemma OneFromNothing(m: SessionMerge, ids: map<Id, Id>, front: seq<Session>, s: Session)
    requires FromNothing(m, ids.Keys, front) && s.id !in Ids(front) && forall k :: k in ids ==> ids[k] == k
    ensures FromNothing(MergeSession(m, ids, s), ids.Keys, front + [s])
  {
    AcpFromNothing(m, ids, front, s);
    MapFromNothing(m, ids, front, s);
    TargetsFromNothing(m, ids, front, s);
    hide MergeSession, Lands, SameProject;
  }

  lemma TargetsFromNothing(m: SessionMerge, ids: map<Id, Id>, front: seq<Session>, s: Session)
    requires FromNothing(m, ids.Keys, front) && s.id !in Ids(front) && forall k :: k in ids ==> ids[k] == k
    ensures var r := MergeSession(m, ids, s);
            && (forall id <- Ids(r.sessions) :: id in Ids(front + [s]))
            && (forall id :: id in r.idMap ==> r.idMap[id] in Ids(r.sessions))
  {
    NewFromNothing(m, ids, front, s);
    IdsConcat(front, [s]);
    assert Ids([s]) == [s.id];
    IdsConcat(m.sessions, [Adopt(s, s.body.projectId)]);
    assert Ids([Adopt(s, s.body.projectId)]) == [s.id];
    IdsHas(m.sessions);
    hide ListSession, Lands, LandsAs, SameProject, FirstWithAcp, Ids;
  }

  lemma AcpFromNothing(m: SessionMerge, ids: map<Id, Id>, front: seq<Session>, s: Session)
    requires FromNothing(m, ids.Keys, front) && s.id !in Ids(front) && forall k :: k in ids ==> ids[k] == k
    ensures forall acp :: SameProject(WithAcp(MergeSession(m, ids, s).sessions, acp), FirstWithAcp(front + [s], ids.Keys, acp))
  {
    var r := MergeSession(m, ids, s);
    NewFromNothing(m, ids, front, s);
    var adopted := Adopt(s, s.body.projectId);
    hide ListSession, Lands, LandsAs, Ids, WithAcp, FirstWithAcp, Find;
    assert SameProject(WithAcp(m.sessions, s.body.acp), FirstWithAcp(front, ids.Keys, s.body.acp));
    forall acp ensures SameProject(WithAcp(r.sessions, acp), FirstWithAcp(front + [s], ids.Keys, acp)) {
      assert SameProject(WithAcp(m.sessions, acp), FirstWithAcp(front, ids.Keys, acp));
      OneMoreAcp(m.sessions, adopted, acp);
      OneMoreFirst(front, ids.Keys, s, acp);
    }
  }

  lemma OneMoreAcp(sessions: seq<Session>, last: Session, acp: Option<Id>)
    ensures WithAcp(sessions + [last], acp)
            == if acp.None? then None else if last.body.acp == acp then Some(last) else WithAcp(sessions, acp)
  {
    assert (sessions + [last])[..|sessions|] == sessions;
  }

  lemma OneMoreFirst(sessions: seq<Session>, known: set<Id>, last: Session, acp: Option<Id>)
    ensures var before := FirstWithAcp(sessions, known, acp);
            FirstWithAcp(sessions + [last], known, acp)
            == if acp.None? || before.Some? then before
               else if last.body.projectId in known && last.body.acp == acp then Some(last) else None
  {
    assert (sessions + [last])[..|sessions|] == sessions;
  }

  lemma MapFromNothing(m: SessionMerge, ids: map<Id, Id>, front: seq<Session>, s: Session)
    requires FromNothing(m, ids.Keys, front) && s.id !in Ids(front) && forall k :: k in ids ==> ids[k] == k
    ensures forall id :: id in MergeSession(m, ids, s).idMap <==> Lands(front + [s], ids.Keys, id)
  {
    NewFromNothing(m, ids, front, s);
    hide ListSession, Lands, LandsAs, Ids, SameProject, FirstWithAcp;
    forall id ensures id in MergeSession(m, ids, s).idMap <==> Lands(front + [s], ids.Keys, id) {
      LandsBefore(front, ids.Keys, s, id);
    }
  }

  lemma NewFromNothing(m: SessionMerge, ids: map<Id, Id>, front: seq<Session>, s: Session)
    requires FromNothing(m, ids.Keys, front) && s.id !in Ids(front) && forall k :: k in ids ==> ids[k] == k
    ensures Find(m.sessions, s.id).None? && s.id !in m.idMap
    ensures s.id in MergeSession(m, ids, s).idMap <==> LandsAs(front + [s], ids.Keys, s)
  {
    var all := front + [s];
    assert all[..|all| - 1] == front && all[|front|] == s;
    FindNone(m.sessions, s.id);
    IdsHas(front);
    hide ListSession;
    assert !Lands(front, ids.Keys, s.id);
    assert SameProject(WithAcp(m.sessions, s.body.acp), FirstWithAcp(front, ids.Keys, s.body.acp));
  }

  /** All projects of an import reach an empty state, under their own identifiers. */
  lemma {:induction false} ProjectsFromNothing(imported: seq<Project>)
    requires Distinct(Ids(imported)) && DistinctPaths(imported)
    ensures AllTaken(MergeProjects([], imported), imported)
  {
    if imported != [] {
      var front, p := imported[..|imported| - 1], imported[|imported| - 1];
      LastIsApart(imported, p);
      ProjectsFromNothing(front);
      Snoc(imported);
      hide Distinct, MergeProject, AllTaken;
      OneMoreTaken(MergeProjects([], front), front, p);
    }
  }

  ghost predicate AllTaken(m: ProjectMerge, imported: seq<Project>) {
    && Ids(m.projects) == Ids(imported) && SamePaths(m.projects, imported)
    && m.idMap.Keys == AsSet(Ids(imported)) && forall k :: k in m.idMap ==> m.idMap[k] == k
  }

  lemma OneMoreTaken(m: ProjectMerge, front: seq<Project>, p: Project)
    requires AllTaken(m, front) && Distinct(Ids(front + [p])) && DistinctPaths(front + [p])
    ensures AllTaken(MergeProject(m, p), front + [p])
  {
    var all := front + [p];
    assert all[|front|] == p;
    IdsConcat(front, [p]);
    assert Ids([p]) == [p.id];
    IdsConcat(m.projects, [Record(p.id, ProjectBody(p.body.path, []))]);
    assert Ids([Record(p.id, ProjectBody(p.body.path, []))]) == [p.id];
    DistinctConcat(Ids(front), [p.id]);
    hide Distinct, Ids;
    assert p.id in [p.id];
    forall q | q in m.projects ensures q.body.path != p.body.path {
      var i :| 0 <= i < |front| && m.projects[i] == q;
      assert all[i].body.path != all[|front|].body.path;
    }
  }

  predicate SamePaths(a: seq<Project>, b: seq<Project>) {
    |a| == |b| && forall i :: 0 <= i < |a| ==> a[i].body.path == b[i].body.path
  }

  /** A project is selected afterwards because one was before, because the import selects one of
      its projects, or because it selects a session that gets in. */
  ghost predicate SelectionArrives(current: State, imported: Import) {
    || current.projects != [] || imported.projects == []
    || (imported.selectedProject.Some? && imported.selectedProject.value in Ids(imported.projects))
    || (imported.selectedSession.Some? && Lands(imported.sessions, AsSet(Ids(imported.projects)), imported.selectedSession.value))
  }

  /** The merged state itself is consistent exactly when a selection arrives. */
  lemma MergeIsConsistentExactly(current: State, imported: Import)
    requires Consistent(current) && WellFormed(imported)
    ensures Consistent(MergeState(current, imported).state) <==> SelectionArrives(current, imported)
  {
    var m := MergeState(current, imported).state;
    MergeKeepsTheLayout(current, imported);
    MergeIsNonDestructive(current, imported);
    hide Partitioned, Pinned, Remembering;
    if current.projects == [] {
      NothingListed(current);
      SelectedFromNothing(current, imported);
    } else {
      StaysSelected(current, imported);
    }
  }

  lemma FirstHoused(projects: seq<Project>, sessions: seq<Session>)
    requires Partitioned(projects, sessions) && sessions != []
    ensures sessions[0].body.projectId in Ids(projects)
  {
    assert sessions[0] in sessions;
  }

  lemma NothingListed(st: State)
    requires Consistent(st) && st.projects == []
    ensures st.sessions == [] && st.selectedProject == None && st.selectedSession == None
  {
    if st.sessions != [] {
      FirstHoused(st.projects, st.sessions);
      assert false;
    }
  }

  lemma StaysSelected(current: State, imported: Import)
    requires Consistent(current) && current.projects != []
    ensures MergeState(current, imported).state.selectedProject.Some?
  {
    var p := MergeProjects(current.projects, imported.projects);
    var s := MergeSessions(p.projects, current.sessions, p.idMap, Ordered(imported));
    var joined := current.(projects := s.projects, sessions := s.sessions);
    var chosen := FindSession(joined.sessions, joined.selectedSession);
    var kept := if chosen.Some? then RememberIfNew(joined, chosen.value.body.projectId, chosen.value) else joined;
    RememberImportedSameLists(kept, p.idMap, s.idMap, imported.remembered);
    MergedProjectsPartitioned(current, imported);
    SessionsOnlyAppended(p.projects, current.sessions, p.idMap, Ordered(imported));
    ProjectsOnlyAppended(current.projects, imported.projects);
    PrefixIds(current.projects, p.projects);
    hide Partitioned, Pinned, Remembering, MergeProjects, MergeSessions, RememberImported, Ordered;
  }

  lemma SelectedFromNothing(current: State, imported: Import)
    requires Consistent(current) && WellFormed(imported) && current.projects == [] && current.sessions == []
    requires current.selectedProject == None && current.selectedSession == None
    ensures var m := MergeState(current, imported).state;
            (m.projects == [] <==> imported.projects == []) && (imported.projects == [] ==> m.selectedProject.None?)
    ensures imported.projects != [] ==>
            (MergeState(current, imported).state.selectedProject.Some? <==> SelectionArrives(current, imported))
  {
    var p := MergeProjects([], imported.projects);
    var s := MergeSessions(p.projects, [], p.idMap, imported.sessions);
    var joined := current.(projects := s.projects, sessions := s.sessions);
    ProjectsFromNothing(imported.projects);
    OrderedIsTheImport(imported);
    SessionsFromNothing(p.projects, p.idMap, imported.sessions);
    MergedProjectsPartitioned(current, imported);
    SessionsOnlyAppended(p.projects, [], p.idMap, imported.sessions);
    RememberImportedSameLists(joined, p.idMap, s.idMap, imported.remembered);
    SelectionLeavesLists(current, imported);
    IdsAt(imported.projects);
    IdsAt(s.projects);
    hide MergeProjects, MergeSessions, RememberImported, Ordered, Partitioned, Consistent, WellFormed, Grown, Lands,
         Distinct, DistinctPaths, SamePaths, SameProject, RememberIfNew;
    if imported.selectedSession.Some? && imported.selectedSession.value in s.idMap {
      FindNone(joined.sessions, s.idMap[imported.selectedSession.value]);
    }
  }

  /** An import that selects nothing leaves an empty state with a project and no selection. */
  lemma MergeCanLeaveNothingSelected()
    ensures var current := State([], [], [], [], [], [], None, None);
            var imported := Import([Record("p", ProjectBody("/p", []))], [], [], None, None);
            && Consistent(current) && WellFormed(imported) && !Consistent(MergeState(current, imported).state)
  {
    var current := State([], [], [], [], [], [], None, None);
    var imported := Import([Record("p", ProjectBody("/p", []))], [], [], None, None);
    assert Ids(imported.projects) == ["p"];
    assert Flatten(imported.projects) == [];
    MergeIsConsistentExactly(current, imported);
  }

  lemma SamePinned(a: State, b: State)
    requires SameLists(b, a) && Pinned(a)
    ensures Pinned(b)
  {}

  lemma NormalizingMerged(m: State)
    requires Partitioned(m.projects, m.sessions) && Pinned(m) && Remembering(m)
    ensures Consistent(Normalized(m)) && SameLists(Normalized(m), m)
  {
    hide Consistent, Trimmed, Reselected, Partitioned, Pinned, Remembering, Take;
    assert Distinct(Ids(m.remembered)) by { KeysDistinct(m); }
    NormalizedIsConsistent(m);
    TrimmedFixed(m);
    ReselectedSameLists(Trimmed(m));
  }

  lemma KeysDistinct(m: State)
    requires Remembering(m)
    ensures Distinct(Ids(m.remembered))
  {}

  lemma ReselectedSameLists(st: State)
    ensures SameLists(Reselected(st), st)
  {
    hide Put, FirstOrdered;
  }

  // ---------- The loops ----------

  method MergeProjectLoop(current: seq<Project>, imported: seq<Project>) returns (m: ProjectMerge)
    ensures m == MergeProjects(current, imported)
  {
    m := ProjectMerge(current, map[], 0, 0, 0);
    for i := 0 to |imported|
      invariant m == MergeProjects(current, imported[..i])
    {
      var project := imported[i];
      assert imported[..i + 1][..i] == imported[..i];
      var pathMatch := AtPath(m.projects, project.body.path);
      if pathMatch.Some? {
        m := m.(idMap := m.idMap[project.id := pathMatch.value.id], matched := m.matched + 1);
        continue;
      }
      if project.id in Ids(m.projects) {
        m := m.(skipped := m.skipped + 1);
        continue;
      }
      m := m.(projects := m.projects + [Record(project.id, ProjectBody(project.body.path, []))]);
      m := m.(idMap := m.idMap[project.id := project.id], added := m.added + 1);
    }
    assert imported[..|imported|] == imported;
  }

  method MergeSessionLoop(projects: seq<Project>, sessions: seq<Session>, projectIds: map<Id, Id>, imported: seq<Session>)
    returns (m: SessionMerge)
    ensures m == MergeSessions(projects, sessions, projectIds, imported)
  {
    hide ListSession;
    m := SessionMerge(projects, sessions, map[], 0, 0, 0);
    for i := 0 to |imported|
      invariant m == MergeSessions(projects, sessions, projectIds, imported[..i])
    {
      var session := imported[i];
      assert imported[..i + 1][..i] == imported[..i];
      if session.body.projectId !in projectIds {
        m := m.(skipped := m.skipped + 1);
        continue;
      }
      var target := projectIds[session.body.projectId];
      var existing := Find(m.sessions, session.id);
      if existing.None? {
        existing := WithAcp(m.sessions, session.body.acp);
      }
      if existing.Some? {
        if existing.value.body.projectId == target {
          m := m.(idMap := m.idMap[session.id := existing.value.id], present := m.present + 1);
        } else {
          m := m.(skipped := m.skipped + 1);
        }
        continue;
      }
      m := m.(sessions := m.sessions + [Adopt(session, target)]);
      m := m.(projects := ListSession(m.projects, target, session.id));
      m := m.(idMap := m.idMap[session.id := session.id], added := m.added + 1);
    }
    assert imported[..|imported|] == imported;
  }

  method MergeSwiftState(current: State, imported: Import) returns (m: Merged)
    ensures m == MergeState(current, imported)
  {
    hide MergeProjects, MergeSessions, Ordered, RememberIfNew;
    var p := MergeProjectLoop(current.projects, imported.projects);
    var s := MergeSessionLoop(p.projects, current.sessions, p.idMap, Ordered(imported));
    var joined := current.(projects := s.projects, sessions := s.sessions);
    var selected := FindSession(joined.sessions, joined.selectedSession);
    var state := if selected.Some? then RememberIfNew(joined, selected.value.body.projectId, selected.value) else joined;
    var kept := state;
    for i := 0 to |imported.remembered|
      invariant state == RememberImported(kept, p.idMap, s.idMap, imported.remembered[..i])
      invariant SameLists(state, kept)
    {
      var r := imported.remembered[i];
      assert imported.remembered[..i + 1][..i] == imported.remembered[..i];
      RememberImportedSameLists(kept, p.idMap, s.idMap, imported.remembered[..i + 1]);
      if r.id in p.idMap && r.body in s.idMap {
        var session := Find(kept.sessions, s.idMap[r.body]);
        if session.Some? {
          state := RememberIfNew(state, p.idMap[r.id], session.value);
        }
      }
    }
    assert imported.remembered[..|imported.remembered|] == imported.remembered;
    SameRemembered(joined, kept, selected);
    if !(joined.selectedProject.Some? && joined.selectedProject.value in Ids(joined.projects)) {
      state := state.(selectedProject := Through(p.idMap, imported.selectedProject));
    }
    if selected.None? {
      var sessionId := Through(s.idMap, imported.selectedSession);
      var session := FindSession(joined.sessions, sessionId);
      if session.Some? {
        state := state.(selectedProject := Some(session.value.body.projectId), selectedSession := Some(session.value.id));
      } else if sessionId.None? {
        state := state.(selectedSession := None);
      }
    }
    return Merged(state, Summary(p.added, p.matched, p.skipped, s.added, s.present, s.skipped));
  }

  lemma SameRemembered(joined: State, kept: State, selected: Option<Session>)
    requires kept == if selected.Some? then RememberIfNew(joined, selected.value.body.projectId, selected.value) else joined
    ensures SameLists(kept, joined) && kept.selectedProject == joined.selectedProject
            && kept.selectedSession == joined.selectedSession
  {}
}
