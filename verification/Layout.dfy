/** The workspace layout that AppController keeps: projects, sessions, pins, settled sessions,
    remembered and current selections, and what makes them consistent. */
module Layout {
  import opened Results
  import opened Lists

  const MAX_PINNED_PROJECTS := 5
  const MAX_PINNED_SESSIONS := 20
  const MAX_SETTLED_SESSIONS := 10_000
  const MAX_REMEMBERED := 2_000

  datatype ProjectBody = ProjectBody(path: string, sessionIds: seq<Id>)

  /** `active`: the session needs workspace quiescence. */
  datatype SessionBody = SessionBody(
    projectId: Id, acp: Option<Id>, transcribed: bool, active: bool, updatedAt: int, content: string)
  {
    predicate Durable() { acp.Some? || transcribed }
  }

  type Project = Record<ProjectBody>
  type Session = Record<SessionBody>

  datatype State = State(
    projects: seq<Project>, sessions: seq<Session>,
    pinnedProjects: seq<Id>, pinnedSessions: seq<Id>, settled: seq<Id>,
    remembered: seq<Record<Id>>, selectedProject: Option<Id>, selectedSession: Option<Id>)

  // ---------- Ownership ----------

  /** The identifiers of a project's sessions, in session order. */
  function OwnIds(sessions: seq<Session>, projectId: Id): seq<Id> {
    if sessions == [] then []
    else
      var front, last := OwnIds(sessions[..|sessions| - 1], projectId), sessions[|sessions| - 1];
      if last.body.projectId == projectId then front + [last.id] else front
  }

  ghost predicate Owns(sessions: seq<Session>, projectId: Id, id: Id) {
    exists s :: s in sessions && s.id == id && s.body.projectId == projectId
  }

  lemma {:induction false} OwnHas(sessions: seq<Session>, projectId: Id)
    ensures forall id :: id in OwnIds(sessions, projectId) <==> Owns(sessions, projectId, id)
  {
    if sessions != [] {
      var front, last := sessions[..|sessions| - 1], sessions[|sessions| - 1];
      OwnHas(front, projectId);
      forall id ensures id in OwnIds(sessions, projectId) <==> Owns(sessions, projectId, id) {
        if Owns(front, projectId, id) {
          var s :| s in front && s.id == id && s.body.projectId == projectId;
          assert s in sessions;
        }
        assert last in sessions;
      }
    }
  }

  lemma {:induction false} OwnDistinct(sessions: seq<Session>, projectId: Id)
    requires Distinct(Ids(sessions))
    ensures Distinct(OwnIds(sessions, projectId)) && forall id <- OwnIds(sessions, projectId) :: id in Ids(sessions)
  {
    hide Distinct;
    if sessions == [] {
      DistinctEmpty();
    } else {
      var front, last := sessions[..|sessions| - 1], sessions[|sessions| - 1];
      LastApart(Ids(sessions));
      assert Ids(sessions)[..|Ids(sessions)| - 1] == Ids(front);
      OwnDistinct(front, projectId);
      var own := OwnIds(sessions, projectId);
      if last.body.projectId == projectId {
        assert own[..|own| - 1] == OwnIds(front, projectId);
        LastApart(own);
      }
    }
  }

  // ---------- Consistency ----------

  ghost predicate ListsItsOwn(sessions: seq<Session>, p: Project) {
    Distinct(p.body.sessionIds) && forall id :: id in p.body.sessionIds <==> Owns(sessions, p.id, id)
  }

  /** Identifiers are unique and the projects' lists partition the sessions. */
  ghost predicate Partitioned(projects: seq<Project>, sessions: seq<Session>) {
    && Distinct(Ids(projects)) && Distinct(Ids(sessions))
    && (forall s <- sessions :: s.body.projectId in Ids(projects))
    && (forall p <- projects :: ListsItsOwn(sessions, p))
  }

  predicate ValidIds(ids: seq<Id>, valid: seq<Id>, limit: nat) {
    Distinct(ids) && |ids| <= limit && forall id <- ids :: id in valid
  }

  ghost predicate Pinned(st: State) {
    && ValidIds(st.pinnedProjects, Ids(st.projects), MAX_PINNED_PROJECTS)
    && ValidIds(st.pinnedSessions, Ids(st.sessions), MAX_PINNED_SESSIONS)
    && ValidIds(st.settled, Ids(st.sessions), MAX_SETTLED_SESSIONS)
    && (forall id <- st.pinnedSessions :: id !in st.settled)
  }

  /** A remembered session belongs to its project and is durable. */
  predicate Recallable(sessions: seq<Session>, r: Record<Id>) {
    var s := Find(sessions, r.body);
    s.Some? && s.value.body.projectId == r.id && s.value.body.Durable()
  }

  ghost predicate Remembering(st: State) {
    Distinct(Ids(st.remembered)) && forall r <- st.remembered :: Recallable(st.sessions, r)
  }

  /** What is selected exists, and a selected session's project is the selected one. */
  predicate SelectionHolds(st: State) {
    && (st.selectedSession.Some? ==>
          var s := Find(st.sessions, st.selectedSession.value);
          s.Some? && st.selectedProject == Some(s.value.body.projectId))
    && (st.selectedProject.Some? ==> st.selectedProject.value in Ids(st.projects))
  }

  predicate Selecting(st: State) {
    SelectionHolds(st) && (st.selectedProject.None? ==> st.projects == [])
  }

  ghost predicate Consistent(st: State) {
    Partitioned(st.projects, st.sessions) && Pinned(st) && Remembering(st) && Selecting(st)
  }

  // ---------- Sidebar order and preferred sessions ----------

  /** The first project of the sidebar other than one to be left out: pinned projects come first. */
  function FirstOrdered(projects: seq<Project>, pinned: seq<Id>, except: set<Id>): Option<Id> {
    var pins := Without(pinned, except);
    var rest := Without(Ids(projects), except);
    if pins != [] then Some(pins[0]) else if rest != [] then Some(rest[0]) else None
  }

  /** The last of the sessions with the greatest timestamp. */
  function MostRecent(sessions: seq<Session>): (r: Option<Session>)
    ensures r.None? <==> sessions == []
    ensures r.Some? ==> r.value in sessions && forall s <- sessions :: s.body.updatedAt <= r.value.body.updatedAt
  {
    if sessions == [] then None
    else
      var before, last := MostRecent(sessions[..|sessions| - 1]), sessions[|sessions| - 1];
      if before.None? || last.body.updatedAt >= before.value.body.updatedAt then Some(last) else before
  }

  /** The listed sessions that exist and belong to the project. */
  function Resolve(sessions: seq<Session>, projectId: Id, ids: seq<Id>): (r: seq<Session>)
    ensures forall s <- r :: s in sessions && s.body.projectId == projectId && s.id in ids
  {
    if ids == [] then []
    else
      var before, s := Resolve(sessions, projectId, ids[..|ids| - 1]), Find(sessions, ids[|ids| - 1]);
      if s.Some? && s.value.body.projectId == projectId then before + [s.value] else before
  }

  function DurableOnes(sessions: seq<Session>): (r: seq<Session>)
    ensures forall s <- r :: s in sessions && s.body.Durable()
  {
    if sessions == [] then []
    else
      var before, last := DurableOnes(sessions[..|sessions| - 1]), sessions[|sessions| - 1];
      if last.body.Durable() then before + [last] else before
  }

  function FindSession(sessions: seq<Session>, id: Option<Id>): (r: Option<Session>)
    ensures r.Some? ==> r.value in sessions
  {
    if id.Some? then Find(sessions, id.value) else None
  }

  function Preferred(st: State, projectId: Id): (r: Option<Session>)
    ensures r.Some? ==> r.value in st.sessions && r.value.body.projectId == projectId
  {
    var mapped := FindSession(st.sessions, Lookup(st.remembered, projectId));
    var global := FindSession(st.sessions, st.selectedSession);
    if mapped.Some? && mapped.value.body.projectId == projectId && mapped.value.body.Durable() then mapped
    else if global.Some? && global.value.body.projectId == projectId then global
    else
      var project := Find(st.projects, projectId);
      if project.None? then None
      else
        var all := Resolve(st.sessions, projectId, project.value.body.sessionIds);
        var durable := MostRecent(DurableOnes(all));
        if durable.Some? then durable else MostRecent(all)
  }

  lemma ResolveSome(sessions: seq<Session>, projectId: Id, ids: seq<Id>)
    requires ids != [] && Owns(sessions, projectId, ids[|ids| - 1]) && Distinct(Ids(sessions))
    ensures Resolve(sessions, projectId, ids) != []
  {
    var s :| s in sessions && s.id == ids[|ids| - 1] && s.body.projectId == projectId;
    FindIs(sessions, s);
    hide Distinct, Find, Ids;
  }

  /** A project with sessions always has a preferred one. */
  lemma PreferredExists(st: State, p: Project)
    requires Partitioned(st.projects, st.sessions) && p in st.projects && p.body.sessionIds != []
    ensures Preferred(st, p.id).Some?
  {
    var ids := p.body.sessionIds;
    assert ids[|ids| - 1] in ids && ListsItsOwn(st.sessions, p);
    hide Distinct, Resolve, DurableOnes, MostRecent, FindSession, Lookup, Find, Owns;
    FindIs(st.projects, p);
    ResolveSome(st.sessions, p.id, ids);
  }

  function Remember(st: State, s: Session): State {
    if s.body.Durable() then st.(remembered := Put(st.remembered, s.body.projectId, s.id)) else st
  }

  lemma RememberKeeps(st: State, s: Session)
    requires Distinct(Ids(st.sessions)) && Remembering(st) && s in st.sessions
    ensures Remembering(Remember(st, s))
  {
    if s.body.Durable() {
      PutHas(st.remembered, s.body.projectId, s.id);
      FindIs(st.sessions, s);
    }
  }

  // ---------- Normalization ----------

  /** What a project lists once foreign, missing and repeated identifiers are gone and its
      unlisted sessions are appended. */
  function Adopted(ids: seq<Id>, own: seq<Id>): seq<Id> {
    var kept := Unique(Keep(ids, set id | id in own));
    kept + Without(own, set id | id in kept)
  }

  function AdoptAll(projects: seq<Project>, sessions: seq<Session>): seq<Project> {
    if projects == [] then []
    else
      var p := projects[|projects| - 1];
      AdoptAll(projects[..|projects| - 1], sessions)
        + [Record(p.id, p.body.(sessionIds := Adopted(p.body.sessionIds, OwnIds(sessions, p.id))))]
  }

  function InProjects(sessions: seq<Session>, projectIds: seq<Id>): seq<Session> {
    if sessions == [] then []
    else
      var front, last := InProjects(sessions[..|sessions| - 1], projectIds), sessions[|sessions| - 1];
      if last.body.projectId in projectIds then front + [last] else front
  }

  function ValidOnes(ids: seq<Id>, valid: seq<Id>, limit: nat): seq<Id> {
    Take(Unique(Keep(ids, set id | id in valid)), limit)
  }

  function RecallableOnes(sessions: seq<Session>, remembered: seq<Record<Id>>): seq<Record<Id>> {
    if remembered == [] then []
    else
      var front, last := RecallableOnes(sessions, remembered[..|remembered| - 1]), remembered[|remembered| - 1];
      if Recallable(sessions, last) then front + [last] else front
  }

  /** Everything but the selection. */
  function Trimmed(st: State): State {
    var projects := FirstById(st.projects);
    var sessions := InProjects(FirstById(st.sessions), Ids(projects));
    var pinned := ValidOnes(st.pinnedSessions, Ids(sessions), MAX_PINNED_SESSIONS);
    State(AdoptAll(projects, sessions), sessions,
          ValidOnes(st.pinnedProjects, Ids(projects), MAX_PINNED_PROJECTS), pinned,
          Without(ValidOnes(st.settled, Ids(sessions), MAX_SETTLED_SESSIONS), set id | id in pinned),
          Take(RecallableOnes(sessions, st.remembered), MAX_REMEMBERED), st.selectedProject, st.selectedSession)
  }

  function Reselected(st: State): State {
    var s := FindSession(st.sessions, st.selectedSession);
    if s.Some? then Remember(st.(selectedProject := Some(s.value.body.projectId)), s.value)
    else
      var project := if st.selectedProject.Some? && st.selectedProject.value in Ids(st.projects) then st.selectedProject
                     else FirstOrdered(st.projects, st.pinnedProjects, {});
      st.(selectedSession := None, selectedProject := project)
  }

  function Normalized(st: State): State { Reselected(Trimmed(st)) }

  // ---------- Normalization establishes consistency ----------

  lemma {:induction false} InProjectsHas(sessions: seq<Session>, projectIds: seq<Id>)
    ensures forall s :: s in InProjects(sessions, projectIds) <==> s in sessions && s.body.projectId in projectIds
    ensures forall id <- Ids(InProjects(sessions, projectIds)) :: id in Ids(sessions)
  {
    if sessions != [] {
      InProjectsHas(sessions[..|sessions| - 1], projectIds);
    }
  }

  lemma {:induction false} InProjectsDistinct(sessions: seq<Session>, projectIds: seq<Id>)
    requires Distinct(Ids(sessions))
    ensures Distinct(Ids(InProjects(sessions, projectIds)))
  {
    hide Distinct;
    if sessions == [] {
      DistinctEmpty();
    } else {
      var front, last := sessions[..|sessions| - 1], sessions[|sessions| - 1];
      LastApart(Ids(sessions));
      assert Ids(sessions)[..|Ids(sessions)| - 1] == Ids(front);
      InProjectsDistinct(front, projectIds);
      InProjectsHas(front, projectIds);
      var r := InProjects(sessions, projectIds);
      if last.body.projectId in projectIds {
        assert r[..|r| - 1] == InProjects(front, projectIds);
        LastApart(Ids(r));
        assert Ids(r)[..|Ids(r)| - 1] == Ids(r[..|r| - 1]);
      }
    }
  }

  lemma AdoptedHas(ids: seq<Id>, own: seq<Id>)
    requires Distinct(own)
    ensures Distinct(Adopted(ids, own)) && forall id :: id in Adopted(ids, own) <==> id in own
  {
    var keep := set id | id in own;
    var kept := Unique(Keep(ids, keep));
    KeepHas(ids, keep);
    UniqueHas(Keep(ids, keep));
    WithoutHas(own, set id | id in kept);
    DistinctConcat(kept, Without(own, set id | id in kept));
    hide Distinct;
  }

  lemma {:induction false} AdoptAllHas(projects: seq<Project>, sessions: seq<Session>)
    requires Distinct(Ids(sessions))
    ensures Ids(AdoptAll(projects, sessions)) == Ids(projects)
    ensures forall p <- AdoptAll(projects, sessions) :: ListsItsOwn(sessions, p)
  {
    hide Distinct, Adopted;
    if projects != [] {
      var p := projects[|projects| - 1];
      AdoptAllHas(projects[..|projects| - 1], sessions);
      OwnDistinct(sessions, p.id);
      OwnHas(sessions, p.id);
      AdoptedHas(p.body.sessionIds, OwnIds(sessions, p.id));
    }
  }

  lemma ValidOnesHas(ids: seq<Id>, valid: seq<Id>, limit: nat)
    ensures ValidIds(ValidOnes(ids, valid, limit), valid, limit)
  {
    var keep := set id | id in valid;
    KeepHas(ids, keep);
    UniqueHas(Keep(ids, keep));
    TakeHas(Unique(Keep(ids, keep)), limit);
  }

  lemma {:induction false} RecallableOnesHas(sessions: seq<Session>, remembered: seq<Record<Id>>)
    requires Distinct(Ids(remembered))
    ensures var r := RecallableOnes(sessions, remembered);
            && Distinct(Ids(r)) && (forall x <- r :: Recallable(sessions, x))
            && (forall id <- Ids(r) :: id in Ids(remembered))
  {
    hide Distinct, Recallable;
    if remembered != [] {
      var front, last := remembered[..|remembered| - 1], remembered[|remembered| - 1];
      LastApart(Ids(remembered));
      assert Ids(remembered)[..|Ids(remembered)| - 1] == Ids(front);
      RecallableOnesHas(sessions, front);
      var r := RecallableOnes(sessions, remembered);
      if Recallable(sessions, last) {
        assert r[..|r| - 1] == RecallableOnes(sessions, front);
        LastApart(Ids(r));
        assert Ids(r)[..|Ids(r)| - 1] == Ids(r[..|r| - 1]);
      }
    }
  }

  lemma {:induction false} IdsTake<T>(s: seq<Record<T>>, limit: nat)
    ensures Ids(Take(s, limit)) == Take(Ids(s), limit)
  {
    IdsAt(s);
    IdsAt(Take(s, limit));
  }

  lemma RememberedTake(st: State, r: seq<Record<Id>>, limit: nat)
    requires Distinct(Ids(r)) && forall x <- r :: Recallable(st.sessions, x)
    ensures Remembering(st.(remembered := Take(r, limit)))
  {
    IdsTake(r, limit);
    TakeHas(Ids(r), limit);
  }

  lemma TrimmedPartitioned(st: State)
    ensures Partitioned(Trimmed(st).projects, Trimmed(st).sessions)
  {
    var projects := FirstById(st.projects);
    var sessions := InProjects(FirstById(st.sessions), Ids(projects));
    FirstByIdHas(st.projects);
    FirstByIdHas(st.sessions);
    InProjectsHas(FirstById(st.sessions), Ids(projects));
    InProjectsDistinct(FirstById(st.sessions), Ids(projects));
    AdoptAllHas(projects, sessions);
    hide Distinct, ListsItsOwn, ValidOnes;
  }

  lemma TrimmedPinned(st: State)
    ensures Pinned(Trimmed(st))
  {
    var projects := FirstById(st.projects);
    FirstByIdHas(st.sessions);
    var sessions := InProjects(FirstById(st.sessions), Ids(projects));
    InProjectsDistinct(FirstById(st.sessions), Ids(projects));
    AdoptAllHas(projects, sessions);
    var pinned := ValidOnes(st.pinnedSessions, Ids(sessions), MAX_PINNED_SESSIONS);
    var settled := ValidOnes(st.settled, Ids(sessions), MAX_SETTLED_SESSIONS);
    ValidOnesHas(st.pinnedProjects, Ids(projects), MAX_PINNED_PROJECTS);
    ValidOnesHas(st.pinnedSessions, Ids(sessions), MAX_PINNED_SESSIONS);
    ValidOnesHas(st.settled, Ids(sessions), MAX_SETTLED_SESSIONS);
    WithoutHas(settled, set id | id in pinned);
    hide Distinct, ValidOnes, AdoptAll, InProjects, FirstById, Ids, Without;
  }

  lemma TrimmedRemembering(st: State)
    requires Distinct(Ids(st.remembered))
    ensures Remembering(Trimmed(st))
  {
    var sessions := Trimmed(st).sessions;
    RecallableOnesHas(sessions, st.remembered);
    hide AdoptAll, ValidOnes, RecallableOnes, Distinct, Recallable;
    RememberedTake(Trimmed(st), RecallableOnes(sessions, st.remembered), MAX_REMEMBERED);
  }

  lemma FirstOrderedIs(projects: seq<Project>, pinned: seq<Id>, except: set<Id>)
    requires forall id <- pinned :: id in Ids(projects)
    ensures var r := FirstOrdered(projects, pinned, except);
            && (r.Some? ==> r.value in Ids(projects) && r.value !in except)
            && (r.None? ==> forall id <- Ids(projects) :: id in except)
  {
    WithoutHas(pinned, except);
    WithoutHas(Ids(projects), except);
    var pins, rest := Without(pinned, except), Without(Ids(projects), except);
    assert pins != [] ==> pins[0] in pins;
    assert rest != [] ==> rest[0] in rest;
  }

  lemma ReselectedConsistent(st: State)
    requires Partitioned(st.projects, st.sessions) && Pinned(st) && Remembering(st)
    ensures Consistent(Reselected(st))
  {
    var s := FindSession(st.sessions, st.selectedSession);
    hide Partitioned, Distinct, Recallable;
    if s.Some? {
      var chosen := st.(selectedProject := Some(s.value.body.projectId));
      DistinctSessions(st);
      RememberKeeps(chosen, s.value);
      PartitionedHouses(st, s.value);
    } else {
      FirstOrderedIs(st.projects, st.pinnedProjects, {});
      NoIdsNoRecords(st.projects);
    }
  }

  lemma NoIdsNoRecords<T>(s: seq<Record<T>>)
    ensures (forall id <- Ids(s) :: false) ==> s == []
  {
    if s != [] {
      assert Ids(s)[|Ids(s)| - 1] in Ids(s);
    }
  }

  lemma DistinctSessions(st: State)
    requires Partitioned(st.projects, st.sessions)
    ensures Distinct(Ids(st.sessions)) && Distinct(Ids(st.projects))
  {}

  lemma PartitionedHouses(st: State, s: Session)
    requires Partitioned(st.projects, st.sessions) && s in st.sessions
    ensures s.body.projectId in Ids(st.projects)
  {}

  /** Whatever was loaded, the normalized state is consistent. Object keys are distinct by nature. */
  lemma NormalizedIsConsistent(st: State)
    requires Distinct(Ids(st.remembered))
    ensures Consistent(Normalized(st))
  {
    TrimmedPartitioned(st);
    TrimmedPinned(st);
    TrimmedRemembering(st);
    hide Trimmed, Reselected, Partitioned, Pinned, Remembering;
    ReselectedConsistent(Trimmed(st));
  }

  // ---------- Normalization is idempotent ----------

  lemma {:induction false} InProjectsAll(sessions: seq<Session>, projectIds: seq<Id>)
    requires forall s <- sessions :: s.body.projectId in projectIds
    ensures InProjects(sessions, projectIds) == sessions
  {
    if sessions != [] {
      assert sessions[|sessions| - 1] in sessions;
      InProjectsAll(sessions[..|sessions| - 1], projectIds);
      Snoc(sessions);
    }
  }

  lemma {:induction false} WithoutAll(s: seq<Id>, gone: set<Id>)
    requires forall x <- s :: x in gone
    ensures Without(s, gone) == []
  {
    if s != [] {
      assert s[|s| - 1] in s;
      WithoutAll(s[..|s| - 1], gone);
    }
  }

  lemma AdoptedFixed(ids: seq<Id>, own: seq<Id>)
    requires Distinct(ids) && forall id :: id in ids <==> id in own
    ensures Adopted(ids, own) == ids
  {
    KeepAll(ids, set id | id in own);
    UniqueOfDistinct(ids);
    WithoutAll(own, set id | id in ids);
  }

  lemma AdoptOneFixed(p: Project, sessions: seq<Session>)
    requires ListsItsOwn(sessions, p)
    ensures Record(p.id, p.body.(sessionIds := Adopted(p.body.sessionIds, OwnIds(sessions, p.id)))) == p
  {
    OwnHas(sessions, p.id);
    AdoptedFixed(p.body.sessionIds, OwnIds(sessions, p.id));
    hide Adopted, OwnIds, Distinct, Owns;
  }

  lemma {:induction false} AdoptAllFixed(projects: seq<Project>, sessions: seq<Session>)
    requires forall p <- projects :: ListsItsOwn(sessions, p)
    ensures AdoptAll(projects, sessions) == projects
  {
    hide Adopted, OwnIds, ListsItsOwn;
    if projects != [] {
      var p := projects[|projects| - 1];
      assert p in projects;
      AdoptAllFixed(projects[..|projects| - 1], sessions);
      AdoptOneFixed(p, sessions);
      Snoc(projects);
    }
  }

  lemma ValidOnesFixed(ids: seq<Id>, valid: seq<Id>, limit: nat)
    requires ValidIds(ids, valid, limit)
    ensures ValidOnes(ids, valid, limit) == ids
  {
    KeepAll(ids, set id | id in valid);
    UniqueOfDistinct(ids);
  }

  lemma {:induction false} RecallableOnesAll(sessions: seq<Session>, remembered: seq<Record<Id>>)
    requires forall r <- remembered :: Recallable(sessions, r)
    ensures RecallableOnes(sessions, remembered) == remembered
  {
    hide Recallable;
    if remembered != [] {
      assert remembered[|remembered| - 1] in remembered;
      RecallableOnesAll(sessions, remembered[..|remembered| - 1]);
      Snoc(remembered);
    }
  }

  lemma TrimmedFixed(st: State)
    requires Partitioned(st.projects, st.sessions) && Pinned(st) && Remembering(st)
    ensures Trimmed(st) == st.(remembered := Take(st.remembered, MAX_REMEMBERED))
  {
    hide Distinct, ListsItsOwn, Recallable;
    FirstByIdOfDistinct(st.projects);
    FirstByIdOfDistinct(st.sessions);
    InProjectsAll(st.sessions, Ids(st.projects));
    AdoptAllFixed(st.projects, st.sessions);
    ValidOnesFixed(st.pinnedProjects, Ids(st.projects), MAX_PINNED_PROJECTS);
    ValidOnesFixed(st.pinnedSessions, Ids(st.sessions), MAX_PINNED_SESSIONS);
    ValidOnesFixed(st.settled, Ids(st.sessions), MAX_SETTLED_SESSIONS);
    WithoutNone(st.settled, set id | id in st.pinnedSessions);
    RecallableOnesAll(st.sessions, st.remembered);
  }

  lemma {:induction false} AmendSame<T>(s: seq<Record<T>>, id: Id, body: T)
    ensures Amend(Amend(s, id, body), id, body) == Amend(s, id, body) && |Amend(s, id, body)| == |s|
  {
    if s != [] {
      AmendSame(s[..|s| - 1], id, body);
    }
  }

  lemma PutAgain<T>(s: seq<Record<T>>, id: Id, body: T, limit: nat)
    requires |s| <= limit
    ensures Put(Take(Put(s, id, body), limit), id, body) == Put(s, id, body)
  {
    var p := Put(s, id, body);
    if id in Ids(s) {
      AmendSame(s, id, body);
      AmendHas(s, id, body);
    } else {
      AppendedAmend(s, id, body);
      IdsConcat(s, [Record(id, body)]);
    }
  }

  lemma AppendedAmend<T>(s: seq<Record<T>>, id: Id, body: T)
    requires id !in Ids(s)
    ensures Amend(s + [Record(id, body)], id, body) == s + [Record(id, body)]
  {
    assert (s + [Record(id, body)])[..|s|] == s;
    AmendNone(s, id, body);
  }

  lemma {:induction false} AmendNone<T>(s: seq<Record<T>>, id: Id, body: T)
    requires id !in Ids(s)
    ensures Amend(s, id, body) == s
  {
    if s != [] {
      AmendNone(s[..|s| - 1], id, body);
      Snoc(s);
    }
  }

  lemma ReselectedAgain(st: State)
    requires |st.remembered| <= MAX_REMEMBERED && Consistent(Reselected(st))
    ensures var r := Reselected(st); Reselected(r.(remembered := Take(r.remembered, MAX_REMEMBERED))) == r
  {
    var s := FindSession(st.sessions, st.selectedSession);
    hide Partitioned, Pinned, Remembering, FirstOrdered;
    if s.Some? {
      if s.value.body.Durable() {
        PutAgain(st.remembered, s.value.body.projectId, s.value.id, MAX_REMEMBERED);
      }
    } else {
      var r := Reselected(st);
      if r.selectedProject.None? {
        assert r.projects == [];
      }
    }
  }

  lemma NormalizingTwiceIsNormalizingOnce(st: State)
    requires Distinct(Ids(st.remembered))
    ensures Normalized(Normalized(st)) == Normalized(st)
  {
    NormalizedIsConsistent(st);
    TrimmedIsShort(st);
    ReselectedAgain(Trimmed(st));
    TrimmedFixed(Normalized(st));
    hide Trimmed, Reselected, Partitioned, Pinned, Remembering, Selecting;
  }

  lemma TrimmedIsShort(st: State)
    ensures |Trimmed(st).remembered| <= MAX_REMEMBERED
  {
    hide AdoptAll, ValidOnes, RecallableOnes;
  }
}
