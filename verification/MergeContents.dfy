/** What a merge brings in: which projects and sessions, with what in them, in what order, and what it
    does to the selection and to what is remembered. */
module MergeContents {
  import opened Results
  import opened Lists
  import opened Layout
  import opened LayoutSteps
  import opened LayoutRuns
  import opened LayoutUndo
  import opened Merge

  // ---------- Projects ----------

  ghost predicate AtThePath(projects: seq<Project>, id: Id, path: string) {
    exists p :: p in projects && p.id == id && p.body.path == path
  }

  /** Its path is known, or its identifier is free. */
  predicate Welcome(current: seq<Project>, q: Project) { HasPath(current, q.body.path) || q.id !in Ids(current) }

  /** A mapped project is the one at the imported project's path. */
  ghost predicate MappedToPaths(m: ProjectMerge, imported: seq<Project>) {
    forall q <- imported :: q.id in m.idMap ==> AtThePath(m.projects, m.idMap[q.id], q.body.path)
  }

  lemma {:induction false} MapsToThePath(current: seq<Project>, imported: seq<Project>)
    requires Distinct(Ids(imported)) && DistinctPaths(imported)
    ensures var m := MergeProjects(current, imported);
            MappedToPaths(m, imported) && (forall id :: id in m.idMap ==> id in Ids(imported))
            && (forall p <- m.projects :: p in current || p.id in Ids(imported))
  {
    if imported != [] {
      var n := |imported| - 1;
      var front, p := imported[..n], imported[n];
      LastIsApart(imported, p);
      MapsToThePath(current, front);
      var m := MergeProjects(current, front);
      IdsConcat(front, [p]);
      Snoc(imported);
      assert Ids([p]) == [p.id];
      DistinctConcat(Ids(front), [p.id]);
      assert p.id in [p.id];
      forall q | q in imported && q.id in MergeProject(m, p).idMap
        ensures AtThePath(MergeProject(m, p).projects, MergeProject(m, p).idMap[q.id], q.body.path)
      {
        LastIsApart(imported, q);
        OneMappedToPath(m, front, p, q);
      }
      hide Distinct;
    }
  }

  lemma OneMappedToPath(m: ProjectMerge, front: seq<Project>, p: Project, q: Project)
    requires MappedToPaths(m, front) && q.id in MergeProject(m, p).idMap && p.id !in m.idMap
    requires q != p ==> q in front && q.id != p.id
    ensures AtThePath(MergeProject(m, p).projects, MergeProject(m, p).idMap[q.id], q.body.path)
  {
    var r := MergeProject(m, p);
    if q == p {
      var added := Record(p.id, ProjectBody(p.body.path, []));
      if AtPath(m.projects, p.body.path).None? && p.id !in Ids(m.projects) {
        assert added in r.projects;
      }
    } else {
      var t :| t in m.projects && t.id == m.idMap[q.id] && t.body.path == q.body.path;
      assert t in r.projects;
    }
  }

  /** The project is mapped exactly if it is welcome; a new path is its own, under its own identifier. */
  ghost predicate Decided(m: ProjectMerge, current: seq<Project>, q: Project) {
    && (q.id in m.idMap <==> Welcome(current, q))
    && (!HasPath(current, q.body.path) && q.id !in Ids(current) ==>
          q.id in m.idMap && m.idMap[q.id] == q.id && Record(q.id, ProjectBody(q.body.path, [])) in m.projects)
  }

  lemma StaysDecided(m: ProjectMerge, current: seq<Project>, q: Project, p: Project)
    requires Decided(m, current, q) && q.id != p.id
    ensures Decided(MergeProject(m, p), current, q)
  {
    hide Welcome, HasPath, Ids, AtPath;
  }

  /** What becomes of an imported project: it is mapped exactly if it is welcome; a path that was there
      keeps its project, and a new one comes in under its own identifier. */
  lemma {:induction false} EveryProjectIsDecided(current: seq<Project>, imported: seq<Project>, q: Project)
    requires Distinct(Ids(imported)) && DistinctPaths(imported) && q in imported
    ensures Decided(MergeProjects(current, imported), current, q)
  {
    var n := |imported| - 1;
    var front, p := imported[..n], imported[n];
    LastIsApart(imported, q);
    if q != p {
      EveryProjectIsDecided(current, front, q);
      hide Decided;
      StaysDecided(MergeProjects(current, front), current, q, p);
    } else {
      LastIsFree(current, imported);
      AddedPathsAreImported(current, front);
      ProjectsOnlyAppended(current, front);
      LastIsDecided(current, imported, MergeProjects(current, front), p);
    }
  }

  lemma LastIsFree(current: seq<Project>, imported: seq<Project>)
    requires imported != [] && Distinct(Ids(imported)) && DistinctPaths(imported)
    ensures var n := |imported| - 1;
            var front, p := imported[..n], imported[n];
            var m := MergeProjects(current, front);
            && p.id !in m.idMap && p.id !in Ids(front)
            && forall t <- m.projects :: t in current || t.id in Ids(front)
  {
    var n := |imported| - 1;
    var front, p := imported[..n], imported[n];
    LastIsApart(imported, p);
    MapsToThePath(current, front);
    IdsConcat(front, [p]);
    Snoc(imported);
    assert Ids([p]) == [p.id];
    DistinctConcat(Ids(front), [p.id]);
    assert p.id in [p.id];
  }

  /** An added project has the path of an imported one. */
  lemma {:induction false} AddedPathsAreImported(current: seq<Project>, imported: seq<Project>)
    ensures forall t <- MergeProjects(current, imported).projects :: t in current || HasPath(imported, t.body.path)
  {
    if imported != [] {
      var front, p := imported[..|imported| - 1], imported[|imported| - 1];
      AddedPathsAreImported(current, front);
      Snoc(imported);
      forall t | HasPath(front, t) ensures HasPath(imported, t) {
        var u :| u in front && u.body.path == t;
        assert u in imported;
      }
      assert p in imported && HasPath(imported, p.body.path);
    }
  }

  lemma LastIsDecided(current: seq<Project>, imported: seq<Project>, m: ProjectMerge, p: Project)
    requires imported != [] && p == imported[|imported| - 1] && current <= m.projects && DistinctPaths(imported)
    requires p.id !in m.idMap && p.id !in Ids(imported[..|imported| - 1])
    requires forall t <- m.projects :: t in current || t.id in Ids(imported[..|imported| - 1])
    requires forall t <- m.projects :: t in current || HasPath(imported[..|imported| - 1], t.body.path)
    ensures Decided(MergeProject(m, p), current, p)
  {
    var added := Record(p.id, ProjectBody(p.body.path, []));
    assert added in m.projects + [added];
    LastIsSeen(current, imported, m, p);
    hide Ids, HasPath, AtPath, DistinctPaths;
  }

  /** How many of the imported projects stand at a known path, and how many are new and free. */
  function Matching(current: seq<Project>, imported: seq<Project>): nat {
    if imported == [] then 0
    else Matching(current, imported[..|imported| - 1]) + if HasPath(current, imported[|imported| - 1].body.path) then 1 else 0
  }

  function Arriving(current: seq<Project>, imported: seq<Project>): nat {
    if imported == [] then 0
    else
      var p := imported[|imported| - 1];
      Arriving(current, imported[..|imported| - 1])
        + if !HasPath(current, p.body.path) && p.id !in Ids(current) then 1 else 0
  }

  lemma {:induction false} ProjectCounts(current: seq<Project>, imported: seq<Project>)
    requires Distinct(Ids(imported)) && DistinctPaths(imported)
    ensures var m := MergeProjects(current, imported);
            && m.matched == Matching(current, imported) && m.added == Arriving(current, imported)
            && m.skipped == |imported| - Matching(current, imported) - Arriving(current, imported)
  {
    if imported != [] {
      var n := |imported| - 1;
      var front, p := imported[..n], imported[n];
      LastIsApart(imported, p);
      ProjectCounts(current, front);
      LastIsFree(current, imported);
      AddedPathsAreImported(current, front);
      ProjectsOnlyAppended(current, front);
      var m := MergeProjects(current, front);
      LastIsSeen(current, imported, m, p);
      hide Distinct, DistinctPaths, HasPath, Ids, AtPath;
    }
  }

  /** What the merge sees of the last project is what the current projects say of it. */
  lemma LastIsSeen(current: seq<Project>, imported: seq<Project>, m: ProjectMerge, p: Project)
    requires imported != [] && p == imported[|imported| - 1] && current <= m.projects && DistinctPaths(imported)
    requires p.id !in Ids(imported[..|imported| - 1])
    requires forall t <- m.projects :: t in current || t.id in Ids(imported[..|imported| - 1])
    requires forall t <- m.projects :: t in current || HasPath(imported[..|imported| - 1], t.body.path)
    ensures AtPath(m.projects, p.body.path).Some? <==> HasPath(current, p.body.path)
    ensures p.id in Ids(m.projects) <==> p.id in Ids(current)
  {
    var n := |imported| - 1;
    var front := imported[..n];
    IdsHas(current);
    IdsHas(m.projects);
    forall u | u in front ensures u.body.path != p.body.path {
      var i :| 0 <= i < n && front[i] == u;
      assert imported[i].body.path != imported[n].body.path;
    }
    if HasPath(current, p.body.path) {
      var t :| t in current && t.body.path == p.body.path;
      assert t in m.projects;
    }
    if p.id in Ids(current) {
      var t :| t in current && t.id == p.id;
      assert t in m.projects;
    }
  }

  // ---------- Sessions ----------

  /** The imported session, idle, under the project its own one is mapped to. */
  predicate ComesFrom(r: Session, s: Session, ids: map<Id, Id>) {
    && s.body.projectId in ids && r.id == s.id && r.body.projectId == ids[s.body.projectId] && !r.body.active
    && r.body.acp == s.body.acp && r.body.transcribed == s.body.transcribed
    && r.body.updatedAt == s.body.updatedAt && r.body.content == s.body.content
  }

  ghost predicate FromOne(r: Session, imported: seq<Session>, ids: map<Id, Id>) {
    exists s :: s in imported && ComesFrom(r, s, ids)
  }

  lemma FromMore(r: Session, front: seq<Session>, s: Session, ids: map<Id, Id>)
    ensures FromOne(r, front, ids) || ComesFrom(r, s, ids) ==> FromOne(r, front + [s], ids)
  {
    hide ComesFrom;
    assert s in front + [s];
    forall u | u in front ensures u in front + [s] {}
  }

  /** Each added session comes from an imported one, in the order of the import. */
  ghost predicate Taken(sessions: seq<Session>, m: SessionMerge, ids: map<Id, Id>, imported: seq<Session>) {
    && sessions <= m.sessions
    && (forall r <- m.sessions[|sessions|..] :: FromOne(r, imported, ids))
    && Ids(m.sessions[|sessions|..]) == Keep(Ids(imported), AsSet(Ids(m.sessions[|sessions|..])))
  }

  lemma {:induction false} AddedAreImported(
    projects: seq<Project>, sessions: seq<Session>, ids: map<Id, Id>, imported: seq<Session>)
    requires Distinct(Ids(imported))
    ensures Taken(sessions, MergeSessions(projects, sessions, ids, imported), ids, imported)
  {
    if imported == [] {
      assert sessions[|sessions|..] == [];
    } else {
      var front, s := imported[..|imported| - 1], imported[|imported| - 1];
      Snoc(imported);
      IdsConcat(front, [s]);
      assert Ids([s]) == [s.id];
      DistinctConcat(Ids(front), [s.id]);
      assert s.id in [s.id];
      AddedAreImported(projects, sessions, ids, front);
      hide Distinct, Taken;
      OneMoreTakenIn(sessions, MergeSessions(projects, sessions, ids, front), ids, front, s);
    }
  }

  lemma OneMoreTakenIn(sessions: seq<Session>, m: SessionMerge, ids: map<Id, Id>, front: seq<Session>, s: Session)
    requires Taken(sessions, m, ids, front) && s.id !in Ids(front)
    ensures Taken(sessions, MergeSession(m, ids, s), ids, front + [s])
  {
    var r := MergeSession(m, ids, s);
    hide ListSession, Find, WithAcp, Taken;
    if r.sessions == m.sessions {
      NotTakenIn(sessions, m, r, ids, front, s);
    } else {
      assert r.sessions == m.sessions + [Adopt(s, ids[s.body.projectId])];
      hide MergeSession;
      TakenIn(sessions, m, r, ids, front, s);
    }
  }

  lemma NotTakenIn(sessions: seq<Session>, m: SessionMerge, r: SessionMerge, ids: map<Id, Id>, front: seq<Session>, s: Session)
    requires Taken(sessions, m, ids, front) && s.id !in Ids(front) && r.sessions == m.sessions
    ensures Taken(sessions, r, ids, front + [s])
  {
    var added := m.sessions[|sessions|..];
    AddedIdsAreImported(sessions, m, ids, front);
    IdsConcat(front, [s]);
    assert Ids([s]) == [s.id];
    KeepOneMore(Ids(front), s.id, AsSet(Ids(added)));
    hide Keep, Ids, FromOne;
    forall t | t in added ensures FromOne(t, front + [s], ids) {
      FromMore(t, front, s, ids);
    }
  }

  lemma TakenIn(sessions: seq<Session>, m: SessionMerge, r: SessionMerge, ids: map<Id, Id>, front: seq<Session>, s: Session)
    requires Taken(sessions, m, ids, front) && s.id !in Ids(front) && s.body.projectId in ids
    requires r.sessions == m.sessions + [Adopt(s, ids[s.body.projectId])]
    ensures Taken(sessions, r, ids, front + [s])
  {
    var added, new_ := m.sessions[|sessions|..], Adopt(s, ids[s.body.projectId]);
    assert ComesFrom(new_, s, ids) && new_.id == s.id;
    Appended(sessions, m.sessions, new_);
    AddedIdsAreImported(sessions, m, ids, front);
    hide Keep, Ids, FromOne, ComesFrom, Adopt;
    KeptInOrder(front, s, added, new_);
    forall t | t in added + [new_] ensures FromOne(t, front + [s], ids) {
      FromMore(t, front, s, ids);
    }
  }

  lemma Appended(sessions: seq<Session>, all: seq<Session>, new_: Session)
    requires sessions <= all
    ensures sessions <= all + [new_] && (all + [new_])[|sessions|..] == all[|sessions|..] + [new_]
  {}

  lemma KeptInOrder(front: seq<Session>, s: Session, added: seq<Session>, new_: Session)
    requires new_.id == s.id && s.id !in Ids(front) && forall id <- Ids(added) :: id in Ids(front)
    requires Ids(added) == Keep(Ids(front), AsSet(Ids(added)))
    ensures Ids(added + [new_]) == Keep(Ids(front + [s]), AsSet(Ids(added + [new_])))
  {
    IdsConcat(front, [s]);
    IdsConcat(added, [new_]);
    assert Ids([s]) == [s.id] && Ids([new_]) == [s.id];
    var more := AsSet(Ids(added + [new_]));
    KeepOneMore(Ids(front), s.id, more);
    hide Keep, Ids;
    assert s.id in Ids(added) + [s.id];
    KeepSame(Ids(front), AsSet(Ids(added)), more);
  }

  lemma AddedIdsAreImported(sessions: seq<Session>, m: SessionMerge, ids: map<Id, Id>, imported: seq<Session>)
    requires Taken(sessions, m, ids, imported)
    ensures forall id <- Ids(m.sessions[|sessions|..]) :: id in Ids(imported)
  {
    IdsHas(m.sessions[|sessions|..]);
    IdsHas(imported);
  }

  lemma KeepOneMore(ids: seq<Id>, id: Id, keep: set<Id>)
    ensures Keep(ids + [id], keep) == if id in keep then Keep(ids, keep) + [id] else Keep(ids, keep)
  {
    assert (ids + [id])[..|ids|] == ids;
  }

  lemma {:induction false} KeepSame(ids: seq<Id>, a: set<Id>, b: set<Id>)
    requires forall id <- ids :: id in a <==> id in b
    ensures Keep(ids, a) == Keep(ids, b)
  {
    if ids != [] {
      assert ids[|ids| - 1] in ids;
      KeepSame(ids[..|ids| - 1], a, b);
    }
  }

  /** It shares its identifier or its ACP session with nothing current, nor its ACP session with another
      imported one. */
  predicate Collides(current: seq<Session>, imported: seq<Session>, s: Session) {
    || s.id in Ids(current)
    || (s.body.acp.Some? && exists t :: t in current + imported && t != s && t.body.acp == s.body.acp)
  }

  // ---------- Main results ----------

  ghost predicate Brought(imported: Import, m: State, r: Session) {
    exists s, q :: s in imported.sessions && q in imported.projects && BroughtAs(m, r, s, q)
  }

  /** The merged session is the imported one, idle, under the project at the imported project's path. */
  ghost predicate BroughtAs(m: State, r: Session, s: Session, q: Project) {
    && s.body.projectId == q.id && AtThePath(m.projects, r.body.projectId, q.body.path)
    && r.id == s.id && !r.body.active && r.body.acp == s.body.acp && r.body.transcribed == s.body.transcribed
    && r.body.updatedAt == s.body.updatedAt && r.body.content == s.body.content
  }

  lemma SamePathsAfter(before: seq<Project>, after: seq<Project>, id: Id, path: string)
    requires Grown(before, after) && Ids(before) == Ids(after) && AtThePath(before, id, path)
    ensures AtThePath(after, id, path)
  {
    var p :| p in before && p.id == id && p.body.path == path;
    var i :| 0 <= i < |before| && before[i] == p;
    IdsAt(before);
    IdsAt(after);
    assert after[i] in after && after[i].id == Ids(after)[i];
  }

  /** Every session beyond the current ones is an imported session with all it contains, idle, under the
      project that stands at its imported project's path; they come in the order of the import. */
  lemma AddedSessionsAreImported(current: State, imported: Import)
    requires Consistent(current) && WellFormed(imported)
    ensures var m := MergeState(current, imported).state;
            && current.sessions <= m.sessions
            && (forall r <- m.sessions[|current.sessions|..] :: Brought(imported, m, r))
            && Ids(m.sessions[|current.sessions|..])
               == Keep(Ids(imported.sessions), AsSet(Ids(m.sessions[|current.sessions|..])))
  {
    var p := MergeProjects(current.projects, imported.projects);
    var s := MergeSessions(p.projects, current.sessions, p.idMap, imported.sessions);
    var m := MergeState(current, imported).state;
    OrderedIsTheImport(imported);
    SelectionLeavesLists(current, imported);
    MergedProjectsPartitioned(current, imported);
    SessionsOnlyAppended(p.projects, current.sessions, p.idMap, imported.sessions);
    AddedAreImported(p.projects, current.sessions, p.idMap, imported.sessions);
    MapsToThePath(current.projects, imported.projects);
    IdsHas(imported.projects);
    hide MergeProjects, MergeSessions, MergeState, Partitioned, Grown, Consistent, Keep, Ordered, Distinct, DistinctPaths, Ids,
         Flatten, MapsInto;
    forall r | r in m.sessions[|current.sessions|..] ensures Brought(imported, m, r) {
      var u :| u in imported.sessions && ComesFrom(r, u, p.idMap);
      assert Held(imported.projects, u.body.projectId);
      var q :| q in imported.projects && q.id == u.body.projectId;
      SamePathsAfter(p.projects, m.projects, r.body.projectId, q.body.path);
      assert BroughtAs(m, r, u, q);
    }
  }

  /** Every imported session whose project is welcome and that collides with nothing is there. */
  lemma EverySessionArrives(current: State, imported: Import, s: Session, q: Project)
    requires Consistent(current) && WellFormed(imported)
    requires s in imported.sessions && q in imported.projects && s.body.projectId == q.id
    requires Welcome(current.projects, q) && !Collides(current.sessions, imported.sessions, s)
    ensures var m := MergeState(current, imported).state;
            exists i :: |current.sessions| <= i < |m.sessions| && BroughtAs(m, m.sessions[i], s, q)
  {
    var m := MergeState(current, imported).state;
    AddedSessionsAreImported(current, imported);
    ArrivesSettled(current, imported, s, q);
    var added := m.sessions[|current.sessions|..];
    hide MergeState, Consistent, Welcome, WithAcp, Keep;
    if WithAcp(m.sessions, s.body.acp).Some? {
      OnlyByAcp(current, imported, m, s);
    } else {
      IdsConcat(current.sessions, added);
      assert m.sessions == current.sessions + added;
    }
    IdsAt(added);
    var i :| 0 <= i < |added| && Ids(added)[i] == s.id;
    assert m.sessions[|current.sessions| + i] == added[i];
    assert added[i] in added;
    ArrivedAsItself(imported, m, added[i], s, q);
  }

  lemma ArrivesSettled(current: State, imported: Import, s: Session, q: Project)
    requires Consistent(current) && WellFormed(imported)
    requires s in imported.sessions && q in imported.projects && s.body.projectId == q.id && Welcome(current.projects, q)
    ensures var m := MergeState(current, imported).state; s.id in Ids(m.sessions) || WithAcp(m.sessions, s.body.acp).Some?
  {
    var p := MergeProjects(current.projects, imported.projects);
    OrderedIsTheImport(imported);
    SelectionLeavesLists(current, imported);
    EveryProjectIsDecided(current.projects, imported.projects, q);
    EverySessionSettled(p.projects, current.sessions, p.idMap, imported.sessions, s);
    hide MergeProjects, MergeSessions, MergeState, Consistent, WellFormed, Ordered, Welcome, WithAcp;
  }

  lemma ArrivedAsItself(imported: Import, m: State, r: Session, s: Session, q: Project)
    requires WellFormed(imported) && Brought(imported, m, r) && r.id == s.id
    requires s in imported.sessions && q in imported.projects && s.body.projectId == q.id
    ensures BroughtAs(m, r, s, q)
  {
    var u, v :| u in imported.sessions && v in imported.projects && BroughtAs(m, r, u, v);
    FindIs(imported.sessions, u);
    FindIs(imported.sessions, s);
    FindIs(imported.projects, v);
    FindIs(imported.projects, q);
    hide AtThePath, Find, Ids, Distinct, Flatten;
  }

  lemma OnlyByAcp(current: State, imported: Import, m: State, s: Session)
    requires s in imported.sessions && !Collides(current.sessions, imported.sessions, s)
    requires current.sessions <= m.sessions && forall r <- m.sessions[|current.sessions|..] :: Brought(imported, m, r)
    requires WithAcp(m.sessions, s.body.acp).Some?
    ensures s.id in Ids(m.sessions[|current.sessions|..])
  {
    var r, added := WithAcp(m.sessions, s.body.acp).value, m.sessions[|current.sessions|..];
    assert m.sessions == current.sessions + added;
    IdsHas(added);
    IdsHas(current.sessions);
    forall t | t in current.sessions + imported.sessions && t.body.acp == r.body.acp ensures t == s {}
    hide WithAcp, Ids, AtThePath;
    if r in added {
      var u, v :| u in imported.sessions && v in imported.projects && BroughtAs(m, r, u, v);
      assert u in current.sessions + imported.sessions;
    }
  }

  /** Every imported project that is welcome stands in the merged state at its path: under its own
      identifier if the path is new. */
  lemma EveryProjectArrives(current: State, imported: Import, q: Project)
    requires Consistent(current) && WellFormed(imported) && q in imported.projects
    ensures Welcome(current.projects, q) ==> HasPath(MergeState(current, imported).state.projects, q.body.path)
    ensures !HasPath(current.projects, q.body.path) && q.id !in Ids(current.projects) ==>
              AtThePath(MergeState(current, imported).state.projects, q.id, q.body.path)
    ensures !Welcome(current.projects, q) ==> !HasPath(MergeState(current, imported).state.projects, q.body.path)
  {
    var p := MergeProjects(current.projects, imported.projects);
    var m := MergeState(current, imported).state;
    OrderedIsTheImport(imported);
    SelectionLeavesLists(current, imported);
    MergedProjectsPartitioned(current, imported);
    SessionsOnlyAppended(p.projects, current.sessions, p.idMap, imported.sessions);
    EveryProjectIsDecided(current.projects, imported.projects, q);
    MapsToThePath(current.projects, imported.projects);
    hide MergeProjects, MergeSessions, MergeState, Partitioned, Grown, Consistent, Ordered, Distinct, DistinctPaths, Ids, Flatten, MapsInto;
    if q.id in p.idMap {
      SamePathsAfter(p.projects, m.projects, p.idMap[q.id], q.body.path);
      PathIsThere(m.projects, p.idMap[q.id], q.body.path);
      if !HasPath(current.projects, q.body.path) && q.id !in Ids(current.projects) {
        assert AtThePath(p.projects, q.id, q.body.path);
      }
    } else {
      UnmappedHasNoPath(current.projects, imported.projects, q);
      if HasPath(m.projects, q.body.path) {
        PathsStay(p.projects, m.projects, q.body.path);
      }
    }
  }

  lemma PathIsThere(projects: seq<Project>, id: Id, path: string)
    requires AtThePath(projects, id, path)
    ensures HasPath(projects, path)
  {}

  // ---------- Selection and memory ----------

  /** What is selected stays selected; where nothing is, a session of the import that got in is. */
  lemma MergeSelects(current: State, imported: Import)
    requires Consistent(current) && WellFormed(imported)
    ensures var m := MergeState(current, imported).state;
            var ids := MergeSessions(MergeProjects(current.projects, imported.projects).projects, current.sessions,
                                     MergeProjects(current.projects, imported.projects).idMap, imported.sessions).idMap;
            && (current.selectedSession.Some? ==> SelectionOf(m) == SelectionOf(current))
            && (current.selectedSession.None? && imported.selectedSession.Some? && imported.selectedSession.value in ids ==>
                  var s := Find(m.sessions, ids[imported.selectedSession.value]);
                  s.Some? ==> SelectionOf(m) == Selection(Some(s.value.body.projectId), Some(s.value.id)))
            && (current.selectedSession.None? && current.selectedProject.Some?
                && (imported.selectedSession.None? || imported.selectedSession.value !in ids) ==>
                  SelectionOf(m) == SelectionOf(current))
  {
    var p := MergeProjects(current.projects, imported.projects);
    var s := MergeSessions(p.projects, current.sessions, p.idMap, imported.sessions);
    var joined := current.(projects := s.projects, sessions := s.sessions);
    ProjectsOnlyAppended(current.projects, imported.projects);
    MergedProjectsPartitioned(current, imported);
    OrderedIsTheImport(imported);
    SessionsOnlyAppended(p.projects, current.sessions, p.idMap, imported.sessions);
    SelectionLeavesLists(current, imported);
    PrefixIds(current.projects, p.projects);
    hide Partitioned, MergeProjects, MergeSessions, Grown, WellFormed, Pinned, Remembering, SelectionHolds, Ordered;
    JoinedKeeps(current, joined);
    SelectsJoined(current, joined, imported, p.idMap, s.idMap);
  }

  lemma SelectsJoined(current: State, joined: State, imported: Import, projectIds: map<Id, Id>, sessionIds: map<Id, Id>)
    requires joined == current.(projects := joined.projects, sessions := joined.sessions)
    requires SelectionHolds(joined)
    ensures var m := MergeSelection(joined, imported, projectIds, sessionIds);
            && m.sessions == joined.sessions
            && (current.selectedSession.Some? ==> SelectionOf(m) == SelectionOf(current))
            && (current.selectedSession.None? && imported.selectedSession.Some? && imported.selectedSession.value in sessionIds ==>
                  var s := Find(m.sessions, sessionIds[imported.selectedSession.value]);
                  s.Some? ==> SelectionOf(m) == Selection(Some(s.value.body.projectId), Some(s.value.id)))
            && (current.selectedSession.None? && current.selectedProject.Some?
                && (imported.selectedSession.None? || imported.selectedSession.value !in sessionIds) ==>
                  SelectionOf(m) == SelectionOf(current))
  {
    var chosen := FindSession(joined.sessions, joined.selectedSession);
    var kept := if chosen.Some? then RememberIfNew(joined, chosen.value.body.projectId, chosen.value) else joined;
    RememberImportedSameLists(kept, projectIds, sessionIds, imported.remembered);
    hide RememberImported, Find, Put, Lookup;
  }

  lemma {:induction false} RememberedStays(
    st: State, projectIds: map<Id, Id>, sessionIds: map<Id, Id>, remembered: seq<Record<Id>>, key: Id)
    requires Lookup(st.remembered, key).Some?
    ensures Lookup(RememberImported(st, projectIds, sessionIds, remembered).remembered, key) == Lookup(st.remembered, key)
  {
    if remembered != [] {
      var front, r := remembered[..|remembered| - 1], remembered[|remembered| - 1];
      RememberedStays(st, projectIds, sessionIds, front, key);
      var before := RememberImported(st, projectIds, sessionIds, front);
      hide RememberImported, Lookup, Put, Find;
      if r.id in projectIds && r.body in sessionIds {
        var s := Find(st.sessions, sessionIds[r.body]);
        if s.Some? {
          LookupPut(before.remembered, projectIds[r.id], s.value.id, key);
        }
      }
    }
  }

  /** An imported entry fits: its project and session are mapped, and the session there belongs to the
      project and is durable. */
  predicate Fitting(sessions: seq<Session>, projectIds: map<Id, Id>, sessionIds: map<Id, Id>, r: Record<Id>) {
    r.id in projectIds && r.body in sessionIds && Recallable(sessions, Record(projectIds[r.id], sessionIds[r.body]))
  }

  /** For a project with nothing remembered, the first entry that fits is taken. */
  lemma {:induction false} FirstFittingIsRemembered(
    st: State, projectIds: map<Id, Id>, sessionIds: map<Id, Id>, remembered: seq<Record<Id>>, i: nat)
    requires i < |remembered| && Fitting(st.sessions, projectIds, sessionIds, remembered[i])
    requires Lookup(st.remembered, projectIds[remembered[i].id]).None?
    requires forall j :: 0 <= j < i && Fitting(st.sessions, projectIds, sessionIds, remembered[j]) ==>
               projectIds[remembered[j].id] != projectIds[remembered[i].id]
    ensures Lookup(RememberImported(st, projectIds, sessionIds, remembered).remembered, projectIds[remembered[i].id])
            == Some(sessionIds[remembered[i].body])
  {
    var n := |remembered| - 1;
    var key := projectIds[remembered[i].id];
    if i < n {
      FirstFittingIsRemembered(st, projectIds, sessionIds, remembered[..n], i);
      assert remembered == remembered[..n] + [remembered[n]];
      var before := RememberImported(st, projectIds, sessionIds, remembered[..n]);
      hide RememberImported, Lookup, Put, Find, Fitting;
      OneMoreRemembered(before, st, projectIds, sessionIds, remembered[n], key);
    } else {
      NoneFittingIsForgotten(st, projectIds, sessionIds, remembered[..n], key);
      LookupPut(RememberImported(st, projectIds, sessionIds, remembered[..n]).remembered, key, sessionIds[remembered[i].body], key);
    }
  }

  lemma OneMoreRemembered(
    before: State, st: State, projectIds: map<Id, Id>, sessionIds: map<Id, Id>, r: Record<Id>, key: Id)
    requires Lookup(before.remembered, key).Some?
    ensures var s := if r.id in projectIds && r.body in sessionIds then Find(st.sessions, sessionIds[r.body]) else None;
            s.Some? ==> Lookup(RememberIfNew(before, projectIds[r.id], s.value).remembered, key) == Lookup(before.remembered, key)
  {
    var s := if r.id in projectIds && r.body in sessionIds then Find(st.sessions, sessionIds[r.body]) else None;
    if s.Some? {
      LookupPut(before.remembered, projectIds[r.id], s.value.id, key);
    }
    hide Lookup, Put, Find;
  }

  lemma {:induction false} NoneFittingIsForgotten(
    st: State, projectIds: map<Id, Id>, sessionIds: map<Id, Id>, remembered: seq<Record<Id>>, key: Id)
    requires Lookup(st.remembered, key).None?
    requires forall r <- remembered :: Fitting(st.sessions, projectIds, sessionIds, r) ==> projectIds[r.id] != key
    ensures Lookup(RememberImported(st, projectIds, sessionIds, remembered).remembered, key).None?
  {
    if remembered != [] {
      var front, r := remembered[..|remembered| - 1], remembered[|remembered| - 1];
      NoneFittingIsForgotten(st, projectIds, sessionIds, front, key);
      var before := RememberImported(st, projectIds, sessionIds, front);
      assert r in remembered;
      hide RememberImported, Lookup, Put;
      if r.id in projectIds && r.body in sessionIds {
        var s := Find(st.sessions, sessionIds[r.body]);
        if s.Some? {
          LookupPut(before.remembered, projectIds[r.id], s.value.id, key);
        }
      }
    }
  }

  /** What the merge starts from when it looks at the import's memory: the current memory and, where its
      project has none, the durable current session. */
  function KnownBefore(current: State, key: Id): Option<Id> {
    var chosen := FindSession(current.sessions, current.selectedSession);
    if Lookup(current.remembered, key).Some? then Lookup(current.remembered, key)
    else if chosen.Some? && chosen.value.body.projectId == key && chosen.value.body.Durable() then Some(chosen.value.id)
    else None
  }

  lemma KeptIsKnown(current: State, joined: State, key: Id)
    requires joined == current.(projects := joined.projects, sessions := joined.sessions)
    requires FindSession(joined.sessions, joined.selectedSession) == FindSession(current.sessions, current.selectedSession)
    ensures var chosen := FindSession(joined.sessions, joined.selectedSession);
            var kept := if chosen.Some? then RememberIfNew(joined, chosen.value.body.projectId, chosen.value) else joined;
            Lookup(kept.remembered, key) == KnownBefore(current, key)
  {
    var chosen := FindSession(joined.sessions, joined.selectedSession);
    if chosen.Some? {
      LookupPut(joined.remembered, chosen.value.body.projectId, chosen.value.id, key);
    }
    hide Lookup, Put, Find;
  }

  /** Nothing that is remembered is forgotten or replaced, and for a project with nothing remembered the
      first entry of the import that fits is taken. */
  lemma MergeRemembers(current: State, imported: Import)
    requires Consistent(current) && WellFormed(imported)
    ensures var m := MergeState(current, imported).state;
            var p := MergeProjects(current.projects, imported.projects);
            var s := MergeSessions(p.projects, current.sessions, p.idMap, imported.sessions);
            && (forall key :: KnownBefore(current, key).Some? ==> Lookup(m.remembered, key) == KnownBefore(current, key))
            && (forall i: nat :: i < |imported.remembered| && FirstFor(current, imported, m.sessions, p.idMap, s.idMap, i) ==>
                  Lookup(m.remembered, p.idMap[imported.remembered[i].id]) == Some(s.idMap[imported.remembered[i].body]))
  {
    var p := MergeProjects(current.projects, imported.projects);
    var s := MergeSessions(p.projects, current.sessions, p.idMap, imported.sessions);
    var joined := current.(projects := s.projects, sessions := s.sessions);
    MergedProjectsPartitioned(current, imported);
    OrderedIsTheImport(imported);
    SessionsOnlyAppended(p.projects, current.sessions, p.idMap, imported.sessions);
    SelectionLeavesLists(current, imported);
    JoinedFinds(current, joined);
    var chosen := FindSession(joined.sessions, joined.selectedSession);
    var kept := if chosen.Some? then RememberIfNew(joined, chosen.value.body.projectId, chosen.value) else joined;
    var m := MergeState(current, imported).state;
    assert kept.sessions == joined.sessions == m.sessions by { hide Put, Lookup, Find; }
    assert m.remembered == RememberImported(kept, p.idMap, s.idMap, imported.remembered).remembered by {
      hide RememberImported, RememberIfNew, MergeProjects, MergeSessions, Find, Consistent;
    }
    hide MergeState, MergeProjects, MergeSessions, RememberImported, RememberIfNew, Consistent, WellFormed, Partitioned, Grown,
         Lookup, Find, Fitting, Ordered, KnownBefore;
    forall key | KnownBefore(current, key).Some? ensures Lookup(m.remembered, key) == KnownBefore(current, key) {
      KeptIsKnown(current, joined, key);
      RememberedStays(kept, p.idMap, s.idMap, imported.remembered, key);
    }
    forall i: nat | i < |imported.remembered| && FirstFor(current, imported, m.sessions, p.idMap, s.idMap, i)
      ensures Lookup(m.remembered, p.idMap[imported.remembered[i].id]) == Some(s.idMap[imported.remembered[i].body])
    {
      KeptIsKnown(current, joined, p.idMap[imported.remembered[i].id]);
      FirstFittingIsRemembered(kept, p.idMap, s.idMap, imported.remembered, i);
    }
  }

  /** The entry fits, its project has nothing remembered, and no earlier entry for the project fits. */
  ghost predicate FirstFor(
    current: State, imported: Import, sessions: seq<Session>, projectIds: map<Id, Id>, sessionIds: map<Id, Id>, i: nat)
    requires i < |imported.remembered|
  {
    && imported.remembered[i].id in projectIds && imported.remembered[i].body in sessionIds
    && Fitting(sessions, projectIds, sessionIds, imported.remembered[i])
    && KnownBefore(current, projectIds[imported.remembered[i].id]).None?
    && forall j :: 0 <= j < i && imported.remembered[j].id in projectIds
                   && Fitting(sessions, projectIds, sessionIds, imported.remembered[j]) ==>
                     projectIds[imported.remembered[j].id] != projectIds[imported.remembered[i].id]
  }

  lemma JoinedFinds(current: State, joined: State)
    requires Consistent(current) && Partitioned(joined.projects, joined.sessions) && current.sessions <= joined.sessions
    requires joined == current.(projects := joined.projects, sessions := joined.sessions)
    ensures FindSession(joined.sessions, joined.selectedSession) == FindSession(current.sessions, current.selectedSession)
  {
    DistinctSessions(joined);
    if current.selectedSession.Some? {
      FindIs(joined.sessions, Find(current.sessions, current.selectedSession.value).value);
    }
  }
}
