/** What normalization leaves of a loaded state: everything that is right, and in its order. */
module Normalizing {
  import opened Results
  import opened Lists
  import opened Layout

  // ---------- Records ----------

  /** The record is there, and none before it has its identifier. */
  ghost predicate FirstOfId<T>(s: seq<Record<T>>, r: Record<T>) {
    exists i :: 0 <= i < |s| && s[i] == r && r.id !in Ids(s[..i])
  }

  lemma FirstOfMore<T>(front: seq<Record<T>>, last: Record<T>, r: Record<T>)
    ensures FirstOfId(front + [last], r) <==> FirstOfId(front, r) || (r == last && r.id !in Ids(front))
  {
    var s := front + [last];
    if FirstOfId(front, r) {
      var i :| 0 <= i < |front| && front[i] == r && r.id !in Ids(front[..i]);
      assert s[i] == r && s[..i] == front[..i];
    }
    if FirstOfId(s, r) {
      var i :| 0 <= i < |s| && s[i] == r && r.id !in Ids(s[..i]);
      if i < |front| {
        assert front[i] == r && s[..i] == front[..i];
      } else {
        assert s[..i] == front;
      }
    }
    if r == last && r.id !in Ids(front) {
      assert s[|front|] == r && s[..|front|] == front;
    }
  }

  lemma {:induction false} FirstByIdExactly<T>(s: seq<Record<T>>)
    ensures Ids(FirstById(s)) == Unique(Ids(s)) && forall r :: r in FirstById(s) <==> FirstOfId(s, r)
  {
    if s != [] {
      var front, last := s[..|s| - 1], s[|s| - 1];
      FirstByIdExactly(front);
      Snoc(s);
      var ids := Ids(s);
      assert ids[..|ids| - 1] == Ids(front) && ids[|ids| - 1] == last.id;
      forall r ensures FirstOfId(s, r) <==> FirstOfId(front, r) || (r == last && r.id !in Ids(front)) {
        FirstOfMore(front, last, r);
      }
      hide FirstOfId;
      if last.id !in Ids(front) {
        IdsConcat(FirstById(front), [last]);
        assert Ids([last]) == [last.id];
      }
    }
  }

  lemma {:induction false} InProjectsIds(sessions: seq<Session>, projectIds: seq<Id>)
    requires Distinct(Ids(sessions))
    ensures var r := InProjects(sessions, projectIds); Ids(r) == Keep(Ids(sessions), set id | id in Ids(r))
  {
    if sessions != [] {
      var n := |sessions| - 1;
      var front, last := sessions[..n], sessions[n];
      var before, r := InProjects(front, projectIds), InProjects(sessions, projectIds);
      var ids := Ids(sessions);
      LastApart(ids);
      assert ids[..|ids| - 1] == Ids(front) && ids[|ids| - 1] == last.id;
      InProjectsIds(front, projectIds);
      InProjectsHas(front, projectIds);
      hide Distinct;
      if last.body.projectId in projectIds {
        IdsConcat(before, [last]);
        assert Ids([last]) == [last.id] && last.id in Ids(before) + [last.id];
        SameKept(Ids(front), set id | id in Ids(before), set id | id in Ids(r));
      }
    }
  }

  lemma {:induction false} SameKept(ids: seq<Id>, a: set<Id>, b: set<Id>)
    requires forall id <- ids :: id in a <==> id in b
    ensures Keep(ids, a) == Keep(ids, b)
  {
    if ids != [] {
      assert ids[|ids| - 1] in ids;
      SameKept(ids[..|ids| - 1], a, b);
    }
  }

  /** A session stays exactly if it is the first with its identifier and its project is there; the
      sessions stay in order. */
  lemma NormalizedSessions(st: State)
    ensures var r := Normalized(st);
            && InOrderOf(Ids(r.sessions), Ids(st.sessions))
            && forall s :: s in r.sessions <==> FirstOfId(st.sessions, s) && s.body.projectId in Ids(st.projects)
  {
    var first, projectIds := FirstById(st.sessions), Ids(FirstById(st.projects));
    var kept := InProjects(first, projectIds);
    FirstByIdExactly(st.sessions);
    FirstByIdHas(st.sessions);
    FirstByIdExactly(st.projects);
    UniqueHas(Ids(st.projects));
    InProjectsHas(first, projectIds);
    InProjectsIds(first, projectIds);
    InProjectsDistinct(first, projectIds);
    KeepInOrder(Ids(first), set id | id in Ids(kept));
    UniqueSelects(Ids(st.sessions));
    DistinctInOrder(Ids(kept));
    OrderCarries(Ids(kept), Ids(kept), Ids(first));
    OrderCarries(Ids(kept), Ids(first), Ids(st.sessions));
    SelectionLeaves(st);
    assert Trimmed(st).sessions == kept;
    hide Normalized, Trimmed, FirstById, InProjects, Distinct, Keep, Unique, FirstOfId, InOrderOf, Selects;
  }

  lemma UniqueSelects(ids: seq<Id>)
    ensures Selects(Unique(ids), ids)
  {
    UniqueHas(ids);
    forall x, y | Before(Unique(ids), x, y) ensures Before(ids, x, y) {
      UniqueBefore(ids, x, y);
    }
  }

  /** Choosing the selection changes no list but the remembered sessions. */
  lemma SelectionLeaves(st: State)
    ensures var t, r := Trimmed(st), Normalized(st);
            && r.sessions == t.sessions && r.projects == t.projects && r.settled == t.settled
            && r.pinnedProjects == t.pinnedProjects && r.pinnedSessions == t.pinnedSessions
  {
    hide Trimmed;
  }

  /** What a project was is still there; its list has its own sessions in the order it had, and then
      those it did not list, in the order of the sessions. */
  ghost predicate ProjectKept(q: Project, p: Project, sessions: seq<Session>) {
    q.id == p.id && q.body.path == p.body.path && InOrderOf(q.body.sessionIds, p.body.sessionIds + OwnIds(sessions, p.id))
  }

  ghost predicate ProjectsKept(r: seq<Project>, projects: seq<Project>, sessions: seq<Session>) {
    |r| == |projects| && forall i :: 0 <= i < |r| ==> ProjectKept(r[i], projects[i], sessions)
  }

  lemma AdoptedInOrder(ids: seq<Id>, own: seq<Id>)
    requires Distinct(own)
    ensures InOrderOf(Adopted(ids, own), ids + own)
  {
    var keep := set id | id in own;
    var kept := Unique(Keep(ids, keep));
    var rest := Without(own, set id | id in kept);
    KeepHas(ids, keep);
    UniqueInOrder(Keep(ids, keep));
    KeepInOrder(ids, keep);
    OrderCarries(kept, Keep(ids, keep), ids);
    UniqueHas(Keep(ids, keep));
    WithoutHas(own, set id | id in kept);
    WithoutInOrder(own, set id | id in kept);
    forall id | id in rest ensures id !in ids {}
    hide Unique, Keep, Without, Distinct;
    OrderConcat(kept, rest, ids, own);
  }

  lemma {:induction false} WithoutIsKeep(ids: seq<Id>, gone: set<Id>)
    ensures Without(ids, gone) == Keep(ids, set id | id in ids && id !in gone)
  {
    if ids != [] {
      var front := ids[..|ids| - 1];
      WithoutIsKeep(front, gone);
      assert ids[|ids| - 1] in ids;
      SameKept(front, set id | id in front && id !in gone, set id | id in ids && id !in gone);
    }
  }

  lemma WithoutInOrder(ids: seq<Id>, gone: set<Id>)
    requires Distinct(ids)
    ensures InOrderOf(Without(ids, gone), ids)
  {
    WithoutIsKeep(ids, gone);
    WithoutHas(ids, gone);
    KeepInOrder(ids, set id | id in ids && id !in gone);
    DistinctInOrder(Without(ids, gone));
    hide Distinct;
    OrderCarries(Without(ids, gone), Without(ids, gone), ids);
  }

  /** A list in the order of `a`, then one of things not in `a` in the order of `b`. */
  lemma OrderConcat(x: seq<Id>, y: seq<Id>, a: seq<Id>, b: seq<Id>)
    requires InOrderOf(x, a) && InOrderOf(y, b) && forall id <- y :: id !in a
    ensures InOrderOf(x + y, a + b)
  {
    var all := a + b;
    forall i, j | 0 <= i < j < |x + y| ensures Before(all, (x + y)[i], (x + y)[j]) {
      if j < |x| {
        var k :| 0 <= k < |a| && a[k] == x[i] && x[j] !in a[..k + 1];
        assert all[k] == a[k] && all[..k + 1] == a[..k + 1];
      } else {
        var last := y[j - |x|];
        assert last in y;
        if i < |x| {
          assert x[i] in x;
          var k :| 0 <= k < |a| && a[k] == x[i];
          assert all[k] == a[k] && all[..k + 1] == a[..k + 1];
        } else {
          assert Before(b, y[i - |x|], last);
          var k :| 0 <= k < |b| && b[k] == y[i - |x|] && last !in b[..k + 1];
          assert all[|a| + k] == b[k] && all[..|a| + k + 1] == a + b[..k + 1];
        }
      }
    }
  }

  lemma {:induction false} AdoptAllKeeps(projects: seq<Project>, sessions: seq<Session>)
    requires Distinct(Ids(sessions))
    ensures ProjectsKept(AdoptAll(projects, sessions), projects, sessions)
  {
    hide Distinct, Adopted, InOrderOf;
    if projects != [] {
      var p := projects[|projects| - 1];
      AdoptAllKeeps(projects[..|projects| - 1], sessions);
      OwnDistinct(sessions, p.id);
      AdoptedInOrder(p.body.sessionIds, OwnIds(sessions, p.id));
    }
  }

  /** The projects that stay are the first of their identifiers, in order, each with its own list. */
  lemma NormalizedProjects(st: State)
    ensures var r := Normalized(st);
            exists first :: && (forall p :: p in first <==> FirstOfId(st.projects, p))
                            && InOrderOf(Ids(first), Ids(st.projects)) && ProjectsKept(r.projects, first, r.sessions)
  {
    var first := FirstById(st.projects);
    FirstByIdExactly(st.projects);
    UniqueInOrder(Ids(st.projects));
    FirstByIdHas(st.sessions);
    InProjectsDistinct(FirstById(st.sessions), Ids(first));
    AdoptAllKeeps(first, InProjects(FirstById(st.sessions), Ids(first)));
    SelectionLeaves(st);
    assert Trimmed(st).projects == AdoptAll(first, Trimmed(st).sessions);
    hide Normalized, FirstById, InProjects, Distinct, Unique, FirstOfId, InOrderOf, AdoptAll;
  }

  // ---------- Pins and settled sessions ----------

  /** The valid ones of a list, in order, up to a limit. */
  ghost predicate ChosenFrom(r: seq<Id>, ids: seq<Id>, valid: seq<Id>, limit: nat) {
    && InOrderOf(r, ids) && |r| <= limit && (forall id <- r :: id in valid)
    && forall id :: id in ids && id in valid && id !in r ==> |r| == limit && forall y <- r :: Before(ids, y, id)
  }

  /** With every valid one listed in order, the first ones up to the limit are chosen. */
  lemma FirstAreChosen(all: seq<Id>, ids: seq<Id>, valid: seq<Id>, limit: nat)
    requires InOrderOf(all, ids) && forall id :: id in all <==> id in ids && id in valid
    ensures ChosenFrom(Take(all, limit), ids, valid, limit)
  {
    var r := Take(all, limit);
    assert forall i :: 0 <= i < |r| ==> r[i] == all[i];
    forall id | id in ids && id in valid && id !in r ensures |r| == limit && forall y <- r :: Before(ids, y, id) {
      assert id in all;
      var j :| 0 <= j < |all| && all[j] == id;
      assert j >= |r|;
      forall y | y in r ensures Before(ids, y, id) {
        var i :| 0 <= i < |r| && r[i] == y;
        assert Before(ids, all[i], all[j]);
      }
    }
  }

  lemma ValidOnesAreChosen(ids: seq<Id>, valid: seq<Id>, limit: nat)
    ensures ChosenFrom(ValidOnes(ids, valid, limit), ids, valid, limit)
  {
    var keep := set id | id in valid;
    KeepHas(ids, keep);
    UniqueHas(Keep(ids, keep));
    UniqueInOrder(Keep(ids, keep));
    KeepInOrder(ids, keep);
    hide Unique, Keep, Distinct;
    OrderCarries(Unique(Keep(ids, keep)), Keep(ids, keep), ids);
    FirstAreChosen(Unique(Keep(ids, keep)), ids, valid, limit);
  }

  function Unpinned(ids: seq<Id>, pinned: seq<Id>): seq<Id> { Without(ids, set id | id in pinned) }

  /** Pinned projects, pinned sessions and settled sessions are the valid ones of those loaded, the
      first ones up to their limits; what is pinned is not settled. */
  lemma NormalizedMarks(st: State)
    ensures var r := Normalized(st);
            && ChosenFrom(r.pinnedProjects, st.pinnedProjects, Ids(r.projects), MAX_PINNED_PROJECTS)
            && ChosenFrom(r.pinnedSessions, st.pinnedSessions, Ids(r.sessions), MAX_PINNED_SESSIONS)
            && exists all :: ChosenFrom(all, st.settled, Ids(r.sessions), MAX_SETTLED_SESSIONS)
                             && r.settled == Unpinned(all, r.pinnedSessions)
  {
    var t := Trimmed(st);
    FirstByIdHas(st.sessions);
    InProjectsDistinct(FirstById(st.sessions), Ids(FirstById(st.projects)));
    AdoptAllHas(FirstById(st.projects), t.sessions);
    SelectionLeaves(st);
    ValidOnesAreChosen(st.pinnedProjects, Ids(t.projects), MAX_PINNED_PROJECTS);
    ValidOnesAreChosen(st.pinnedSessions, Ids(t.sessions), MAX_PINNED_SESSIONS);
    ValidOnesAreChosen(st.settled, Ids(t.sessions), MAX_SETTLED_SESSIONS);
    var all := ValidOnes(st.settled, Ids(t.sessions), MAX_SETTLED_SESSIONS);
    assert Ids(t.projects) == Ids(FirstById(st.projects));
    assert t.settled == Unpinned(all, t.pinnedSessions);
    hide Normalized, ChosenFrom, ValidOnes, AdoptAll, InProjects, FirstById, Distinct, Trimmed;
  }

  // ---------- The selection ----------

  /** What is selected in `r` if the session, or else the project, selected in `st` is still there. */
  ghost predicate SelectionKept(st: State, r: State) {
    if st.selectedSession.Some? && st.selectedSession.value in Ids(r.sessions) then
      && r.selectedSession == st.selectedSession
      && exists s :: s in r.sessions && Some(s.id) == r.selectedSession && r.selectedProject == Some(s.body.projectId)
                     && (s.body.Durable() ==> Lookup(r.remembered, s.body.projectId) == r.selectedSession)
    else
      && r.selectedSession.None?
      && (st.selectedProject.Some? && st.selectedProject.value in Ids(r.projects) ==>
            r.selectedProject == st.selectedProject)
      && (st.selectedProject.None? || st.selectedProject.value !in Ids(r.projects) ==>
            r.selectedProject == if r.pinnedProjects != [] then Some(r.pinnedProjects[0])
                                 else if r.projects != [] then Some(r.projects[0].id) else None)
  }

  /** A selected session that stays keeps the selection, and its project with it, which remembers it;
      otherwise a selected project that stays does; otherwise the first of the pinned projects, or else
      the first project. */
  lemma NormalizedSelection(st: State)
    ensures SelectionKept(st, Normalized(st))
  {
    var t := Trimmed(st);
    assert t.selectedSession == st.selectedSession && t.selectedProject == st.selectedProject;
    hide Trimmed;
    var s := FindSession(t.sessions, t.selectedSession);
    if t.selectedSession.Some? {
      FindNone(t.sessions, t.selectedSession.value);
    }
    if s.Some? {
      LookupPut(t.remembered, s.value.body.projectId, s.value.id, s.value.body.projectId);
      hide Put, Lookup, FirstOrdered, Find;
    } else {
      WithoutNone(t.pinnedProjects, {});
      WithoutNone(Ids(t.projects), {});
      IdsAt(t.projects);
      hide Without;
    }
  }

  lemma {:induction false} RecallableExactly(sessions: seq<Session>, remembered: seq<Record<Id>>)
    ensures forall m :: m in RecallableOnes(sessions, remembered) <==> m in remembered && Recallable(sessions, m)
  {
    hide Recallable;
    if remembered != [] {
      RecallableExactly(sessions, remembered[..|remembered| - 1]);
    }
  }

  /** What is remembered and still holds stays remembered, unless the selected session takes its place. */
  lemma NormalizedRemembers(st: State, m: Record<Id>)
    requires Distinct(Ids(st.remembered)) && |st.remembered| <= MAX_REMEMBERED
    requires m in st.remembered && Recallable(Normalized(st).sessions, m)
    ensures var r := Normalized(st);
            || Lookup(r.remembered, m.id) == Some(m.body)
            || (r.selectedProject == Some(m.id) && r.selectedSession.Some?
                && Lookup(r.remembered, m.id) == r.selectedSession)
  {
    var t := Trimmed(st);
    SelectionLeaves(st);
    RecallableExactly(t.sessions, st.remembered);
    RecallableOnesHas(t.sessions, st.remembered);
    ShortRecallable(t.sessions, st.remembered);
    assert t.remembered == RecallableOnes(t.sessions, st.remembered);
    assert Normalized(st) == Reselected(t);
    assert t.selectedSession == st.selectedSession;
    hide Trimmed, Normalized, Distinct, Recallable, RecallableOnes;
    FindIs(t.remembered, m);
    var s := FindSession(t.sessions, t.selectedSession);
    if s.Some? {
      LookupPut(t.remembered, s.value.body.projectId, s.value.id, m.id);
      hide Put, Find;
    }
  }

  lemma {:induction false} ShortRecallable(sessions: seq<Session>, remembered: seq<Record<Id>>)
    ensures |RecallableOnes(sessions, remembered)| <= |remembered|
  {
    hide Recallable;
    if remembered != [] {
      ShortRecallable(sessions, remembered[..|remembered| - 1]);
    }
  }
}
