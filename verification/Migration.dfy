/** The session half of SwiftStateMigrationService: which records become sessions, and the order
    in which they are listed. */
module Migration {
  import opened Results
  import opened Lists
  import opened Layout
  import opened LayoutSteps
  import opened LayoutRuns
  import opened LayoutUndo
  import opened Merge

  const MAX_SESSIONS := 10_000

  /** A raw session record after its fields have been parsed; None is a field that does not parse. */
  datatype RawRecord = RawRecord(
    id: Option<Id>, workspace: Option<Id>, lastAccessed: Option<int>, acp: Option<Id>, transcribed: bool, content: string)

  function Usable(projectIds: seq<Id>, sessions: seq<Session>, r: RawRecord): bool {
    && r.id.Some? && r.workspace.Some? && r.workspace.value in projectIds && r.lastAccessed.Some?
    && r.id.value !in Ids(sessions)
  }

  /** The sessions made from the records, in record order. */
  function Accepted(projectIds: seq<Id>, records: seq<RawRecord>): seq<Session> {
    if records == [] then []
    else
      var before, r := Accepted(projectIds, records[..|records| - 1]), records[|records| - 1];
      if !Usable(projectIds, before, r) then before
      else before + [Record(r.id.value, SessionBody(r.workspace.value, r.acp, r.transcribed, false, r.lastAccessed.value, r.content))]
  }

  /** A project's list: the requested order first, then the record order, its own sessions once each. */
  function ListFor(sessions: seq<Session>, projectId: Id, requested: seq<Id>): seq<Id> {
    Unique(Keep(requested + Ids(sessions), AsSet(OwnIds(sessions, projectId))))
  }

  function RequestedFor(order: map<Id, seq<Id>>, projectId: Id): seq<Id> {
    if projectId in order then order[projectId] else []
  }

  function Placed(projects: seq<Project>, sessions: seq<Session>, order: map<Id, seq<Id>>): seq<Project> {
    if projects == [] then []
    else
      var p := projects[|projects| - 1];
      Placed(projects[..|projects| - 1], sessions, order)
        + [Record(p.id, p.body.(sessionIds := ListFor(sessions, p.id, RequestedFor(order, p.id))))]
  }

  lemma {:induction false} AcceptedDistinct(projectIds: seq<Id>, records: seq<RawRecord>)
    ensures var sessions := Accepted(projectIds, records);
            Distinct(Ids(sessions)) && (forall s <- sessions :: s.body.projectId in projectIds) && |sessions| <= |records|
  {
    hide Distinct;
    if records == [] {
      DistinctEmpty();
    } else {
      AcceptedDistinct(projectIds, records[..|records| - 1]);
      var before, sessions := Accepted(projectIds, records[..|records| - 1]), Accepted(projectIds, records);
      if sessions != before {
        var s := sessions[|sessions| - 1];
        IdsConcat(before, [s]);
        assert Ids([s]) == [s.id];
        OneDistinctMore(Ids(before), s.id);
      }
    }
  }

  lemma ListForHas(sessions: seq<Session>, projectId: Id, requested: seq<Id>)
    ensures var list := ListFor(sessions, projectId, requested);
            Distinct(list) && forall id :: id in list <==> Owns(sessions, projectId, id)
  {
    var all, own := requested + Ids(sessions), OwnIds(sessions, projectId);
    KeepHas(all, AsSet(own));
    UniqueHas(Keep(all, AsSet(own)));
    OwnHas(sessions, projectId);
    IdsHas(sessions);
    hide Distinct;
    forall id | Owns(sessions, projectId, id) ensures id in all {
      var s :| s in sessions && s.id == id && s.body.projectId == projectId;
      assert s.id in Ids(sessions);
    }
  }

  lemma {:induction false} PlacedHas(projects: seq<Project>, sessions: seq<Session>, order: map<Id, seq<Id>>)
    ensures Ids(Placed(projects, sessions, order)) == Ids(projects)
    ensures forall p <- Placed(projects, sessions, order) :: ListsItsOwn(sessions, p)
  {
    hide Distinct, ListFor, Owns;
    if projects != [] {
      var p := projects[|projects| - 1];
      PlacedHas(projects[..|projects| - 1], sessions, order);
      ListForHas(sessions, p.id, RequestedFor(order, p.id));
    }
  }

  lemma {:induction false} PlacedAt(projects: seq<Project>, sessions: seq<Session>, order: map<Id, seq<Id>>, i: nat)
    requires i < |projects|
    ensures |Placed(projects, sessions, order)| == |projects|
    ensures Placed(projects, sessions, order)[i].body.path == projects[i].body.path
  {
    hide ListFor;
    var n := |projects| - 1;
    PlacedSize(projects[..n], sessions, order);
    if i < n {
      PlacedAt(projects[..n], sessions, order, i);
    }
  }

  lemma {:induction false} PlacedSize(projects: seq<Project>, sessions: seq<Session>, order: map<Id, seq<Id>>)
    ensures |Placed(projects, sessions, order)| == |projects|
  {
    hide ListFor;
    if projects != [] {
      PlacedSize(projects[..|projects| - 1], sessions, order);
    }
  }

  lemma PlacedPaths(projects: seq<Project>, sessions: seq<Session>, order: map<Id, seq<Id>>)
    requires DistinctPaths(projects)
    ensures DistinctPaths(Placed(projects, sessions, order))
  {
    hide Placed;
    PlacedSize(projects, sessions, order);
    forall i | 0 <= i < |projects| ensures Placed(projects, sessions, order)[i].body.path == projects[i].body.path {
      PlacedAt(projects, sessions, order, i);
    }
  }

  /** An identifier in the flattened lists belongs to one of the projects. */
  lemma {:induction false} FlattenHas(projects: seq<Project>, sessions: seq<Session>, id: Id)
    requires forall p <- projects :: ListsItsOwn(sessions, p)
    ensures id in Flatten(projects) <==> OwnedByOne(projects, sessions, id)
  {
    hide Distinct, Owns;
    if projects != [] {
      var front, p := projects[..|projects| - 1], projects[|projects| - 1];
      assert p in projects && ListsItsOwn(sessions, p);
      FlattenHas(front, sessions, id);
      if OwnedByOne(front, sessions, id) {
        var q :| q in front && Owns(sessions, q.id, id);
        assert q in projects;
      }
      if OwnedByOne(projects, sessions, id) && !Owns(sessions, p.id, id) {
        var q :| q in projects && Owns(sessions, q.id, id);
        assert q in front;
      }
    }
  }

  ghost predicate OwnedByOne(projects: seq<Project>, sessions: seq<Session>, id: Id) {
    exists p :: p in projects && Owns(sessions, p.id, id)
  }

  lemma OneOwner(sessions: seq<Session>, a: Id, b: Id, id: Id)
    requires Distinct(Ids(sessions)) && Owns(sessions, a, id) && Owns(sessions, b, id)
    ensures a == b
  {
    var s :| s in sessions && s.id == id && s.body.projectId == a;
    OnlyOwner(sessions, s, b);
  }

  lemma {:induction false} FlattenDistinct(projects: seq<Project>, sessions: seq<Session>)
    requires Distinct(Ids(projects)) && Distinct(Ids(sessions)) && forall p <- projects :: ListsItsOwn(sessions, p)
    ensures Distinct(Flatten(projects))
  {
    hide Distinct, Owns;
    if projects == [] {
      DistinctEmpty();
    } else {
      var front, p := projects[..|projects| - 1], projects[|projects| - 1];
      assert p in projects && ListsItsOwn(sessions, p);
      LastApart(Ids(projects));
      assert Ids(projects)[..|Ids(projects)| - 1] == Ids(front);
      FlattenDistinct(front, sessions);
      forall id | id in Flatten(front) ensures id !in p.body.sessionIds {
        FlattenHas(front, sessions, id);
        NotOwnedTwice(front, sessions, p.id, id);
      }
      DistinctConcat(Flatten(front), p.body.sessionIds);
    }
  }

  lemma NotOwnedTwice(projects: seq<Project>, sessions: seq<Session>, projectId: Id, id: Id)
    requires Distinct(Ids(sessions)) && projectId !in Ids(projects) && OwnedByOne(projects, sessions, id)
    ensures !Owns(sessions, projectId, id)
  {
    IdsHas(projects);
    var q :| q in projects && Owns(sessions, q.id, id);
    assert q.id in Ids(projects);
    if Owns(sessions, projectId, id) {
      OneOwner(sessions, q.id, projectId, id);
      assert false;
    }
  }

  lemma {:induction false} ListedIds(sessions: seq<Session>, ids: seq<Id>)
    requires forall id <- ids :: id in Ids(sessions)
    ensures Ids(Listed(sessions, ids)) == ids
  {
    if ids != [] {
      var front, last := ids[..|ids| - 1], ids[|ids| - 1];
      assert last in ids;
      FindNone(sessions, last);
      ListedIds(sessions, front);
      Snoc(ids);
    }
  }

  lemma {:induction false} NoLonger(a: seq<Id>, b: seq<Id>)
    requires Distinct(a) && Distinct(b) && forall x <- a :: x in b
    ensures |a| <= |b|
    decreases |a|
  {
    if a != [] {
      var x := a[|a| - 1];
      assert x in a;
      WithoutOne(a, x);
      WithoutOne(b, x);
      WithoutHas(a, {x});
      WithoutHas(b, {x});
      hide Distinct;
      NoLonger(Without(a, {x}), Without(b, {x}));
    }
  }

  /** The sessions in list order are still the same sessions, each under its project. */
  lemma ListedOwns(sessions: seq<Session>, ids: seq<Id>, projectId: Id, id: Id)
    requires Distinct(Ids(sessions)) && forall x :: x in ids <==> x in Ids(sessions)
    ensures Owns(Listed(sessions, ids), projectId, id) <==> Owns(sessions, projectId, id)
  {
    ListedIds(sessions, ids);
    if Owns(sessions, projectId, id) {
      var s :| s in sessions && s.id == id && s.body.projectId == projectId;
      IdsHas(sessions);
      ListedIn(sessions, ids, s);
    }
  }

  lemma {:induction false} ListedIn(sessions: seq<Session>, ids: seq<Id>, s: Session)
    requires Distinct(Ids(sessions)) && s in sessions && s.id in ids
    ensures s in Listed(sessions, ids)
  {
    hide Distinct;
    FindIs(sessions, s);
    if s.id != ids[|ids| - 1] {
      ListedIn(sessions, ids[..|ids| - 1], s);
    }
  }

  datatype Migrated = Migrated(projects: seq<Project>, sessions: seq<Session>, imported: nat, skipped: nat)

  function Migrate(projects: seq<Project>, records: seq<RawRecord>, order: map<Id, seq<Id>>): Migrated {
    var bounded := Take(records, MAX_SESSIONS);
    var sessions := Accepted(Ids(projects), bounded);
    var placed := Placed(projects, sessions, order);
    Migrated(placed, Listed(sessions, Flatten(placed)), |sessions|, if |sessions| <= |records| then |records| - |sessions| else 0)
  }

  /** The migrated projects and sessions are what the merge relies on: unique, partitioned, listed
      project by project; every record is imported or skipped and none is imported twice. */
  lemma MigrationIsWellFormed(projects: seq<Project>, records: seq<RawRecord>, order: map<Id, seq<Id>>, imported: Import)
    requires Distinct(Ids(projects)) && DistinctPaths(projects)
    requires var m := Migrate(projects, records, order); imported.projects == m.projects && imported.sessions == m.sessions
    ensures WellFormed(imported) && Partitioned(imported.projects, imported.sessions)
    ensures var m := Migrate(projects, records, order);
            |m.sessions| == m.imported && m.imported + m.skipped == |records| && m.imported <= MAX_SESSIONS
  {
    var sessions := Accepted(Ids(projects), Take(records, MAX_SESSIONS));
    AcceptedDistinct(Ids(projects), Take(records, MAX_SESSIONS));
    PlacedHas(projects, sessions, order);
    PlacedPaths(projects, sessions, order);
    hide Distinct, Accepted, Placed, Flatten, Ids, Listed, DistinctPaths, ListsItsOwn, Partitioned;
    ListedPartition(Placed(projects, sessions, order), sessions);
  }

  /** Listing the sessions project by project loses none and keeps them partitioned. */
  lemma ListedPartition(placed: seq<Project>, sessions: seq<Session>)
    requires Distinct(Ids(placed)) && Distinct(Ids(sessions)) && forall p <- placed :: ListsItsOwn(sessions, p)
    requires forall s <- sessions :: s.body.projectId in Ids(placed)
    ensures var all := Listed(sessions, Flatten(placed));
            Ids(all) == Flatten(placed) && Distinct(Ids(all)) && |all| == |sessions| && Partitioned(placed, all)
  {
    FlattenDistinct(placed, sessions);
    EverySessionListed(placed, sessions);
    var ids := Flatten(placed);
    ListedIds(sessions, ids);
    NoLonger(ids, Ids(sessions));
    NoLonger(Ids(sessions), ids);
    IdsAt(sessions);
    IdsAt(Listed(sessions, ids));
    hide Distinct, Flatten, Ids, Owns, Listed, ListsItsOwn;
    forall p | p in placed ensures ListsItsOwn(Listed(sessions, ids), p) {
      StillListsItsOwn(sessions, ids, p);
    }
  }

  lemma StillListsItsOwn(sessions: seq<Session>, ids: seq<Id>, p: Project)
    requires Distinct(Ids(sessions)) && ListsItsOwn(sessions, p) && forall x :: x in ids <==> x in Ids(sessions)
    ensures ListsItsOwn(Listed(sessions, ids), p)
  {
    hide Distinct, Owns, Listed, Ids;
    forall id ensures Owns(Listed(sessions, ids), p.id, id) <==> Owns(sessions, p.id, id) {
      ListedOwns(sessions, ids, p.id, id);
    }
  }

  lemma EverySessionListed(projects: seq<Project>, sessions: seq<Session>)
    requires forall p <- projects :: ListsItsOwn(sessions, p)
    requires forall s <- sessions :: s.body.projectId in Ids(projects)
    ensures forall id :: id in Flatten(projects) <==> id in Ids(sessions)
  {
    IdsHas(sessions);
    IdsHas(projects);
    forall id ensures id in Flatten(projects) <==> id in Ids(sessions) {
      FlattenHas(projects, sessions, id);
      if id in Ids(sessions) {
        assert Held(sessions, id);
        var s :| s in sessions && s.id == id;
        assert Held(projects, s.body.projectId);
        var p :| p in projects && p.id == s.body.projectId;
        assert Owns(sessions, p.id, id);
      }
    }
  }

  // ---------- Which records come over, and in which order ----------

  /** The identifier, the workspace and the time parse, and the workspace is a known project. */
  predicate Reads(projectIds: seq<Id>, r: RawRecord) {
    r.id.Some? && r.workspace.Some? && r.workspace.value in projectIds && r.lastAccessed.Some?
  }

  /** Record `i` is usable, and no usable record before it has its identifier. */
  ghost predicate ComesOver(projectIds: seq<Id>, records: seq<RawRecord>, i: nat) {
    && i < |records| && Reads(projectIds, records[i])
    && forall j :: 0 <= j < i && Reads(projectIds, records[j]) ==> records[j].id != records[i].id
  }

  ghost predicate MadeFrom(s: Session, r: RawRecord) {
    && r.id == Some(s.id) && r.workspace == Some(s.body.projectId) && r.lastAccessed == Some(s.body.updatedAt)
    && s.body.acp == r.acp && s.body.transcribed == r.transcribed && s.body.content == r.content && !s.body.active
  }

  /** The session was made from a record that comes over. */
  ghost predicate HasOrigin(projectIds: seq<Id>, records: seq<RawRecord>, s: Session) {
    exists i: nat :: ComesOver(projectIds, records, i) && MadeFrom(s, records[i])
  }

  ghost predicate HasOutcome(sessions: seq<Session>, r: RawRecord) { exists s :: s in sessions && MadeFrom(s, r) }

  /** The outcome of `records` and nothing else. */
  ghost predicate Outcome(projectIds: seq<Id>, records: seq<RawRecord>, sessions: seq<Session>) {
    && (forall s <- sessions :: HasOrigin(projectIds, records, s))
    && (forall i: nat :: ComesOver(projectIds, records, i) ==> HasOutcome(sessions, records[i]))
  }

  lemma {:induction false} AcceptedExactly(projectIds: seq<Id>, records: seq<RawRecord>)
    ensures Outcome(projectIds, records, Accepted(projectIds, records))
  {
    if records != [] {
      var n := |records| - 1;
      AcceptedExactly(projectIds, records[..n]);
      NewIdIsFree(projectIds, records);
      hide Accepted;
      OneMoreOutcome(projectIds, records, Accepted(projectIds, records[..n]), Accepted(projectIds, records));
    }
  }

  lemma OneMoreOutcome(projectIds: seq<Id>, records: seq<RawRecord>, before: seq<Session>, sessions: seq<Session>)
    requires records != [] && Outcome(projectIds, records[..|records| - 1], before)
    requires if ComesOver(projectIds, records, |records| - 1) then
               |sessions| == |before| + 1 && sessions == before + [sessions[|before|]]
               && MadeFrom(sessions[|before|], records[|records| - 1])
             else sessions == before
    ensures Outcome(projectIds, records, sessions)
  {
    var n := |records| - 1;
    var front := records[..n];
    hide MadeFrom, Reads;
    forall s | s in sessions ensures HasOrigin(projectIds, records, s) {
      if s in before {
        assert HasOrigin(projectIds, front, s);
        var i: nat :| ComesOver(projectIds, front, i) && MadeFrom(s, front[i]);
        assert ComesOver(projectIds, records, i);
      }
    }
    forall i: nat | ComesOver(projectIds, records, i) ensures HasOutcome(sessions, records[i]) {
      if i < n {
        assert ComesOver(projectIds, front, i) && front[i] == records[i];
        assert HasOutcome(before, records[i]);
        var s :| s in before && MadeFrom(s, records[i]);
        assert s in sessions;
      }
    }
  }

  ghost predicate WasRead(projectIds: seq<Id>, records: seq<RawRecord>, id: Id) {
    exists j :: 0 <= j < |records| && Reads(projectIds, records[j]) && records[j].id == Some(id)
  }

  lemma TakenIds(projectIds: seq<Id>, records: seq<RawRecord>, sessions: seq<Session>, id: Id)
    requires Outcome(projectIds, records, sessions)
    ensures id in Ids(sessions) <==> WasRead(projectIds, records, id)
  {
    IdsHas(sessions);
    if id in Ids(sessions) {
      assert Held(sessions, id);
      var s :| s in sessions && s.id == id;
      assert HasOrigin(projectIds, records, s);
      var i: nat :| ComesOver(projectIds, records, i) && MadeFrom(s, records[i]);
    }
    if WasRead(projectIds, records, id) {
      var j :| 0 <= j < |records| && Reads(projectIds, records[j]) && records[j].id == Some(id);
      var k := FirstReading(projectIds, records, j);
      assert HasOutcome(sessions, records[k]);
      var s :| s in sessions && MadeFrom(s, records[k]);
      assert Held(sessions, id);
    }
  }

  /** The last record is taken exactly if it comes over. */
  lemma NewIdIsFree(projectIds: seq<Id>, records: seq<RawRecord>)
    requires records != [] && Outcome(projectIds, records[..|records| - 1], Accepted(projectIds, records[..|records| - 1]))
    ensures var n := |records| - 1;
            var before, sessions := Accepted(projectIds, records[..n]), Accepted(projectIds, records);
            if ComesOver(projectIds, records, n) then
              |sessions| == |before| + 1 && sessions == before + [sessions[|before|]] && MadeFrom(sessions[|before|], records[n])
            else sessions == before
  {
    var n := |records| - 1;
    var front, r := records[..n], records[n];
    var before := Accepted(projectIds, front);
    if Reads(projectIds, r) {
      TakenIds(projectIds, front, before, r.id.value);
      LastComesOver(projectIds, records);
    }
    hide Outcome, ComesOver, WasRead, Ids;
  }

  lemma LastComesOver(projectIds: seq<Id>, records: seq<RawRecord>)
    requires records != [] && Reads(projectIds, records[|records| - 1])
    ensures var n := |records| - 1;
            ComesOver(projectIds, records, n) <==> !WasRead(projectIds, records[..n], records[n].id.value)
  {}

  lemma FirstReading(projectIds: seq<Id>, records: seq<RawRecord>, j: nat) returns (k: nat)
    requires j < |records| && Reads(projectIds, records[j])
    ensures k <= j && ComesOver(projectIds, records, k) && records[k].id == records[j].id
  {
    k := 0;
    while !(Reads(projectIds, records[k]) && records[k].id == records[j].id)
      invariant k <= j
      invariant forall i :: 0 <= i < k && Reads(projectIds, records[i]) ==> records[i].id != records[j].id
      decreases j - k
    {
      k := k + 1;
    }
  }

  lemma ListForInOrder(sessions: seq<Session>, projectId: Id, requested: seq<Id>)
    ensures InOrderOf(ListFor(sessions, projectId, requested), requested + Ids(sessions))
  {
    var all, own := requested + Ids(sessions), AsSet(OwnIds(sessions, projectId));
    var kept := Keep(all, own);
    UniqueInOrder(kept);
    KeepInOrder(all, own);
    OrderCarries(Unique(kept), kept, all);
  }

  /** A record becomes a session, with all it says, exactly if it comes over; whatever its place. */
  lemma MigratedExactly(projects: seq<Project>, records: seq<RawRecord>, order: map<Id, seq<Id>>)
    requires Distinct(Ids(projects)) && DistinctPaths(projects)
    ensures var m, first := Migrate(projects, records, order), Take(records, MAX_SESSIONS);
            Outcome(Ids(projects), first, m.sessions)
  {
    var first := Take(records, MAX_SESSIONS);
    var sessions := Accepted(Ids(projects), first);
    AcceptedExactly(Ids(projects), first);
    AcceptedDistinct(Ids(projects), first);
    var placed := Placed(projects, sessions, order);
    PlacedHas(projects, sessions, order);
    EverySessionListed(placed, sessions);
    IdsHas(sessions);
    hide Accepted, Placed, Flatten, ComesOver, MadeFrom;
    forall i: nat | ComesOver(Ids(projects), first, i) ensures HasOutcome(Listed(sessions, Flatten(placed)), first[i]) {
      var s :| s in sessions && MadeFrom(s, first[i]);
      assert s.id in Ids(sessions);
      ListedIn(sessions, Flatten(placed), s);
    }
  }

  /** Each project lists its sessions in the order asked for, and those not asked for in record order. */
  lemma MigratedInOrder(projects: seq<Project>, records: seq<RawRecord>, order: map<Id, seq<Id>>, k: nat)
    requires k < |projects|
    ensures var m := Migrate(projects, records, order);
            var accepted := Accepted(Ids(projects), Take(records, MAX_SESSIONS));
            |m.projects| == |projects|
            && InOrderOf(m.projects[k].body.sessionIds, RequestedFor(order, projects[k].id) + Ids(accepted))
  {
    var sessions := Accepted(Ids(projects), Take(records, MAX_SESSIONS));
    ListPlaced(projects, sessions, order, k);
    ListForInOrder(sessions, projects[k].id, RequestedFor(order, projects[k].id));
  }

  lemma {:induction false} ListPlaced(projects: seq<Project>, sessions: seq<Session>, order: map<Id, seq<Id>>, k: nat)
    requires k < |projects|
    ensures var placed := Placed(projects, sessions, order);
            |placed| == |projects|
            && placed[k].body.sessionIds == ListFor(sessions, projects[k].id, RequestedFor(order, projects[k].id))
  {
    hide ListFor;
    var n := |projects| - 1;
    PlacedSize(projects[..n], sessions, order);
    if k < n {
      ListPlaced(projects[..n], sessions, order, k);
    }
  }

  // ---------- The loops ----------

  method AcceptRecords(projectIds: seq<Id>, records: seq<RawRecord>) returns (sessions: seq<Session>, imported: nat, skipped: nat)
    ensures sessions == Accepted(projectIds, records) && imported == |sessions| && imported + skipped == |records|
  {
    sessions, imported, skipped := [], 0, 0;
    for i := 0 to |records|
      invariant sessions == Accepted(projectIds, records[..i]) && imported == |sessions| && imported + skipped == i
    {
      var r := records[i];
      assert records[..i + 1][..i] == records[..i];
      if !Usable(projectIds, sessions, r) {
        skipped := skipped + 1;
        continue;
      }
      var body := SessionBody(r.workspace.value, r.acp, r.transcribed, false, r.lastAccessed.value, r.content);
      sessions := sessions + [Record(r.id.value, body)];
      imported := imported + 1;
    }
    assert records[..|records|] == records;
  }

  /** One project's turn: `ordered` holds what earlier projects have listed. */
  method PlaceOne(sessions: seq<Session>, projectId: Id, requested: seq<Id>, earlier: seq<Id>) returns (list: seq<Id>, ordered: seq<Id>)
    requires Distinct(Ids(sessions)) && forall id <- earlier :: !Owns(sessions, projectId, id)
    ensures list == ListFor(sessions, projectId, requested) && ordered == earlier + list
  {
    list, ordered := [], earlier;
    var all := requested + Ids(sessions);
    ghost var own := AsSet(OwnIds(sessions, projectId));
    assert Unique(Keep(all[..0], own)) == [];
    hide Distinct, Owns, Keep, Unique;
    for i := 0 to |all|
      invariant list == Unique(Keep(all[..i], own)) && ordered == earlier + list
    {
      OwnOrNot(sessions, projectId, all[i]);
      OneMorePlaced(all, own, i);
      var session := Find(sessions, all[i]);
      if session.Some? && session.value.body.projectId == projectId && all[i] !in ordered {
        list := list + [all[i]];
        ordered := ordered + [all[i]];
      }
    }
    assert all[..|all|] == all;
  }

  lemma OneMorePlaced(ids: seq<Id>, own: set<Id>, i: nat)
    requires i < |ids|
    ensures var list := Unique(Keep(ids[..i], own));
            Unique(Keep(ids[..i + 1], own)) == if ids[i] in own && ids[i] !in list then list + [ids[i]] else list
  {
    var before := Keep(ids[..i], own);
    assert ids[..i + 1][..i] == ids[..i];
    UniqueHas(before);
    if ids[i] in own {
      assert (before + [ids[i]])[..|before|] == before;
    }
  }

  lemma OwnOrNot(sessions: seq<Session>, projectId: Id, id: Id)
    requires Distinct(Ids(sessions))
    ensures var s := Find(sessions, id);
            (s.Some? && s.value.body.projectId == projectId) <==> id in OwnIds(sessions, projectId)
    ensures id in OwnIds(sessions, projectId) <==> Owns(sessions, projectId, id)
  {
    OwnHas(sessions, projectId);
    if Owns(sessions, projectId, id) {
      var s :| s in sessions && s.id == id && s.body.projectId == projectId;
      FindIs(sessions, s);
    }
  }

  method MigrateSessions(projects: seq<Project>, records: seq<RawRecord>, order: map<Id, seq<Id>>) returns (m: Migrated)
    requires Distinct(Ids(projects))
    ensures m == Migrate(projects, records, order)
  {
    var sessions, imported, skipped := AcceptRecords(Ids(projects), Take(records, MAX_SESSIONS));
    AcceptedDistinct(Ids(projects), Take(records, MAX_SESSIONS));
    var placed: seq<Project>, ordered: seq<Id> := [], [];
    for i := 0 to |projects|
      invariant placed == Placed(projects[..i], sessions, order) && ordered == Flatten(placed)
    {
      var p := projects[i];
      assert projects[..i + 1][..i] == projects[..i];
      EarlierAreOthers(projects, sessions, order, i);
      var list;
      list, ordered := PlaceOne(sessions, p.id, RequestedFor(order, p.id), ordered);
      placed := placed + [Record(p.id, p.body.(sessionIds := list))];
    }
    assert projects[..|projects|] == projects;
    return Migrated(placed, Listed(sessions, ordered), imported, skipped + (|records| - |Take(records, MAX_SESSIONS)|));
  }

  lemma EarlierAreOthers(projects: seq<Project>, sessions: seq<Session>, order: map<Id, seq<Id>>, i: nat)
    requires Distinct(Ids(projects)) && Distinct(Ids(sessions)) && i < |projects|
    ensures forall id <- Flatten(Placed(projects[..i], sessions, order)) :: !Owns(sessions, projects[i].id, id)
  {
    var placed := Placed(projects[..i], sessions, order);
    PlacedHas(projects[..i], sessions, order);
    NotBefore(projects, i);
    hide Distinct, Owns, Placed;
    forall id | id in Flatten(placed) ensures !Owns(sessions, projects[i].id, id) {
      FlattenHas(placed, sessions, id);
      NotOwnedTwice(placed, sessions, projects[i].id, id);
    }
  }

  lemma NotBefore(projects: seq<Project>, i: nat)
    requires Distinct(Ids(projects)) && i < |projects|
    ensures projects[i].id !in Ids(projects[..i])
  {
    IdsAt(projects);
    IdsAt(projects[..i]);
  }
}
