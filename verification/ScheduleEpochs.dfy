/** Generations and revisions of the typed scheduler stream: the shown schedules are a replay of
    the updates that survive, whatever arrives in between and in whatever order. */
module ScheduleEpochs {
  import opened Results
  import opened Activity

  predicate IsTyped(u: Update) { u.Scheduling? && u.source == Typed }

  predicate HasClock(u: Update) {
    IsTyped(u) ==> u.clock.generation.Some? && u.clock.revision.Some?
  }

  predicate HaveClocks(us: seq<Update>) { forall u <- us :: HasClock(u) }

  /** The generation of a typed update. */
  function Gen(u: Update): int {
    if IsTyped(u) && u.clock.generation.Some? then u.clock.generation.value else -1
  }

  function Rev(u: Update): int {
    if IsTyped(u) && u.clock.revision.Some? then u.clock.revision.value else -1
  }

  // ---------- Which updates survive ----------

  /** The highest generation of the typed updates, or -1. */
  function Top(us: seq<Update>): int {
    if us == [] then -1
    else
      var before, u := Top(us[..|us| - 1]), us[|us| - 1];
      if Gen(u) > before then Gen(u) else before
  }

  /** The highest revision of one generation, or -1. */
  function Latest(us: seq<Update>, generation: nat): int {
    if us == [] then -1
    else
      var before, u := Latest(us[..|us| - 1], generation), us[|us| - 1];
      if Gen(u) == generation && Rev(u) > before then Rev(u) else before
  }

  /** The updates of one generation that came with a higher revision than all before them. */
  function Survivors(us: seq<Update>, generation: nat): seq<Update> {
    if us == [] then []
    else
      var front, u := us[..|us| - 1], us[|us| - 1];
      if Gen(u) == generation && Rev(u) > Latest(front, generation) then Survivors(front, generation) + [u]
      else Survivors(front, generation)
  }

  lemma {:induction false} NothingAboveTheTop(us: seq<Update>, generation: nat)
    requires generation > Top(us)
    ensures Latest(us, generation) == -1 && Survivors(us, generation) == []
  {
    if us != [] {
      NothingAboveTheTop(us[..|us| - 1], generation);
    }
  }

  lemma {:induction false} TopHasARevision(us: seq<Update>)
    requires HaveClocks(us)
    ensures Top(us) >= -1
    ensures Top(us) >= 0 ==> Latest(us, Top(us)) >= 0
  {
    if us != [] {
      var front, u := us[..|us| - 1], us[|us| - 1];
      TopHasARevision(front);
      assert HasClock(u);
      if Gen(u) > Top(front) {
        NothingAboveTheTop(front, Gen(u));
      }
    }
  }

  // ---------- A table without clocks, sources or view numbers ----------

  datatype Entry = Entry(title: string, fired: bool, schedule: Option<string>, nextFireAt: Option<string>, fireCount: nat)

  datatype Table = Table(items: map<Identity, Entry>, overflowed: bool)

  function Fresh(p: Payload, fireCount: nat): Entry {
    Entry(p.title, false, Present(p.schedule), Present(p.nextFireAt), fireCount)
  }

  function CountOf(items: map<Identity, Entry>, id: Identity): nat {
    if id in items then items[id].fireCount else 0
  }

  function ListedEntries(items: map<Identity, Entry>, list: seq<Payload>): map<Identity, Entry> {
    if list == [] then map[]
    else
      var p := list[|list| - 1];
      ListedEntries(items, list[..|list| - 1])[p.identity := Fresh(p, CountOf(items, p.identity))]
  }

  function PutEntry(items: map<Identity, Entry>, p: Payload, fired: bool): map<Identity, Entry> {
    var existing := if p.identity in items then Some(items[p.identity]) else None;
    var schedule := OrElse(p.schedule, if existing.Some? then existing.value.schedule else None);
    var nextFireAt := OrElse(p.nextFireAt, if existing.Some? then existing.value.nextFireAt else None);
    var fireCount := CountOf(items, p.identity);
    items[p.identity := Entry(p.title, fired, Present(schedule), Present(nextFireAt),
                              if fired then BoundedIncrement(fireCount) else fireCount)]
  }

  function Write(t: Table, change: Change): Table {
    match change
    case Replace(overflowed, list) => Table(ListedEntries(t.items, list), overflowed)
    case Upsert(fired, p) =>
      if p.identity !in t.items && |t.items| >= MAX_ITEMS then t.(overflowed := true)
      else t.(items := PutEntry(t.items, p, fired))
    case Delete(id) => t.(items := t.items - {id})
  }

  /** Carrying out changes one after another, with no check at all. */
  function Replay(us: seq<Update>): Table {
    if us == [] then Table(map[], false)
    else
      var before, u := Replay(us[..|us| - 1]), us[|us| - 1];
      if u.Scheduling? then Write(before, u.change) else before
  }

  // ---------- The scheduler writes the table ----------

  function Bare(s: Schedule): Entry { Entry(s.title, s.fired, s.schedule, s.nextFireAt, s.fireCount) }

  function BareItems(m: Schedules): map<Identity, Entry> { map id | id in m :: Bare(m[id]) }

  function Shown(s: Scheduler): Table { Table(BareItems(s.schedules), s.overflowed) }

  lemma BarePut(m: Schedules, id: Identity, item: Schedule)
    ensures BareItems(m[id := item]) == BareItems(m)[id := Bare(item)]
    ensures |BareItems(m)| == |m|
  {
    assert BareItems(m).Keys == m.Keys;
  }

  lemma {:induction false} ListedIsBare(olds: Schedules, list: seq<Payload>, view: nat)
    requires view + |list| <= LAST_VIEW + 1
    ensures BareItems(Listed(olds, Typed, list, view).items) == ListedEntries(BareItems(olds), list)
  {
    if list != [] {
      var front, p := list[..|list| - 1], list[|list| - 1];
      ListedIsBare(olds, front, view);
      ListedTakesFew(olds, Typed, front, view);
      var before := Listed(olds, Typed, front, view);
      hide Listed, BareItems;
      var after := ListOne(olds, Typed, before, p);
      BarePut(before.items, p.identity, after.items[p.identity]);
      BareCount(olds, p.identity);
    }
  }

  lemma BareCount(m: Schedules, id: Identity)
    ensures CountOf(BareItems(m), id) == if id in m then m[id].fireCount else 0
  {}

  /** With nothing pending and view numbers left, a change does to the schedules what it does to
      the table. */
  lemma ChangeWritesTheTable(s: Scheduler, view: nat, u: Update)
    requires IsTyped(u) && s.pending == map[] && view + Need(u) <= LAST_VIEW + 1
    ensures var t := AfterChange(s, view, u).part;
            Shown(t) == Write(Shown(s), u.change) && t.pending == map[]
            && t.authority == s.authority && t.generation == s.generation && t.revision == s.revision
  {
    hide AfterReplace, AfterUpsert, ListedEntries, PutEntry;
    match u.change
    case Replace(_, _) => ReplaceWritesTheTable(s, view, u.call, u.change);
    case Upsert(_, _) => UpsertWritesTheTable(s, view, u.call, u.change);
    case Delete(id) => assert BareItems(s.schedules - {id}) == BareItems(s.schedules) - {id};
  }

  lemma ReplaceWritesTheTable(s: Scheduler, view: nat, call: Option<Identity>, change: Change)
    requires change.Replace? && s.pending == map[] && view + |change.schedules| <= LAST_VIEW + 1
    ensures var t := AfterReplace(s, view, Typed, call, change).part;
            Shown(t) == Write(Shown(s), change) && t.pending == map[]
            && t.authority == s.authority && t.generation == s.generation && t.revision == s.revision
  {
    ListedTakesFew(s.schedules, Typed, change.schedules, view);
    ListedIsBare(s.schedules, change.schedules, view);
    hide Listed, ListedEntries, BareItems;
  }

  lemma UpsertWritesTheTable(s: Scheduler, view: nat, call: Option<Identity>, change: Change)
    requires change.Upsert? && s.pending == map[] && view <= LAST_VIEW
    ensures var t := AfterUpsert(s, view, Typed, call, change).part;
            Shown(t) == Write(Shown(s), change) && t.pending == map[]
            && t.authority == s.authority && t.generation == s.generation && t.revision == s.revision
  {
    var id := change.payload.identity;
    var used := if id in s.schedules then s.schedules[id].view else view;
    var item := Upserted(s, Typed, call, change, used);
    BarePut(s.schedules, id, item);
    PutIsBare(s, call, change, used);
    hide BareItems, Upserted, PutEntry;
    assert id in BareItems(s.schedules) <==> id in s.schedules by { BareKeys(s.schedules); }
  }

  lemma BareKeys(m: Schedules)
    ensures BareItems(m).Keys == m.Keys
  {}

  lemma PutIsBare(s: Scheduler, call: Option<Identity>, change: Change, view: nat)
    requires change.Upsert? && s.pending == map[]
    ensures var id := change.payload.identity;
            BareItems(s.schedules)[id := Bare(Upserted(s, Typed, call, change, view))]
            == PutEntry(BareItems(s.schedules), change.payload, change.fired)
  {}

  // ---------- The state after a run ----------

  /** Before any typed update the scheduler has no clock; afterwards it holds the highest clock
      and shows the replay of the survivors. */
  ghost predicate Epoch(s: Scheduler, us: seq<Update>) {
    var top := Top(us);
    if top < 0 then s.authority != Some(Typed) && s.generation.None? && s.revision.None?
    else
      && s.authority == Some(Typed) && s.pending == map[]
      && s.generation == Some(top as nat) && Latest(us, top) >= 0 && s.revision == Some(Latest(us, top) as nat)
      && Shown(s) == Replay(Survivors(us, top))
  }

  lemma UntypedKeepsTheEpoch(s: State, us: seq<Update>, u: Update)
    requires !IsTyped(u) && Epoch(s.scheduler, us)
    ensures Epoch(Reduce(s, u).scheduler, us + [u])
  {
    UntypedChangesNothing(us, u, if Top(us) >= 0 then Top(us) else 0);
    hide Top, Latest, Survivors, Replay, Shown, AfterBackground, AfterWorkflow, AfterGoal;
    if Top(us) >= 0 {
      TypedIgnoresUntyped(s, u);
    }
  }

  lemma TypedIgnoresUntyped(s: State, u: Update)
    requires !IsTyped(u) && s.scheduler.authority == Some(Typed) && s.scheduler.pending == map[]
    ensures Reduce(s, u).scheduler == s.scheduler
  {
    hide AfterBackground, AfterWorkflow, AfterGoal, AfterChange;
  }

  lemma UntypedChangesNothing(us: seq<Update>, u: Update, g: nat)
    requires !IsTyped(u)
    ensures Top(us + [u]) == Top(us)
    ensures Latest(us + [u], g) == Latest(us, g) && Survivors(us + [u], g) == Survivors(us, g)
  {
    assert (us + [u])[..|us|] == us;
    NeverBelow(us, g);
  }

  lemma {:induction false} NeverBelow(us: seq<Update>, g: nat)
    ensures Top(us) >= -1 && Latest(us, g) >= -1
  {
    if us != [] {
      NeverBelow(us[..|us| - 1], g);
    }
  }

  /** What one typed update does to the clock and to the survivors. */
  lemma TypedSurvives(us: seq<Update>, u: Update)
    requires HaveClocks(us) && Gen(u) >= 0 && Rev(u) >= 0
    ensures var g: nat := Gen(u); var top := Top(us); var all := us + [u];
            if g > top then Top(all) == g && Latest(all, g) == Rev(u) && Survivors(all, g) == [u]
            else
              && Top(all) == top && Latest(us, top) >= 0
              && if g == top && Rev(u) > Latest(us, g) then
                   Latest(all, g) == Rev(u) && Survivors(all, g) == Survivors(us, g) + [u]
                 else Latest(all, top) == Latest(us, top) && Survivors(all, top) == Survivors(us, top)
  {
    assert (us + [u])[..|us|] == us;
    if Gen(u) > Top(us) {
      NothingAboveTheTop(us, Gen(u));
    } else {
      TopHasARevision(us);
    }
  }

  lemma ReplayOneMore(us: seq<Update>, u: Update)
    requires u.Scheduling?
    ensures Replay(us + [u]) == Write(Replay(us), u.change)
  {
    assert (us + [u])[..|us|] == us;
  }

  /** How the scheduler receives a typed update with both clock fields. */
  lemma TypedVerdict(s: Scheduler, clock: Clock)
    requires clock.generation.Some? && clock.revision.Some?
    requires s.authority != Some(Typed) ==> s.generation.None? && s.revision.None?
    requires s.authority == Some(Typed) ==> s.generation.Some? && s.revision.Some? && s.pending == map[]
    ensures var v := AcceptMutation(s, Typed, clock);
            var higher := s.generation.None? || clock.generation.value > s.generation.value;
            var later := s.generation == clock.generation && s.revision.Some? && clock.revision.value > s.revision.value;
            && (v.accepted <==> higher || later)
            && (!v.accepted ==> v.scheduler == s)
            && (v.accepted ==> v.scheduler.authority == Some(Typed) && v.scheduler.pending == map[]
                               && v.scheduler.generation == clock.generation && v.scheduler.revision == clock.revision)
            && (v.accepted && higher ==> v.scheduler.schedules == map[] && !v.scheduler.overflowed)
            && (v.accepted && !higher ==> v.scheduler.schedules == s.schedules && v.scheduler.overflowed == s.overflowed)
  {}

  lemma NothingShown(s: Scheduler)
    requires s.schedules == map[] && !s.overflowed
    ensures Shown(s) == Replay([])
  {}

  lemma TypedKeepsTheEpoch(s: State, us: seq<Update>, u: Update)
    requires HaveClocks(us) && Gen(u) >= 0 && Rev(u) >= 0
    requires Epoch(s.scheduler, us) && s.nextView + Need(u) <= LAST_VIEW + 1
    ensures Epoch(Reduce(s, u).scheduler, us + [u])
  {
    TypedSurvives(us, u);
    TypedVerdict(s.scheduler, u.clock);
    var v := AcceptMutation(s.scheduler, Typed, u.clock);
    var after := Reduce(s, u).scheduler;
    hide Top, Latest, Survivors, Replay, AcceptMutation, Shown, AfterChange, Write;
    if v.accepted {
      ChangeWritesTheTable(v.scheduler, s.nextView, u);
      var g: nat := Gen(u);
      if g > Top(us) {
        NothingShown(v.scheduler);
        ReplayOneMore([], u);
        assert [] + [u] == [u];
      } else {
        SameShown(v.scheduler, s.scheduler);
        ReplayOneMore(Survivors(us, g), u);
      }
    } else {
      assert DropCall(s.scheduler, u.call) == s.scheduler by { NothingToDrop(s.scheduler, u.call); }
    }
  }

  lemma NothingToDrop(s: Scheduler, call: Option<Identity>)
    requires s.pending == map[]
    ensures DropCall(s, call) == s
  {}

  lemma SameShown(s: Scheduler, t: Scheduler)
    requires s.schedules == t.schedules && s.overflowed == t.overflowed
    ensures Shown(s) == Shown(t)
  {}

  lemma {:induction false} EpochHolds(us: seq<Update>)
    requires HaveClocks(us) && Needs(us) <= LAST_VIEW
    ensures Epoch(Run(Initial(), us).scheduler, us)
  {
    hide Epoch, Reduce;
    if us == [] {
      NoEpochYet();
    } else {
      var front, u := us[..|us| - 1], us[|us| - 1];
      EpochHolds(front);
      NeedsAreEnough(front);
      assert us == front + [u];
      assert HasClock(u);
      if IsTyped(u) {
        TypedKeepsTheEpoch(Run(Initial(), front), front, u);
      } else {
        UntypedKeepsTheEpoch(Run(Initial(), front), front, u);
      }
    }
  }

  lemma NoEpochYet()
    ensures Epoch(Initial().scheduler, [])
  {}

  /** Any run whose typed updates carry both clock fields, with legacy and other updates anywhere,
      shows the replay of the survivors of the highest generation and nothing else. */
  lemma OnlySurvivorsCount(us: seq<Update>)
    requires HaveClocks(us) && Needs(us) <= LAST_VIEW && Top(us) >= 0
    ensures Shown(Run(Initial(), us).scheduler) == Replay(Survivors(us, Top(us)))
  {
    EpochHolds(us);
    hide Top, Survivors, Replay, Run, Shown;
  }

  lemma {:induction false} SurvivorsAreTyped(us: seq<Update>, generation: nat)
    ensures forall u <- Survivors(us, generation) :: IsTyped(u) && u in us
  {
    if us != [] {
      SurvivorsAreTyped(us[..|us| - 1], generation);
    }
  }

  // ---------- Revisions without a generation ----------

  /** An update whose revision is no higher than the stored one is taken exactly when no generation
      has been seen yet or the update brings a higher one. */
  lemma StaleRevisionIsTakenExactly(s: Scheduler, clock: Clock)
    requires clock.revision.Some? && s.revision.Some? && clock.revision.value <= s.revision.value
    ensures AcceptClock(s, clock).accepted <==>
            s.generation.None? || (clock.generation.Some? && clock.generation.value > s.generation.value)
  {}

  predicate OnlyRevision(u: Update) {
    IsTyped(u) ==> u.clock.generation.None? && u.clock.revision.Some?
  }

  function TypedOnes(us: seq<Update>): seq<Update> {
    if us == [] then []
    else
      var front, u := TypedOnes(us[..|us| - 1]), us[|us| - 1];
      if IsTyped(u) then front + [u] else front
  }

  /** With no generation every typed update has been carried out, in the order of arrival. */
  ghost predicate Unordered(s: Scheduler, us: seq<Update>) {
    s.generation.None? &&
    if TypedOnes(us) == [] then
      s.authority != Some(Typed) && s.revision.None?
      && (s.authority.None? ==> s.schedules == map[] && !s.overflowed)
    else
      s.authority == Some(Typed) && s.pending == map[] && s.revision.Some? && Shown(s) == Replay(TypedOnes(us))
  }

  lemma UntypedStaysUnordered(s: State, us: seq<Update>, u: Update)
    requires !IsTyped(u) && Unordered(s.scheduler, us)
    ensures Unordered(Reduce(s, u).scheduler, us + [u])
  {
    assert (us + [u])[..|us|] == us;
    if TypedOnes(us) != [] {
      TypedIgnoresUntyped(s, u);
    } else {
      hide AfterBackground, AfterWorkflow, AfterGoal, AfterChange, Replay;
      UntypedBeforeTyped(s, u);
    }
  }

  lemma UntypedBeforeTyped(s: State, u: Update)
    requires !IsTyped(u) && s.scheduler.authority != Some(Typed)
    requires s.scheduler.authority.None? ==> s.scheduler.schedules == map[] && !s.scheduler.overflowed
    ensures var t := Reduce(s, u).scheduler;
            && t.authority != Some(Typed) && t.generation == s.scheduler.generation && t.revision == s.scheduler.revision
            && (t.authority.None? ==> t.schedules == map[] && !t.overflowed)
  {
    hide AfterBackground, AfterWorkflow, AfterGoal, AfterInput, AfterChange;
    if u.LegacyInput? {
      InputBeforeTyped(s.scheduler, s.nextView, u);
    } else if u.Scheduling? {
      ChangeKeepsClock(s.scheduler.(authority := Some(Legacy)), s.nextView, u);
    }
  }

  lemma InputBeforeTyped(s: Scheduler, view: nat, u: Update)
    requires u.LegacyInput? && s.authority != Some(Typed)
    ensures var t := AfterInput(s, view, u).part;
            && t.authority == s.authority && t.generation == s.generation && t.revision == s.revision
            && t.overflowed == s.overflowed && (s.schedules == map[] ==> t.schedules == map[])
  {}

  lemma ChangeKeepsClock(s: Scheduler, view: nat, u: Update)
    requires u.Scheduling?
    ensures var t := AfterChange(s, view, u).part;
            t.authority == s.authority && t.generation == s.generation && t.revision == s.revision
  {
    hide Listed, Upserted;
  }

  lemma RevisionVerdict(s: Scheduler, us: seq<Update>, u: Update)
    requires IsTyped(u) && OnlyRevision(u) && Unordered(s, us)
    ensures var v := AcceptMutation(s, Typed, u.clock);
            && v.accepted && v.scheduler.pending == map[] && v.scheduler.authority == Some(Typed)
            && v.scheduler.generation.None? && v.scheduler.revision.Some? && Shown(v.scheduler) == Replay(TypedOnes(us))
  {
    var v := AcceptMutation(s, Typed, u.clock).scheduler;
    if s.authority != Some(Typed) {
      assert s.authority.None? || s.authority.value.Legacy?;
      NothingShown(v);
    } else {
      SameShown(v, s);
    }
  }

  lemma TypedStaysUnordered(s: State, us: seq<Update>, u: Update)
    requires IsTyped(u) && OnlyRevision(u) && Unordered(s.scheduler, us) && s.nextView + Need(u) <= LAST_VIEW + 1
    ensures Unordered(Reduce(s, u).scheduler, us + [u])
  {
    assert (us + [u])[..|us|] == us;
    RevisionVerdict(s.scheduler, us, u);
    var v := AcceptMutation(s.scheduler, Typed, u.clock);
    hide Replay, AcceptMutation, Shown, AfterChange, Write;
    ChangeWritesTheTable(v.scheduler, s.nextView, u);
    ReplayOneMore(TypedOnes(us), u);
  }

  lemma {:induction false} StaysUnordered(us: seq<Update>)
    requires (forall u <- us :: OnlyRevision(u)) && Needs(us) <= LAST_VIEW
    ensures Unordered(Run(Initial(), us).scheduler, us)
  {
    hide Unordered, Reduce;
    if us == [] {
      UnorderedYet();
    } else {
      var front, u := us[..|us| - 1], us[|us| - 1];
      StaysUnordered(front);
      NeedsAreEnough(front);
      assert us == front + [u];
      assert OnlyRevision(u);
      if IsTyped(u) {
        TypedStaysUnordered(Run(Initial(), front), front, u);
      } else {
        UntypedStaysUnordered(Run(Initial(), front), front, u);
      }
    }
  }

  lemma UnorderedYet()
    ensures Unordered(Initial().scheduler, [])
  {
    NothingShown(Initial().scheduler);
  }

  /** A run whose typed updates carry revisions but no generation shows all of them carried out as
      they arrived, whatever their revisions are. */
  lemma RevisionsAloneAreNotOrdered(us: seq<Update>)
    requires (forall u <- us :: OnlyRevision(u)) && Needs(us) <= LAST_VIEW && TypedOnes(us) != []
    ensures Shown(Run(Initial(), us).scheduler) == Replay(TypedOnes(us))
  {
    StaysUnordered(us);
    hide Run, Shown, Replay;
  }

  /** So of two updates of one schedule the second is what is shown, though its revision is lower. */
  lemma LowerRevisionOverwrites(u: Update, v: Update, id: Identity)
    requires IsTyped(u) && IsTyped(v) && OnlyRevision(u) && OnlyRevision(v) && u.change.Upsert? && v.change.Upsert?
    requires u.change.payload.identity == id == v.change.payload.identity
    requires v.clock.revision.value < u.clock.revision.value
    ensures var shown := Shown(Run(Initial(), [u, v]).scheduler);
            && shown == Write(Write(Table(map[], false), u.change), v.change) && id in shown.items
            && shown.items[id].title == v.change.payload.title && shown.items[id].fired == v.change.fired
            && (v.change.payload.schedule.Some? ==> shown.items[id].schedule == Present(v.change.payload.schedule))
  {
    assert [u, v][..1] == [u] && [u][..0] == [];
    TwoReplayed(u, v);
    hide Run, Shown, Replay;
    RevisionsAloneAreNotOrdered([u, v]);
  }

  lemma TwoReplayed(u: Update, v: Update)
    requires IsTyped(u) && IsTyped(v) && u.change.Upsert? && v.change.Upsert?
    ensures TypedOnes([u, v]) == [u, v] && Needs([u, v]) == 2
    ensures Replay([u, v]) == Write(Write(Table(map[], false), u.change), v.change)
  {
    hide Write;
    assert [u, v][..1] == [u] && [u, v][1] == v && [u][..0] == [];
    assert TypedOnes([]) == [] && TypedOnes([u]) == [u];
    assert Replay([]) == Table(map[], false) && Replay([u]) == Write(Replay([]), u.change);
    assert Needs([]) == 0 && Needs([u]) == 1;
  }

  // ---------- Full listings in any order ----------

  /** Strictly before in the order of generation, then revision. */
  predicate Before(u: Update, v: Update) {
    Gen(u) < Gen(v) || (Gen(u) == Gen(v) && Rev(u) < Rev(v))
  }

  predicate OnlyListings(us: seq<Update>) {
    forall u <- us :: IsTyped(u) ==> u.change.Replace?
  }

  ghost predicate HighestAt(us: seq<Update>, k: nat) {
    k < |us| && IsTyped(us[k]) && forall j :: 0 <= j < |us| && j != k && IsTyped(us[j]) ==> Before(us[j], us[k])
  }

  lemma {:induction false} HighestSurvivesLast(us: seq<Update>, k: nat)
    requires HaveClocks(us) && HighestAt(us, k)
    ensures Gen(us[k]) >= 0
    ensures var g: nat := Gen(us[k]);
            && Top(us) == g && Latest(us, g) == Rev(us[k])
            && |Survivors(us, g)| > 0 && Survivors(us, g)[|Survivors(us, g)| - 1] == us[k]
  {
    var n := |us| - 1;
    var front, u := us[..n], us[n];
    assert HasClock(us[k]);
    if k < n {
      HighestSurvivesLast(front, k);
      assert IsTyped(u) ==> Before(u, us[k]);
    } else {
      AllBefore(front, u);
    }
  }

  lemma {:induction false} AllBefore(us: seq<Update>, v: Update)
    requires IsTyped(v) && HasClock(v)
    requires forall j :: 0 <= j < |us| && IsTyped(us[j]) ==> Before(us[j], v)
    ensures Top(us) <= Gen(v) && Latest(us, Gen(v)) < Rev(v)
  {
    if us != [] {
      AllBefore(us[..|us| - 1], v);
      assert IsTyped(us[|us| - 1]) ==> Before(us[|us| - 1], v);
    }
  }

  predicate NoneFired(items: map<Identity, Entry>) {
    forall id :: id in items ==> items[id].fireCount == 0
  }

  lemma {:induction false} ListedUnfired(items: map<Identity, Entry>, list: seq<Payload>)
    requires NoneFired(items)
    ensures NoneFired(ListedEntries(items, list)) && ListedEntries(items, list) == ListedEntries(map[], list)
  {
    if list != [] {
      ListedUnfired(items, list[..|list| - 1]);
    }
  }

  lemma {:induction false} ListingsNeverFire(us: seq<Update>)
    requires forall u <- us :: u.Scheduling? && u.change.Replace?
    ensures NoneFired(Replay(us).items)
  {
    if us != [] {
      ListingsNeverFire(us[..|us| - 1]);
      ListedUnfired(Replay(us[..|us| - 1]).items, us[|us| - 1].change.schedules);
    }
  }

  /** The listing with the highest clock is what is shown, wherever it arrived in the stream. */
  lemma HighestClockWins(us: seq<Update>, k: nat)
    requires HaveClocks(us) && OnlyListings(us) && HighestAt(us, k) && Needs(us) <= LAST_VIEW
    ensures IsTyped(us[k]) && us[k].change.Replace?
    ensures Shown(Run(Initial(), us).scheduler)
            == Table(ListedEntries(map[], us[k].change.schedules), us[k].change.overflowed)
  {
    HighestSurvivesLast(us, k);
    OnlySurvivorsCount(us);
    hide Run, Shown, Top, Latest, HighestAt, Needs, ListedEntries;
    SurvivorsAreTyped(us, Gen(us[k]));
    hide Survivors;
    EndsWithListing(Survivors(us, Gen(us[k])));
  }

  lemma EndsWithListing(us: seq<Update>)
    requires us != [] && forall u <- us :: u.Scheduling? && u.change.Replace?
    ensures var last := us[|us| - 1].change;
            Replay(us) == Table(ListedEntries(map[], last.schedules), last.overflowed)
  {
    ListingsNeverFire(us[..|us| - 1]);
    ListedUnfired(Replay(us[..|us| - 1]).items, us[|us| - 1].change.schedules);
  }

  /** Any two deliveries of the same updates show the same schedules. */
  lemma DeliveryOrderDoesNotMatter(us: seq<Update>, vs: seq<Update>, k: nat)
    requires multiset(us) == multiset(vs)
    requires HaveClocks(us) && OnlyListings(us) && HighestAt(us, k) && Needs(us) <= LAST_VIEW && Needs(vs) <= LAST_VIEW
    ensures Shown(Run(Initial(), us).scheduler) == Shown(Run(Initial(), vs).scheduler)
  {
    hide Run, Shown, Needs, ListedEntries;
    HighestClockWins(us, k);
    SameElements(us, vs);
    SameElements(vs, us);
    HighestIsUnique(us, k);
    var l :| 0 <= l < |vs| && vs[l] == us[k];
    forall j | 0 <= j < |vs| && j != l && IsTyped(vs[j]) ensures Before(vs[j], vs[l]) {
      assert vs[j] in us && vs[j] != us[k] by {
        assert vs[j] in vs;
        if vs[j] == us[k] {
          TwiceCounts(vs, j, l);
        }
      }
      var i :| 0 <= i < |us| && us[i] == vs[j];
    }
    HighestClockWins(vs, l);
  }

  lemma SameElements(us: seq<Update>, vs: seq<Update>)
    requires multiset(us) == multiset(vs)
    ensures forall u <- us :: u in vs
  {
    forall u | u in us ensures u in vs {
      assert u in multiset(us);
    }
  }

  lemma HighestIsUnique(us: seq<Update>, k: nat)
    requires HighestAt(us, k)
    ensures multiset(us)[us[k]] == 1
  {
    var rest := us[..k] + us[k + 1..];
    assert us == us[..k] + [us[k]] + us[k + 1..];
    forall j | 0 <= j < |rest| ensures rest[j] != us[k] {
      var i := if j < k then j else j + 1;
      assert rest[j] == us[i] && (IsTyped(us[i]) ==> Before(us[i], us[k]));
    }
    assert multiset(us) == multiset(rest) + multiset{us[k]};
  }

  lemma TwiceCounts(us: seq<Update>, i: nat, j: nat)
    requires i < |us| && j < |us| && i != j && us[i] == us[j]
    ensures multiset(us)[us[i]] >= 2
  {
    var a, b := if i < j then i else j, if i < j then j else i;
    assert us == us[..a] + [us[a]] + us[a + 1..b] + [us[b]] + us[b + 1..];
    assert multiset(us) == multiset(us[..a]) + multiset{us[a]} + multiset(us[a + 1..b]) + multiset{us[b]} + multiset(us[b + 1..]);
  }
}
