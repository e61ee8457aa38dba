/** The safe-to-evict answer against references computed from the updates alone: which live schedules,
    tasks, workflows and goals make it negative, and when it is positive. */
module ActivityAnswer {
  import opened Results
  import opened Activity
  import opened ActivityProtection
  import opened ScheduleEpochs

  // ---------- Schedules before any typed update ----------

  /** Which schedules there are, without contents, view numbers or authorities; what each call is about. */
  datatype LegacyTable = LegacyTable(ids: set<Identity>, overflowed: bool, calls: map<Identity, Option<Identity>>)

  function Uncalled(t: LegacyTable, call: Option<Identity>): LegacyTable {
    if call.Some? then t.(calls := t.calls - {call.value}) else t
  }

  function LegacyOne(t: LegacyTable, u: Update): LegacyTable {
    match u
    case LegacyInput(call, operation, target, _, _) =>
      if call !in t.calls && |t.calls| >= MAX_PENDING then t
      else if call in t.calls && operation == Remove && target.None? then
        var known := t.calls[call];
        LegacyTable(if known.Some? then t.ids - {known.value} else t.ids, t.overflowed, t.calls - {call})
      else t.(calls := t.calls[call := target])
    case Scheduling(_, _, call, Replace(overflowed, list)) =>
      Uncalled(t.(ids := set p | p in list :: p.identity, overflowed := overflowed), call)
    case Scheduling(_, _, call, Upsert(_, p)) =>
      if p.identity in t.ids || |t.ids| < MAX_ITEMS then Uncalled(t.(ids := t.ids + {p.identity}), call)
      else Uncalled(t.(overflowed := true), call)
    case Scheduling(_, _, call, Delete(id)) => Uncalled(t.(ids := t.ids - {id}), call)
    case _ => t
  }

  function LegacyAll(us: seq<Update>): LegacyTable {
    if us == [] then LegacyTable({}, false, map[]) else LegacyOne(LegacyAll(us[..|us| - 1]), us[|us| - 1])
  }

  ghost predicate Legacies(s: Scheduler, t: LegacyTable) {
    && s.authority != Some(Typed) && s.schedules.Keys == t.ids && s.overflowed == t.overflowed
    && s.pending.Keys == t.calls.Keys && forall call :: call in t.calls ==> s.pending[call].target == t.calls[call]
  }

  lemma {:induction false} ListedIds(olds: Schedules, source: Source, list: seq<Payload>, view: nat)
    requires view + |list| <= LAST_VIEW + 1
    ensures Listed(olds, source, list, view).items.Keys == set p | p in list :: p.identity
  {
    if list != [] {
      var front, p := list[..|list| - 1], list[|list| - 1];
      ListedIds(olds, source, front, view);
      ListedTakesFew(olds, source, front, view);
      ListedTakesFew(olds, source, list, view);
      assert list == front + [p];
      assert (set q | q in list :: q.identity) == (set q | q in front :: q.identity) + {p.identity};
    }
  }

  lemma LegacyInputKeeps(s: Scheduler, t: LegacyTable, view: nat, u: Update)
    requires Legacies(s, t) && u.LegacyInput?
    ensures Legacies(AfterInput(s, view, u).part, LegacyOne(t, u))
  {
    assert u.input in s.pending <==> u.input in t.calls;
    assert |s.pending| == |s.pending.Keys| && |t.calls| == |t.calls.Keys|;
  }

  lemma DropsCall(s: Scheduler, t: LegacyTable, call: Option<Identity>)
    requires Legacies(s, t)
    ensures Legacies(DropCall(s, call), Uncalled(t, call))
  {}

  lemma LegacyUpsertKeeps(s: Scheduler, t: LegacyTable, view: nat, u: Update)
    requires Legacies(s, t) && u.Scheduling? && u.change.Upsert? && view <= LAST_VIEW
    ensures Legacies(AfterUpsert(s, view, u.source, u.call, u.change).part, LegacyOne(t, u))
  {
    hide DropCall, Uncalled, Upserted;
    var id := u.change.payload.identity;
    assert |s.schedules| == |s.schedules.Keys|;
    if id in s.schedules || |s.schedules| < MAX_ITEMS {
      var used := if id in s.schedules then s.schedules[id].view else view;
      var item := Upserted(s, u.source, u.call, u.change, used);
      assert s.schedules[id := item].Keys == t.ids + {id};
      DropsCall(s.(schedules := s.schedules[id := item]), t.(ids := t.ids + {id}), u.call);
    } else {
      DropsCall(s.(overflowed := true), t.(overflowed := true), u.call);
    }
  }

  lemma LegacyChangeKeeps(s: Scheduler, t: LegacyTable, view: nat, u: Update)
    requires Legacies(s, t) && u.Scheduling? && view + Need(u) <= LAST_VIEW + 1
    ensures Legacies(AfterChange(s, view, u).part, LegacyOne(t, u))
  {
    hide DropCall, Uncalled, Upserted;
    match u.change {
      case Replace(overflowed, list) =>
        ListedIds(s.schedules, u.source, list, view);
        ListedTakesFew(s.schedules, u.source, list, view);
        hide Listed;
        DropsCall(s.(schedules := Listed(s.schedules, u.source, list, view).items, overflowed := overflowed),
                  t.(ids := set p | p in list :: p.identity, overflowed := overflowed), u.call);
      case Upsert(_, p) => LegacyUpsertKeeps(s, t, view, u);
      case Delete(id) =>
        assert (s.schedules - {id}).Keys == t.ids - {id};
        DropsCall(s.(schedules := s.schedules - {id}), t.(ids := t.ids - {id}), u.call);
    }
  }

  lemma LegacyStepKeeps(s: State, t: LegacyTable, u: Update)
    requires Legacies(s.scheduler, t) && !IsTyped(u) && s.nextView + Need(u) <= LAST_VIEW + 1
    ensures Legacies(Reduce(s, u).scheduler, LegacyOne(t, u))
  {
    hide AfterBackground, AfterWorkflow, AfterGoal, AfterInput, AfterChange;
    if u.LegacyInput? {
      LegacyInputKeeps(s.scheduler, t, s.nextView, u);
    } else if u.Scheduling? {
      assert s.scheduler.authority.None? || s.scheduler.authority.value.Legacy?;
      LegacyChangeKeeps(s.scheduler.(authority := Some(Legacy)), t, s.nextView, u);
    }
  }

  lemma {:induction false} LegacyHolds(us: seq<Update>)
    requires (forall u <- us :: !IsTyped(u)) && Needs(us) <= LAST_VIEW
    ensures Legacies(Run(Initial(), us).scheduler, LegacyAll(us))
  {
    hide Legacies, Reduce, LegacyOne;
    if us == [] {
      assert Legacies(Initial().scheduler, LegacyTable({}, false, map[])) by { NothingLegacy(); }
    } else {
      var front, u := us[..|us| - 1], us[|us| - 1];
      LegacyHolds(front);
      NeedsAreEnough(front);
      LegacyStepKeeps(Run(Initial(), front), LegacyAll(front), u);
    }
  }

  lemma NothingLegacy()
    ensures Legacies(Initial().scheduler, LegacyTable({}, false, map[]))
  {}

  /** What the updates say about schedules: the replay of the typed ones that survive, or before any typed
      one what the legacy ones leave. */
  predicate SchedulesLive(us: seq<Update>) {
    if Top(us) >= 0 then
      var table := Replay(Survivors(us, Top(us)));
      table.items != map[] || table.overflowed
    else LegacyAll(us).ids != {} || LegacyAll(us).overflowed
  }

  lemma {:induction false} NoneTyped(us: seq<Update>)
    requires HaveClocks(us) && Top(us) < 0
    ensures forall u <- us :: !IsTyped(u)
  {
    if us != [] {
      NoneTyped(us[..|us| - 1]);
      assert HasClock(us[|us| - 1]);
    }
  }

  /** The scheduler protects exactly when the updates leave a schedule or an overflow. */
  lemma SchedulesAreExact(us: seq<Update>)
    requires HaveClocks(us) && Needs(us) <= LAST_VIEW
    ensures var s := Run(Initial(), us).scheduler;
            s.schedules != map[] || s.overflowed <==> SchedulesLive(us)
  {
    var s := Run(Initial(), us).scheduler;
    if Top(us) >= 0 {
      OnlySurvivorsCount(us);
      BareKeys(s.schedules);
      assert ScheduleEpochs.Shown(s).items.Keys == s.schedules.Keys;
    } else {
      NoneTyped(us);
      LegacyHolds(us);
      assert s.schedules.Keys == LegacyAll(us).ids;
    }
  }

  // ---------- Workflows: what is shown live is live ----------

  ghost predicate Quiet(w: Workflows, l: Ledger) {
    w.overflowed || forall id :: ShownLive(w, id) ==> Live(l, id)
  }

  /** The projection takes the update and shows the workflow unfinished. */
  predicate TakesLive(w: Workflows, view: nat, p: WorkflowPayload) {
    && p.status != Cleared && !WorkflowDone(p.status) && p.identity !in w.tombstones && !w.saturated
    && (p.identity in w.items || (|w.items| < MAX_ITEMS && view <= LAST_VIEW))
  }

  /** A finished workflow is left standing: the projection takes an unfinished one that the reference
      refuses or has cleared, or keeps one that the reference ends. */
  predicate LeavesStanding(w: Workflows, view: nat, l: Ledger, u: Update) {
    && u.WorkflowUpdate? && !w.overflowed
    && var p, id := u.workflow, u.workflow.identity;
       if OutrankedIn(l, u.origin, p) then
         !Live(l, id) && !WorkflowRefused(w, u.origin, p) && TakesLive(w, view, p)
       else if WorkflowRefused(w, u.origin, p) then
         ShownLive(w, id) && (p.status == Cleared || WorkflowDone(p.status) || id in l.cleared)
       else
         && p.status != Cleared && id !in w.tombstones
         && if w.saturated then WorkflowDone(p.status) && ShownLive(w, id) else id in l.cleared && TakesLive(w, view, p)
  }

  lemma OwnQuiet(w: Workflows, view: nat, l: Ledger, u: Update)
    requires u.WorkflowUpdate? && Apart(w, l) && (w.overflowed || (ShownLive(w, u.workflow.identity) ==> Live(l, u.workflow.identity)))
    ensures var t, m, id := AfterWorkflow(w, view, u.origin, u.workflow).part, Record(l, u.origin, u.workflow), u.workflow.identity;
            t.overflowed || (ShownLive(t, id) ==> Live(m, id)) <==> !LeavesStanding(w, view, l, u)
  {
    var p, id := u.workflow, u.workflow.identity;
    ShownAfter(w, view, u.origin, p);
    LiveAfter(l, u.origin, p);
    assert id in w.items.Keys ==> id !in w.tombstones;
    assert id in l.items.Keys ==> id !in l.cleared;
    hide AfterWorkflow, Record, WorkflowRefused, OutrankedIn;
  }

  /** One workflow update keeps what is shown unfinished truly unfinished exactly when it leaves none
      standing. */
  lemma QuietIsKeptExactly(w: Workflows, view: nat, l: Ledger, u: Update)
    requires u.WorkflowUpdate? && Apart(w, l) && Quiet(w, l)
    ensures Quiet(AfterWorkflow(w, view, u.origin, u.workflow).part, Record(l, u.origin, u.workflow))
            <==> !LeavesStanding(w, view, l, u)
  {
    var p, id := u.workflow, u.workflow.identity;
    var t, m := AfterWorkflow(w, view, u.origin, p).part, Record(l, u.origin, p);
    hide AfterWorkflow, Record, LeavesStanding, Live, ShownLive;
    OwnQuiet(w, view, l, u);
    if w.overflowed {
      WorkflowFlagStays(w, view, u.origin, p);
    }
    forall other | other != id ensures Live(m, other) == Live(l, other) && ShownLive(t, other) == ShownLive(w, other) {
      OthersShownAsBefore(w, view, u.origin, p, other);
      OthersLiveAsBefore(l, u.origin, p, other);
    }
  }

  // ---------- Goals ----------

  datatype Aim = Aim(
    identity: Identity, objective: string, status: GoalStatus, phase: Option<string>, elapsedMs: Option<nat>,
    counters: map<string, nat>)

  /** The goal last pursued and every goal ended, with no limit on them. */
  datatype Aims = Aims(current: Option<Aim>, ended: set<Identity>)

  function Longer(a: Option<nat>, b: Option<nat>): Option<nat> {
    if a.None? then b else if b.None? || b.value < a.value then a else b
  }

  function Pursue(r: Aims, p: GoalPayload): Aims {
    var own := if r.current.Some? then Some(r.current.value.identity) else None;
    var id := OrElse(p.identity, own);
    if p.status == GoalCleared then
      Aims(if id == own then None else r.current, if id.Some? then r.ended + {id.value} else r.ended)
    else if id.None? || id.value in r.ended then r
    else
      var elapsed := if own == id then Longer(r.current.value.elapsedMs, p.elapsedMs) else p.elapsedMs;
      Aims(Some(Aim(id.value, p.objective, p.status, Present(p.phase), elapsed, p.counters)),
           if own.Some? && own != id then r.ended + {own.value} else r.ended)
  }

  function PursueAll(us: seq<Update>): Aims {
    if us == [] then Aims(None, {})
    else
      var before, u := PursueAll(us[..|us| - 1]), us[|us| - 1];
      if u.GoalUpdate? then Pursue(before, u.goal) else before
  }

  predicate LiveAim(r: Aims) { r.current.Some? && GoalLive(r.current.value.status) }

  predicate LiveGoal(g: Goals) { g.current.Some? && GoalLive(g.current.value.status) }

  function AsAim(g: Option<Goal>): Option<Aim> {
    if g.None? then None
    else
      Some(Aim(g.value.identity, g.value.objective, g.value.status, g.value.phase, g.value.elapsedMs, g.value.counters))
  }

  /** Until the ended goals no longer fit, the projection shows the goal last pursued, with all it says. */
  ghost predicate Tied(g: Goals, r: Aims) {
    && g.tombstones <= r.ended && (g.saturated ==> |g.tombstones| >= MAX_TOMBSTONES)
    && (g.current.Some? ==> g.current.value.identity !in g.tombstones)
    && (r.current.Some? ==> r.current.value.identity !in r.ended)
    && (!g.saturated ==> g.tombstones == r.ended && AsAim(g.current) == r.current)
  }

  predicate SameGoal(g: Goals, r: Aims) {
    g.current.Some? && r.current.Some? && g.current.value.identity == r.current.value.identity
  }

  predicate GoalProtected(g: Goals, r: Aims) { g.overflowed || (LiveAim(r) ==> LiveGoal(g) && SameGoal(g, r)) }

  predicate GoalQuiet(g: Goals, r: Aims) { g.overflowed || (LiveGoal(g) ==> LiveAim(r) && SameGoal(g, r)) }

  /** A live update that names no goal reaches a projection that has forgotten which one it was. */
  predicate LosesGoal(g: Goals, r: Aims, p: GoalPayload) {
    !g.overflowed && GoalLive(p.status) && p.identity.None? && g.current.None? && r.current.Some?
  }

  /** An update that ends the goal's work is ignored because the ended goals no longer fit. */
  predicate LeavesGoalStanding(g: Goals, r: Aims, p: GoalPayload) {
    && !g.overflowed && g.saturated && LiveGoal(g) && !GoalLive(p.status) && p.status != GoalCleared
    && (p.identity.None? || p.identity.value !in r.ended)
  }

  /** Burying a goal on both sides. */
  lemma BuriesBoth(g: Goals, ended: set<Identity>, id: Identity)
    requires g.tombstones <= ended && (g.saturated ==> |g.tombstones| >= MAX_TOMBSTONES)
    ensures var b := Bury(g, id).part;
            && b.tombstones <= ended + {id} && (b.saturated ==> |b.tombstones| >= MAX_TOMBSTONES)
            && b.tombstones <= g.tombstones + {id} && (g.saturated ==> b.saturated)
            && b.current == g.current && b.overflowed == g.overflowed
            && (!b.saturated && g.tombstones == ended ==> b.tombstones == ended + {id})
  {}

  lemma StaysTiedWhenCleared(g: Goals, view: nat, r: Aims, p: GoalPayload)
    requires Tied(g, r) && p.status == GoalCleared
    ensures Tied(AfterGoal(g, view, p).part, Pursue(r, p))
  {
    var identity := OrElse(p.identity, if g.current.Some? then Some(g.current.value.identity) else None);
    if identity.Some? {
      BuriesBoth(g, r.ended, identity.value);
    }
    hide Bury;
    if p.identity.Some? {
      ClearsOne(g, r, p.identity.value);
    } else if g.saturated {
    } else {
    }
  }

  lemma ClearsOne(g: Goals, r: Aims, id: Identity)
    requires Tied(g, r)
    ensures var b, ended := Bury(g, id).part, r.ended + {id};
            && b.tombstones <= ended && (b.saturated ==> |b.tombstones| >= MAX_TOMBSTONES)
            && (g.current.Some? && g.current.value.identity != id ==> g.current.value.identity !in b.tombstones)
            && (r.current.Some? && r.current.value.identity != id ==> r.current.value.identity !in ended)
            && (!b.saturated ==> b.tombstones == ended && AsAim(g.current) == r.current)
  {
    BuriesBoth(g, r.ended, id);
    hide Bury;
  }

  lemma StaysTiedWhenPursued(g: Goals, view: nat, r: Aims, p: GoalPayload)
    requires Tied(g, r) && p.status != GoalCleared && !g.saturated
    ensures Tied(AfterGoal(g, view, p).part, Pursue(r, p))
  {
    if g.current.Some? {
      BuriesBoth(g, r.ended, g.current.value.identity);
    }
    hide Bury, Present;
  }

  lemma StaysTied(g: Goals, view: nat, r: Aims, p: GoalPayload)
    requires Tied(g, r)
    ensures Tied(AfterGoal(g, view, p).part, Pursue(r, p))
  {
    if p.status == GoalCleared {
      StaysTiedWhenCleared(g, view, r, p);
    } else if g.saturated {
      hide Bury, Present, Pursued;
    } else {
      StaysTiedWhenPursued(g, view, r, p);
    }
  }

  lemma GoalProtectionIsKeptExactly(g: Goals, view: nat, r: Aims, p: GoalPayload)
    requires Tied(g, r) && GoalProtected(g, r)
    ensures GoalProtected(AfterGoal(g, view, p).part, Pursue(r, p)) <==> !LosesGoal(g, r, p)
  {
    if p.status == GoalCleared {
      ProtectedWhenCleared(g, view, r, p);
    } else if g.saturated {
      hide Bury, Present, Pursued;
    } else {
      ProtectedWhenPursued(g, view, r, p);
    }
  }

  lemma ProtectedWhenCleared(g: Goals, view: nat, r: Aims, p: GoalPayload)
    requires Tied(g, r) && GoalProtected(g, r) && p.status == GoalCleared
    ensures GoalProtected(AfterGoal(g, view, p).part, Pursue(r, p))
  {
    BuriesWhatItHas(g, r, p);
    hide Bury, Tied;
  }

  lemma ProtectedWhenPursued(g: Goals, view: nat, r: Aims, p: GoalPayload)
    requires Tied(g, r) && GoalProtected(g, r) && p.status != GoalCleared && !g.saturated
    ensures GoalProtected(AfterGoal(g, view, p).part, Pursue(r, p)) && !LosesGoal(g, r, p)
  {
    MirroredEnds(g, r);
    BuriesWhatItHas(g, r, p);
    hide Bury, Tied, Present, Longer;
    if p.identity.None? {
    } else if g.current.Some? && g.current.value.identity == p.identity.value {
    } else {
    }
  }

  /** What an update buries, if anything. */
  lemma BuriesWhatItHas(g: Goals, r: Aims, p: GoalPayload)
    requires Tied(g, r)
    ensures g.current.Some? ==> BuriedWell(g, r.ended, g.current.value.identity)
    ensures p.identity.Some? ==> BuriedWell(g, r.ended, p.identity.value)
  {
    if g.current.Some? {
      BuriesBoth(g, r.ended, g.current.value.identity);
    }
    if p.identity.Some? {
      BuriesBoth(g, r.ended, p.identity.value);
    }
    hide Bury;
  }

  predicate BuriedWell(g: Goals, ended: set<Identity>, id: Identity) {
    var b := Bury(g, id).part;
    && b.current == g.current && b.overflowed == g.overflowed && (g.saturated ==> b.saturated)
    && b.tombstones <= g.tombstones + {id} && b.tombstones <= ended + {id}
  }

  lemma GoalQuietIsKeptExactly(g: Goals, view: nat, r: Aims, p: GoalPayload)
    requires Tied(g, r) && GoalQuiet(g, r)
    ensures GoalQuiet(AfterGoal(g, view, p).part, Pursue(r, p)) <==> !LeavesGoalStanding(g, r, p)
  {
    if p.status == GoalCleared {
      QuietWhenCleared(g, view, r, p);
    } else if g.saturated {
      hide Bury, Present, Pursued;
    } else {
      BuriesWhatItHas(g, r, p);
      hide Bury, Present;
    }
  }

  lemma QuietWhenCleared(g: Goals, view: nat, r: Aims, p: GoalPayload)
    requires Tied(g, r) && GoalQuiet(g, r) && p.status == GoalCleared
    ensures GoalQuiet(AfterGoal(g, view, p).part, Pursue(r, p))
  {
    BuriesWhatItHas(g, r, p);
    hide Bury, Tied;
  }

  // ---------- Runs ----------

  lemma {:induction false} TiedHolds(us: seq<Update>)
    ensures Tied(Run(Initial(), us).goals, PursueAll(us))
  {
    hide Tied, AfterBackground, AfterScheduling, AfterInput, AfterWorkflow, AfterGoal, Pursue;
    if us == [] {
      NothingTied();
    } else {
      var front, u := us[..|us| - 1], us[|us| - 1];
      TiedHolds(front);
      var s := Run(Initial(), front);
      if u.GoalUpdate? {
        StaysTied(s.goals, s.nextView, PursueAll(front), u.goal);
      }
    }
  }

  lemma NothingTied()
    ensures var s := Initial();
            Tied(s.goals, Aims(None, {})) && GoalProtected(s.goals, Aims(None, {})) && GoalQuiet(s.goals, Aims(None, {}))
            && Quiet(s.workflow, RecordAll([]))
  {}

  ghost predicate LosesNoGoal(us: seq<Update>) {
    us == [] ||
    var front, u := us[..|us| - 1], us[|us| - 1];
    LosesNoGoal(front) && (u.GoalUpdate? ==> !LosesGoal(Run(Initial(), front).goals, PursueAll(front), u.goal))
  }

  ghost predicate GoalAlwaysProtected(us: seq<Update>) {
    GoalProtected(Run(Initial(), us).goals, PursueAll(us)) && (us == [] || GoalAlwaysProtected(us[..|us| - 1]))
  }

  /** A goal that is pursued is protected all along exactly in the runs that lose none. */
  lemma {:induction false} GoalsAreProtectedExactly(us: seq<Update>)
    ensures GoalAlwaysProtected(us) <==> LosesNoGoal(us)
  {
    hide Tied, GoalProtected, LosesGoal, AfterBackground, AfterScheduling, AfterInput, AfterWorkflow, AfterGoal, Pursue;
    if us == [] {
      NothingTied();
    } else {
      var front, u := us[..|us| - 1], us[|us| - 1];
      GoalsAreProtectedExactly(front);
      TiedHolds(front);
      var s := Run(Initial(), front);
      if GoalAlwaysProtected(front) && u.GoalUpdate? {
        GoalProtectionIsKeptExactly(s.goals, s.nextView, PursueAll(front), u.goal);
      }
    }
  }

  /** Every goal update but a clear says which goal it is about, as the parser sees to. */
  predicate NamesGoals(us: seq<Update>) {
    forall u <- us :: u.GoalUpdate? && u.goal.status != GoalCleared ==> u.goal.identity.Some?
  }

  lemma {:induction false} NamedGoalsAreKept(us: seq<Update>)
    requires NamesGoals(us)
    ensures LosesNoGoal(us)
  {
    if us != [] {
      var u := us[|us| - 1];
      NamedGoalsAreKept(us[..|us| - 1]);
      assert u in us;
      hide Run, PursueAll;
    }
  }

  /** A goal last reported active or paused keeps the session from eviction, also after the ended goals no
      longer fit. */
  lemma LiveGoalIsProtected(us: seq<Update>)
    requires NamesGoals(us) && LiveAim(PursueAll(us))
    ensures HasLiveProtectionWork(Run(Initial(), us))
  {
    hide Run, PursueAll, LosesNoGoal, LiveAim, NamesGoals;
    NamedGoalsAreKept(us);
    GoalsAreProtectedExactly(us);
    assert GoalProtected(Run(Initial(), us).goals, PursueAll(us));
  }

  /** Neither a workflow nor a goal that has ended is left standing. */
  ghost predicate LeavesNothing(us: seq<Update>) {
    us == [] ||
    var front, u := us[..|us| - 1], us[|us| - 1];
    var s := Run(Initial(), front);
    && LeavesNothing(front) && !LeavesStanding(s.workflow, s.nextView, RecordAll(front), u)
    && (u.GoalUpdate? ==> !LeavesGoalStanding(s.goals, PursueAll(front), u.goal))
  }

  ghost predicate AlwaysQuiet(us: seq<Update>) {
    && Quiet(Run(Initial(), us).workflow, RecordAll(us)) && GoalQuiet(Run(Initial(), us).goals, PursueAll(us))
    && (us == [] || AlwaysQuiet(us[..|us| - 1]))
  }

  /** Whatever is shown unfinished is so all along exactly in the runs that leave nothing standing. */
  lemma {:induction false} QuietExactly(us: seq<Update>)
    ensures AlwaysQuiet(us) <==> LeavesNothing(us)
  {
    hide Tied, Quiet, GoalQuiet, LeavesGoalStanding, Apart, AfterBackground, AfterScheduling, AfterInput, AfterWorkflow,
         AfterGoal, Pursue, Record;
    if us == [] {
      NothingTied();
    } else {
      var front, u := us[..|us| - 1], us[|us| - 1];
      QuietExactly(front);
      TiedHolds(front);
      ApartHolds(front);
      var s := Run(Initial(), front);
      if AlwaysQuiet(front) {
        if u.GoalUpdate? {
          GoalQuietIsKeptExactly(s.goals, s.nextView, PursueAll(front), u.goal);
        } else if u.WorkflowUpdate? {
          hide LeavesStanding;
          QuietIsKeptExactly(s.workflow, s.nextView, RecordAll(front), u);
        }
      }
    }
  }

  // ---------- The answer ----------

  predicate LiveTasks(us: seq<Update>) {
    var known := LearnAll(us);
    exists id :: id in known && !BackgroundDone(known[id].status)
  }

  predicate LiveWorkflows(us: seq<Update>) {
    var l := RecordAll(us);
    exists id :: id in l.items && !WorkflowDone(l.items[id].status)
  }

  /** What the updates alone say is unfinished. */
  predicate LiveWork(us: seq<Update>) {
    SchedulesLive(us) || LiveTasks(us) || LiveWorkflows(us) || LiveAim(PursueAll(us))
  }

  predicate Flagged(s: State) { s.background.overflowed || s.workflow.overflowed || s.goals.overflowed }

  lemma TasksAreExact(us: seq<Update>)
    requires Needs(us) <= LAST_VIEW && !Run(Initial(), us).background.overflowed
    ensures var b := Run(Initial(), us).background;
            (exists id :: id in b.items && !BackgroundDone(b.items[id].status)) <==> LiveTasks(us)
  {
    hide Run, LearnAll;
    CoverageHolds(us);
    var b := Run(Initial(), us).background;
    if id :| id in b.items && !BackgroundDone(b.items[id].status) {
      assert id in LearnAll(us);
    }
  }

  lemma WorkflowsAreExact(us: seq<Update>)
    requires LosesNothing(us) && LeavesNothing(us) && !Run(Initial(), us).workflow.overflowed
    ensures var w := Run(Initial(), us).workflow;
            (exists id :: id in w.items && !WorkflowDone(w.items[id].status)) <==> LiveWorkflows(us)
  {
    hide Run, RecordAll, LosesNothing, LeavesNothing;
    WorkflowsAreProtectedExactly(us);
    QuietExactly(us);
    var w, l := Run(Initial(), us).workflow, RecordAll(us);
    assert Protects(w, l) && Quiet(w, l);
    if id :| id in w.items && !WorkflowDone(w.items[id].status) {
      assert ShownLive(w, id) && Live(l, id);
    }
    if id :| id in l.items && !WorkflowDone(l.items[id].status) {
      assert Live(l, id) && ShownLive(w, id);
    }
  }

  lemma GoalIsExact(us: seq<Update>)
    requires LosesNoGoal(us) && LeavesNothing(us) && !Run(Initial(), us).goals.overflowed
    ensures LiveGoal(Run(Initial(), us).goals) <==> LiveAim(PursueAll(us))
  {
    hide Run, PursueAll, LosesNoGoal, LeavesNothing, LiveAim, LiveGoal;
    GoalsAreProtectedExactly(us);
    QuietExactly(us);
    assert GoalProtected(Run(Initial(), us).goals, PursueAll(us)) && GoalQuiet(Run(Initial(), us).goals, PursueAll(us));
  }

  /** While view numbers last and typed schedules carry clocks, in a run that neither loses nor leaves
      standing anything, the session is reported as live exactly when the updates leave live work or a
      flag is up. */
  lemma AnswerIsExact(us: seq<Update>)
    requires HaveClocks(us) && Needs(us) <= LAST_VIEW && LosesNothing(us) && LosesNoGoal(us) && LeavesNothing(us)
    ensures HasLiveProtectionWork(Run(Initial(), us)) <==> LiveWork(us) || Flagged(Run(Initial(), us))
  {
    var s := Run(Initial(), us);
    SchedulesAreExact(us);
    hide Run, LearnAll, RecordAll, PursueAll, LosesNothing, LosesNoGoal, LeavesNothing, SchedulesLive, LiveTasks, LiveWorkflows,
         LiveAim, HaveClocks, Needs;
    if !Flagged(s) {
      TasksAreExact(us);
      WorkflowsAreExact(us);
      GoalIsExact(us);
    }
  }

  /** Live schedules alone are enough. */
  lemma LiveScheduleIsProtected(us: seq<Update>)
    requires HaveClocks(us) && Needs(us) <= LAST_VIEW && SchedulesLive(us)
    ensures HasLiveProtectionWork(Run(Initial(), us))
  {
    SchedulesAreExact(us);
    hide Run, SchedulesLive;
  }

  // ---------- A finished goal that is left standing ----------

  function Aiming(id: Option<Identity>, status: GoalStatus): Update {
    GoalUpdate(GoalPayload(id, "objective", status, None, None, map[]))
  }

  /** One completed goal after another. */
  function Finishing(n: nat): seq<Update> {
    if n == 0 then [] else Finishing(n - 1) + [Aiming(Some(Named(n - 1)), GoalCompleted)]
  }

  /** The last of `n` goals is current and finished, the others are buried, and nothing else is there. */
  ghost predicate Aimed(s: State, r: Aims, n: nat) {
    && n > 0 && s == Initial().(goals := s.goals) && Tied(s.goals, r) && !s.goals.saturated && !s.goals.overflowed
    && r.current.Some? && r.current.value.identity == Named(n - 1) && r.current.value.status == GoalCompleted
    && |r.ended| == n - 1 && forall id <- r.ended :: |id| < n
  }

  lemma AimsNext(s: State, r: Aims, n: nat)
    requires Aimed(s, r, n) && n <= MAX_TOMBSTONES
    ensures var u := Aiming(Some(Named(n)), GoalCompleted); Aimed(Reduce(s, u), Pursue(r, u.goal), n + 1)
  {
    var u := Aiming(Some(Named(n)), GoalCompleted);
    assert |Named(n)| == n + 1 && |Named(n - 1)| == n;
    StaysTied(s.goals, s.nextView, r, u.goal);
    hide Tied;
    assert s.goals.tombstones == r.ended by { MirroredEnds(s.goals, r); }
    assert s.goals.current.Some? && s.goals.current.value.identity == Named(n - 1) by { MirroredEnds(s.goals, r); }
  }

  lemma MirroredEnds(g: Goals, r: Aims)
    requires Tied(g, r) && !g.saturated
    ensures g.tombstones == r.ended && AsAim(g.current) == r.current
  {}

  lemma OneAimLater(us: seq<Update>, u: Update)
    requires u.GoalUpdate?
    ensures Run(Initial(), us + [u]) == Reduce(Run(Initial(), us), u) && PursueAll(us + [u]) == Pursue(PursueAll(us), u.goal)
    ensures Needs(us + [u]) == Needs(us) && RecordAll(us + [u]) == RecordAll(us) && LearnAll(us + [u]) == LearnAll(us)
    ensures Top(us + [u]) == Top(us) && LegacyAll(us + [u]) == LegacyAll(us)
  {
    assert (us + [u])[..|us|] == us;
    NeverBelow(us, 0);
    hide Reduce, Pursue, Need;
  }

  /** Nothing but goals. */
  predicate Plain(us: seq<Update>) {
    Needs(us) == 0 && RecordAll(us).items == map[] && LearnAll(us) == map[] && Top(us) == -1
    && LegacyAll(us) == LegacyTable({}, false, map[])
  }

  lemma {:induction false} GoalsFill(n: nat)
    requires 0 < n <= MAX_TOMBSTONES + 1
    ensures Aimed(Run(Initial(), Finishing(n)), PursueAll(Finishing(n)), n) && Plain(Finishing(n))
  {
    hide Aimed, Reduce, Pursue, Run, PursueAll, Needs, RecordAll, LearnAll, Top, LegacyAll, Named;
    if n == 1 {
      FirstAim();
    } else {
      GoalsFill(n - 1);
      OneAimLater(Finishing(n - 1), Aiming(Some(Named(n - 1)), GoalCompleted));
      AimsNext(Run(Initial(), Finishing(n - 1)), PursueAll(Finishing(n - 1)), n - 1);
    }
  }

  lemma FirstAim()
    ensures Aimed(Run(Initial(), Finishing(1)), PursueAll(Finishing(1)), 1) && Plain(Finishing(1))
  {
    var u := Aiming(Some(Named(0)), GoalCompleted);
    assert Finishing(1) == [] + [u] by { assert Finishing(0) == []; }
    OneAimLater([], u);
    assert Run(Initial(), []) == Initial() && PursueAll([]) == Aims(None, {});
  }

  /** The ended goals have filled their set; one more is pursued, and its end is ignored. */
  function StandingRun(): seq<Update> {
    var id := Some(Named(MAX_TOMBSTONES + 1));
    Finishing(MAX_TOMBSTONES + 1) + [Aiming(id, GoalActive)] + [Aiming(id, GoalCompleted)]
  }

  lemma LastTwo(s: State, r: Aims, id: Identity)
    requires Aimed(s, r, MAX_TOMBSTONES + 1) && id == Named(MAX_TOMBSTONES + 1)
    ensures var u, v := Aiming(Some(id), GoalActive), Aiming(Some(id), GoalCompleted);
            var t, q := Reduce(Reduce(s, u), v), Pursue(Pursue(r, u.goal), v.goal);
            HasLiveProtectionWork(t) && !Flagged(t) && !LiveAim(q)
  {
    assert |id| == MAX_TOMBSTONES + 2 && |Named(MAX_TOMBSTONES)| == MAX_TOMBSTONES + 1;
    MirroredEnds(s.goals, r);
    hide Tied;
  }

  /** With nothing live in the updates and no flag up, the session is reported as live for good. */
  lemma FinishedGoalCanStand()
    ensures var us := StandingRun();
            && HaveClocks(us) && NamesGoals(us) && Needs(us) <= LAST_VIEW
            && !LiveWork(us) && !Flagged(Run(Initial(), us)) && HasLiveProtectionWork(Run(Initial(), us))
  {
    var full, id := Finishing(MAX_TOMBSTONES + 1), Named(MAX_TOMBSTONES + 1);
    var u, v := Aiming(Some(id), GoalActive), Aiming(Some(id), GoalCompleted);
    assert StandingRun() == full + [u] + [v];
    GoalsAreNamed(MAX_TOMBSTONES + 1);
    assert HaveClocks(full + [u] + [v]) && NamesGoals(full + [u] + [v]) by { hide Finishing, Named; }
    hide Aimed, Reduce, Pursue, Run, PursueAll, Named, Finishing, StandingRun, HasLiveProtectionWork, LiveAim, LiveWork, Flagged,
         Plain, HaveClocks, NamesGoals;
    GoalsFill(MAX_TOMBSTONES + 1);
    PlainLater(full, u);
    PlainLater(full + [u], v);
    LastTwo(Run(Initial(), full), PursueAll(full), id);
    PlainIsIdle(full + [u] + [v]);
  }

  lemma PlainLater(us: seq<Update>, u: Update)
    requires u.GoalUpdate? && Plain(us)
    ensures Run(Initial(), us + [u]) == Reduce(Run(Initial(), us), u) && PursueAll(us + [u]) == Pursue(PursueAll(us), u.goal)
    ensures Plain(us + [u])
  {
    OneAimLater(us, u);
    hide Run, PursueAll, Reduce, Pursue, Needs, RecordAll, LearnAll, Top, LegacyAll;
  }

  lemma PlainIsIdle(us: seq<Update>)
    requires Plain(us) && !LiveAim(PursueAll(us))
    ensures Needs(us) <= LAST_VIEW && !LiveWork(us)
  {
    hide PursueAll, Needs, RecordAll, LearnAll, Top, LegacyAll, Replay, Survivors;
  }

  lemma {:induction false} GoalsAreNamed(n: nat)
    ensures HaveClocks(Finishing(n)) && NamesGoals(Finishing(n))
  {
    if n > 0 {
      GoalsAreNamed(n - 1);
    }
  }
}
