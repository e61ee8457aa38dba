/** What the activity projection guarantees over whole runs: when live work is protected and when
    it is forgotten, and that cleared identities never return. */
module ActivityProtection {
  import opened Results
  import opened Activity

  // ---------- Background tasks against an uncapped reference ----------

  /** What was last reported of a task, and how many reports there were. */
  datatype Task = Task(kind: string, name: string, status: BackgroundStatus, reports: nat)

  /** Every task ever reported: no cap and no view numbers. */
  type Known = map<Identity, Task>

  function Learn(known: Known, u: Update): Known {
    if !u.BackgroundUpdate? then known
    else if u.task in known && BackgroundDone(known[u.task].status) && u.status == Running then known
    else known[u.task := Task(u.kind, u.name, u.status, BoundedIncrement(if u.task in known then known[u.task].reports else 0))]
  }

  function LearnAll(us: seq<Update>): Known {
    if us == [] then map[] else Learn(LearnAll(us[..|us| - 1]), us[|us| - 1])
  }

  function AsTask(b: Background): Task { Task(b.kind, b.title, b.status, b.updateCount) }

  /** What is shown agrees with the reference in all it says; what is not shown is finished or flagged, and was
      refused because the map was full or the view numbers had run out. */
  ghost predicate Covers(b: Backgrounds, view: nat, known: Known) {
    && (forall id :: id in b.items ==> id in known && known[id] == AsTask(b.items[id]))
    && (forall id :: id in known && id !in b.items ==>
          (BackgroundDone(known[id].status) || b.overflowed) && (|b.items| >= MAX_ITEMS || view > LAST_VIEW))
  }

  /** A live task is turned away for want of a view number, and nothing is flagged. */
  predicate LosesTask(b: Backgrounds, view: nat, known: Known, u: Update) {
    && u.BackgroundUpdate? && u.task !in b.items && !BackgroundDone(Learn(known, u)[u.task].status)
    && |b.items| < MAX_ITEMS && view > LAST_VIEW && !b.overflowed
  }

  lemma GrowsByOne<T>(m: map<Identity, T>, id: Identity, item: T)
    ensures |m[id := item]| <= |m| + 1
    ensures id in m ==> |m[id := item]| == |m|
  {
    assert m[id := item].Keys == m.Keys + {id};
    if id in m {
      assert m.Keys + {id} == m.Keys;
    }
  }

  /** One background update keeps the coverage exactly when it loses no task. */
  lemma CoverageIsKeptExactly(b: Backgrounds, view: nat, known: Known, u: Update)
    requires u.BackgroundUpdate? && Covers(b, view, known)
    ensures var step := AfterBackground(b, view, u);
            Covers(step.part, step.nextView, Learn(known, u)) <==> !LosesTask(b, view, known, u)
  {
    var step := AfterBackground(b, view, u);
    if u.task in step.part.items {
      GrowsByOne(b.items, u.task, step.part.items[u.task]);
    }
  }

  /** Time passing elsewhere does not undo coverage. */
  lemma CoverageOutlivesViews(b: Backgrounds, view: nat, later: nat, known: Known)
    requires Covers(b, view, known) && view <= later
    ensures Covers(b, later, known)
  {}

  lemma {:induction false} CoverageHolds(us: seq<Update>)
    requires Needs(us) <= LAST_VIEW
    ensures var s := Run(Initial(), us); Covers(s.background, s.nextView, LearnAll(us))
  {
    hide Covers, Reduce, AfterBackground;
    if us == [] {
      NothingKnown();
    } else {
      var front, u := us[..|us| - 1], us[|us| - 1];
      CoverageHolds(front);
      NeedsAreEnough(front);
      var s := Run(Initial(), front);
      CoverageStep(s, u, LearnAll(front));
    }
  }

  lemma NothingKnown()
    ensures Covers(Initial().background, 1, map[])
  {}

  lemma CoverageStep(s: State, u: Update, known: Known)
    requires Covers(s.background, s.nextView, known)
    requires u.BackgroundUpdate? ==> s.nextView <= LAST_VIEW
    ensures Covers(Reduce(s, u).background, Reduce(s, u).nextView, Learn(known, u))
  {
    hide Covers, AfterBackground, AfterScheduling, AfterInput, AfterWorkflow, AfterGoal;
    if u.BackgroundUpdate? {
      CoverageIsKeptExactly(s.background, s.nextView, known, u);
    } else {
      NeedIsEnough(s, u);
      CoverageOutlivesViews(s.background, s.nextView, Reduce(s, u).nextView, known);
    }
  }

  /** While view numbers last, a session with a background task that the uncapped reference knows
      to be unfinished is never reported safe to evict. */
  lemma LiveTaskIsProtected(us: seq<Update>, id: Identity)
    requires Needs(us) <= LAST_VIEW
    requires id in LearnAll(us) && !BackgroundDone(LearnAll(us)[id].status)
    ensures HasLiveProtectionWork(Run(Initial(), us))
  {
    hide Run, Reduce, LearnAll;
    CoverageHolds(us);
  }

  /** Once the numbers have run out, a new live task goes unnoticed. */
  lemma ExhaustionHidesATask(s: State, u: Update)
    requires !HasLiveProtectionWork(s) && s.nextView > LAST_VIEW && |s.background.items| < MAX_ITEMS
    requires u.BackgroundUpdate? && u.task !in s.background.items && u.status == Running
    ensures !HasLiveProtectionWork(Reduce(s, u))
  {
    assert Reduce(s, u).background == s.background;
  }

  // ---------- Protection flags ----------

  /** The flags of `before` are still up. */
  predicate StillFlagged(before: State, after: State) {
    && (before.background.overflowed ==> after.background.overflowed)
    && (before.workflow.overflowed ==> after.workflow.overflowed)
    && (before.goals.overflowed ==> after.goals.overflowed)
  }

  lemma TaskFlagStays(b: Backgrounds, view: nat, u: Update)
    requires u.BackgroundUpdate? && b.overflowed
    ensures AfterBackground(b, view, u).part.overflowed
  {}

  lemma WorkflowFlagStays(w: Workflows, view: nat, origin: Source, p: WorkflowPayload)
    requires w.overflowed
    ensures AfterWorkflow(w, view, origin, p).part.overflowed
  {}

  lemma GoalFlagStays(g: Goals, view: nat, p: GoalPayload)
    requires g.overflowed
    ensures AfterGoal(g, view, p).part.overflowed
  {}

  lemma FlagsStay(s: State, u: Update)
    ensures StillFlagged(s, Reduce(s, u))
  {
    hide AfterScheduling, AfterInput, AfterBackground, AfterWorkflow, AfterGoal;
    match u {
      case BackgroundUpdate(_, _, _, _) => if s.background.overflowed { TaskFlagStays(s.background, s.nextView, u); }
      case WorkflowUpdate(origin, p) => if s.workflow.overflowed { WorkflowFlagStays(s.workflow, s.nextView, origin, p); }
      case GoalUpdate(p) => if s.goals.overflowed { GoalFlagStays(s.goals, s.nextView, p); }
      case _ =>
    }
  }

  lemma {:induction false} FlagsAreNeverCleared(s: State, us: seq<Update>)
    ensures StillFlagged(s, Run(s, us))
  {
    hide Reduce;
    if us != [] {
      FlagsAreNeverCleared(s, us[..|us| - 1]);
      FlagsStay(Run(s, us[..|us| - 1]), us[|us| - 1]);
    }
  }

  // ---------- Cleared identities ----------

  /** The workflow is not shown and can never be shown again. */
  predicate WorkflowBuried(s: State, id: Identity) {
    id !in s.workflow.items && (id in s.workflow.tombstones || s.workflow.saturated)
  }

  predicate GoalBuried(s: State, id: Identity) {
    && (s.goals.current.Some? ==> s.goals.current.value.identity != id)
    && (id in s.goals.tombstones || s.goals.saturated)
  }

  lemma WorkflowStaysBuried(s: State, u: Update, id: Identity)
    requires WorkflowBuried(s, id)
    ensures WorkflowBuried(Reduce(s, u), id)
  {
    hide AfterScheduling, AfterInput, AfterBackground, AfterGoal, AfterWorkflow;
    if u.WorkflowUpdate? {
      StaysOut(s.workflow, s.nextView, u.origin, u.workflow, id);
    }
  }

  lemma StaysOut(w: Workflows, view: nat, origin: Source, p: WorkflowPayload, id: Identity)
    requires id !in w.items && (id in w.tombstones || w.saturated)
    ensures var t := AfterWorkflow(w, view, origin, p).part; id !in t.items && (id in t.tombstones || t.saturated)
  {
    hide Shown, WorkflowRefused, WorkflowDone;
  }

  lemma GoalStaysBuried(s: State, u: Update, id: Identity)
    requires GoalBuried(s, id)
    ensures GoalBuried(Reduce(s, u), id)
  {
    hide AfterScheduling, AfterInput, AfterBackground, AfterWorkflow;
  }

  /** A clear is effective exactly when it is neither a legacy one for a typed workflow nor stale. */
  lemma ClearBuriesUnlessRefused(s: State, origin: Source, p: WorkflowPayload)
    requires p.status == Cleared
    ensures WorkflowBuried(Reduce(s, WorkflowUpdate(origin, p)), p.identity) <==> !WorkflowRefused(s.workflow, origin, p)
  {}

  /** The goal identities an update ends: the one it clears, and the one it replaces. */
  predicate EndsGoal(g: Goals, p: GoalPayload, id: Identity) {
    if p.status == GoalCleared then
      p.identity == Some(id) || (p.identity.None? && g.current.Some? && g.current.value.identity == id)
    else
      && g.current.Some? && g.current.value.identity == id && p.identity.Some? && p.identity.value != id
      && p.identity.value !in g.tombstones && !g.saturated
  }

  lemma EndedGoalIsBuried(s: State, p: GoalPayload, id: Identity)
    requires EndsGoal(s.goals, p, id)
    ensures GoalBuried(Reduce(s, GoalUpdate(p)), id)
  {}

  lemma {:induction false} BuriedForever(s: State, us: seq<Update>, id: Identity)
    ensures WorkflowBuried(s, id) ==> WorkflowBuried(Run(s, us), id)
    ensures GoalBuried(s, id) ==> GoalBuried(Run(s, us), id)
  {
    hide Reduce, WorkflowBuried, GoalBuried;
    if us != [] {
      BuriedForever(s, us[..|us| - 1], id);
      var front := Run(s, us[..|us| - 1]);
      if WorkflowBuried(front, id) {
        WorkflowStaysBuried(front, us[|us| - 1], id);
      }
      if GoalBuried(front, id) {
        GoalStaysBuried(front, us[|us| - 1], id);
      }
    }
  }

  /** From any state, through any later run: an effective clear is final, even after the
      tombstone set has saturated. */
  lemma ClearedWorkflowNeverReturns(s: State, origin: Source, p: WorkflowPayload, us: seq<Update>)
    requires p.status == Cleared && !WorkflowRefused(s.workflow, origin, p)
    ensures p.identity !in Run(Reduce(s, WorkflowUpdate(origin, p)), us).workflow.items
  {
    hide Run, Reduce, WorkflowRefused;
    ClearBuriesUnlessRefused(s, origin, p);
    BuriedForever(Reduce(s, WorkflowUpdate(origin, p)), us, p.identity);
  }

  lemma EndedGoalNeverReturns(s: State, p: GoalPayload, id: Identity, us: seq<Update>)
    requires EndsGoal(s.goals, p, id)
    ensures var g := Run(Reduce(s, GoalUpdate(p)), us).goals.current; g.Some? ==> g.value.identity != id
  {
    hide Run, Reduce, EndsGoal;
    EndedGoalIsBuried(s, p, id);
    BuriedForever(Reduce(s, GoalUpdate(p)), us, id);
  }

  /** Some goal has this identity and at least this elapsed time. */
  predicate Elapsed(g: Goals, id: Identity, ms: nat) {
    g.current.Some? && g.current.value.identity == id && g.current.value.elapsedMs.Some? && g.current.value.elapsedMs.value >= ms
  }

  lemma ElapsedOrBuried(s: State, u: Update, id: Identity, ms: nat)
    requires Elapsed(s.goals, id, ms)
    ensures Elapsed(Reduce(s, u).goals, id, ms) || GoalBuried(Reduce(s, u), id)
  {
    hide AfterScheduling, AfterInput, AfterBackground, AfterWorkflow;
  }

  lemma {:induction false} StaysElapsedOrBuried(s: State, us: seq<Update>, id: Identity, ms: nat)
    requires Elapsed(s.goals, id, ms)
    ensures Elapsed(Run(s, us).goals, id, ms) || GoalBuried(Run(s, us), id)
  {
    hide Reduce, Elapsed, GoalBuried;
    if us != [] {
      var front, u := us[..|us| - 1], us[|us| - 1];
      StaysElapsedOrBuried(s, front, id, ms);
      if Elapsed(Run(s, front).goals, id, ms) {
        ElapsedOrBuried(Run(s, front), u, id, ms);
      } else {
        GoalStaysBuried(Run(s, front), u, id);
      }
    }
  }

  /** Through any run, whatever came in between: where the same goal is current again, its elapsed time
      has not gone back. */
  lemma ElapsedNeverGoesBack(s: State, us: seq<Update>)
    ensures var before, after := s.goals.current, Run(s, us).goals.current;
            before.Some? && after.Some? && before.value.identity == after.value.identity && before.value.elapsedMs.Some?
            ==> after.value.elapsedMs.Some? && after.value.elapsedMs.value >= before.value.elapsedMs.value
  {
    var before := s.goals.current;
    if before.Some? && before.value.elapsedMs.Some? {
      StaysElapsedOrBuried(s, us, before.value.identity, before.value.elapsedMs.value);
    }
    hide Run, Reduce;
  }

  // ---------- Workflows against an uncapped reference ----------

  datatype Version = Version(
    source: Source, revision: Option<nat>, name: string, objective: Option<string>, status: WorkflowStatus,
    phase: Option<string>, counters: map<string, nat>)

  function VersionOf(origin: Source, p: WorkflowPayload): Version {
    Version(origin, p.revision, p.name, Present(p.objective), p.status, Present(p.phase), p.counters)
  }

  /** The same rules with no cap, no view numbers and no limit on what has been cleared. */
  datatype Ledger = Ledger(items: map<Identity, Version>, cleared: set<Identity>)

  function Record(l: Ledger, origin: Source, p: WorkflowPayload): Ledger {
    if p.identity in l.items && Outranked(l.items[p.identity], origin, p) then l
    else if p.status == Cleared then Ledger(l.items - {p.identity}, l.cleared + {p.identity})
    else if p.identity in l.cleared then l
    else l.(items := l.items[p.identity := VersionOf(origin, p)])
  }

  predicate Outranked(v: Version, origin: Source, p: WorkflowPayload) {
    || (origin == Legacy && v.source == Typed)
    || (origin == Typed && v.revision.Some? && p.revision.Some? && p.revision.value <= v.revision.value)
  }

  function RecordAll(us: seq<Update>): Ledger {
    if us == [] then Ledger(map[], {})
    else
      var before, u := RecordAll(us[..|us| - 1]), us[|us| - 1];
      if u.WorkflowUpdate? then Record(before, u.origin, u.workflow) else before
  }

  ghost predicate Shows(w: Workflow, v: Version) {
    v == Version(w.source, w.revision, w.name, w.objective, w.status, w.phase, w.counters)
  }

  /** Until the flag is up, the projection shows exactly what the reference knows. */
  ghost predicate Mirrors(w: Workflows, l: Ledger) {
    w.overflowed ||
    (&& w.items.Keys == l.items.Keys && (forall id :: id in w.items ==> Shows(w.items[id], l.items[id]))
     && w.tombstones <= l.cleared && (w.saturated || w.tombstones == l.cleared))
  }

  /** An update is dropped and nothing is flagged: a finished workflow for capacity or saturation, or
      any new one for want of a view number. */
  predicate DropsSilently(w: Workflows, view: nat, u: Update) {
    && u.WorkflowUpdate? && u.workflow.status != Cleared
    && !WorkflowRefused(w, u.origin, u.workflow) && u.workflow.identity !in w.tombstones
    && if w.saturated then WorkflowDone(u.workflow.status)
       else
         && u.workflow.identity !in w.items
         && if |w.items| >= MAX_ITEMS then WorkflowDone(u.workflow.status) else view > LAST_VIEW
  }

  /** The reference records something that the projection drops. */
  predicate FallsBehind(w: Workflows, view: nat, l: Ledger, u: Update) {
    !w.overflowed && DropsSilently(w, view, u) && Record(l, u.origin, u.workflow) != l
  }

  lemma RefusalsAgree(w: Workflows, l: Ledger, origin: Source, p: WorkflowPayload)
    requires Mirrors(w, l) && !w.overflowed
    ensures WorkflowRefused(w, origin, p) <==> p.identity in l.items && Outranked(l.items[p.identity], origin, p)
  {
    assert p.identity in w.items.Keys <==> p.identity in l.items.Keys;
  }

  lemma MirrorClear(w: Workflows, view: nat, l: Ledger, origin: Source, p: WorkflowPayload)
    requires Mirrors(w, l) && !w.overflowed && !WorkflowRefused(w, origin, p) && p.status == Cleared
    ensures Mirrors(AfterWorkflow(w, view, origin, p).part, Ledger(l.items - {p.identity}, l.cleared + {p.identity}))
  {
    hide WorkflowRefused, Shows;
    var items := l.items - {p.identity};
    assert items.Keys == l.items.Keys - {p.identity};
    assert (w.items - {p.identity}).Keys == items.Keys;
  }

  lemma MirrorShow(w: Workflows, l: Ledger, view: nat, origin: Source, p: WorkflowPayload)
    requires Mirrors(w, l) && !w.overflowed
    ensures Mirrors(w.(items := w.items[p.identity := Shown(view, origin, p)]),
                    l.(items := l.items[p.identity := VersionOf(origin, p)]))
  {
    var w', l' := w.items[p.identity := Shown(view, origin, p)], l.items[p.identity := VersionOf(origin, p)];
    assert w'.Keys == w.items.Keys + {p.identity} == l'.Keys;
  }

  lemma DroppingBreaksTheMirror(w: Workflows, view: nat, l: Ledger, u: Update)
    requires Mirrors(w, l) && !w.overflowed && DropsSilently(w, view, u)
    ensures AfterWorkflow(w, view, u.origin, u.workflow).part == w
    ensures Mirrors(w, Record(l, u.origin, u.workflow)) ==> Record(l, u.origin, u.workflow) == l
  {
    assert u.workflow.identity in w.items.Keys <==> u.workflow.identity in l.items.Keys;
  }

  /** One workflow update keeps the projection in step with the reference exactly when it does not
      make it fall behind. */
  lemma MirrorIsKeptExactly(w: Workflows, view: nat, l: Ledger, u: Update)
    requires u.WorkflowUpdate? && Mirrors(w, l)
    ensures Mirrors(AfterWorkflow(w, view, u.origin, u.workflow).part, Record(l, u.origin, u.workflow))
            <==> !FallsBehind(w, view, l, u)
  {
    var p := u.workflow;
    if w.overflowed {
      assert AfterWorkflow(w, view, u.origin, p).part.overflowed;
    } else if DropsSilently(w, view, u) {
      hide AfterWorkflow, DropsSilently, Record;
      DroppingBreaksTheMirror(w, view, l, u);
    } else {
      RefusalsAgree(w, l, u.origin, p);
      hide WorkflowRefused, Outranked, Shows;
      if p.status == Cleared && !WorkflowRefused(w, u.origin, p) {
        MirrorClear(w, view, l, u.origin, p);
      } else if p.identity in w.items {
        MirrorShow(w, l, w.items[p.identity].view, u.origin, p);
      } else {
        MirrorShow(w, l, view, u.origin, p);
      }
    }
  }

  /** No update of the run makes the projection fall behind. */
  ghost predicate KeepsUp(us: seq<Update>) {
    us == [] ||
    var front, s := us[..|us| - 1], Run(Initial(), us[..|us| - 1]);
    KeepsUp(front) && !FallsBehind(s.workflow, s.nextView, RecordAll(front), us[|us| - 1])
  }

  ghost predicate AlwaysMirrors(us: seq<Update>) {
    Mirrors(Run(Initial(), us).workflow, RecordAll(us)) && (us == [] || AlwaysMirrors(us[..|us| - 1]))
  }

  /** The projection is in step with the reference all along exactly in the runs that keep up. */
  lemma {:induction false} InStepExactly(us: seq<Update>)
    ensures AlwaysMirrors(us) <==> KeepsUp(us)
  {
    if us != [] {
      var front, u := us[..|us| - 1], us[|us| - 1];
      InStepExactly(front);
      hide Mirrors, AfterBackground, AfterScheduling, AfterInput, AfterWorkflow, AfterGoal, Record, DropsSilently;
      var s := Run(Initial(), front);
      if AlwaysMirrors(front) && u.WorkflowUpdate? {
        MirrorIsKeptExactly(s.workflow, s.nextView, RecordAll(front), u);
      }
    } else {
      assert Mirrors(Initial().workflow, RecordAll([]));
    }
  }

  // ---------- When a live workflow is protected ----------

  predicate Live(l: Ledger, id: Identity) { id in l.items && !WorkflowDone(l.items[id].status) }

  predicate ShownLive(w: Workflows, id: Identity) { id in w.items && !WorkflowDone(w.items[id].status) }

  /** What has been cleared is not there. */
  predicate Apart(w: Workflows, l: Ledger) { w.items.Keys !! w.tombstones && l.items.Keys !! l.cleared }

  /** Every workflow that the reference knows to be unfinished is shown as such, or the flag is up. */
  ghost predicate Protects(w: Workflows, l: Ledger) {
    w.overflowed || forall id :: Live(l, id) ==> ShownLive(w, id)
  }

  predicate OutrankedIn(l: Ledger, origin: Source, p: WorkflowPayload) {
    p.identity in l.items && Outranked(l.items[p.identity], origin, p)
  }

  /** A workflow is lost: the reference takes an unfinished one that the projection refuses, has
      buried or has no view number for; or the reference keeps an unfinished one that the
      projection ends. */
  predicate LosesWorkflow(w: Workflows, view: nat, l: Ledger, u: Update) {
    && u.WorkflowUpdate? && !w.overflowed
    && var p, id := u.workflow, u.workflow.identity;
       if OutrankedIn(l, u.origin, p) then
         && Live(l, id) && !WorkflowRefused(w, u.origin, p)
         && (p.status == Cleared || (WorkflowDone(p.status) && !w.saturated))
       else
         && !WorkflowDone(p.status) && p.status != Cleared && id !in l.cleared
         && if WorkflowRefused(w, u.origin, p) then !ShownLive(w, id)
            else id in w.tombstones || (!w.saturated && id !in w.items && |w.items| < MAX_ITEMS && view > LAST_VIEW)
  }

  lemma ApartStays(w: Workflows, view: nat, l: Ledger, origin: Source, p: WorkflowPayload)
    requires Apart(w, l)
    ensures Apart(AfterWorkflow(w, view, origin, p).part, Record(l, origin, p))
  {
    hide WorkflowRefused, Outranked, Shown;
    ShownApart(w, view, origin, p);
    LedgerApart(l, origin, p);
  }

  lemma ShownApart(w: Workflows, view: nat, origin: Source, p: WorkflowPayload)
    requires w.items.Keys !! w.tombstones
    ensures var t := AfterWorkflow(w, view, origin, p).part; t.items.Keys !! t.tombstones
  {
    hide WorkflowRefused, Shown;
  }

  lemma LedgerApart(l: Ledger, origin: Source, p: WorkflowPayload)
    requires l.items.Keys !! l.cleared
    ensures var m := Record(l, origin, p); m.items.Keys !! m.cleared
  {
    hide Outranked;
  }

  /** What becomes of the projection's knowledge of the workflow an update is about. */
  lemma ShownAfter(w: Workflows, view: nat, origin: Source, p: WorkflowPayload)
    ensures var t, id := AfterWorkflow(w, view, origin, p).part, p.identity;
            var passed := !WorkflowRefused(w, origin, p) && (p.status == Cleared || id !in w.tombstones);
            var room := id in w.items || (|w.items| < MAX_ITEMS && view <= LAST_VIEW);
            && (ShownLive(t, id) <==>
                  if passed && (p.status == Cleared || (!w.saturated && room)) then p.status != Cleared && !WorkflowDone(p.status)
                  else ShownLive(w, id))
            && (t.overflowed <==>
                  w.overflowed || (passed && p.status != Cleared && !WorkflowDone(p.status)
                                   && (w.saturated || (id !in w.items && |w.items| >= MAX_ITEMS))))
  {
    hide WorkflowRefused;
  }

  lemma LiveAfter(l: Ledger, origin: Source, p: WorkflowPayload)
    ensures Live(Record(l, origin, p), p.identity) <==>
            if OutrankedIn(l, origin, p) || (p.status != Cleared && p.identity in l.cleared) then Live(l, p.identity)
            else p.status != Cleared && !WorkflowDone(p.status)
  {
    hide Outranked;
  }

  lemma OthersShownAsBefore(w: Workflows, view: nat, origin: Source, p: WorkflowPayload, id: Identity)
    requires id != p.identity
    ensures ShownLive(AfterWorkflow(w, view, origin, p).part, id) == ShownLive(w, id)
  {
    OthersUntouched(w, view, origin, p, id);
    hide AfterWorkflow, WorkflowDone;
  }

  lemma OthersUntouched(w: Workflows, view: nat, origin: Source, p: WorkflowPayload, id: Identity)
    requires id != p.identity
    ensures var t := AfterWorkflow(w, view, origin, p).part;
            (id in t.items <==> id in w.items) && (id in w.items ==> t.items[id] == w.items[id])
  {
    hide WorkflowRefused, Shown, WorkflowDone;
  }

  lemma OthersLiveAsBefore(l: Ledger, origin: Source, p: WorkflowPayload, id: Identity)
    requires id != p.identity
    ensures Live(Record(l, origin, p), id) == Live(l, id)
  {
    hide Outranked;
  }

  lemma OwnProtection(w: Workflows, view: nat, l: Ledger, u: Update)
    requires u.WorkflowUpdate? && Apart(w, l) && (w.overflowed || (Live(l, u.workflow.identity) ==> ShownLive(w, u.workflow.identity)))
    ensures var t, m, id := AfterWorkflow(w, view, u.origin, u.workflow).part, Record(l, u.origin, u.workflow), u.workflow.identity;
            t.overflowed || (Live(m, id) ==> ShownLive(t, id)) <==> !LosesWorkflow(w, view, l, u)
  {
    var p, id := u.workflow, u.workflow.identity;
    ShownAfter(w, view, u.origin, p);
    LiveAfter(l, u.origin, p);
    assert id in w.items.Keys ==> id !in w.tombstones;
    assert id in l.items.Keys ==> id !in l.cleared;
    hide AfterWorkflow, Record, WorkflowRefused, OutrankedIn;
  }

  /** One workflow update keeps the protection exactly when it loses no workflow. */
  lemma ProtectionIsKeptExactly(w: Workflows, view: nat, l: Ledger, u: Update)
    requires u.WorkflowUpdate? && Apart(w, l) && Protects(w, l)
    ensures Protects(AfterWorkflow(w, view, u.origin, u.workflow).part, Record(l, u.origin, u.workflow))
            <==> !LosesWorkflow(w, view, l, u)
  {
    var p, id := u.workflow, u.workflow.identity;
    var t, m := AfterWorkflow(w, view, u.origin, p).part, Record(l, u.origin, p);
    hide AfterWorkflow, Record, LosesWorkflow, Live, ShownLive;
    OwnProtection(w, view, l, u);
    if w.overflowed {
      WorkflowFlagStays(w, view, u.origin, p);
    }
    forall other | other != id ensures Live(m, other) == Live(l, other) && ShownLive(t, other) == ShownLive(w, other) {
      OthersShownAsBefore(w, view, u.origin, p, other);
      OthersLiveAsBefore(l, u.origin, p, other);
    }
  }

  ghost predicate LosesNothing(us: seq<Update>) {
    us == [] ||
    var front, s := us[..|us| - 1], Run(Initial(), us[..|us| - 1]);
    LosesNothing(front) && !LosesWorkflow(s.workflow, s.nextView, RecordAll(front), us[|us| - 1])
  }

  ghost predicate AlwaysProtects(us: seq<Update>) {
    Protects(Run(Initial(), us).workflow, RecordAll(us)) && (us == [] || AlwaysProtects(us[..|us| - 1]))
  }

  lemma {:induction false} ApartHolds(us: seq<Update>)
    ensures Apart(Run(Initial(), us).workflow, RecordAll(us))
  {
    hide Apart, AfterBackground, AfterScheduling, AfterInput, AfterWorkflow, AfterGoal, Record;
    if us == [] {
      assert Apart(Initial().workflow, RecordAll([])) by { NothingApart(); }
    } else {
      var front, u := us[..|us| - 1], us[|us| - 1];
      ApartHolds(front);
      var s := Run(Initial(), front);
      if u.WorkflowUpdate? {
        ApartStays(s.workflow, s.nextView, RecordAll(front), u.origin, u.workflow);
      }
    }
  }

  lemma NothingApart()
    ensures Apart(Initial().workflow, RecordAll([])) && Protects(Initial().workflow, RecordAll([]))
  {}

  /** All unfinished workflows are protected all along exactly in the runs that lose none. */
  lemma {:induction false} WorkflowsAreProtectedExactly(us: seq<Update>)
    ensures AlwaysProtects(us) <==> LosesNothing(us)
  {
    hide Protects, Apart, AfterBackground, AfterScheduling, AfterInput, AfterWorkflow, AfterGoal, Record;
    if us == [] {
      NothingApart();
    } else {
      var front, u := us[..|us| - 1], us[|us| - 1];
      WorkflowsAreProtectedExactly(front);
      ApartHolds(front);
      var s := Run(Initial(), front);
      if AlwaysProtects(front) && u.WorkflowUpdate? {
        hide LosesWorkflow;
        ProtectionIsKeptExactly(s.workflow, s.nextView, RecordAll(front), u);
      }
    }
  }

  /** In a run that loses none, an unfinished workflow keeps the session from being evicted. */
  lemma LiveWorkflowIsProtected(us: seq<Update>, id: Identity)
    requires LosesNothing(us) && Live(RecordAll(us), id)
    ensures HasLiveProtectionWork(Run(Initial(), us))
  {
    hide Run, Reduce, RecordAll, LosesNothing, Live;
    WorkflowsAreProtectedExactly(us);
    assert Protects(Run(Initial(), us).workflow, RecordAll(us));
  }

  lemma MirrorProtects(w: Workflows, l: Ledger)
    requires Mirrors(w, l)
    ensures Protects(w, l)
  {
    forall id | !w.overflowed && Live(l, id) ensures ShownLive(w, id) {
      assert id in l.items.Keys && id in w.items.Keys && Shows(w.items[id], l.items[id]);
    }
  }

  lemma {:induction false} AlwaysMirroredProtects(us: seq<Update>)
    requires AlwaysMirrors(us)
    ensures AlwaysProtects(us)
  {
    hide Mirrors, Protects, Run, RecordAll;
    MirrorProtects(Run(Initial(), us).workflow, RecordAll(us));
    if us != [] {
      AlwaysMirroredProtects(us[..|us| - 1]);
    }
  }

  /** A run in which no finished workflow that is news to the reference is turned away, and view
      numbers last, loses none. */
  lemma KeepingUpLosesNothing(us: seq<Update>)
    requires KeepsUp(us)
    ensures LosesNothing(us)
  {
    hide KeepsUp, LosesNothing, AlwaysMirrors, AlwaysProtects;
    InStepExactly(us);
    AlwaysMirroredProtects(us);
    WorkflowsAreProtectedExactly(us);
  }

  // ---------- A run that loses a workflow ----------

  function Named(n: nat): Identity { seq(n + 1, _ => 'w') }

  function Typing(id: Identity, revision: nat, status: WorkflowStatus): Update {
    WorkflowUpdate(Typed, WorkflowPayload(id, Some(revision), "name", None, status, None, map[]))
  }

  /** Finished workflows, as many as given. */
  function Filling(n: nat): seq<Update> {
    if n == 0 then [] else Filling(n - 1) + [Typing(Named(n - 1), 1, Completed)]
  }

  /** The map is full of them and a further finished one is turned away; a stale clear of it, which the
      reference refuses, buries it in the projection, and its revival goes unseen. */
  function LosingRun(): seq<Update> {
    var id := Named(MAX_ITEMS);
    Filling(MAX_ITEMS) + [Typing(id, 2, Completed)] + [Typing(id, 1, Cleared)] + [Typing(id, 3, Active)]
  }

  /** Nothing but finished workflows `Named(0)` to `Named(n - 1)`. */
  ghost predicate Filled(s: State, l: Ledger, n: nat) {
    && s == Initial().(workflow := Workflows(s.workflow.items, {}, false, false), unknown := s.unknown, nextView := s.nextView)
    && |s.workflow.items| == n && s.nextView == n + 1 && l.cleared == {}
    && (forall id :: id in s.workflow.items ==> WorkflowDone(s.workflow.items[id].status) && |id| <= n)
    && (forall id :: id in l.items ==> |id| <= n)
  }

  lemma FillsOne(s: State, l: Ledger, n: nat)
    requires Filled(s, l, n) && n < MAX_ITEMS
    ensures Filled(Reduce(s, Typing(Named(n), 1, Completed)), Record(l, Typed, Typing(Named(n), 1, Completed).workflow), n + 1)
  {
    assert |Named(n)| == n + 1;
  }

  lemma {:induction false} Fills(n: nat)
    requires n <= MAX_ITEMS
    ensures Filled(Run(Initial(), Filling(n)), RecordAll(Filling(n)), n) && Needs(Filling(n)) == n
  {
    hide Filled, Reduce, Record, Run, RecordAll, Needs, Filling, Named;
    if n == 0 {
      NothingFilled();
    } else {
      var u := Typing(Named(n - 1), 1, Completed);
      Fills(n - 1);
      FillingOne(n);
      OneLater(Filling(n - 1), u);
      FillsOne(Run(Initial(), Filling(n - 1)), RecordAll(Filling(n - 1)), n - 1);
    }
  }

  lemma NothingFilled()
    ensures Filled(Run(Initial(), Filling(0)), RecordAll(Filling(0)), 0) && Needs(Filling(0)) == 0
  {}

  lemma FillingOne(n: nat)
    requires n > 0
    ensures Filling(n) == Filling(n - 1) + [Typing(Named(n - 1), 1, Completed)]
  {}

  lemma OneLater(us: seq<Update>, u: Update)
    ensures Run(Initial(), us + [u]) == Reduce(Run(Initial(), us), u)
    ensures u.WorkflowUpdate? ==> RecordAll(us + [u]) == Record(RecordAll(us), u.origin, u.workflow)
    ensures Needs(us + [u]) == Needs(us) + Need(u)
  {
    assert (us + [u])[..|us|] == us;
    hide Reduce, Record, Need;
  }

  lemma ThreeLater(us: seq<Update>, u: Update, v: Update, w: Update)
    requires u.WorkflowUpdate? && v.WorkflowUpdate? && w.WorkflowUpdate?
    ensures var all := us + [u] + [v] + [w];
            && Run(Initial(), all) == Reduce(Reduce(Reduce(Run(Initial(), us), u), v), w)
            && RecordAll(all) == Record(Record(Record(RecordAll(us), u.origin, u.workflow), v.origin, v.workflow), w.origin, w.workflow)
            && Needs(all) == Needs(us) + 3
  {
    hide Run, RecordAll, Needs, Reduce, Record;
    OneLater(us, u);
    OneLater(us + [u], v);
    OneLater(us + [u] + [v], w);
  }

  lemma TurnedAway(s: State, l: Ledger, p: WorkflowPayload)
    requires Filled(s, l, MAX_ITEMS) && |p.identity| > MAX_ITEMS && p.status == Completed
    ensures var t, m := Reduce(s, WorkflowUpdate(Typed, p)), Record(l, Typed, p);
            && t == s.(unknown := AddUnknown(s.unknown, 1)) && p.identity !in s.workflow.items
            && m == l.(items := l.items[p.identity := VersionOf(Typed, p)])
  {}

  lemma Buried(s: State, l: Ledger, p: WorkflowPayload)
    requires p.identity !in s.workflow.items && s.workflow.tombstones == {} && p.status == Cleared
    requires p.identity in l.items && Outranked(l.items[p.identity], Typed, p)
    ensures var t := Reduce(s, WorkflowUpdate(Typed, p));
            t == s.(workflow := s.workflow.(tombstones := {p.identity}), unknown := t.unknown)
    ensures Record(l, Typed, p) == l
  {
    assert s.workflow.items - {p.identity} == s.workflow.items;
  }

  lemma Unseen(s: State, l: Ledger, p: WorkflowPayload)
    requires p.identity !in s.workflow.items && p.identity in s.workflow.tombstones && p.status == Active
    requires p.identity !in l.cleared && p.identity in l.items && !Outranked(l.items[p.identity], Typed, p)
    ensures var t := Reduce(s, WorkflowUpdate(Typed, p)); t == s.(unknown := t.unknown)
    ensures Live(Record(l, Typed, p), p.identity)
  {}

  lemma LastThree(s: State, l: Ledger, p: WorkflowPayload)
    requires Filled(s, l, MAX_ITEMS) && p == Typing(Named(MAX_ITEMS), 2, Completed).workflow
    ensures var s1, l1 := Reduce(s, WorkflowUpdate(Typed, p)), Record(l, Typed, p);
            var q := p.(revision := Some(1), status := Cleared);
            var s2, l2 := Reduce(s1, WorkflowUpdate(Typed, q)), Record(l1, Typed, q);
            var r := p.(revision := Some(3), status := Active);
            var s3, l3 := Reduce(s2, WorkflowUpdate(Typed, r)), Record(l2, Typed, r);
            Live(l3, p.identity) && !HasLiveProtectionWork(s3)
  {
    assert |p.identity| == MAX_ITEMS + 1;
    hide Reduce, Record, Live;
    TurnedAway(s, l, p);
    var s1, l1 := Reduce(s, WorkflowUpdate(Typed, p)), Record(l, Typed, p);
    var q := p.(revision := Some(1), status := Cleared);
    Buried(s1, l1, q);
    Unseen(Reduce(s1, WorkflowUpdate(Typed, q)), l1, p.(revision := Some(3), status := Active));
  }

  /** Well within the view numbers, the reference knows an unfinished workflow and the session is
      reported safe to evict. */
  lemma LiveWorkflowCanBeLost()
    ensures var us := LosingRun();
            && Needs(us) <= LAST_VIEW && Live(RecordAll(us), Named(MAX_ITEMS))
            && !HasLiveProtectionWork(Run(Initial(), us))
  {
    var full, id := Filling(MAX_ITEMS), Named(MAX_ITEMS);
    var p := Typing(id, 2, Completed).workflow;
    var u, v, w := Typing(id, 2, Completed), Typing(id, 1, Cleared), Typing(id, 3, Active);
    assert LosingRun() == full + [u] + [v] + [w];
    hide Filled, Live, HasLiveProtectionWork, Run, RecordAll, Needs, Reduce, Record, Named, Filling, LosingRun;
    Fills(MAX_ITEMS);
    LastThree(Run(Initial(), full), RecordAll(full), p);
    ThreeLater(full, u, v, w);
  }
}
