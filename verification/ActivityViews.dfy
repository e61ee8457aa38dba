/** The public numbers of schedules, background tasks and workflows never collide, and what is shown is tidy. */
module ActivityViews {
  import opened Results
  import opened Activity

  datatype Place = InSchedules(id: Identity) | InBackground(id: Identity) | InWorkflows(id: Identity)

  function ScheduleView(s: Schedules, id: Identity): Option<nat> { if id in s then Some(s[id].view) else None }

  function ViewAt(s: State, p: Place): Option<nat> {
    match p
    case InSchedules(id) => ScheduleView(s.scheduler.schedules, id)
    case InBackground(id) => if id in s.background.items then Some(s.background.items[id].view) else None
    case InWorkflows(id) => if id in s.workflow.items then Some(s.workflow.items[id].view) else None
  }

  /** Every number in use is below the next one, and no two things have the same. */
  ghost predicate Numbered(s: State) {
    && (forall p :: ViewAt(s, p).Some? ==> ViewAt(s, p).value < s.nextView)
    && (forall p, q :: p != q && ViewAt(s, p).Some? ==> ViewAt(s, p) != ViewAt(s, q))
  }

  /** What is there has the number it had, or one of its own from the new ones. */
  ghost predicate OldOrNew(s: State, t: State) {
    && s.nextView <= t.nextView
    && (forall p :: ViewAt(t, p).Some? ==> ViewAt(t, p) == ViewAt(s, p) || s.nextView <= ViewAt(t, p).value < t.nextView)
    && (forall p, q :: p != q && ViewAt(t, p).Some? && ViewAt(t, p).value >= s.nextView ==> ViewAt(t, p) != ViewAt(t, q))
  }

  lemma OldOrNewKeeps(s: State, t: State)
    requires Numbered(s) && OldOrNew(s, t)
    ensures Numbered(t)
  {
    hide ViewAt;
    forall p, q | p != q && ViewAt(t, p).Some? ensures ViewAt(t, p) != ViewAt(t, q) {
      if ViewAt(t, q).Some? && ViewAt(t, p).value < s.nextView && ViewAt(t, q).value < s.nextView {
        assert ViewAt(t, p) == ViewAt(s, p) && ViewAt(t, q) == ViewAt(s, q);
      }
    }
  }

  /** The same for the schedules alone. */
  ghost predicate SchedulesOldOrNew(olds: Schedules, news: Schedules, view: nat, next: nat) {
    && view <= next
    && (forall id :: id in news ==> ScheduleView(news, id) == ScheduleView(olds, id) || view <= news[id].view < next)
    && (forall a, b :: a in news && b in news && a != b && news[a].view >= view ==> news[a].view != news[b].view)
  }

  ghost predicate Below(s: Schedules, view: nat) { forall id :: id in s ==> s[id].view < view }

  lemma {:induction false} ListedViews(olds: Schedules, source: Source, list: seq<Payload>, view: nat)
    requires Below(olds, view)
    ensures var f := Listed(olds, source, list, view); SchedulesOldOrNew(olds, f.items, view, f.nextView)
  {
    if list != [] {
      var front, p := list[..|list| - 1], list[|list| - 1];
      ListedViews(olds, source, front, view);
      var before := Listed(olds, source, front, view);
      hide Listed;
      if before.complete {
        OneListedView(olds, source, before, p, view);
      }
      assert Listed(olds, source, list, view) == if before.complete then ListOne(olds, source, before, p) else before by {
        ListedOneMore(olds, source, list, view);
      }
    }
  }

  lemma ListedOneMore(olds: Schedules, source: Source, list: seq<Payload>, view: nat)
    requires list != []
    ensures var before := Listed(olds, source, list[..|list| - 1], view);
            Listed(olds, source, list, view) == if before.complete then ListOne(olds, source, before, list[|list| - 1]) else before
  {
    hide ListOne;
  }

  lemma OneListedView(olds: Schedules, source: Source, before: Filled, p: Payload, view: nat)
    requires Below(olds, view) && SchedulesOldOrNew(olds, before.items, view, before.nextView)
    ensures var f := ListOne(olds, source, before, p); SchedulesOldOrNew(olds, f.items, view, f.nextView)
  {
    hide Scheduled;
    assert Scheduled(source, before.nextView, p, 0).view == before.nextView by { ScheduledView(source, before.nextView, p, 0); }
    if p.identity in olds {
      ScheduledView(source, olds[p.identity].view, p, olds[p.identity].fireCount);
    }
  }

  lemma ScheduledView(source: Source, view: nat, p: Payload, fireCount: nat)
    ensures Scheduled(source, view, p, fireCount).view == view
  {}

  lemma ReplaceViews(s: Scheduler, view: nat, u: Update)
    requires u.Scheduling? && u.change.Replace? && Below(s.schedules, view)
    ensures var step := AfterReplace(s, view, u.source, u.call, u.change);
            SchedulesOldOrNew(s.schedules, step.part.schedules, view, step.nextView)
  {
    var filled := Listed(s.schedules, u.source, u.change.schedules, view);
    ListedViews(s.schedules, u.source, u.change.schedules, view);
    assert view <= filled.nextView;
    Unchanged(s.schedules, view, filled.nextView);
    hide Listed, SchedulesOldOrNew;
  }

  lemma UpsertViews(s: Scheduler, view: nat, u: Update)
    requires u.Scheduling? && u.change.Upsert? && Below(s.schedules, view)
    ensures var step := AfterUpsert(s, view, u.source, u.call, u.change);
            SchedulesOldOrNew(s.schedules, step.part.schedules, view, step.nextView)
  {
    var id := u.change.payload.identity;
    var item := Upserted(s, u.source, u.call, u.change, if id in s.schedules then s.schedules[id].view else view);
    assert item.view == if id in s.schedules then s.schedules[id].view else view;
    hide Upserted;
    var step := AfterUpsert(s, view, u.source, u.call, u.change);
    assert (step.part.schedules == s.schedules && step.nextView == view)
           || (step.part.schedules == s.schedules[id := item] && step.nextView == if id in s.schedules then view else view + 1);
    hide AfterUpsert;
    Unchanged(s.schedules, view, view);
    OneWritten(s.schedules, id, item, view);
    hide SchedulesOldOrNew;
  }

  lemma OneWritten(s: Schedules, id: Identity, item: Schedule, view: nat)
    requires Below(s, view) && item.view == if id in s then s[id].view else view
    ensures SchedulesOldOrNew(s, s[id := item], view, if id in s then view else view + 1)
  {}

  lemma ChangeViews(s: Scheduler, view: nat, u: Update)
    requires u.Scheduling? && Below(s.schedules, view)
    ensures var step := AfterChange(s, view, u); SchedulesOldOrNew(s.schedules, step.part.schedules, view, step.nextView)
  {
    hide AfterReplace, AfterUpsert;
    match u.change
    case Replace(_, _) => ReplaceViews(s, view, u); hide SchedulesOldOrNew;
    case Upsert(_, _) => UpsertViews(s, view, u); hide SchedulesOldOrNew;
    case Delete(_) =>
  }

  lemma Unchanged(s: Schedules, view: nat, next: nat)
    requires Below(s, view) && view <= next
    ensures SchedulesOldOrNew(s, s, view, next)
  {}

  /** A verdict keeps the schedules or drops them all. */
  lemma VerdictSchedules(s: Scheduler, source: Source, clock: Clock)
    ensures var v := AcceptMutation(s, source, clock).scheduler; v.schedules == s.schedules || v.schedules == map[]
  {}

  lemma SchedulingViews(s: Scheduler, view: nat, u: Update)
    requires u.Scheduling? && Below(s.schedules, view)
    ensures var step := AfterScheduling(s, view, u); SchedulesOldOrNew(s.schedules, step.part.schedules, view, step.nextView)
  {
    VerdictSchedules(s, u.source, u.clock);
    var v := AcceptMutation(s, u.source, u.clock).scheduler;
    hide AcceptMutation;
    ChangeViews(v, view, u);
    hide AfterChange;
  }

  lemma StepViews(s: State, u: Update)
    requires Numbered(s)
    ensures OldOrNew(s, Reduce(s, u))
  {
    forall id | id in s.scheduler.schedules ensures s.scheduler.schedules[id].view < s.nextView {
      assert ViewAt(s, InSchedules(id)).Some?;
    }
    match u
    case Unknown => hide Numbered;
    case Scheduling(_, _, _, _) =>
      SchedulingViews(s.scheduler, s.nextView, u);
      SchedulesMoved(s, AfterScheduling(s.scheduler, s.nextView, u));
      hide AfterScheduling, OldOrNew;
    case LegacyInput(_, _, _, _, _) =>
      InputViews(s.scheduler, s.nextView, u);
      SchedulesMoved(s, AfterInput(s.scheduler, s.nextView, u));
      hide AfterInput, OldOrNew;
    case BackgroundUpdate(_, _, _, _) => TaskViews(s, u);
    case WorkflowUpdate(_, _) => FlowViews(s, u);
    case GoalUpdate(p) => assert AfterGoal(s.goals, s.nextView, p).nextView == s.nextView;
  }

  lemma InputViews(s: Scheduler, view: nat, u: Update)
    requires u.LegacyInput? && Below(s.schedules, view)
    ensures var step := AfterInput(s, view, u); SchedulesOldOrNew(s.schedules, step.part.schedules, view, step.nextView)
  {}

  lemma SchedulesMoved(s: State, step: Step<Scheduler>)
    requires Numbered(s) && SchedulesOldOrNew(s.scheduler.schedules, step.part.schedules, s.nextView, step.nextView)
    ensures OldOrNew(s, InScheduler(s, step))
  {}

  lemma TaskViews(s: State, u: Update)
    requires Numbered(s) && u.BackgroundUpdate?
    ensures OldOrNew(s, Reduce(s, u))
  {}

  lemma FlowViews(s: State, u: Update)
    requires Numbered(s) && u.WorkflowUpdate?
    ensures OldOrNew(s, Reduce(s, u))
  {
    var w, p := s.workflow, u.workflow;
    var t := Reduce(s, u);
    FlowItems(w, s.nextView, u.origin, p);
    assert t.workflow == AfterWorkflow(w, s.nextView, u.origin, p).part
           && t.nextView == AfterWorkflow(w, s.nextView, u.origin, p).nextView
           && t.scheduler == s.scheduler && t.background == s.background;
    hide AfterWorkflow, Reduce;
  }

  lemma FlowItems(w: Workflows, view: nat, origin: Source, p: WorkflowPayload)
    ensures var step := AfterWorkflow(w, view, origin, p); var items := step.part.items; var id := p.identity;
            || (step.nextView == view && (items == w.items || items == w.items - {id}))
            || (id in items && items == w.items[id := items[id]]
                && if id in w.items then step.nextView == view && items[id].view == w.items[id].view
                   else step.nextView == view + 1 && items[id].view == view)
  {
    var id := p.identity;
    ShownView(view, origin, p);
    if id in w.items {
      ShownView(w.items[id].view, origin, p);
    }
    hide WorkflowRefused, Shown, WorkflowDone;
  }

  lemma ShownView(view: nat, origin: Source, p: WorkflowPayload)
    ensures Shown(view, origin, p).view == view
  {}

  /** In every reachable state all numbers shown are different. */
  lemma {:induction false} ViewsNeverCollide(us: seq<Update>)
    ensures Numbered(Run(Initial(), us))
  {
    if us == [] {
      assert forall p :: ViewAt(Initial(), p).None?;
    } else {
      var front := us[..|us| - 1];
      ViewsNeverCollide(front);
      hide Numbered, OldOrNew, Reduce;
      StepViews(Run(Initial(), front), us[|us| - 1]);
      OldOrNewKeeps(Run(Initial(), front), Reduce(Run(Initial(), front), us[|us| - 1]));
    }
  }

  // ---------- Texts and counts ----------

  predicate TidySchedule(s: Schedule) {
    s.schedule != Some("") && s.nextFireAt != Some("") && s.fireCount <= MAX_COUNTER
  }

  /** No optional text is shown empty, and no count passes its bound. */
  ghost predicate Tidy(s: State) {
    && (forall id :: id in s.scheduler.schedules ==> TidySchedule(s.scheduler.schedules[id]))
    && (forall id :: id in s.background.items ==> 1 <= s.background.items[id].updateCount <= MAX_COUNTER)
    && (forall id :: id in s.workflow.items ==> s.workflow.items[id].objective != Some("") && s.workflow.items[id].phase != Some(""))
    && (s.goals.current.Some? ==> s.goals.current.value.phase != Some(""))
    && s.unknown <= MAX_UNKNOWN
  }

  ghost predicate TidySchedules(s: Schedules) { forall id :: id in s ==> TidySchedule(s[id]) }

  lemma {:induction false} ListedTidy(olds: Schedules, source: Source, list: seq<Payload>, view: nat)
    requires TidySchedules(olds)
    ensures TidySchedules(Listed(olds, source, list, view).items)
  {
    if list != [] {
      ListedTidy(olds, source, list[..|list| - 1], view);
    }
  }

  lemma SchedulingTidy(s: Scheduler, view: nat, u: Update)
    requires u.Scheduling? && TidySchedules(s.schedules)
    ensures TidySchedules(AfterScheduling(s, view, u).part.schedules)
  {
    VerdictSchedules(s, u.source, u.clock);
    var v := AcceptMutation(s, u.source, u.clock).scheduler;
    hide AcceptMutation;
    if u.change.Replace? {
      ListedTidy(v.schedules, u.source, u.change.schedules, view);
    } else if u.change.Upsert? {
      forall n: nat ensures TidySchedule(Upserted(v, u.source, u.call, u.change, n)) {}
    }
    hide Listed, Upserted, TidySchedule;
    ChangeTidy(v, view, u);
    hide AfterChange;
  }

  lemma ChangeTidy(s: Scheduler, view: nat, u: Update)
    requires u.Scheduling? && TidySchedules(s.schedules)
    requires u.change.Replace? ==> TidySchedules(Listed(s.schedules, u.source, u.change.schedules, view).items)
    requires u.change.Upsert? ==> forall n: nat :: TidySchedule(Upserted(s, u.source, u.call, u.change, n))
    ensures TidySchedules(AfterChange(s, view, u).part.schedules)
  {
    hide Listed, Upserted, TidySchedule;
  }

  lemma FlowTidy(s: State, u: Update)
    requires Tidy(s) && u.WorkflowUpdate?
    ensures Tidy(Reduce(s, u))
  {
    var id, p := u.workflow.identity, u.workflow;
    forall n: nat ensures var item := Shown(n, u.origin, p); item.objective != Some("") && item.phase != Some("") {}
    hide WorkflowRefused, TidySchedule, Shown;
  }

  lemma GoalTidy(s: State, u: Update)
    requires Tidy(s) && u.GoalUpdate?
    ensures Tidy(Reduce(s, u))
  {
    hide TidySchedule;
    var current := AfterGoal(s.goals, s.nextView, u.goal).part.current;
    assert current.None? || current == s.goals.current || current.value.phase == Present(u.goal.phase);
    hide AfterGoal;
  }

  lemma StepTidy(s: State, u: Update)
    requires Tidy(s)
    ensures Tidy(Reduce(s, u))
  {
    match u
    case Scheduling(_, _, _, _) => SchedulingTidy(s.scheduler, s.nextView, u); hide AfterScheduling, TidySchedule;
    case LegacyInput(_, _, _, _, _) => hide TidySchedule;
    case BackgroundUpdate(_, _, _, _) => hide TidySchedule, BackgroundDone;
    case WorkflowUpdate(_, _) => hide Tidy, Reduce; FlowTidy(s, u);
    case GoalUpdate(_) => hide Tidy, Reduce; GoalTidy(s, u);
    case Unknown => hide TidySchedule;
  }

  lemma {:induction false} AlwaysTidy(us: seq<Update>)
    ensures Tidy(Run(Initial(), us))
  {
    hide Tidy, Reduce;
    if us == [] {
      assert Tidy(Initial()) by { InitialTidy(); }
    } else {
      AlwaysTidy(us[..|us| - 1]);
      StepTidy(Run(Initial(), us[..|us| - 1]), us[|us| - 1]);
    }
  }

  lemma InitialTidy()
    ensures Tidy(Initial())
  {}
}
