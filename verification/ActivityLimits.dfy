/** Within its limits the projection's answer is exactly right, and no flag is ever up. */
module ActivityLimits {
  import opened Results
  import opened Activity
  import opened ActivityProtection
  import opened ScheduleEpochs
  import opened ActivityAnswer

  // ---------- What a run mentions ----------

  /** The background tasks reported. */
  function Tasks(us: seq<Update>): set<Identity> { set u | u in us && u.BackgroundUpdate? :: u.task }

  /** The workflows reported other than as cleared. */
  function Flows(us: seq<Update>): set<Identity> {
    set u | u in us && u.WorkflowUpdate? && u.workflow.status != Cleared :: u.workflow.identity
  }

  /** The workflows cleared. */
  function Clears(us: seq<Update>): set<Identity> {
    set u | u in us && u.WorkflowUpdate? && u.workflow.status == Cleared :: u.workflow.identity
  }

  /** Tasks, workflows, cleared workflows and ended goals all fit. */
  predicate Fits(us: seq<Update>) {
    && |Tasks(us)| <= MAX_ITEMS && |Flows(us)| <= MAX_ITEMS && |Clears(us)| <= MAX_TOMBSTONES
    && |PursueAll(us).ended| <= MAX_TOMBSTONES
  }

  lemma SubsetIsSmaller<T>(a: set<T>, b: set<T>)
    requires a <= b
    ensures |a| <= |b|
  {
    assert b == a + (b - a);
  }

  lemma OneMoreIsMore<T>(a: set<T>, x: T, b: set<T>)
    requires a <= b && x in b && x !in a
    ensures |a| < |b|
  {
    SubsetIsSmaller(a + {x}, b);
  }

  lemma FrontFits(us: seq<Update>)
    requires us != [] && Fits(us)
    ensures var front := us[..|us| - 1];
            Fits(front) && Tasks(front) <= Tasks(us) && Flows(front) <= Flows(us) && Clears(front) <= Clears(us)
  {
    var front := us[..|us| - 1];
    assert Tasks(front) <= Tasks(us) && Flows(front) <= Flows(us) && Clears(front) <= Clears(us);
    SubsetIsSmaller(Tasks(front), Tasks(us));
    SubsetIsSmaller(Flows(front), Flows(us));
    SubsetIsSmaller(Clears(front), Clears(us));
    assert PursueAll(front).ended <= PursueAll(us).ended;
    SubsetIsSmaller(PursueAll(front).ended, PursueAll(us).ended);
    hide Tasks, Flows, Clears, PursueAll;
  }

  // ---------- No flag ----------

  ghost predicate Roomy(s: State, us: seq<Update>) {
    && s.background.items.Keys <= Tasks(us) && !s.background.overflowed
    && s.workflow.items.Keys <= Flows(us) && s.workflow.tombstones <= Clears(us)
    && !s.workflow.saturated && !s.workflow.overflowed
    && !s.goals.saturated && !s.goals.overflowed
  }

  lemma TaskFits(b: Backgrounds, view: nat, u: Update, tasks: set<Identity>)
    requires u.BackgroundUpdate? && b.items.Keys <= tasks && u.task in tasks && |tasks| <= MAX_ITEMS && !b.overflowed
    ensures var t := AfterBackground(b, view, u).part; t.items.Keys <= tasks && !t.overflowed
  {
    if u.task !in b.items {
      OneMoreIsMore(b.items.Keys, u.task, tasks);
      assert |b.items| == |b.items.Keys|;
    }
  }

  lemma WorkflowFits(w: Workflows, view: nat, u: Update, flows: set<Identity>, clears: set<Identity>)
    requires u.WorkflowUpdate? && w.items.Keys <= flows && w.tombstones <= clears
    requires if u.workflow.status == Cleared then u.workflow.identity in clears else u.workflow.identity in flows
    requires |flows| <= MAX_ITEMS && |clears| <= MAX_TOMBSTONES && !w.saturated && !w.overflowed
    ensures var t := AfterWorkflow(w, view, u.origin, u.workflow).part;
            t.items.Keys <= flows && t.tombstones <= clears && !t.saturated && !t.overflowed
  {
    var id := u.workflow.identity;
    if u.workflow.status == Cleared {
      if id !in w.tombstones {
        OneMoreIsMore(w.tombstones, id, clears);
      }
    } else if id !in w.items {
      OneMoreIsMore(w.items.Keys, id, flows);
      assert |w.items| == |w.items.Keys|;
    }
    hide WorkflowRefused;
  }

  lemma GoalFits(g: Goals, view: nat, r: Aims, p: GoalPayload)
    requires Tied(g, r) && !g.saturated && !g.overflowed && |Pursue(r, p).ended| <= MAX_TOMBSTONES
    ensures var t := AfterGoal(g, view, p).part; !t.saturated && !t.overflowed
  {
    var ended := Pursue(r, p).ended;
    assert AsAim(g.current) == r.current;
    forall id | id in ended && id !in g.tombstones ensures |g.tombstones| < MAX_TOMBSTONES {
      OneMoreIsMore(g.tombstones, id, ended);
    }
  }

  lemma {:induction false} FittingHasRoom(us: seq<Update>)
    requires Fits(us)
    ensures Roomy(Run(Initial(), us), us)
  {
    if us != [] {
      var front, u := us[..|us| - 1], us[|us| - 1];
      FrontFits(us);
      FittingHasRoom(front);
      var s := Run(Initial(), front);
      assert u in us;
      hide AfterBackground, AfterWorkflow, AfterGoal, AfterScheduling, AfterInput, Pursue;
      if u.BackgroundUpdate? {
        TaskFits(s.background, s.nextView, u, Tasks(us));
      } else if u.WorkflowUpdate? {
        WorkflowFits(s.workflow, s.nextView, u, Flows(us), Clears(us));
      } else if u.GoalUpdate? {
        TiedHolds(front);
        GoalFits(s.goals, s.nextView, PursueAll(front), u.goal);
      }
      hide Tasks, Flows, Clears;
    }
  }

  // ---------- The answer ----------

  lemma NothingDropped(w: Workflows, view: nat, u: Update, flows: set<Identity>)
    requires u.WorkflowUpdate? && !w.saturated && w.items.Keys <= flows && |flows| <= MAX_ITEMS && view <= LAST_VIEW
    requires u.workflow.status != Cleared ==> u.workflow.identity in flows
    ensures !DropsSilently(w, view, u)
  {
    var id := u.workflow.identity;
    if u.workflow.status != Cleared && id !in w.items {
      OneMoreIsMore(w.items.Keys, id, flows);
      assert |w.items| == |w.items.Keys|;
    }
  }

  lemma {:induction false} FittingKeepsUp(us: seq<Update>)
    requires Fits(us) && Needs(us) <= LAST_VIEW
    ensures KeepsUp(us)
  {
    if us != [] {
      var front, u := us[..|us| - 1], us[|us| - 1];
      FrontFits(us);
      FittingKeepsUp(front);
      FittingHasRoom(front);
      NeedsAreEnough(front);
      var s := Run(Initial(), front);
      assert u in us;
      if u.WorkflowUpdate? {
        NothingDropped(s.workflow, s.nextView, u, Flows(us));
      }
      hide DropsSilently, Tasks, Flows, Clears, Run, RecordAll, Fits;
    }
  }

  /** A run whose tasks, workflows and ended goals fit raises no flag, and while its view numbers last and
      its typed schedules carry clocks, the session is reported as live exactly when the updates leave
      live work. */
  lemma WithinLimitsTheAnswerIsRight(us: seq<Update>)
    requires Fits(us)
    ensures !Flagged(Run(Initial(), us))
    ensures Needs(us) <= LAST_VIEW && HaveClocks(us) ==> (HasLiveProtectionWork(Run(Initial(), us)) <==> LiveWork(us))
  {
    var s := Run(Initial(), us);
    FittingHasRoom(us);
    hide Fits, Tasks, Flows, Clears;
    if Needs(us) <= LAST_VIEW && HaveClocks(us) {
      SchedulesAreExact(us);
      TasksAreExact(us);
      FittingKeepsUp(us);
      InStepExactly(us);
      TiedHolds(us);
      MirroredIsExact(s.workflow, RecordAll(us));
      hide Run, LearnAll, RecordAll, PursueAll, SchedulesLive, LiveTasks, KeepsUp, HaveClocks, Needs, Mirrors;
    }
  }

  lemma MirroredIsExact(w: Workflows, l: Ledger)
    requires Mirrors(w, l) && !w.overflowed
    ensures (exists id :: id in w.items && !WorkflowDone(w.items[id].status))
            <==> (exists id :: id in l.items && !WorkflowDone(l.items[id].status))
  {
    assert forall id :: id in w.items.Keys <==> id in l.items.Keys;
  }

  // ---------- The flag of the background tasks ----------

  /** The tasks that were reported while there was room. */
  function Admitted(us: seq<Update>): set<Identity> {
    if us == [] then {}
    else
      var before, u := Admitted(us[..|us| - 1]), us[|us| - 1];
      if u.BackgroundUpdate? && |before| < MAX_ITEMS then before + {u.task} else before
  }

  /** An unfinished task was reported that was never admitted. */
  predicate Spills(us: seq<Update>) {
    if us == [] then false
    else
      var u := us[|us| - 1];
      Spills(us[..|us| - 1]) || (u.BackgroundUpdate? && !BackgroundDone(u.status) && u.task !in Admitted(us))
  }

  ghost predicate Admits(b: Backgrounds, us: seq<Update>) {
    b.items.Keys == Admitted(us) && (b.overflowed <==> Spills(us))
  }

  lemma OneMoreAdmitted(b: Backgrounds, view: nat, us: seq<Update>)
    requires us != [] && us[|us| - 1].BackgroundUpdate? && view <= LAST_VIEW && Admits(b, us[..|us| - 1])
    ensures Admits(AfterBackground(b, view, us[|us| - 1]).part, us)
  {
    var u, before := us[|us| - 1], Admitted(us[..|us| - 1]);
    assert |b.items| == |b.items.Keys|;
    if u.task in before {
      assert before + {u.task} == before;
    }
    hide BackgroundDone, BoundedIncrement;
  }

  /** While view numbers last, the tasks shown are those admitted, and the flag is up exactly if an
      unfinished task was turned away. */
  lemma {:induction false} TaskFlagIsExact(us: seq<Update>)
    requires Needs(us) <= LAST_VIEW
    ensures Admits(Run(Initial(), us).background, us)
  {
    if us != [] {
      var front, u := us[..|us| - 1], us[|us| - 1];
      TaskFlagIsExact(front);
      NeedsAreEnough(front);
      hide AfterBackground, AfterWorkflow, AfterGoal, AfterScheduling, AfterInput;
      if u.BackgroundUpdate? {
        OneMoreAdmitted(Run(Initial(), front).background, Run(Initial(), front).nextView, us);
      }
    }
  }
}
