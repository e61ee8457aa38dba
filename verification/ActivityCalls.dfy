/** A tool call that asks for a schedule and the notification that it was made: what the call said is used,
    whatever comes between them. */
module ActivityCalls {
  import opened Results
  import opened Activity

  /** The update does not touch what is pending for the call. */
  predicate PassesBy(u: Update, call: Identity) {
    && (u.LegacyInput? ==> u.input != call)
    && (u.Scheduling? ==> u.source == Legacy && u.call != Some(call))
  }

  lemma PendingPasses(s: State, u: Update, call: Identity)
    requires s.scheduler.authority != Some(Typed) && call in s.scheduler.pending && PassesBy(u, call)
    ensures var t := Reduce(s, u).scheduler;
            t.authority != Some(Typed) && call in t.pending && t.pending[call] == s.scheduler.pending[call]
  {
    hide AfterBackground, AfterWorkflow, AfterGoal, Listed, Upserted;
    match u
    case LegacyInput(_, _, _, _, _) =>
    case Scheduling(_, _, _, _) => assert AcceptMutation(s.scheduler, u.source, u.clock).scheduler == s.scheduler.(authority := Some(Legacy));
    case _ =>
  }

  lemma {:induction false} PendingStays(s: State, us: seq<Update>, call: Identity)
    requires s.scheduler.authority != Some(Typed) && call in s.scheduler.pending && forall u <- us :: PassesBy(u, call)
    ensures var t := Run(s, us).scheduler;
            t.authority != Some(Typed) && call in t.pending && t.pending[call] == s.scheduler.pending[call]
  {
    if us != [] {
      PendingStays(s, us[..|us| - 1], call);
      assert us[|us| - 1] in us;
      hide PassesBy, Reduce;
      PendingPasses(Run(s, us[..|us| - 1]), us[|us| - 1], call);
    }
  }

  /** A call that asks for a schedule, then anything else, then the notification: the schedule has the title
      of the call unless the notification brings its own, and the rule of the notification, else of the call. */
  lemma CallNamesTheSchedule(s: State, asked: Update, between: seq<Update>, made: Update)
    requires s.scheduler.authority != Some(Typed)
    requires asked.LegacyInput? && (asked.operation == Remove ==> asked.target.Some?)
    requires asked.input in s.scheduler.pending || |s.scheduler.pending| < MAX_PENDING
    requires forall u <- between :: PassesBy(u, asked.input)
    requires made.Scheduling? && made.source == Legacy && made.call == Some(asked.input) && made.change.Upsert?
    ensures var t, p := Run(Reduce(s, asked), between), made.change.payload;
            var room := |t.scheduler.schedules| < MAX_ITEMS && t.nextView <= LAST_VIEW;
            var r := Reduce(t, made).scheduler;
            p.identity !in t.scheduler.schedules && room ==>
              && p.identity in r.schedules && asked.input !in r.pending
              && r.schedules[p.identity].title
                 == (if p.title == "Scheduled task" && Present(asked.title).Some? then asked.title.value else p.title)
              && r.schedules[p.identity].schedule == Present(if p.schedule.Some? then p.schedule else asked.schedule)
              && r.schedules[p.identity].fireCount == if made.change.fired then 1 else 0
  {
    var first := Reduce(s, asked);
    assert first.scheduler.pending[asked.input] == Pending(asked.operation, asked.target, Present(asked.title), Present(asked.schedule));
    PendingStays(first, between, asked.input);
    var t, p := Run(first, between), made.change.payload;
    hide Reduce, Run;
    if p.identity !in t.scheduler.schedules && |t.scheduler.schedules| < MAX_ITEMS && t.nextView <= LAST_VIEW {
      MadeFrom(t, made, asked);
    }
  }

  lemma MadeFrom(t: State, made: Update, asked: Update)
    requires t.scheduler.authority != Some(Typed) && asked.LegacyInput? && asked.input in t.scheduler.pending
    requires t.scheduler.pending[asked.input]
             == Pending(asked.operation, asked.target, Present(asked.title), Present(asked.schedule))
    requires made.Scheduling? && made.source == Legacy && made.call == Some(asked.input) && made.change.Upsert?
    requires var p := made.change.payload;
             p.identity !in t.scheduler.schedules && |t.scheduler.schedules| < MAX_ITEMS && t.nextView <= LAST_VIEW
    ensures var r, p := Reduce(t, made).scheduler, made.change.payload;
            && p.identity in r.schedules && asked.input !in r.pending
            && r.schedules[p.identity].title
               == (if p.title == "Scheduled task" && Present(asked.title).Some? then asked.title.value else p.title)
            && r.schedules[p.identity].schedule == Present(if p.schedule.Some? then p.schedule else asked.schedule)
            && r.schedules[p.identity].fireCount == if made.change.fired then 1 else 0
  {}

  /** A call that asks for the removal of a schedule and its own end, whatever comes between: the schedule
      is gone. */
  lemma CallRemovesTheSchedule(s: State, asked: Update, between: seq<Update>, done: Update, target: Identity)
    requires s.scheduler.authority != Some(Typed)
    requires asked.LegacyInput? && asked.operation == Remove && asked.target == Some(target)
    requires asked.input in s.scheduler.pending || |s.scheduler.pending| < MAX_PENDING
    requires forall u <- between :: PassesBy(u, asked.input)
    requires done.LegacyInput? && done.input == asked.input && done.operation == Remove && done.target.None?
    ensures var t := Run(Reduce(s, asked), between);
            var r := Reduce(t, done).scheduler;
            r.schedules == t.scheduler.schedules - {target} && r.pending == t.scheduler.pending - {asked.input}
  {
    var first := Reduce(s, asked);
    assert first.scheduler.pending[asked.input] == Pending(asked.operation, asked.target, Present(asked.title), Present(asked.schedule));
    PendingStays(first, between, asked.input);
    hide Run;
  }
}
