/** SessionActivityProjection: the reducer over a session's activity stream. Raw identities and
    view numbers stay inside this state. */
module Activity {
  import opened Results

  const MAX_ITEMS := 128
  const MAX_UNKNOWN := 10_000
  const MAX_COUNTER := 1_000_000_000
  const MAX_TOMBSTONES := 256
  const MAX_PENDING := 128
  const LAST_VIEW := 9_999_999_999

  type Identity = s: string | s != "" witness "id"

  datatype Source = Typed | Legacy

  // ---------- Updates ----------

  datatype Clock = Clock(generation: Option<nat>, revision: Option<nat>)

  datatype Payload = Payload(identity: Identity, title: string, schedule: Option<string>, nextFireAt: Option<string>)

  datatype Change =
    | Replace(overflowed: bool, schedules: seq<Payload>)
    | Upsert(fired: bool, payload: Payload)
    | Delete(identity: Identity)

  datatype Operation = Create | List | Remove

  datatype BackgroundStatus = Running | BackgroundCompleted | BackgroundFailed | BackgroundCancelled | BackgroundUnknown

  datatype WorkflowStatus = Active | Paused | BudgetLimited | Completed | Cancelled | Failed | Interrupted | Cleared | Unclear

  datatype WorkflowPayload = WorkflowPayload(
    identity: Identity, revision: Option<nat>, name: string, objective: Option<string>, status: WorkflowStatus,
    phase: Option<string>, counters: map<string, nat>)

  datatype GoalStatus = GoalActive | GoalPaused | GoalCompleted | GoalCancelled | GoalFailed | GoalCleared | GoalUnclear

  datatype GoalPayload = GoalPayload(
    identity: Option<Identity>, objective: string, status: GoalStatus, phase: Option<string>,
    elapsedMs: Option<nat>, counters: map<string, nat>)

  datatype Update =
    | Unknown
    | LegacyInput(input: Identity, operation: Operation, target: Option<Identity>, title: Option<string>, schedule: Option<string>)
    | Scheduling(source: Source, clock: Clock, call: Option<Identity>, change: Change)
    | BackgroundUpdate(task: Identity, kind: string, name: string, status: BackgroundStatus)
    | WorkflowUpdate(origin: Source, workflow: WorkflowPayload)
    | GoalUpdate(goal: GoalPayload)

  // ---------- State ----------

  datatype Schedule = Schedule(
    source: Source, view: nat, title: string, fired: bool, schedule: Option<string>, nextFireAt: Option<string>,
    fireCount: nat)

  datatype Pending = Pending(operation: Operation, target: Option<Identity>, title: Option<string>, schedule: Option<string>)

  type Schedules = map<Identity, Schedule>

  datatype Scheduler = Scheduler(
    schedules: Schedules, pending: map<Identity, Pending>, overflowed: bool,
    authority: Option<Source>, generation: Option<nat>, revision: Option<nat>)

  datatype Background = Background(view: nat, kind: string, title: string, status: BackgroundStatus, updateCount: nat)

  datatype Backgrounds = Backgrounds(items: map<Identity, Background>, overflowed: bool)

  datatype Workflow = Workflow(
    source: Source, revision: Option<nat>, view: nat, name: string, objective: Option<string>, status: WorkflowStatus,
    phase: Option<string>, counters: map<string, nat>)

  datatype Workflows = Workflows(
    items: map<Identity, Workflow>, tombstones: set<Identity>, saturated: bool, overflowed: bool)

  datatype Goal = Goal(
    identity: Identity, objective: string, status: GoalStatus, phase: Option<string>, elapsedMs: Option<nat>,
    counters: map<string, nat>)

  datatype Goals = Goals(current: Option<Goal>, tombstones: set<Identity>, saturated: bool, overflowed: bool)

  datatype State = State(
    scheduler: Scheduler, background: Backgrounds, workflow: Workflows, goals: Goals, unknown: nat, nextView: nat)

  function Initial(): State {
    State(Scheduler(map[], map[], false, None, None, None), Backgrounds(map[], false),
          Workflows(map[], {}, false, false), Goals(None, {}, false, false), 0, 1)
  }

  /** What one update does to one part of the state, to the view numbers and to the unknown count. */
  datatype Step<T> = Step(part: T, nextView: nat, unknown: nat)

  /** Optional text that is empty is left out of the public value. */
  function Present(text: Option<string>): Option<string> {
    if text == Some("") then None else text
  }

  function OrElse<T>(first: Option<T>, second: Option<T>): Option<T> {
    if first.Some? then first else second
  }

  function BoundedIncrement(value: nat): nat {
    if value + 1 > MAX_COUNTER then MAX_COUNTER else value + 1
  }

  function AddUnknown(count: nat, more: nat): nat {
    if count + more > MAX_UNKNOWN then MAX_UNKNOWN else count + more
  }

  // ---------- Scheduler ----------

  function DropCall(s: Scheduler, call: Option<Identity>): Scheduler {
    if call.Some? then s.(pending := s.pending - {call.value}) else s
  }

  function AfterInput(s: Scheduler, view: nat, u: Update): Step<Scheduler>
    requires u.LegacyInput?
  {
    if s.authority == Some(Typed) then Step(DropCall(s, Some(u.input)), view, 0)
    else if u.input !in s.pending && |s.pending| >= MAX_PENDING then Step(s, view, 1)
    else if u.input in s.pending && u.operation == Remove && u.target.None? then
      var target := s.pending[u.input].target;
      var kept := if target.Some? then s.schedules - {target.value} else s.schedules;
      Step(s.(schedules := kept, pending := s.pending - {u.input}), view, 0)
    else
      var pending := Pending(u.operation, u.target, Present(u.title), Present(u.schedule));
      Step(s.(pending := s.pending[u.input := pending]), view, 0)
  }

  datatype Verdict = Verdict(scheduler: Scheduler, accepted: bool)

  function AcceptMutation(s: Scheduler, source: Source, clock: Clock): Verdict {
    match source
    case Legacy =>
      if s.authority == Some(Typed) then Verdict(s, false) else Verdict(s.(authority := Some(Legacy)), true)
    case Typed =>
      if s.authority == Some(Typed) then AcceptClock(s, clock)
      else
        var t := s.(authority := Some(Typed), pending := map[]);
        AcceptClock(if s.authority == Some(Legacy) then t.(schedules := map[], overflowed := false) else t, clock)
  }

  function AcceptClock(s: Scheduler, clock: Clock): Verdict {
    if clock.generation.None? && clock.revision.None? then Verdict(s, s.generation.None? && s.revision.None?)
    else
      var generation := OrElse(clock.generation, s.generation);
      if s.generation.Some? && generation.value < s.generation.value then Verdict(s, false)
      else if s.generation.Some? && generation.value == s.generation.value && s.revision.Some?
              && (clock.revision.None? || clock.revision.value <= s.revision.value)
      then Verdict(s, false)
      else if generation.Some? && (s.generation.None? || generation.value > s.generation.value) then
        Verdict(s.(schedules := map[], overflowed := false, pending := map[],
                   generation := generation, revision := clock.revision), true)
      else Verdict(if clock.revision.Some? then s.(revision := clock.revision) else s, true)
  }

  datatype Filled = Filled(items: Schedules, nextView: nat, complete: bool)

  function Listed(olds: Schedules, source: Source, list: seq<Payload>, view: nat): Filled {
    if list == [] then Filled(map[], view, true)
    else
      var before := Listed(olds, source, list[..|list| - 1], view);
      if !before.complete then before else ListOne(olds, source, before, list[|list| - 1])
  }

  function ListOne(olds: Schedules, source: Source, before: Filled, p: Payload): Filled {
    if p.identity in olds then
      before.(items := before.items[p.identity := Scheduled(source, olds[p.identity].view, p, olds[p.identity].fireCount)])
    else if before.nextView > LAST_VIEW then before.(complete := false)
    else before.(items := before.items[p.identity := Scheduled(source, before.nextView, p, 0)], nextView := before.nextView + 1)
  }

  function Scheduled(source: Source, view: nat, p: Payload, fireCount: nat): Schedule {
    Schedule(source, view, p.title, false, Present(p.schedule), Present(p.nextFireAt), fireCount)
  }

  function AfterReplace(s: Scheduler, view: nat, source: Source, call: Option<Identity>, change: Change): Step<Scheduler>
    requires change.Replace?
  {
    var filled := Listed(s.schedules, source, change.schedules, view);
    if !filled.complete then Step(s, filled.nextView, 1)
    else Step(DropCall(s.(schedules := filled.items, overflowed := change.overflowed), call), filled.nextView, 0)
  }

  function Upserted(s: Scheduler, source: Source, call: Option<Identity>, change: Change, view: nat): Schedule
    requires change.Upsert?
  {
    var p := change.payload;
    var pending := if call.Some? && call.value in s.pending then Some(s.pending[call.value]) else None;
    var existing := if p.identity in s.schedules then Some(s.schedules[p.identity]) else None;
    var title := if p.title == "Scheduled task" && pending.Some? && pending.value.title.Some?
                 then pending.value.title.value else p.title;
    var schedule := OrElse(p.schedule, OrElse(if pending.Some? then pending.value.schedule else None,
                                              if existing.Some? then existing.value.schedule else None));
    var nextFireAt := OrElse(p.nextFireAt, if existing.Some? then existing.value.nextFireAt else None);
    var fireCount := if existing.Some? then existing.value.fireCount else 0;
    Schedule(source, view, title, change.fired, Present(schedule), Present(nextFireAt),
             if change.fired then BoundedIncrement(fireCount) else fireCount)
  }

  function AfterUpsert(s: Scheduler, view: nat, source: Source, call: Option<Identity>, change: Change): Step<Scheduler>
    requires change.Upsert?
  {
    var id := change.payload.identity;
    if id in s.schedules then
      var item := Upserted(s, source, call, change, s.schedules[id].view);
      Step(DropCall(s.(schedules := s.schedules[id := item]), call), view, 0)
    else if |s.schedules| >= MAX_ITEMS then Step(DropCall(s.(overflowed := true), call), view, 1)
    else if view > LAST_VIEW then Step(s, view, 1)
    else Step(DropCall(s.(schedules := s.schedules[id := Upserted(s, source, call, change, view)]), call), view + 1, 0)
  }

  function AfterChange(s: Scheduler, view: nat, u: Update): Step<Scheduler>
    requires u.Scheduling?
  {
    match u.change
    case Replace(_, _) => AfterReplace(s, view, u.source, u.call, u.change)
    case Upsert(_, _) => AfterUpsert(s, view, u.source, u.call, u.change)
    case Delete(id) => Step(DropCall(s.(schedules := s.schedules - {id}), u.call), view, 0)
  }

  function AfterScheduling(s: Scheduler, view: nat, u: Update): Step<Scheduler>
    requires u.Scheduling?
  {
    var verdict := AcceptMutation(s, u.source, u.clock);
    if verdict.accepted then AfterChange(verdict.scheduler, view, u)
    else Step(DropCall(verdict.scheduler, u.call), view, 0)
  }

  // ---------- Background tasks ----------

  predicate BackgroundDone(status: BackgroundStatus) {
    status.BackgroundCompleted? || status.BackgroundFailed? || status.BackgroundCancelled?
  }

  function AfterBackground(b: Backgrounds, view: nat, u: Update): Step<Backgrounds>
    requires u.BackgroundUpdate?
  {
    if u.task in b.items then
      var existing := b.items[u.task];
      if BackgroundDone(existing.status) && u.status == Running then Step(b, view, 0)
      else
        var item := Background(existing.view, u.kind, u.name, u.status, BoundedIncrement(existing.updateCount));
        Step(b.(items := b.items[u.task := item]), view, 0)
    else if |b.items| >= MAX_ITEMS then
      Step(if BackgroundDone(u.status) then b else b.(overflowed := true), view, 1)
    else if view > LAST_VIEW then Step(b, view, 1)
    else
      var item := Background(view, u.kind, u.name, u.status, BoundedIncrement(0));
      Step(b.(items := b.items[u.task := item]), view + 1, 0)
  }

  // ---------- Workflows ----------

  predicate WorkflowDone(status: WorkflowStatus) {
    status.Completed? || status.Cancelled? || status.Failed? || status.Interrupted?
  }

  /** A legacy update never overrides a typed one, nor a typed update a newer revision. */
  predicate WorkflowRefused(w: Workflows, origin: Source, p: WorkflowPayload) {
    && p.identity in w.items
    && var existing := w.items[p.identity];
       || (origin == Legacy && existing.source == Typed)
       || (origin == Typed && existing.revision.Some? && p.revision.Some? && p.revision.value <= existing.revision.value)
  }

  function AfterWorkflow(w: Workflows, view: nat, origin: Source, p: WorkflowPayload): Step<Workflows> {
    if WorkflowRefused(w, origin, p) then Step(w, view, 0)
    else if p.status == Cleared then
      var cleared := w.(items := w.items - {p.identity});
      if p.identity in w.tombstones then Step(cleared, view, 0)
      else if |w.tombstones| < MAX_TOMBSTONES then Step(cleared.(tombstones := w.tombstones + {p.identity}), view, 0)
      else Step(cleared.(saturated := true), view, 1)
    else if p.identity in w.tombstones then Step(w, view, 0)
    else
      var flagged := if WorkflowDone(p.status) then w else w.(overflowed := true);
      if w.saturated then Step(flagged, view, 0)
      else if p.identity in w.items then
        Step(w.(items := w.items[p.identity := Shown(w.items[p.identity].view, origin, p)]), view, 0)
      else if |w.items| >= MAX_ITEMS then Step(flagged, view, 1)
      else if view > LAST_VIEW then Step(w, view, 1)
      else Step(w.(items := w.items[p.identity := Shown(view, origin, p)]), view + 1, 0)
  }

  function Shown(view: nat, origin: Source, p: WorkflowPayload): Workflow {
    Workflow(origin, p.revision, view, p.name, Present(p.objective), p.status, Present(p.phase), p.counters)
  }

  // ---------- Goal ----------

  predicate GoalLive(status: GoalStatus) { status.GoalActive? || status.GoalPaused? }

  function Bury(g: Goals, id: Identity): Step<Goals> {
    if id in g.tombstones then Step(g, 0, 0)
    else if |g.tombstones| < MAX_TOMBSTONES then Step(g.(tombstones := g.tombstones + {id}), 0, 0)
    else Step(g.(saturated := true), 0, 1)
  }

  function AfterGoal(g: Goals, view: nat, p: GoalPayload): Step<Goals> {
    var identity := OrElse(p.identity, if g.current.Some? then Some(g.current.value.identity) else None);
    if p.status == GoalCleared then
      var buried := if identity.Some? then Bury(g, identity.value) else Step(g, 0, 0);
      var emptied := p.identity.None? || (g.current.Some? && g.current.value.identity == p.identity.value);
      Step(if emptied then buried.part.(current := None) else buried.part, view, buried.unknown)
    else if identity.None? || identity.value in g.tombstones then Step(g, view, 0)
    else if g.saturated then Step(if GoalLive(p.status) then g.(overflowed := true) else g, view, 0)
    else if g.current.Some? && g.current.value.identity != identity.value then
      var buried := Bury(g, g.current.value.identity);
      Step(buried.part.(current := Some(Pursued(identity.value, p, None))), view, buried.unknown)
    else
      var elapsed := if g.current.Some? then g.current.value.elapsedMs else None;
      Step(g.(current := Some(Pursued(identity.value, p, elapsed))), view, 0)
  }

  function Pursued(identity: Identity, p: GoalPayload, elapsed: Option<nat>): Goal {
    var elapsedMs := if p.elapsedMs.Some? && elapsed.Some? && elapsed.value > p.elapsedMs.value then elapsed
                     else OrElse(p.elapsedMs, elapsed);
    Goal(identity, p.objective, p.status, Present(p.phase), elapsedMs, p.counters)
  }

  // ---------- The reducer ----------

  function Reduce(s: State, u: Update): State {
    match u
    case Unknown => s.(unknown := AddUnknown(s.unknown, 1))
    case LegacyInput(_, _, _, _, _) => InScheduler(s, AfterInput(s.scheduler, s.nextView, u))
    case Scheduling(_, _, _, _) => InScheduler(s, AfterScheduling(s.scheduler, s.nextView, u))
    case BackgroundUpdate(_, _, _, _) =>
      var step := AfterBackground(s.background, s.nextView, u);
      s.(background := step.part, nextView := step.nextView, unknown := AddUnknown(s.unknown, step.unknown))
    case WorkflowUpdate(origin, p) =>
      var step := AfterWorkflow(s.workflow, s.nextView, origin, p);
      s.(workflow := step.part, nextView := step.nextView, unknown := AddUnknown(s.unknown, step.unknown))
    case GoalUpdate(p) =>
      var step := AfterGoal(s.goals, s.nextView, p);
      s.(goals := step.part, nextView := step.nextView, unknown := AddUnknown(s.unknown, step.unknown))
  }

  function InScheduler(s: State, step: Step<Scheduler>): State {
    s.(scheduler := step.part, nextView := step.nextView, unknown := AddUnknown(s.unknown, step.unknown))
  }

  function Run(s: State, us: seq<Update>): State {
    if us == [] then s else Reduce(Run(s, us[..|us| - 1]), us[|us| - 1])
  }

  predicate HasLiveProtectionWork(s: State) {
    || s.scheduler.schedules != map[] || s.scheduler.overflowed
    || s.background.overflowed || s.workflow.overflowed || s.goals.overflowed
    || (exists id :: id in s.background.items && !BackgroundDone(s.background.items[id].status))
    || (exists id :: id in s.workflow.items && !WorkflowDone(s.workflow.items[id].status))
    || (s.goals.current.Some? && GoalLive(s.goals.current.value.status))
  }

  // ---------- View numbers ----------

  /** The most view numbers an update can take. */
  function Need(u: Update): nat {
    match u
    case Scheduling(_, _, _, Replace(_, list)) => |list|
    case Scheduling(_, _, _, Upsert(_, _)) => 1
    case BackgroundUpdate(_, _, _, _) => 1
    case WorkflowUpdate(_, _) => 1
    case _ => 0
  }

  function Needs(us: seq<Update>): nat {
    if us == [] then 0 else Needs(us[..|us| - 1]) + Need(us[|us| - 1])
  }

  lemma {:induction false} ListedTakesFew(olds: Schedules, source: Source, list: seq<Payload>, view: nat)
    ensures var filled := Listed(olds, source, list, view);
            && view <= filled.nextView <= view + |list|
            && (view + |list| <= LAST_VIEW + 1 ==> filled.complete)
  {
    if list != [] {
      ListedTakesFew(olds, source, list[..|list| - 1], view);
    }
  }

  lemma NeedIsEnough(s: State, u: Update)
    ensures s.nextView <= Reduce(s, u).nextView <= s.nextView + Need(u)
  {
    if u.Scheduling? {
      SchedulingTakesFew(s.scheduler, s.nextView, u);
    }
  }

  lemma SchedulingTakesFew(s: Scheduler, view: nat, u: Update)
    requires u.Scheduling?
    ensures view <= AfterScheduling(s, view, u).nextView <= view + Need(u)
  {
    hide AcceptMutation;
    var verdict := AcceptMutation(s, u.source, u.clock);
    if u.change.Replace? {
      ListedTakesFew(verdict.scheduler.schedules, u.source, u.change.schedules, view);
    }
  }

  lemma {:induction false} NeedsAreEnough(us: seq<Update>)
    ensures 1 <= Run(Initial(), us).nextView <= 1 + Needs(us)
  {
    hide Reduce;
    if us != [] {
      NeedsAreEnough(us[..|us| - 1]);
      NeedIsEnough(Run(Initial(), us[..|us| - 1]), us[|us| - 1]);
    }
  }

  // ---------- The projection object ----------

  /** The loop over the listed schedules. */
  method FillReplacement(olds: Schedules, source: Source, list: seq<Payload>, view: nat) returns (r: Filled)
    ensures r == Listed(olds, source, list, view)
  {
    hide ListOne;
    r := Filled(map[], view, true);
    var i := 0;
    while i < |list| && r.complete
      invariant 0 <= i <= |list| && r == Listed(olds, source, list[..i], view)
    {
      ListedOneMore(olds, source, list, view, i);
      r := ListOne(olds, source, r, list[i]);
      i := i + 1;
    }
    ListedStops(olds, source, list, view, i);
  }

  lemma ListedOneMore(olds: Schedules, source: Source, list: seq<Payload>, view: nat, i: nat)
    requires i < |list| && Listed(olds, source, list[..i], view).complete
    ensures Listed(olds, source, list[..i + 1], view)
            == ListOne(olds, source, Listed(olds, source, list[..i], view), list[i])
  {
    assert list[..i + 1][..i] == list[..i];
  }

  lemma {:induction false} ListedStops(olds: Schedules, source: Source, list: seq<Payload>, view: nat, i: nat)
    requires i <= |list| && (i == |list| || !Listed(olds, source, list[..i], view).complete)
    ensures Listed(olds, source, list[..i], view) == Listed(olds, source, list, view)
  {
    hide ListOne;
    if i == |list| {
      assert list[..i] == list;
    } else {
      var front := list[..|list| - 1];
      assert front[..i] == list[..i];
      ListedStops(olds, source, front, view, i);
    }
  }

  class SessionActivityProjection {
    var state: State

    constructor ()
      ensures state == Initial()
    {
      state := Initial();
    }

    method Apply(u: Update)
      modifies this
      ensures state == Reduce(old(state), u)
    {
      if u.Scheduling? && u.change.Replace? {
        hide AcceptMutation, Listed;
        var verdict := AcceptMutation(state.scheduler, u.source, u.clock);
        if !verdict.accepted {
          state := InScheduler(state, Step(DropCall(verdict.scheduler, u.call), state.nextView, 0));
          return;
        }
        var filled := FillReplacement(verdict.scheduler.schedules, u.source, u.change.schedules, state.nextView);
        if !filled.complete {
          state := InScheduler(state, Step(verdict.scheduler, filled.nextView, 1));
          return;
        }
        var scheduler := verdict.scheduler.(schedules := filled.items, overflowed := u.change.overflowed);
        state := InScheduler(state, Step(DropCall(scheduler, u.call), filled.nextView, 0));
      } else {
        state := Reduce(state, u);
      }
    }
  }
}
