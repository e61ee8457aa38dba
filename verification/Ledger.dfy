/** What is under way, told from the history alone: every accepted step begins and ends what it names,
    and the locks, counters and tokens of the protocol agree with that account. */
module Ledger {
  import opened Results
  import opened Quiescence
  import opened Release

  datatype Work =
    | Updating
    | Migrating
    | Leasing(id: nat)
    | Transacting(id: nat)
    | Forking(session: Id)
    | Retrying(session: Id)
    | Locking(session: Id)
    | Dropping(project: Id)
    | Connecting(session: Id)
    | Living(client: nat)

  /** What an accepted step begins; `next` is the number it hands out. */
  predicate Begins(l: Locks, step: Step, w: Work) {
    var next := l.books.next;
    match step
    case AcquireQuiescence(_) => w == Updating
    case TakeLease(_) => w == Leasing(next)
    case ChangeMemory(_) => w == Leasing(next) || w == Transacting(next + 1)
    case BeginClose(s, _) => w == Leasing(next) || w == Transacting(next + 1) || w == Locking(s)
    case BeginRemove(p, _) => w == Leasing(next) || w == Transacting(next + 1) || w == Dropping(p)
    case BeginDuplicate(s, _) => w == Leasing(next) || w == Locking(s)
    case BeginRetry(s, _) => w == Locking(s) || w == Retrying(s)
    case BeginFork(s) => w == Forking(s) || (CanTakeRoster(l) && w == Leasing(next))
    case BeginMigration(_) => w == Migrating
    case Connect(s, _, _) => w == Connecting(s) || (s !in l.workers && w == Living(next))
    case SpawnDeferred(s) => s !in l.workers && w == Living(next)
    case _ => false
  }

  /** What an accepted step ends. */
  predicate Ends(l: Locks, step: Step, w: Work) {
    match step
    case ReleaseQuiescence => w == Updating
    case GrantQuiescence => if l.stopping then w == Updating else w.Connecting?
    case ReleaseLease(id) => w == Leasing(id) || (id in l.books.leases && l.books.leases[id] == Memory && w == Transacting(id + 1))
    case EndTransaction(id) => w == Transacting(id) || (id in l.books.transactions && Frees(l.books.transactions[id], w))
    case EndLifecycle(s) => w == Locking(s)
    case EndRetry(s) => w == Retrying(s)
    case EndFork(s) => w == Forking(s)
    case EndMigration => w == Migrating
    case ConnectSettled(s) => w == Connecting(s)
    case StopWorker(s) => w == Connecting(s)
    case MigrationStopsAll => w.Connecting?
    case ClientStopped(c) => w == Living(c)
    case FinishStop => w.Connecting? || w.Retrying? || w.Forking? || w.Updating?
    case _ => false
  }

  predicate Frees(holder: Holder, w: Work) {
    match holder
    case Closing(s) => w == Locking(s)
    case Removing(p) => w == Dropping(p)
    case MemorySetting => false
  }

  /** Begun by an accepted step and not ended by a later one. */
  ghost predicate UnderWay(steps: seq<Step>, w: Work) {
    if steps == [] then false
    else
      var front, step := steps[..|steps| - 1], steps[|steps| - 1];
      var l := Run(Start(), front);
      if !Enabled(l, step) then UnderWay(front, w) else Begins(l, step, w) || (UnderWay(front, w) && !Ends(l, step, w))
  }

  /** What the protocol's own fields say. */
  predicate Has(l: Locks, w: Work) {
    match w
    case Updating => l.token.Some?
    case Migrating => l.migrating
    case Leasing(id) => id in l.books.leases
    case Transacting(id) => id in l.books.transactions
    case Forking(s) => s in l.forks
    case Retrying(s) => s in l.retries
    case Locking(s) => s in l.lifecycle
    case Dropping(p) => p in l.removals
    case Connecting(s) => s in l.connections
    case Living(c) => c in l.workers.Values || c in l.stoppingClients
  }

  // ---------- Client numbers ----------

  /** Every client has its own number, and a stopping one is no longer registered. */
  ghost predicate Apart(l: Locks) {
    && (forall s :: s in l.workers ==> l.workers[s] < l.books.next && l.workers[s] !in l.stoppingClients)
    && (forall c <- l.stoppingClients :: c < l.books.next)
    && (forall s, t :: s in l.workers && t in l.workers && s != t ==> l.workers[s] != l.workers[t])
  }

  lemma StepApart(l: Locks, step: Step)
    requires Apart(l)
    ensures Apart(Next(l, step))
  {
    hide Enabled;
    match step
    case AcquireQuiescence(_) =>
    case Connect(s, _, _) => AddApart(l, s);
    case SpawnDeferred(s) => AddApart(l, s);
    case StopWorker(s) => StopApart(l, s);
    case _ => NumbersGrow(l, step);
  }

  lemma AddApart(l: Locks, s: Id)
    requires Apart(l)
    ensures Apart(AddWorker(l, s))
  {}

  lemma StopApart(l: Locks, s: Id)
    requires Apart(l)
    ensures Apart(Next(l, StopWorker(s)))
  {}

  lemma NumbersGrow(l: Locks, step: Step)
    requires Apart(l) && !step.AcquireQuiescence? && !step.Connect? && !step.SpawnDeferred? && !step.StopWorker?
    ensures Apart(Next(l, step))
  {
    NumbersOnlyGrow(l, step);
    ClientsOnlyLeave(l, step);
    hide Next;
  }

  predicate Leaves(l: Locks, r: Locks) {
    || (r.workers == l.workers && r.stoppingClients <= l.stoppingClients)
    || (r.workers == map[] && r.stoppingClients == l.stoppingClients + l.workers.Values)
  }

  lemma ClientsOnlyLeave(l: Locks, step: Step)
    requires !step.AcquireQuiescence? && !step.Connect? && !step.SpawnDeferred? && !step.StopWorker?
    ensures Leaves(l, Next(l, step))
  {
    hide Enabled, AddLease, DropLease, AddTransaction, DropTransaction;
  }

  lemma NumbersOnlyGrow(l: Locks, step: Step)
    ensures Next(l, step).books.next >= l.books.next
  {
    LeaseAdded(l.books);
    hide Enabled, AddLease;
  }

  lemma StopAllHas(l: Locks, c: nat)
    ensures Has(StopAll(l), Living(c)) <==> Has(l, Living(c))
  {}

  lemma AddWorkerHas(l: Locks, s: Id, c: nat)
    ensures Has(AddWorker(l, s), Living(c)) <==> Has(l, Living(c)) || (s !in l.workers && c == l.books.next)
  {
    var r := AddWorker(l, s);
    if s !in l.workers {
      assert r.workers[s] == l.books.next;
      forall k | k in l.workers ensures r.workers[k] == l.workers[k] {}
    }
  }

  lemma StoppedHas(l: Locks, s: Id, c: nat)
    ensures Has(Next(l, StopWorker(s)), Living(c)) <==> Has(l, Living(c))
  {
    if s in l.workers && c in l.workers.Values && c != l.workers[s] {
      var k :| k in l.workers && l.workers[k] == c;
      assert (l.workers - {s})[k] == c;
    }
  }

  lemma LivingStep(l: Locks, step: Step, c: nat)
    requires Apart(l) && Enabled(l, step)
    ensures Kept(l, step, Living(c))
  {
    assert step.ClientStopped? ==> step.client in l.stoppingClients;
    hide Enabled, AddLease, DropLease, AddTransaction, DropTransaction;
    match step
    case AcquireQuiescence(_) =>
      StopAllHas(l.(token := Some(l.books.next), granted := false, books := Numbered(l.books)), c);
    case MigrationStopsAll => StopAllHas(l, c);
    case BeginStop => StopAllHas(l.(stopping := true), c);
    case Connect(s, _, _) => AddWorkerHas(l, s, c);
    case SpawnDeferred(s) => AddWorkerHas(l, s, c);
    case StopWorker(s) => StoppedHas(l, s, c);
    case ClientStopped(_) =>
    case _ => SameClients(l, step, c);
  }

  lemma SameClients(l: Locks, step: Step, c: nat)
    requires !step.AcquireQuiescence? && !step.MigrationStopsAll? && !step.BeginStop? && !step.Connect?
             && !step.SpawnDeferred? && !step.StopWorker? && !step.ClientStopped?
    ensures Has(Next(l, step), Living(c)) <==> Has(l, Living(c))
  {
    hide Enabled;
    assert Next(l, step).workers == l.workers && Next(l, step).stoppingClients == l.stoppingClients;
    hide Next;
  }

  /** The step does to `w` what it begins and ends. */
  ghost predicate Kept(l: Locks, step: Step, w: Work) {
    Has(Next(l, step), w) <==> Begins(l, step, w) || (Has(l, w) && !Ends(l, step, w))
  }

  lemma UpdatingKept(l: Locks, step: Step)
    requires Enabled(l, step)
    ensures Kept(l, step, Updating)
  {
    hide Enabled;
  }

  lemma MigratingKept(l: Locks, step: Step)
    requires Enabled(l, step)
    ensures Kept(l, step, Migrating)
  {
    hide Enabled;
  }

  lemma ReleaseKept(l: Locks, id: nat, w: Work)
    requires Enabled(l, ReleaseLease(id)) && !w.Living?
    ensures Kept(l, ReleaseLease(id), w)
  {
    assert Next(l, ReleaseLease(id)) == l.(books := DropLease(l.books, id));
    hide Next, Enabled;
  }

  lemma LeaseAdded(b: Books)
    ensures forall kind :: AddLease(b, kind).leases == b.leases[b.next := kind]
                           && AddLease(b, kind).transactions == b.transactions && AddLease(b, kind).next == b.next + 1
  {}

  lemma LeasingKept(l: Locks, step: Step, id: nat)
    requires Enabled(l, step) && !step.ReleaseLease?
    ensures Kept(l, step, Leasing(id))
  {
    LeaseAdded(l.books);
    hide Enabled, AddLease;
  }

  lemma TransactingKept(l: Locks, step: Step, id: nat)
    requires Enabled(l, step) && !step.ReleaseLease?
    ensures Kept(l, step, Transacting(id))
  {
    LeaseAdded(l.books);
    hide Enabled, AddLease;
  }

  lemma ForkingKept(l: Locks, step: Step, s: Id)
    requires Enabled(l, step)
    ensures Kept(l, step, Forking(s))
  {
    hide Enabled;
  }

  lemma RetryingKept(l: Locks, step: Step, s: Id)
    requires Enabled(l, step)
    ensures Kept(l, step, Retrying(s))
  {
    hide Enabled;
  }

  lemma LockingKept(l: Locks, step: Step, s: Id)
    requires Enabled(l, step)
    ensures Kept(l, step, Locking(s))
  {
    if step.EndTransaction? || step.ReleaseLease? {
      assert Enabled(l, step);
    }
    hide Enabled;
  }

  lemma DroppingKept(l: Locks, step: Step, p: Id)
    requires Enabled(l, step)
    ensures Kept(l, step, Dropping(p))
  {
    if step.EndTransaction? || step.ReleaseLease? {
      assert Enabled(l, step);
    }
    hide Enabled;
  }

  lemma ConnectingKept(l: Locks, step: Step, s: Id)
    requires Enabled(l, step)
    ensures Kept(l, step, Connecting(s))
  {
    hide Enabled;
  }

  lemma OtherStep(l: Locks, step: Step, w: Work)
    requires Enabled(l, step) && !w.Living?
    ensures Kept(l, step, w)
  {
    hide Kept, Enabled;
    if step.ReleaseLease? {
      ReleaseKept(l, step.id, w);
      return;
    }
    match w
    case Updating => UpdatingKept(l, step);
    case Migrating => MigratingKept(l, step);
    case Leasing(id) => LeasingKept(l, step, id);
    case Transacting(id) => TransactingKept(l, step, id);
    case Forking(s) => ForkingKept(l, step, s);
    case Retrying(s) => RetryingKept(l, step, s);
    case Locking(s) => LockingKept(l, step, s);
    case Dropping(p) => DroppingKept(l, step, p);
    case Connecting(s) => ConnectingKept(l, step, s);
  }

  lemma {:induction false} RunSnoc(l: Locks, steps: seq<Step>)
    requires steps != []
    ensures Run(l, steps) == Next(Run(l, steps[..|steps| - 1]), steps[|steps| - 1])
    decreases steps
  {
    hide Next;
    if |steps| > 1 {
      RunSnoc(Next(l, steps[0]), steps[1..]);
      assert steps[1..][..|steps| - 2] == steps[..|steps| - 1][1..];
    }
  }

  lemma {:induction false} AccountIsExact(steps: seq<Step>, w: Work)
    ensures Apart(Run(Start(), steps)) && (Has(Run(Start(), steps), w) <==> UnderWay(steps, w))
  {
    if steps != [] {
      var front, step := steps[..|steps| - 1], steps[|steps| - 1];
      AccountIsExact(front, w);
      RunSnoc(Start(), steps);
      var l := Run(Start(), front);
      StepApart(l, step);
      hide Run, Apart, Has, Begins, Ends;
      if Enabled(l, step) {
        if w.Living? { LivingStep(l, step, w.client); } else { OtherStep(l, step, w); }
      }
      hide Next, Enabled;
    }
  }

  ghost predicate NothingUnderWay(steps: seq<Step>) { forall w :: UnderWay(steps, w) ==> w.Living? }

  /** An update can be prepared exactly when everything that was begun has ended, client processes
      apart; and once it is granted those have ended too. */
  lemma UpdateWaitsForEverything(steps: seq<Step>, idle: bool)
    ensures var l := Run(Start(), steps);
            && (CanQuiesce(l, idle) <==> idle && !l.stopping && NothingUnderWay(steps))
            && (l.granted ==> forall w :: UnderWay(steps, w) ==> w == Updating)
  {
    var l := Run(Start(), steps);
    Reachable(steps);
    GuardsAreExact(steps, idle, "", "");
    HeldTokenMeansQuiescent(steps);
    forall w ensures Has(l, w) <==> UnderWay(steps, w) {
      AccountIsExact(steps, w);
    }
    hide Run, UnderWay, Inv;
    NothingHas(l);
  }

  lemma NothingHas(l: Locks)
    requires Inv(l)
    ensures Ended(l) <==> forall w :: Has(l, w) ==> w.Living?
    ensures l.token.Some? && l.workers == map[] && l.stoppingClients == {} && Quiet(l) && !l.migrating && l.books.leases == map[]
            ==> forall w :: Has(l, w) ==> w == Updating
  {
    if forall w :: Has(l, w) ==> w.Living? {
      hide Inv;
      assert !Has(l, Updating) && !Has(l, Migrating);
      assert forall id: nat :: id in l.books.leases ==> Has(l, Leasing(id));
      assert forall id: nat :: id in l.books.transactions ==> Has(l, Transacting(id));
      assert forall s :: s in l.forks ==> Has(l, Forking(s));
      assert forall s :: s in l.retries ==> Has(l, Retrying(s));
      assert forall s :: s in l.lifecycle ==> Has(l, Locking(s));
      assert forall p :: p in l.removals ==> Has(l, Dropping(p));
      assert forall s :: s in l.connections ==> Has(l, Connecting(s));
    }
  }
}
