/** The guards of the exclusion protocol refuse exactly while something they name is under way, and
    whatever is under way can end. */
module Release {
  import opened Results
  import opened Quiescence

  // ---------- What the guards look at ----------

  ghost predicate Leased(b: Books, kind: LeaseKind) { exists id :: id in b.leases && b.leases[id] == kind }

  ghost predicate StateTransaction(l: Locks) {
    Leased(l.books, History) || l.token.Some? || l.migrating || l.books.transactions != map[]
  }

  /** The tokens and counters say which leases and transactions are held. */
  lemma BooksAreExact(b: Books)
    requires Balanced(b)
    ensures b.roster.Some? <==> Leased(b, Roster)
    ensures b.history.Some? <==> Leased(b, History)
    ensures b.memory.Some? <==> Leased(b, Memory)
    ensures b.integration == 0 <==> b.leases == map[]
    ensures b.destructive <= 0 <==> b.transactions == map[]
    ensures b.destructive >= 0 && b.integration >= 0
  {
    EmptyMap(b.leases);
    EmptyMap(b.transactions);
  }

  lemma NoRemoval(l: Locks)
    requires Inv(l) && (l.books.transactions == map[] || l.books.memory.Some?)
    ensures l.removals == {}
  {
    hide Exclusive;
    forall p ensures !Opens(l.books.transactions, Removing(p)) {
      if l.books.memory.Some? {
        OnlyTransaction(l.books.transactions, l.books.memory.value + 1);
      }
    }
  }

  lemma OnlyTransaction(transactions: map<nat, Holder>, id: nat)
    requires id in transactions && |transactions| <= 1
    ensures transactions.Keys == {id}
  {
    MapShrinks(transactions, id);
    EmptyMap(transactions - {id});
    assert transactions.Keys - {id} == (transactions - {id}).Keys;
  }

  lemma Reachable(steps: seq<Step>)
    ensures Inv(Run(Start(), steps))
  {
    EmptyLocked({});
    assert Inv(Start());
    RunKeeps(Start(), steps);
  }

  /** In every reachable state each guard passes exactly if nothing of what it excludes is under way.
      Some of what the guards ask for is then implied: no project is being removed while no transaction
      is open, and a memory change needs nothing beyond quiescence. */
  lemma GuardsAreExact(steps: seq<Step>, idle: bool, s: Id, p: Id)
    ensures var l := Run(Start(), steps);
            && (NoStateTransaction(l) <==> !StateTransaction(l))
            && (CanQuiesce(l, idle) <==> idle && !l.stopping && Ended(l))
            && (CanChangeMemory(l, idle) <==> CanQuiesce(l, idle))
            && (CanMigrate(l, idle) <==> idle && !l.stopping && !StateTransaction(l) && Quiet(l) && !Leased(l.books, Roster))
            && (CanTakeRoster(l) <==> !l.stopping && !StateTransaction(l) && !Leased(l.books, Roster))
            && (CanTakeLifecycle(l, s, p) <==> !StateTransaction(l) && s !in l.forks && s !in l.lifecycle)
            && (CanFork(l, s) <==>
                  !l.stopping && !StateTransaction(l) && l.forks == {} && s !in l.lifecycle && s !in l.retries)
            && (CanConnect(l, p, false) <==> !l.stopping && !StateTransaction(l))
            && (CanConnect(l, p, true) <==> !l.stopping && Leased(l.books, Memory))
  {
    var l := Run(Start(), steps);
    Reachable(steps);
    BooksAreExact(l.books);
    hide Run;
    if l.books.transactions == map[] || l.books.memory.Some? {
      NoRemoval(l);
    }
    hide Balanced, Locked, Opens, Leased;
  }

  /** No other operation, lease, guard or lock is in the way of one. */
  ghost predicate Clear(l: Locks) { !l.stopping && !StateTransaction(l) }

  /** The same for the operations: each can begin exactly if nothing of what it excludes is under way. */
  lemma OperationsBeginExactly(steps: seq<Step>, s: Id, p: Id, sessions: set<Id>)
    ensures var l := Run(Start(), steps);
            && (forall kind :: kind != Memory ==>
                  (Enabled(l, TakeLease(kind)) <==> Clear(l) && (kind == Roster ==> !Leased(l.books, Roster))))
            && (Enabled(l, BeginClose(s, p)) <==>
                  Clear(l) && !Leased(l.books, Roster) && s !in l.forks && s !in l.lifecycle)
            && (Enabled(l, BeginRemove(p, sessions)) <==>
                  Clear(l) && !Leased(l.books, Roster) && sessions !! l.forks && sessions !! l.lifecycle)
            && (Enabled(l, BeginDuplicate(s, p)) <==>
                  Clear(l) && !Leased(l.books, Roster) && l.forks == {} && s !in l.lifecycle)
            && (Enabled(l, BeginRetry(s, p)) <==> Clear(l) && s !in l.forks && s !in l.lifecycle && s !in l.retries)
            && (Enabled(l, SpawnDeferred(s)) <==> !l.stopping && (l.forks != {} || Leased(l.books, History)))
  {
    var l := Run(Start(), steps);
    Reachable(steps);
    hide Run, Inv, Enabled, Clear, Leased;
    ClosesExactly(l, s, p);
    RemovesExactly(l, p, sessions);
    RetriesExactly(l, s, p);
  }

  lemma StateGuards(l: Locks)
    requires Inv(l)
    ensures NoStateTransaction(l) <==> !StateTransaction(l)
    ensures CanTakeRoster(l) <==> Clear(l) && !Leased(l.books, Roster)
    ensures l.books.history.Some? <==> Leased(l.books, History)
    ensures !StateTransaction(l) ==> l.removals == {}
  {
    BooksAreExact(l.books);
    if l.books.transactions == map[] {
      NoRemoval(l);
    }
    hide Inv, Leased;
  }

  lemma ClosesExactly(l: Locks, s: Id, p: Id)
    requires Inv(l)
    ensures Enabled(l, BeginClose(s, p)) <==> Clear(l) && !Leased(l.books, Roster) && s !in l.forks && s !in l.lifecycle
    ensures Enabled(l, BeginDuplicate(s, p)) <==> Clear(l) && !Leased(l.books, Roster) && l.forks == {} && s !in l.lifecycle
    ensures forall kind :: kind != Memory ==>
              (Enabled(l, TakeLease(kind)) <==> Clear(l) && (kind == Roster ==> !Leased(l.books, Roster)))
  {
    StateGuards(l);
    hide Inv, Leased, StateTransaction;
  }

  lemma RemovesExactly(l: Locks, p: Id, sessions: set<Id>)
    requires Inv(l)
    ensures Enabled(l, BeginRemove(p, sessions)) <==>
              Clear(l) && !Leased(l.books, Roster) && sessions !! l.forks && sessions !! l.lifecycle
  {
    StateGuards(l);
    hide Inv, Leased, StateTransaction;
  }

  lemma RetriesExactly(l: Locks, s: Id, p: Id)
    requires Inv(l)
    ensures Enabled(l, BeginRetry(s, p)) <==> Clear(l) && s !in l.forks && s !in l.lifecycle && s !in l.retries
    ensures Enabled(l, SpawnDeferred(s)) <==> !l.stopping && (l.forks != {} || Leased(l.books, History))
  {
    StateGuards(l);
    hide Inv, Leased, StateTransaction;
  }

  // ---------- Everything can end ----------

  /** No lease, transaction, token or lock is held. */
  predicate Ended(l: Locks) {
    l.token.None? && !l.migrating && Quiet(l) && l.books.leases == map[]
  }

  /** Steps that finish something: a release, or the end of an operation. */
  predicate Finishes(step: Step) {
    || step.ReleaseLease? || step.EndTransaction? || step.EndLifecycle? || step.EndRetry? || step.EndFork?
    || step.EndMigration? || step.ConnectSettled? || step.ReleaseQuiescence?
  }

  /** A memory-settings transaction is open only as long as its lease. */
  predicate Backed(b: Books) {
    forall id :: id in b.transactions && b.transactions[id].MemorySetting? ==> b.memory.Some?
  }

  lemma StepBacked(l: Locks, step: Step)
    requires Inv(l) && Backed(l.books)
    ensures Backed(Next(l, step).books)
  {
    if Enabled(l, step) && step.ReleaseLease? {
      LeaseBacked(l.books, step.id);
      assert Next(l, step) == l.(books := DropLease(l.books, step.id));
      hide Next, DropLease;
    } else {
      OthersBacked(l, step);
    }
    hide Inv, Enabled;
  }

  lemma OthersBacked(l: Locks, step: Step)
    requires Backed(l.books) && !(Enabled(l, step) && step.ReleaseLease?)
    ensures Backed(Next(l, step).books)
  {
    hide Enabled, DropLease, CanTakeRoster;
  }

  lemma LeaseBacked(b: Books, id: nat)
    requires Balanced(b) && Backed(b) && id in b.leases
    ensures Backed(DropLease(b, id))
  {
    if b.leases[id] == Memory {
      assert b.memory == Some(id);
      OnlyTransaction(b.transactions, id + 1);
    } else {
      assert b.memory != Some(id);
    }
    hide Balanced;
  }

  lemma {:induction false} RunBacked(l: Locks, steps: seq<Step>)
    requires Inv(l) && Backed(l.books)
    ensures Backed(Run(l, steps).books)
    decreases steps
  {
    hide Inv, Enabled, Backed;
    if steps != [] {
      StepBacked(l, steps[0]);
      if Enabled(l, steps[0]) {
        hide Next;
        StepKeeps(l, steps[0]);
      }
      RunBacked(Next(l, steps[0]), steps[1..]);
    }
  }

  function One(b: bool): nat { if b then 1 else 0 }

  /** How many things are under way. */
  function Load(l: Locks): nat {
    |l.books.leases| + |l.books.transactions| + |l.lifecycle| + |l.retries| + |l.forks| + |l.connections|
    + One(l.migrating) + One(l.token.Some?)
  }

  ghost predicate Lightens(l: Locks, e: Step) {
    Finishes(e) && Enabled(l, e) && Load(Next(l, e)) < Load(l) && Next(l, e).stopping == l.stopping
  }

  lemma SetShrinks(s: set<Id>, x: Id)
    requires x in s
    ensures |s - {x}| < |s|
  {}

  lemma FewerTransactions(transactions: map<nat, Holder>, id: nat)
    ensures |transactions - {id}| <= |transactions|
  {
    if id in transactions {
      MapShrinks(transactions, id);
    } else {
      assert transactions - {id} == transactions;
    }
  }

  lemma FinishLease(l: Locks) returns (e: Step)
    requires l.books.leases != map[]
    ensures Lightens(l, e)
  {
    var id :| id in l.books.leases;
    e := ReleaseLease(id);
    LeaseLightens(l, id);
  }

  lemma LeaseLightens(l: Locks, id: nat)
    requires id in l.books.leases
    ensures Lightens(l, ReleaseLease(id))
  {
    FewerBooks(l.books, id);
    assert Next(l, ReleaseLease(id)) == l.(books := DropLease(l.books, id));
    hide Next, DropLease;
  }

  lemma FewerBooks(b: Books, id: nat)
    requires id in b.leases
    ensures |DropLease(b, id).leases| < |b.leases| && |DropLease(b, id).transactions| <= |b.transactions|
  {
    MapShrinks(b.leases, id);
    FewerTransactions(b.transactions, id + 1);
  }

  lemma FinishTransaction(l: Locks) returns (e: Step)
    requires Inv(l) && Backed(l.books) && l.books.leases == map[] && l.books.transactions != map[]
    ensures Lightens(l, e)
  {
    var id :| id in l.books.transactions;
    assert !l.books.transactions[id].MemorySetting?;
    e := EndTransaction(id);
    MapShrinks(l.books.transactions, id);
    hide Inv;
    if l.books.transactions[id].Closing? {
      FewerLocks(l.lifecycle, l.books.transactions[id].session);
    }
  }

  lemma FewerLocks(s: set<Id>, x: Id)
    ensures |s - {x}| <= |s|
  {
    if x in s {
      SetShrinks(s, x);
    } else {
      assert s - {x} == s;
    }
  }

  lemma FinishOther(l: Locks) returns (e: Step)
    requires Inv(l) && !Ended(l) && l.books.leases == map[] && l.books.transactions == map[]
    ensures Lightens(l, e)
  {
    NoRemoval(l);
    hide Inv, Lightens;
    if l.lifecycle != {} {
      var s :| s in l.lifecycle;
      e := EndLifecycle(s);
      LifecycleLightens(l, s);
    } else if l.retries != {} {
      var s :| s in l.retries;
      e := EndRetry(s);
      RetryLightens(l, s);
    } else if l.forks != {} {
      var s :| s in l.forks;
      e := EndFork(s);
      ForkLightens(l, s);
    } else if l.connections != {} {
      var s :| s in l.connections;
      e := ConnectSettled(s);
      ConnectLightens(l, s);
    } else if l.migrating {
      e := EndMigration;
      MigrationLightens(l);
    } else {
      e := ReleaseQuiescence;
      TokenLightens(l);
    }
  }

  lemma LifecycleLightens(l: Locks, s: Id)
    requires s in l.lifecycle && l.books.transactions == map[]
    ensures Lightens(l, EndLifecycle(s))
  {
    SetShrinks(l.lifecycle, s);
    assert Next(l, EndLifecycle(s)) == l.(lifecycle := l.lifecycle - {s});
    hide Next;
  }

  lemma RetryLightens(l: Locks, s: Id)
    requires s in l.retries
    ensures Lightens(l, EndRetry(s))
  {
    SetShrinks(l.retries, s);
    assert Next(l, EndRetry(s)) == l.(retries := l.retries - {s});
    hide Next;
  }

  lemma ForkLightens(l: Locks, s: Id)
    requires s in l.forks
    ensures Lightens(l, EndFork(s))
  {
    SetShrinks(l.forks, s);
    assert Next(l, EndFork(s)) == l.(forks := l.forks - {s});
    hide Next;
  }

  lemma ConnectLightens(l: Locks, s: Id)
    requires s in l.connections
    ensures Lightens(l, ConnectSettled(s))
  {
    SetShrinks(l.connections, s);
    assert Next(l, ConnectSettled(s)) == l.(connections := l.connections - {s});
    hide Next;
  }

  lemma MigrationLightens(l: Locks)
    requires l.migrating
    ensures Lightens(l, EndMigration)
  {
    assert Next(l, EndMigration) == l.(migrating := false);
    hide Next;
  }

  lemma TokenLightens(l: Locks)
    requires l.token.Some?
    ensures Lightens(l, ReleaseQuiescence)
  {
    assert Next(l, ReleaseQuiescence) == l.(token := None, granted := false);
    hide Next;
  }

  lemma {:induction false} Finish(l: Locks) returns (ends: seq<Step>)
    requires Inv(l) && Backed(l.books)
    ensures (forall e <- ends :: Finishes(e)) && Ended(Run(l, ends)) && Run(l, ends).stopping == l.stopping
    decreases Load(l)
  {
    if Ended(l) {
      return [];
    }
    var e;
    if l.books.leases != map[] {
      e := FinishLease(l);
    } else if l.books.transactions != map[] {
      e := FinishTransaction(l);
    } else {
      e := FinishOther(l);
    }
    StepKeeps(l, e);
    StepBacked(l, e);
    hide Inv, Backed, Enabled, Next, Load, Ended;
    var rest := Finish(Next(l, e));
    ends := [e] + rest;
    assert ends[1..] == rest;
  }

  ghost predicate CanEnd(l: Locks) {
    exists ends :: (forall e <- ends :: Finishes(e)) && Ended(Run(l, ends)) && Run(l, ends).stopping == l.stopping
  }

  /** No counter, lock or token is ever stranded: from every reachable state, releases and ends alone
      lead to a state in which nothing is held, where updating, unless the host stops, is possible. */
  lemma NothingIsStranded(steps: seq<Step>)
    ensures CanEnd(Run(Start(), steps))
    ensures var l := Run(Start(), steps); Ended(l) && !l.stopping ==> CanQuiesce(l, true)
  {
    Reachable(steps);
    RunBacked(Start(), steps) by {
      EmptyLocked({});
    }
    GuardsAreExact(steps, true, "", "");
    var l := Run(Start(), steps);
    hide Inv, Backed, Run;
    var ends := Finish(l);
  }
}
