/** The exclusion protocol of AppController: counters, lock sets and the update-quiescence token,
    as the synchronous steps of operations that run concurrently. */
module Quiescence {
  import opened Results

  type Id = string

  datatype LeaseKind = Integration | Roster | Catalog | History | Memory

  /** What holds the destructive-transaction counter up. */
  datatype Holder = Closing(session: Id) | Removing(project: Id) | MemorySetting

  /** `leases` and `transactions` are the release closures handed out and not yet called; the two
      counters and three tokens are the fields the source keeps. */
  datatype Books = Books(
    leases: map<nat, LeaseKind>, transactions: map<nat, Holder>, integration: int, destructive: int,
    roster: Option<nat>, history: Option<nat>, memory: Option<nat>, next: nat)

  datatype Locks = Locks(
    books: Books, stopping: bool, token: Option<nat>, granted: bool, migrating: bool,
    forks: set<Id>, retries: set<Id>, lifecycle: set<Id>, removals: set<Id>, connections: set<Id>,
    workers: map<Id, nat>, stoppingClients: set<nat>)

  function Start(): Locks {
    Locks(Books(map[], map[], 0, 0, None, None, None, 0), false, None, false, false, {}, {}, {}, {}, {}, map[], {})
  }

  // ---------- Leases and transactions ----------

  function AddLease(b: Books, kind: LeaseKind): Books {
    var id := b.next;
    var taken := b.(leases := b.leases[id := kind], integration := b.integration + 1, next := id + 1);
    match kind
    case Roster => taken.(roster := Some(id))
    case History => taken.(history := Some(id))
    case Memory => taken.(memory := Some(id))
    case _ => taken
  }

  function AddTransaction(b: Books, holder: Holder): Books {
    b.(transactions := b.transactions[b.next := holder], destructive := b.destructive + 1, next := b.next + 1)
  }

  function AtLeastZero(n: int): int { if n < 0 then 0 else n }

  /** A release clears the token it set, if that is still the one in place. */
  function Cleared(current: Option<nat>, id: nat): Option<nat> { if current == Some(id) then None else current }

  /** The memory-settings transaction is kept under the number after its lease. */
  function DropLease(b: Books, id: nat): Books
    requires id in b.leases
  {
    var dropped := b.(leases := b.leases - {id}, integration := AtLeastZero(b.integration - 1));
    match b.leases[id]
    case Roster => dropped.(roster := Cleared(b.roster, id))
    case History => dropped.(history := Cleared(b.history, id))
    case Memory => dropped.(memory := Cleared(b.memory, id), transactions := b.transactions - {id + 1},
                            destructive := AtLeastZero(b.destructive - 1))
    case _ => dropped
  }

  function DropTransaction(b: Books, id: nat): Books {
    b.(transactions := b.transactions - {id}, destructive := b.destructive - 1)
  }

  /** The counters are the numbers of leases and transactions still held, and at most one
      destructive transaction is open at a time. */
  ghost predicate Counted(b: Books) {
    && b.integration == |b.leases| && b.destructive == |b.transactions| && |b.transactions| <= 1
    && (forall id :: id in b.leases ==> id < b.next) && (forall id :: id in b.transactions ==> id < b.next)
  }

  /** The token of a kind is the one lease of that kind. */
  ghost predicate Token(b: Books, token: Option<nat>, kind: LeaseKind) {
    && (forall id :: id in b.leases && b.leases[id] == kind ==> token == Some(id))
    && (token.Some? ==> token.value in b.leases && b.leases[token.value] == kind)
  }

  ghost predicate Held(b: Books) {
    && Token(b, b.roster, Roster) && Token(b, b.history, History) && Token(b, b.memory, Memory)
    && (b.memory.Some? ==> b.memory.value + 1 in b.transactions && b.transactions[b.memory.value + 1] == MemorySetting)
  }

  /** Every release lowers its counter by exactly one: the floor at zero is never reached. */
  lemma ReleaseNeverClips(b: Books, id: nat)
    requires Balanced(b) && id in b.leases
    ensures DropLease(b, id).integration == b.integration - 1 >= 0
    ensures b.leases[id] == Memory ==> DropLease(b, id).destructive == b.destructive - 1 >= 0
  {
    DropLeaseCounted(b, id);
  }

  ghost predicate Balanced(b: Books) { Counted(b) && Held(b) }

  /** The kind is not taken twice. */
  predicate Free(b: Books, kind: LeaseKind) {
    match kind
    case Roster => b.roster.None?
    case History => b.history.None?
    case Memory => b.memory.None?
    case _ => true
  }

  lemma MapGrows<T>(m: map<nat, T>, id: nat, v: T)
    requires id !in m
    ensures |m[id := v]| == |m| + 1
  {
    assert m[id := v].Keys == m.Keys + {id};
  }

  lemma MapShrinks<T>(m: map<nat, T>, id: nat)
    requires id in m
    ensures |m - {id}| == |m| - 1
  {
    assert (m - {id}).Keys == m.Keys - {id};
  }

  lemma EmptyMap<T>(m: map<nat, T>)
    ensures |m| == 0 <==> m == map[]
  {
    if |m| == 0 {
      assert m.Keys == {};
    }
  }

  lemma TokenKept(b: Books, r: Books, token: Option<nat>, kind: LeaseKind, id: nat, other: LeaseKind)
    requires Token(b, token, kind) && id !in b.leases && r.leases == b.leases[id := other] && other != kind
    ensures Token(r, token, kind)
  {}

  lemma TokenTaken(b: Books, r: Books, kind: LeaseKind, id: nat)
    requires Token(b, None, kind) && r.leases == b.leases[id := kind]
    ensures Token(r, Some(id), kind)
  {}

  lemma AddLeaseBalanced(b: Books, kind: LeaseKind)
    requires Balanced(b) && Free(b, kind) && kind != Memory
    ensures Balanced(AddLease(b, kind))
  {
    var r := AddLease(b, kind);
    MapGrows(b.leases, b.next, kind);
    assert b.next !in b.leases;
    hide Token;
    if kind == Roster { TokenTaken(b, r, Roster, b.next); } else { TokenKept(b, r, b.roster, Roster, b.next, kind); }
    if kind == History { TokenTaken(b, r, History, b.next); } else { TokenKept(b, r, b.history, History, b.next, kind); }
    TokenKept(b, r, b.memory, Memory, b.next, kind);
  }

  lemma OpenBalanced(b: Books, holder: Holder)
    requires Balanced(b) && b.destructive == 0
    ensures Balanced(AddTransaction(b, holder))
  {
    EmptyMap(b.transactions);
    MapGrows(b.transactions, b.next, holder);
    var r := AddTransaction(b, holder);
    SameLeases(b, r, b.roster, Roster);
    SameLeases(b, r, b.history, History);
    SameLeases(b, r, b.memory, Memory);
    hide Token;
  }

  lemma SameLeases(b: Books, r: Books, token: Option<nat>, kind: LeaseKind)
    requires r.leases == b.leases
    ensures Token(r, token, kind) <==> Token(b, token, kind)
  {}

  lemma MemoryBalanced(b: Books)
    requires Balanced(b) && b.integration == 0 && b.destructive == 0
    ensures Balanced(AddTransaction(AddLease(b, Memory), MemorySetting))
  {
    EmptyMap(b.leases);
    EmptyMap(b.transactions);
    var r := AddTransaction(AddLease(b, Memory), MemorySetting);
    assert r.leases == map[b.next := Memory] && r.transactions == map[b.next + 1 := MemorySetting];
    assert |map[b.next := Memory]| == 1 && |map[b.next + 1 := MemorySetting]| == 1;
  }

  lemma TokenDropped(b: Books, r: Books, token: Option<nat>, kind: LeaseKind, id: nat)
    requires Token(b, token, kind) && id in b.leases && r.leases == b.leases - {id}
    ensures Token(r, if b.leases[id] == kind then Cleared(token, id) else token, kind)
  {}

  /** The counter goes down by exactly one: the floor at zero never matters. */
  lemma DropLeaseCounted(b: Books, id: nat)
    requires Balanced(b) && id in b.leases
    ensures var r := DropLease(b, id);
            Counted(r) && r.integration == b.integration - 1
            && r.destructive == if b.leases[id] == Memory then b.destructive - 1 else b.destructive
  {
    MapShrinks(b.leases, id);
    if b.leases[id] == Memory {
      assert b.memory == Some(id);
      MapShrinks(b.transactions, id + 1);
    }
    hide Token;
  }

  lemma DropLeaseBalanced(b: Books, id: nat)
    requires Balanced(b) && id in b.leases
    ensures Balanced(DropLease(b, id))
  {
    DropLeaseCounted(b, id);
    var r := DropLease(b, id);
    TokenDropped(b, r, b.roster, Roster, id);
    TokenDropped(b, r, b.history, History, id);
    TokenDropped(b, r, b.memory, Memory, id);
    assert b.leases[id] == Memory ==> b.memory == Some(id);
    hide Token, Counted;
  }

  lemma DropTransactionBalanced(b: Books, id: nat)
    requires Balanced(b) && id in b.transactions && !b.transactions[id].MemorySetting?
    ensures Balanced(DropTransaction(b, id)) && DropTransaction(b, id).destructive == 0
    ensures b.destructive == 1 && DropTransaction(b, id).transactions == map[]
  {
    MapShrinks(b.transactions, id);
    EmptyMap(b.transactions - {id});
    var r := DropTransaction(b, id);
    SameLeases(b, r, b.roster, Roster);
    SameLeases(b, r, b.history, History);
    SameLeases(b, r, b.memory, Memory);
    hide Token;
  }

  lemma NothingHeld(b: Books)
    requires Balanced(b)
    ensures b.integration == 0 ==> b.leases == map[] && b.roster.None? && b.history.None? && b.memory.None?
    ensures b.destructive <= 0 ==> b.transactions == map[] && b.destructive == 0 && b.memory.None?
  {
    EmptyMap(b.leases);
    EmptyMap(b.transactions);
  }

  // ---------- Guards ----------

  /** assertNoStateTransaction */
  predicate NoStateTransaction(l: Locks) {
    l.books.history.None? && l.token.None? && !l.migrating && l.books.destructive <= 0
  }

  /** canAcquireUpdateQuiescence; `idle` stands for the health checks, queues, pumps and session states. */
  predicate CanQuiesce(l: Locks, idle: bool) {
    && !l.stopping && l.token.None? && !l.migrating
    && l.forks == {} && l.retries == {} && l.lifecycle == {} && l.removals == {}
    && l.books.destructive == 0 && l.connections == {} && l.books.integration == 0 && idle
  }

  predicate CanChangeMemory(l: Locks, idle: bool) {
    CanQuiesce(l, idle) && l.books.roster.None? && l.books.history.None? && l.books.memory.None?
  }

  predicate CanMigrate(l: Locks, idle: bool) {
    && l.books.history.None? && l.token.None? && !l.stopping && !l.migrating
    && l.forks == {} && l.retries == {} && l.lifecycle == {} && l.removals == {}
    && l.books.destructive <= 0 && l.connections == {} && l.books.roster.None? && idle
  }

  predicate CanTakeRoster(l: Locks) { NoStateTransaction(l) && !l.stopping && l.books.roster.None? }

  /** acquireSessionLifecycle */
  predicate CanTakeLifecycle(l: Locks, session: Id, project: Id) {
    && !l.migrating && session !in l.forks && session !in l.lifecycle && project !in l.removals && NoStateTransaction(l)
  }

  predicate CanFork(l: Locks, session: Id) {
    && l.books.history.None? && l.token.None? && !l.stopping && !l.migrating && l.books.destructive <= 0
    && session !in l.lifecycle && session !in l.retries && l.forks == {}
  }

  predicate CanConnect(l: Locks, project: Id, forMemory: bool) {
    && !l.stopping && l.token.None? && project !in l.removals
    && if forMemory then l.books.memory.Some? else NoStateTransaction(l)
  }

  // ---------- Steps ----------

  datatype Step =
    | AcquireQuiescence(idle: bool)
    | GrantQuiescence
    | ReleaseQuiescence
    | TakeLease(kind: LeaseKind)
    | ChangeMemory(idle: bool)
    | ReleaseLease(id: nat)
    | BeginClose(session: Id, project: Id)
    | BeginRemove(project: Id, sessions: set<Id>)
    | EndTransaction(id: nat)
    | BeginDuplicate(session: Id, project: Id)
    | BeginRetry(session: Id, project: Id)
    | EndLifecycle(session: Id)
    | EndRetry(session: Id)
    | BeginFork(session: Id)
    | EndFork(session: Id)
    | BeginMigration(idle: bool)
    | MigrationStopsAll
    | EndMigration
    | Connect(session: Id, project: Id, forMemory: bool)
    | ConnectSettled(session: Id)
    | SpawnDeferred(session: Id)
    | StopWorker(session: Id)
    | ClientStopped(client: nat)
    | BeginStop
    | FinishStop

  ghost predicate Opens(transactions: map<nat, Holder>, holder: Holder) {
    exists id :: id in transactions && transactions[id] == holder
  }

  ghost predicate Enabled(l: Locks, step: Step) {
    match step
    case AcquireQuiescence(idle) => CanQuiesce(l, idle)
    case GrantQuiescence => l.token.Some? && l.stoppingClients == {}
    case ReleaseQuiescence => l.token.Some?
    case TakeLease(kind) =>
      && kind != Memory && NoStateTransaction(l) && !l.stopping && (kind == Roster ==> l.books.roster.None?)
    case ChangeMemory(idle) => CanChangeMemory(l, idle)
    case ReleaseLease(id) => id in l.books.leases
    case BeginClose(s, p) => CanTakeRoster(l) && CanTakeLifecycle(l, s, p)
    case BeginRemove(p, sessions) => CanTakeRoster(l) && sessions !! l.forks && sessions !! l.lifecycle && p !in l.removals
    case EndTransaction(id) => id in l.books.transactions && !l.books.transactions[id].MemorySetting?
    case BeginDuplicate(s, p) => l.forks == {} && CanTakeRoster(l) && CanTakeLifecycle(l, s, p)
    case BeginRetry(s, p) => !l.stopping && s !in l.retries && CanTakeLifecycle(l, s, p)
    case EndLifecycle(s) => s in l.lifecycle && !Opens(l.books.transactions, Closing(s))
    case EndRetry(s) => s in l.retries
    case BeginFork(s) => CanFork(l, s)
    case EndFork(s) => s in l.forks
    case BeginMigration(idle) => CanMigrate(l, idle)
    case MigrationStopsAll => l.migrating
    case EndMigration => l.migrating
    case Connect(_, p, forMemory) => CanConnect(l, p, forMemory)
    case ConnectSettled(s) => s in l.connections
    case SpawnDeferred(_) => !l.stopping && (l.forks != {} || l.books.history.Some?)
    case StopWorker(_) => true
    case ClientStopped(c) => c in l.stoppingClients
    case BeginStop => true
    case FinishStop => l.stopping
  }

  /** Registered workers are unregistered at once; their processes end later. */
  function StopAll(l: Locks): Locks {
    l.(workers := map[], stoppingClients := l.stoppingClients + l.workers.Values)
  }

  /** The lock that an ending transaction gives back. */
  function Unlocked(l: Locks, holder: Holder): Locks {
    match holder
    case Closing(s) => l.(lifecycle := l.lifecycle - {s})
    case Removing(p) => l.(removals := l.removals - {p})
    case MemorySetting => l
  }

  function Numbered(b: Books): Books { b.(next := b.next + 1) }

  function AddWorker(l: Locks, session: Id): Locks {
    if session in l.workers then l else l.(workers := l.workers[session := l.books.next], books := Numbered(l.books))
  }

  /** A step whose guard fails is refused and changes nothing. */
  ghost function Next(l: Locks, step: Step): Locks {
    if !Enabled(l, step) then l else
    match step
    case AcquireQuiescence(_) => StopAll(l.(token := Some(l.books.next), granted := false, books := Numbered(l.books)))
    case GrantQuiescence =>
      if l.stopping then l.(token := None, granted := false) else l.(granted := true, connections := {})
    case ReleaseQuiescence => l.(token := None, granted := false)
    case TakeLease(kind) => l.(books := AddLease(l.books, kind))
    case ChangeMemory(_) => l.(books := AddTransaction(AddLease(l.books, Memory), MemorySetting))
    case ReleaseLease(id) => l.(books := DropLease(l.books, id))
    case BeginClose(s, _) => l.(books := AddTransaction(AddLease(l.books, Roster), Closing(s)), lifecycle := l.lifecycle + {s})
    case BeginRemove(p, _) => l.(books := AddTransaction(AddLease(l.books, Roster), Removing(p)), removals := l.removals + {p})
    case EndTransaction(id) => Unlocked(l.(books := DropTransaction(l.books, id)), l.books.transactions[id])
    case BeginDuplicate(s, _) => l.(books := AddLease(l.books, Roster), lifecycle := l.lifecycle + {s})
    case BeginRetry(s, _) => l.(lifecycle := l.lifecycle + {s}, retries := l.retries + {s})
    case EndLifecycle(s) => l.(lifecycle := l.lifecycle - {s})
    case EndRetry(s) => l.(retries := l.retries - {s})
    case BeginFork(s) => l.(forks := l.forks + {s}, books := if CanTakeRoster(l) then AddLease(l.books, Roster) else l.books)
    case EndFork(s) => l.(forks := l.forks - {s})
    case BeginMigration(_) => l.(migrating := true)
    case MigrationStopsAll => StopAll(l).(connections := {})
    case EndMigration => l.(migrating := false)
    case Connect(s, _, _) => AddWorker(l, s).(connections := l.connections + {s})
    case ConnectSettled(s) => l.(connections := l.connections - {s})
    case SpawnDeferred(s) => AddWorker(l, s)
    case StopWorker(s) =>
      if s in l.workers then
        l.(connections := l.connections - {s}, workers := l.workers - {s}, stoppingClients := l.stoppingClients + {l.workers[s]})
      else l.(connections := l.connections - {s})
    case ClientStopped(c) => l.(stoppingClients := l.stoppingClients - {c})
    case BeginStop => StopAll(l.(stopping := true))
    case FinishStop => l.(connections := {}, retries := {}, forks := {}, token := None, granted := false)
  }

  // ---------- What every step keeps ----------

  /** A closing transaction has its session's lifecycle lock; removal locks and removals agree. */
  ghost predicate Locked(transactions: map<nat, Holder>, lifecycle: set<Id>, removals: set<Id>) {
    && (forall id :: id in transactions && transactions[id].Closing? ==> transactions[id].session in lifecycle)
    && (forall p :: p in removals <==> Opens(transactions, Removing(p)))
  }

  /** Nothing that starts, retries, forks, closes, removes or connects a session is under way. */
  predicate Quiet(l: Locks) {
    && l.forks == {} && l.retries == {} && l.lifecycle == {} && l.removals == {} && l.connections == {}
    && l.books.transactions == map[]
  }

  predicate Exclusive(l: Locks) {
    && (l.token.Some? ==> Quiet(l) && !l.migrating && l.books.leases == map[] && l.workers == map[])
    && (l.granted ==> l.token.Some? && l.stoppingClients == {})
    && (l.migrating ==> Quiet(l) && l.books.history.None? && l.books.roster.None?)
  }

  ghost predicate Inv(l: Locks) {
    Balanced(l.books) && Locked(l.books.transactions, l.lifecycle, l.removals) && Exclusive(l)
  }

  lemma OpensMore(transactions: map<nat, Holder>, id: nat, holder: Holder, h: Holder)
    requires id !in transactions
    ensures Opens(transactions[id := holder], h) <==> Opens(transactions, h) || h == holder
  {
    var more := transactions[id := holder];
    assert more[id] == holder;
    if Opens(transactions, h) {
      var k :| k in transactions && transactions[k] == h;
      assert more[k] == h;
    }
  }

  lemma OpenLocked(transactions: map<nat, Holder>, lifecycle: set<Id>, removals: set<Id>, id: nat, holder: Holder)
    requires Locked(transactions, lifecycle, removals) && id !in transactions
    ensures Locked(transactions[id := holder], if holder.Closing? then lifecycle + {holder.session} else lifecycle,
                   if holder.Removing? then removals + {holder.project} else removals)
  {
    forall p ensures Opens(transactions[id := holder], Removing(p)) <==> Opens(transactions, Removing(p)) || holder == Removing(p) {
      OpensMore(transactions, id, holder, Removing(p));
    }
  }

  lemma EmptyLocked(lifecycle: set<Id>)
    ensures Locked(map[], lifecycle, {})
  {}

  /** With no transaction left there is no removal lock. */
  lemma LastUnlocked(transactions: map<nat, Holder>, lifecycle: set<Id>, removals: set<Id>, id: nat)
    requires Locked(transactions, lifecycle, removals) && id in transactions && transactions - {id} == map[]
    ensures transactions[id].Removing? ==> removals == {transactions[id].project}
    ensures !transactions[id].Removing? ==> removals == {}
  {
    forall p ensures p in removals <==> transactions[id] == Removing(p) {
      assert p in removals <==> Opens(transactions, Removing(p));
      forall k | k in transactions ensures k == id {
        assert k == id || k in transactions - {id};
      }
    }
  }

  lemma MoreLifecycle(transactions: map<nat, Holder>, lifecycle: set<Id>, more: set<Id>, removals: set<Id>)
    requires Locked(transactions, lifecycle, removals) && lifecycle <= more
    ensures Locked(transactions, more, removals)
  {}

  lemma LessLifecycle(transactions: map<nat, Holder>, lifecycle: set<Id>, removals: set<Id>, s: Id)
    requires Locked(transactions, lifecycle, removals) && !Opens(transactions, Closing(s))
    ensures Locked(transactions, lifecycle - {s}, removals)
  {}

  lemma NumberedBalanced(b: Books)
    requires Balanced(b)
    ensures Balanced(Numbered(b))
  {
    var r := Numbered(b);
    SameLeases(b, r, b.roster, Roster);
    SameLeases(b, r, b.history, History);
    SameLeases(b, r, b.memory, Memory);
    hide Token;
  }

  /** Steps that only take away. */
  predicate OnlyLess(l: Locks, r: Locks) {
    && r.forks <= l.forks && r.retries <= l.retries && r.lifecycle <= l.lifecycle && r.removals <= l.removals
    && r.connections <= l.connections && r.books.leases.Keys <= l.books.leases.Keys
    && r.books.transactions.Keys <= l.books.transactions.Keys && r.workers.Keys <= l.workers.Keys
    && (r.token == l.token || (r.token.None? && !r.granted)) && (r.granted ==> l.granted && r.stoppingClients <= l.stoppingClients)
    && (r.migrating ==> l.migrating)
    && (l.books.history.None? ==> r.books.history.None?) && (l.books.roster.None? ==> r.books.roster.None?)
  }

  lemma LessStaysExclusive(l: Locks, r: Locks)
    requires Exclusive(l) && OnlyLess(l, r)
    ensures Exclusive(r)
  {
    if r.token.Some? {
      assert r.books.leases.Keys == {} && r.books.transactions.Keys == {} && r.workers.Keys == {};
    }
    if r.migrating {
      assert r.books.transactions.Keys == {};
    }
  }

  lemma NoStateMeans(l: Locks)
    requires NoStateTransaction(l) && Inv(l)
    ensures l.token.None? && !l.migrating && !l.granted && l.books.destructive == 0
  {
    NothingHeld(l.books);
  }

  lemma QuiescenceKeeps(l: Locks, idle: bool)
    requires Inv(l) && CanQuiesce(l, idle)
    ensures Inv(Next(l, AcquireQuiescence(idle)))
  {
    NothingHeld(l.books);
    NumberedBalanced(l.books);
    hide Balanced, Locked;
  }

  lemma MigrationKeeps(l: Locks, idle: bool)
    requires Inv(l) && CanMigrate(l, idle)
    ensures Inv(Next(l, BeginMigration(idle)))
  {
    NothingHeld(l.books);
    hide Balanced, Locked;
  }

  /** A new lease or lock, taken under a guard that rules token and migration out. */
  lemma GuardedKeeps(l: Locks, r: Locks)
    requires Inv(l) && l.token.None? && !l.migrating && r.token.None? && !r.migrating && r.granted == l.granted
    requires Balanced(r.books) && Locked(r.books.transactions, r.lifecycle, r.removals)
    ensures Inv(r)
  {
    hide Balanced, Locked;
  }

  lemma ReleaseKeeps(l: Locks, id: nat)
    requires Inv(l) && id in l.books.leases
    ensures Inv(Next(l, ReleaseLease(id)))
  {
    DropLeaseBalanced(l.books, id);
    DropLeaseTransactions(l, id);
    DropLeaseIsLess(l, id);
    hide Balanced, Locked, Exclusive, OnlyLess, DropLease;
    LessStaysExclusive(l, l.(books := DropLease(l.books, id)));
  }

  lemma DropLeaseIsLess(l: Locks, id: nat)
    requires id in l.books.leases
    ensures OnlyLess(l, l.(books := DropLease(l.books, id)))
  {}

  lemma DropLeaseTransactions(l: Locks, id: nat)
    requires Inv(l) && id in l.books.leases
    ensures Locked(DropLease(l.books, id).transactions, l.lifecycle, l.removals)
  {
    var b := l.books;
    var r := DropLease(b, id);
    if b.leases[id] == Memory {
      assert b.memory == Some(id);
      forall p ensures Opens(r.transactions, Removing(p)) <==> Opens(b.transactions, Removing(p)) {
        if Opens(b.transactions, Removing(p)) {
          var k :| k in b.transactions && b.transactions[k] == Removing(p);
          assert k in r.transactions;
        }
      }
    }
  }

  lemma EndTransactionKeeps(l: Locks, id: nat)
    requires Inv(l) && Enabled(l, EndTransaction(id))
    ensures Inv(Next(l, EndTransaction(id)))
  {
    DropTransactionBalanced(l.books, id);
    LastUnlocked(l.books.transactions, l.lifecycle, l.removals, id);
    var r := Next(l, EndTransaction(id));
    EmptyLocked(r.lifecycle);
    hide Balanced, Locked, Exclusive;
    LessStaysExclusive(l, r);
  }

  lemma BeginKeeps(l: Locks, holder: Holder)
    requires Inv(l) && CanTakeRoster(l) && !holder.MemorySetting?
    ensures Inv(l.(books := AddTransaction(AddLease(l.books, Roster), holder),
                   lifecycle := if holder.Closing? then l.lifecycle + {holder.session} else l.lifecycle,
                   removals := if holder.Removing? then l.removals + {holder.project} else l.removals))
  {
    NoStateMeans(l);
    AddLeaseBalanced(l.books, Roster);
    var b := AddLease(l.books, Roster);
    assert b.next !in b.transactions;
    hide Exclusive, Token;
    OpenBalanced(b, holder);
    OpenLocked(l.books.transactions, l.lifecycle, l.removals, b.next, holder);
    hide Balanced, Locked;
    GuardedKeeps(l, l.(books := AddTransaction(b, holder),
                       lifecycle := if holder.Closing? then l.lifecycle + {holder.session} else l.lifecycle,
                       removals := if holder.Removing? then l.removals + {holder.project} else l.removals));
  }

  lemma LeaseKeeps(l: Locks, kind: LeaseKind)
    requires Inv(l) && Enabled(l, TakeLease(kind))
    ensures Inv(Next(l, TakeLease(kind)))
  {
    NoStateMeans(l);
    AddLeaseBalanced(l.books, kind);
    hide Balanced, Locked, Exclusive;
    GuardedKeeps(l, Next(l, TakeLease(kind)));
  }

  lemma DuplicateKeeps(l: Locks, s: Id, p: Id)
    requires Inv(l) && Enabled(l, BeginDuplicate(s, p))
    ensures Inv(Next(l, BeginDuplicate(s, p)))
  {
    NoStateMeans(l);
    AddLeaseBalanced(l.books, Roster);
    MoreLifecycle(l.books.transactions, l.lifecycle, l.lifecycle + {s}, l.removals);
    hide Balanced, Locked, Exclusive;
    GuardedKeeps(l, Next(l, BeginDuplicate(s, p)));
  }

  lemma RetryKeeps(l: Locks, s: Id, p: Id)
    requires Inv(l) && Enabled(l, BeginRetry(s, p))
    ensures Inv(Next(l, BeginRetry(s, p)))
  {
    NoStateMeans(l);
    MoreLifecycle(l.books.transactions, l.lifecycle, l.lifecycle + {s}, l.removals);
    hide Balanced, Locked, Exclusive;
    GuardedKeeps(l, Next(l, BeginRetry(s, p)));
  }

  lemma ForkKeeps(l: Locks, s: Id)
    requires Inv(l) && Enabled(l, BeginFork(s))
    ensures Inv(Next(l, BeginFork(s)))
  {
    if CanTakeRoster(l) {
      AddLeaseBalanced(l.books, Roster);
    }
    hide Balanced, Locked, Exclusive;
    GuardedKeeps(l, Next(l, BeginFork(s)));
  }

  lemma MemoryKeeps(l: Locks, idle: bool)
    requires Inv(l) && CanChangeMemory(l, idle)
    ensures Inv(Next(l, ChangeMemory(idle)))
  {
    NothingHeld(l.books);
    MemoryBalanced(l.books);
    OpenLocked(l.books.transactions, l.lifecycle, l.removals, l.books.next + 1, MemorySetting);
    hide Balanced, Locked, Exclusive;
    GuardedKeeps(l, Next(l, ChangeMemory(idle)));
  }

  /** A memory reconnect runs under its transaction, so there is no token and no migration either. */
  lemma ConnectMeans(l: Locks, p: Id, forMemory: bool)
    requires Inv(l) && CanConnect(l, p, forMemory)
    ensures l.token.None? && !l.migrating
  {
    if forMemory {
      assert l.books.memory.value + 1 in l.books.transactions;
    }
  }

  lemma ConnectKeeps(l: Locks, s: Id, p: Id, forMemory: bool)
    requires Inv(l) && Enabled(l, Connect(s, p, forMemory))
    ensures Inv(Next(l, Connect(s, p, forMemory)))
  {
    ConnectMeans(l, p, forMemory);
    NumberedBalanced(l.books);
    hide Balanced, Locked, Exclusive;
    GuardedKeeps(l, Next(l, Connect(s, p, forMemory)));
  }

  /** A deferred worker belongs to a fork or to a history transaction. */
  lemma SpawnKeeps(l: Locks, s: Id)
    requires Inv(l) && Enabled(l, SpawnDeferred(s))
    ensures Inv(Next(l, SpawnDeferred(s)))
  {
    assert l.books.history.Some? ==> l.books.leases != map[];
    NumberedBalanced(l.books);
    hide Balanced, Locked;
    GuardedKeeps(l, Next(l, SpawnDeferred(s)));
  }

  lemma LessKeeps(l: Locks, r: Locks)
    requires Inv(l) && OnlyLess(l, r) && r.books == l.books && r.removals == l.removals
    requires r.lifecycle == l.lifecycle || Locked(l.books.transactions, r.lifecycle, l.removals)
    ensures Inv(r)
  {
    hide Balanced, Locked, Exclusive, OnlyLess;
    LessStaysExclusive(l, r);
  }

  lemma LessSteps(l: Locks, step: Step)
    requires Inv(l) && Enabled(l, step)
    requires step.ReleaseQuiescence? || step.EndRetry? || step.EndFork? || step.EndMigration? || step.ConnectSettled?
             || step.ClientStopped? || step.FinishStop?
    ensures Inv(Next(l, step))
  {
    hide Balanced, Locked, Exclusive;
    LessKeeps(l, Next(l, step));
  }

  lemma GrantKeeps(l: Locks)
    requires Inv(l) && Enabled(l, GrantQuiescence)
    ensures Inv(Next(l, GrantQuiescence))
  {
    hide Balanced, Locked;
  }

  lemma StopsKeep(l: Locks, step: Step)
    requires Inv(l) && Enabled(l, step) && (step.MigrationStopsAll? || step.BeginStop? || step.StopWorker?)
    ensures Inv(Next(l, step))
  {
    hide Balanced, Locked;
    if l.granted {
      assert l.workers.Values == {};
    }
  }

  lemma StepKeeps(l: Locks, step: Step)
    requires Inv(l) && Enabled(l, step)
    ensures Inv(Next(l, step))
  {
    match step
    case AcquireQuiescence(idle) => QuiescenceKeeps(l, idle);
    case GrantQuiescence => GrantKeeps(l);
    case TakeLease(kind) => LeaseKeeps(l, kind);
    case ChangeMemory(idle) => MemoryKeeps(l, idle);
    case ReleaseLease(id) => ReleaseKeeps(l, id);
    case BeginClose(s, _) => hide Inv; BeginKeeps(l, Closing(s));
    case BeginRemove(p, _) => hide Inv; BeginKeeps(l, Removing(p));
    case EndTransaction(id) => EndTransactionKeeps(l, id);
    case BeginDuplicate(s, p) => DuplicateKeeps(l, s, p);
    case BeginRetry(s, p) => RetryKeeps(l, s, p);
    case EndLifecycle(s) => EndLifecycleKeeps(l, s);
    case BeginFork(s) => ForkKeeps(l, s);
    case BeginMigration(idle) => MigrationKeeps(l, idle);
    case MigrationStopsAll => StopsKeep(l, step);
    case Connect(s, p, forMemory) => ConnectKeeps(l, s, p, forMemory);
    case SpawnDeferred(s) => SpawnKeeps(l, s);
    case StopWorker(_) => StopsKeep(l, step);
    case BeginStop => StopsKeep(l, step);
    case _ => LessSteps(l, step);
  }

  lemma EndLifecycleKeeps(l: Locks, s: Id)
    requires Inv(l) && Enabled(l, EndLifecycle(s))
    ensures Inv(Next(l, EndLifecycle(s)))
  {
    LessLifecycle(l.books.transactions, l.lifecycle, l.removals, s);
    hide Balanced, Locked, Exclusive;
    LessKeeps(l, Next(l, EndLifecycle(s)));
  }

  // ---------- Runs ----------

  ghost function Run(l: Locks, steps: seq<Step>): Locks
    decreases steps
  {
    if steps == [] then l else Run(Next(l, steps[0]), steps[1..])
  }

  lemma {:induction false} RunKeeps(l: Locks, steps: seq<Step>)
    requires Inv(l)
    ensures Inv(Run(l, steps))
    decreases steps
  {
    hide Inv, Enabled;
    if steps != [] {
      if Enabled(l, steps[0]) {
        hide Next;
        StepKeeps(l, steps[0]);
      }
      RunKeeps(Next(l, steps[0]), steps[1..]);
    }
  }

  /** Whatever ran before, a held token means nothing else is going on; once granted, not even a
      stopping process is left. The lease counter is the number of leases not yet released. */
  lemma HeldTokenMeansQuiescent(steps: seq<Step>)
    ensures var l := Run(Start(), steps);
            && (l.token.Some? ==> Quiet(l) && !l.migrating && l.books.leases == map[] && l.workers == map[])
            && (l.granted ==> l.token.Some? && l.stoppingClients == {})
            && l.books.integration == |l.books.leases| && l.books.destructive == |l.books.transactions| <= 1
  {
    EmptyLocked({});
    assert Inv(Start());
    RunKeeps(Start(), steps);
    hide Run, Locked;
  }

  // ---------- The controller's methods ----------

  lemma ReleaseOfIntegration(l: Locks, id: nat)
    requires Inv(l) && id in l.books.leases && l.books.leases[id] == Integration
    ensures Next(l, ReleaseLease(id))
            == l.(books := l.books.(leases := l.books.leases - {id}, integration := l.books.integration - 1))
    ensures l.books.integration >= 1
  {
    DropLeaseCounted(l.books, id);
  }

  datatype Error = Unavailable

  /** What a synchronous entry point leaves: the step taken, or nothing changed and an error. */
  ghost predicate Took(before: Locks, step: Step, after: Locks, error: Option<Error>) {
    if Enabled(before, step) then error.None? && after == Next(before, step) && Inv(after)
    else error.Some? && after == before
  }

  class AppController {
    var l: Locks

    constructor ()
      ensures l == Start() && Inv(l)
    {
      l := Start();
      new;
      EmptyLocked({});
      assert Balanced(Start().books);
    }

    method AcquireUpdateQuiescence(idle: bool) returns (error: Option<Error>)
      requires Inv(l)
      modifies this
      ensures Took(old(l), AcquireQuiescence(idle), l, error)
    {
      if !CanQuiesce(l, idle) { return Some(Unavailable); }
      QuiescenceKeeps(l, idle);
      hide Inv;
      l := l.(token := Some(l.books.next), granted := false, books := Numbered(l.books));
      l := StopAll(l);
      return None;
    }

    method AcquireIntegrationOperation() returns (error: Option<Error>)
      requires Inv(l)
      modifies this
      ensures Took(old(l), TakeLease(Integration), l, error)
    {
      if !NoStateTransaction(l) || l.stopping { return Some(Unavailable); }
      LeaseKeeps(l, Integration);
      hide Inv;
      var id := l.books.next;
      var leases := l.books.leases[id := Integration];
      l := l.(books := l.books.(leases := leases, integration := l.books.integration + 1, next := id + 1));
      return None;
    }

    /** Calling the release closure of an integration lease. */
    method ReleaseIntegrationOperation(id: nat)
      requires Inv(l) && id in l.books.leases && l.books.leases[id] == Integration
      modifies this
      ensures Inv(l) && l == Next(old(l), ReleaseLease(id))
      ensures l.books.integration == old(l).books.integration - 1
    {
      ReleaseKeeps(l, id);
      ReleaseOfIntegration(l, id);
      hide Inv, Balanced, DropLease, Next;
      var integration := if l.books.integration - 1 < 0 then 0 else l.books.integration - 1;
      l := l.(books := l.books.(leases := l.books.leases - {id}, integration := integration));
    }

    method AcquireMemorySettingsTransaction(idle: bool) returns (error: Option<Error>)
      requires Inv(l)
      modifies this
      ensures Took(old(l), ChangeMemory(idle), l, error)
    {
      if !CanChangeMemory(l, idle) { return Some(Unavailable); }
      MemoryKeeps(l, idle);
      hide Inv;
      l := l.(books := AddLease(l.books, Memory));
      l := l.(books := AddTransaction(l.books, MemorySetting));
      return None;
    }

    /** closeSession up to its first wait. */
    method CloseSession(session: Id, project: Id) returns (error: Option<Error>)
      requires Inv(l)
      modifies this
      ensures Took(old(l), BeginClose(session, project), l, error)
    {
      if session in l.forks || !CanTakeRoster(l) { return Some(Unavailable); }
      if !CanTakeLifecycle(l, session, project) { return Some(Unavailable); }
      BeginKeeps(l, Closing(session));
      hide Inv;
      l := l.(books := AddLease(l.books, Roster));
      l := l.(lifecycle := l.lifecycle + {session});
      l := l.(books := AddTransaction(l.books, Closing(session)));
      return None;
    }

    /** removeProject up to its first wait. */
    method RemoveProject(project: Id, sessions: set<Id>) returns (error: Option<Error>)
      requires Inv(l)
      modifies this
      ensures Took(old(l), BeginRemove(project, sessions), l, error)
    {
      if !(sessions !! l.forks) || !CanTakeRoster(l) || !(sessions !! l.lifecycle) || project in l.removals {
        return Some(Unavailable);
      }
      BeginKeeps(l, Removing(project));
      hide Inv;
      l := l.(books := AddLease(l.books, Roster));
      l := l.(removals := l.removals + {project});
      l := l.(books := AddTransaction(l.books, Removing(project)));
      return None;
    }

    method ForkSession(session: Id) returns (error: Option<Error>)
      requires Inv(l)
      modifies this
      ensures Took(old(l), BeginFork(session), l, error)
    {
      if !CanFork(l, session) { return Some(Unavailable); }
      ForkKeeps(l, session);
      hide Inv;
      if CanTakeRoster(l) {
        l := l.(books := AddLease(l.books, Roster));
      }
      l := l.(forks := l.forks + {session});
      return None;
    }

    method ApplyMigrationState(idle: bool) returns (error: Option<Error>)
      requires Inv(l)
      modifies this
      ensures Took(old(l), BeginMigration(idle), l, error)
    {
      if !CanMigrate(l, idle) { return Some(Unavailable); }
      MigrationKeeps(l, idle);
      hide Inv;
      l := l.(migrating := true);
      return None;
    }

    method EnsureConnected(session: Id, project: Id, forMemory: bool) returns (error: Option<Error>)
      requires Inv(l)
      modifies this
      ensures Took(old(l), Connect(session, project, forMemory), l, error)
    {
      if !CanConnect(l, project, forMemory) { return Some(Unavailable); }
      ConnectKeeps(l, session, project, forMemory);
      hide Inv;
      if session !in l.workers {
        l := l.(workers := l.workers[session := l.books.next], books := Numbered(l.books));
      }
      l := l.(connections := l.connections + {session});
      return None;
    }
  }
}
