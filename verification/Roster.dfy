/** The lock-file protocol of AgentRosterStore: several processes, an exclusive lock file, crashes,
    stale-lock recovery and optimistic revisions, as steps of one state machine. */
module Roster {
  import opened Results

  const MAX_SAFE_INTEGER := 9_007_199_254_740_991

  datatype Contents = Contents(agents: seq<string>, bindings: map<string, string>)

  datatype AgentRoster = AgentRoster(revision: nat, contents: Contents)

  const EMPTY := AgentRoster(0, Contents([], map[]))

  /** What the roster path holds. Identities are device, inode, size and times: fresh at each write. */
  datatype File = Missing | Valid(identity: nat, roster: AgentRoster, legacy: bool) | Invalid(identity: nat)

  /** A store instance in a process. Each store runs its operations one after another. */
  datatype Client = Client(pid: nat, store: nat)

  /** `record` is the owner's pid once it has been written completely. */
  datatype Lock = Lock(identity: nat, owner: Client, record: Option<nat>)

  /** Replace a roster; move an invalid one aside; install a recovered one where there is none. */
  datatype Kind = Replace | Aside | Install

  datatype Phase =
    | Created(lease: nat)
    | Inside(lease: nat)
    | Ready(lease: nat, base: File, next: AgentRoster, kind: Kind)
    | Checked(lease: nat, base: File, next: AgentRoster, kind: Kind)
    | Done(lease: nat)
    | Suspecting(stale: nat)

  datatype Event = Committed(base: AgentRoster, next: AgentRoster) | MovedAside | Recovered(next: AgentRoster)

  datatype State = State(
    alive: set<nat>, lock: Option<Lock>, file: File, clients: map<Client, Phase>, log: seq<Event>, nextId: nat)

  // ---------- The decision inside a commit ----------

  datatype Error = RevisionConflict | RevisionOverflow | InvalidRoster | InvalidMutation

  function RosterOf(file: File): AgentRoster { if file.Valid? then file.roster else EMPTY }

  /** What a commit wants to write: nothing when the contents stay the same, unless the file is
      still in the old format. */
  function Decide(file: File, expected: int, mutated: Option<Contents>): Result<Option<AgentRoster>, Error> {
    var current := RosterOf(file);
    if !(0 <= expected <= MAX_SAFE_INTEGER) then Failure(RevisionConflict)
    else if file.Invalid? then Failure(InvalidRoster)
    else if current.revision != expected then Failure(RevisionConflict)
    else if current.revision == MAX_SAFE_INTEGER then Failure(RevisionOverflow)
    else if mutated.None? then Failure(InvalidMutation)
    else if !(file.Valid? && file.legacy) && mutated.value == current.contents then Success(None)
    else Success(Some(AgentRoster(current.revision + 1, mutated.value)))
  }

  /** The roster can be read, the expected revision is current and has a successor, and the mutation
      changes something or the file is in the old format. */
  predicate Due(file: File, expected: int, mutated: Option<Contents>) {
    && !file.Invalid? && expected == RosterOf(file).revision < MAX_SAFE_INTEGER && mutated.Some?
    && (mutated.value != RosterOf(file).contents || (file.Valid? && file.legacy))
  }

  /** A commit writes exactly when its expected revision is current and there is something new. */
  lemma WritesExactlyTheSuccessor(file: File, expected: int, mutated: Option<Contents>)
    ensures var d := Decide(file, expected, mutated);
            (d.Success? && d.value.Some?) <==> Due(file, expected, mutated)
    ensures var d := Decide(file, expected, mutated);
            d.Success? && d.value.Some? ==> d.value.value == AgentRoster(RosterOf(file).revision + 1, mutated.value)
  {}

  // ---------- Steps ----------

  datatype Step =
    | Spawn(pid: nat)
    | Crash(pid: nat)
    | Create(c: Client)
    | WriteRecord(c: Client)
    | AbandonCreate(c: Client, wrote: bool, unlinked: bool)
    | Load(c: Client, expected: int, mutated: Option<Contents>)
    | LoadInvalid(c: Client, replacement: Contents)
    | CheckIdentity(c: Client)
    | Rename(c: Client)
    | GiveUp(c: Client)
    | Release(c: Client, unlinked: bool)
    | Suspect(c: Client)
    | UnlinkStale(c: Client)

  predicate Holding(p: Phase) { !p.Suspecting? }

  predicate InLock(p: Phase) { Holding(p) && !p.Created? }

  predicate Idle(s: State, c: Client) { c.pid in s.alive && c !in s.clients }

  predicate Enabled(s: State, step: Step) {
    match step
    case Spawn(_) => true
    case Crash(_) => true
    case Create(c) => Idle(s, c) && s.lock.None?
    case WriteRecord(c) => c in s.clients && s.clients[c].Created?
    case AbandonCreate(c, _, _) => c in s.clients && s.clients[c].Created?
    case Load(c, _, _) => c in s.clients && s.clients[c].Inside?
    case LoadInvalid(c, _) => c in s.clients && s.clients[c].Inside? && s.file.Invalid?
    case CheckIdentity(c) => c in s.clients && s.clients[c].Ready?
    case Rename(c) => c in s.clients && s.clients[c].Checked?
    case GiveUp(c) => c in s.clients && InLock(s.clients[c])
    case Release(c, _) => c in s.clients && s.clients[c].Done?
    case Suspect(c) => Idle(s, c) && s.lock.Some? && s.lock.value.record.Some? && s.lock.value.record.value !in s.alive
    case UnlinkStale(c) => c in s.clients && s.clients[c].Suspecting?
  }

  /** Check and unlink as one step. */
  function UnlinkIfIdentity(lock: Option<Lock>, identity: nat): Option<Lock> {
    if lock.Some? && lock.value.identity == identity then None else lock
  }

  function SameIdentity(a: File, b: File): bool {
    if a.Missing? || b.Missing? then a.Missing? && b.Missing? else a.identity == b.identity
  }

  function To(s: State, c: Client, p: Phase): State { s.(clients := s.clients[c := p]) }

  function Renamed(s: State, c: Client, p: Phase): State
    requires p.Checked?
  {
    var identity := s.nextId;
    match p.kind
    case Replace =>
      To(s.(file := Valid(identity, p.next, false), nextId := identity + 1,
            log := s.log + [Committed(RosterOf(p.base), p.next)]), c, Done(p.lease))
    case Install =>
      To(s.(file := Valid(identity, p.next, false), nextId := identity + 1, log := s.log + [Recovered(p.next)]), c, Done(p.lease))
    case Aside =>
      To(s.(file := Missing, log := s.log + [MovedAside]), c, Ready(p.lease, Missing, p.next, Install))
  }

  /** A step that is not enabled does not happen. */
  function Next(s: State, step: Step): State {
    if !Enabled(s, step) then s else
    match step
    case Spawn(pid) => s.(alive := s.alive + {pid})
    case Crash(pid) => s.(alive := s.alive - {pid}, clients := map c | c in s.clients && c.pid != pid :: s.clients[c])
    case Create(c) => To(s.(lock := Some(Lock(s.nextId, c, None)), nextId := s.nextId + 1), c, Created(s.nextId))
    case WriteRecord(c) =>
      var mine := s.lock.Some? && s.lock.value.identity == s.clients[c].lease;
      To(s.(lock := if mine then Some(Lock(s.nextId, s.lock.value.owner, Some(c.pid))) else s.lock, nextId := s.nextId + 1),
         c, Inside(s.nextId))
    case AbandonCreate(c, wrote, unlinked) =>
      var lease := s.clients[c].lease;
      var mine := s.lock.Some? && s.lock.value.identity == lease;
      var left := if mine && wrote then Some(Lock(s.nextId, s.lock.value.owner, Some(c.pid))) else s.lock;
      s.(lock := if unlinked && mine then None else left, nextId := s.nextId + 1, clients := s.clients - {c})
    case Load(c, expected, mutated) =>
      var d := Decide(s.file, expected, mutated);
      To(s, c, if d.Success? && d.value.Some? then Ready(s.clients[c].lease, s.file, d.value.value, Replace)
               else Done(s.clients[c].lease))
    case LoadInvalid(c, replacement) => To(s, c, Ready(s.clients[c].lease, s.file, AgentRoster(0, replacement), Aside))
    case CheckIdentity(c) =>
      var p := s.clients[c];
      To(s, c, if SameIdentity(s.file, p.base) then Checked(p.lease, p.base, p.next, p.kind) else Done(p.lease))
    case Rename(c) => Renamed(s, c, s.clients[c])
    case GiveUp(c) => To(s, c, Done(s.clients[c].lease))
    case Release(c, unlinked) =>
      s.(lock := if unlinked then UnlinkIfIdentity(s.lock, s.clients[c].lease) else s.lock, clients := s.clients - {c})
    case Suspect(c) => To(s, c, Suspecting(s.lock.value.identity))
    case UnlinkStale(c) =>
      s.(lock := UnlinkIfIdentity(s.lock, s.clients[c].stale), clients := s.clients - {c})
  }

  // ---------- What every step keeps ----------

  /** The roster a reader would see. */
  function Seen(file: File): Option<AgentRoster> { if file.Invalid? then None else Some(RosterOf(file)) }

  /** The roster an event leaves. */
  function Left(e: Event): AgentRoster { if e.MovedAside? then EMPTY else e.next }

  /** An event is built from what the log before it left: a commit one revision higher, a recovery
      where an invalid file has been moved aside. */
  predicate Follows(from: Option<AgentRoster>, log: seq<Event>, e: Event)
    decreases |log|, 1
  {
    match e
    case Committed(base, next) => Chain(from, log, Some(base)) && next.revision == base.revision + 1
    case MovedAside => Chain(from, log, None)
    case Recovered(next) => Chain(from, log, Some(EMPTY)) && next.revision == 0
  }

  predicate Chain(from: Option<AgentRoster>, log: seq<Event>, to: Option<AgentRoster>)
    decreases |log|, 0
  {
    if log == [] then from == to
    else Follows(from, log[..|log| - 1], log[|log| - 1]) && to == Some(Left(log[|log| - 1]))
  }

  /** The lock path holds this client's own file. */
  predicate Owned(s: State, c: Client, lease: nat) {
    s.lock.Some? && s.lock.value.identity == lease && s.lock.value.owner == c
  }

  /** What a prepared write relies on: the file is still the one it was built from. */
  predicate Prepared(file: File, p: Phase)
    requires p.Ready? || p.Checked?
  {
    && file == p.base
    && (p.kind == Replace ==> !p.base.Invalid? && p.next.revision == RosterOf(p.base).revision + 1)
    && (p.kind == Aside ==> p.base.Invalid? && p.next.revision == 0)
    && (p.kind == Install ==> p.base == Missing && p.next.revision == 0)
  }

  /** If the suspected file is still there, its record is complete and its owner is gone. */
  predicate Abandoned(s: State, stale: nat) {
    s.lock.Some? && s.lock.value.identity == stale ==>
      s.lock.value.record.Some? &&
      (s.lock.value.owner !in s.clients || !HoldsLease(s, s.lock.value.owner, stale))
  }

  predicate HoldsLease(s: State, c: Client, lease: nat)
    requires c in s.clients
  {
    Holding(s.clients[c]) && s.clients[c].lease == lease
  }

  predicate ClientOk(s: State, c: Client)
    requires c in s.clients
  {
    var p := s.clients[c];
    && c.pid in s.alive
    && (Holding(p) ==> Owned(s, c, p.lease))
    && (p.Ready? || p.Checked? ==> Prepared(s.file, p))
    && (p.Suspecting? ==> p.stale < s.nextId && Abandoned(s, p.stale))
  }

  predicate LockOk(s: State) {
    s.lock.Some? ==> s.lock.value.identity < s.nextId
                     && (s.lock.value.record.Some? ==> s.lock.value.record.value == s.lock.value.owner.pid)
  }

  predicate Inv(origin: File, s: State) {
    && LockOk(s) && (forall c :: c in s.clients ==> ClientOk(s, c))
    && Chain(Seen(origin), s.log, Seen(s.file))
  }

  /** At most one live client is inside the lock. */
  lemma MutualExclusion(origin: File, s: State, c: Client, d: Client)
    requires Inv(origin, s) && c in s.clients && d in s.clients && InLock(s.clients[c]) && InLock(s.clients[d])
    ensures c == d
  {
    assert ClientOk(s, c) && ClientOk(s, d);
  }

  lemma ChainMore(from: Option<AgentRoster>, log: seq<Event>, e: Event)
    requires Follows(from, log, e)
    ensures Chain(from, log + [e], Some(Left(e)))
  {
    assert (log + [e])[..|log|] == log;
  }

  lemma CommitFollows(from: Option<AgentRoster>, log: seq<Event>, base: AgentRoster, next: AgentRoster)
    requires Chain(from, log, Some(base)) && next.revision == base.revision + 1
    ensures Chain(from, log + [Committed(base, next)], Some(next))
  {
    ChainMore(from, log, Committed(base, next));
    hide Chain;
  }

  lemma RecoveryFollows(from: Option<AgentRoster>, log: seq<Event>, next: AgentRoster)
    requires Chain(from, log, Some(EMPTY)) && next.revision == 0
    ensures Chain(from, log + [Recovered(next)], Some(next))
  {
    ChainMore(from, log, Recovered(next));
    hide Chain;
  }

  lemma AsideFollows(from: Option<AgentRoster>, log: seq<Event>)
    requires Chain(from, log, None)
    ensures Chain(from, log + [MovedAside], Some(EMPTY))
  {
    ChainMore(from, log, MovedAside);
    hide Chain;
  }

  // ---------- Every step keeps it ----------

  /** A holder is alone: every other client only suspects. */
  lemma OnlyHolder(s: State, c: Client, d: Client)
    requires c in s.clients && d in s.clients && ClientOk(s, c) && ClientOk(s, d) && c != d && Holding(s.clients[c])
    ensures s.clients[d].Suspecting?
  {}

  lemma MovesOn(origin: File, s: State, c: Client, p: Phase)
    requires Inv(origin, s) && c in s.clients && Holding(s.clients[c]) && Holding(p) && p.lease == s.clients[c].lease
    requires p.Ready? || p.Checked? ==> Prepared(s.file, p)
    ensures Inv(origin, To(s, c, p))
  {
    var t := To(s, c, p);
    hide Chain, Follows, Prepared;
    forall d | d in t.clients ensures ClientOk(t, d) {
      assert ClientOk(s, c) && ClientOk(s, d);
    }
  }

  /** The holder writes the roster path. */
  lemma WritesFile(origin: File, s: State, c: Client, p: Phase, file: File, e: Event, nextId: nat)
    requires Inv(origin, s) && c in s.clients && Holding(s.clients[c]) && Holding(p) && p.lease == s.clients[c].lease
    requires nextId >= s.nextId
    requires var t := s.(file := file, log := s.log + [e], nextId := nextId);
             (p.Ready? || p.Checked? ==> Prepared(file, p)) && Chain(Seen(origin), t.log, Seen(file))
    ensures Inv(origin, To(s.(file := file, log := s.log + [e], nextId := nextId), c, p))
  {
    var t := To(s.(file := file, log := s.log + [e], nextId := nextId), c, p);
    hide Chain, Follows, Seen;
    assert ClientOk(s, c);
    forall d | d in t.clients ensures ClientOk(t, d) {
      if d != c {
        assert ClientOk(s, d);
        OnlyHolder(s, c, d);
      }
    }
  }

  lemma ReplaceKeeps(origin: File, s: State, c: Client, p: Phase)
    requires Inv(origin, s) && c in s.clients && s.clients[c] == p && p.Checked? && p.kind == Replace
    ensures Inv(origin, Renamed(s, c, p))
  {
    hide Chain, Follows;
    assert ClientOk(s, c) && Seen(s.file) == Some(RosterOf(p.base));
    var e := Committed(RosterOf(p.base), p.next);
    CommitFollows(Seen(origin), s.log, RosterOf(p.base), p.next);
    hide Inv;
    WritesFile(origin, s, c, Done(p.lease), Valid(s.nextId, p.next, false), e, s.nextId + 1);
  }

  lemma InstallKeeps(origin: File, s: State, c: Client, p: Phase)
    requires Inv(origin, s) && c in s.clients && s.clients[c] == p && p.Checked? && p.kind == Install
    ensures Inv(origin, Renamed(s, c, p))
  {
    hide Chain, Follows;
    assert ClientOk(s, c) && Seen(s.file) == Some(EMPTY);
    var e := Recovered(p.next);
    RecoveryFollows(Seen(origin), s.log, p.next);
    hide Inv;
    WritesFile(origin, s, c, Done(p.lease), Valid(s.nextId, p.next, false), e, s.nextId + 1);
  }

  lemma AsideKeeps(origin: File, s: State, c: Client, p: Phase)
    requires Inv(origin, s) && c in s.clients && s.clients[c] == p && p.Checked? && p.kind == Aside
    ensures Inv(origin, Renamed(s, c, p))
  {
    hide Chain, Follows;
    assert ClientOk(s, c) && Seen(s.file) == None;
    AsideFollows(Seen(origin), s.log);
    hide Inv;
    WritesFile(origin, s, c, Ready(p.lease, Missing, p.next, Install), Missing, MovedAside, s.nextId);
  }

  lemma RenameKeeps(origin: File, s: State, c: Client)
    requires Inv(origin, s) && c in s.clients && s.clients[c].Checked?
    ensures Inv(origin, Renamed(s, c, s.clients[c]))
  {
    hide Inv, Renamed;
    var p := s.clients[c];
    match p.kind
    case Replace => ReplaceKeeps(origin, s, c, p);
    case Install => InstallKeeps(origin, s, c, p);
    case Aside => AsideKeeps(origin, s, c, p);
  }

  /** A client that is not there, or only suspects, takes a new lock file. */
  lemma CreateKeeps(origin: File, s: State, c: Client)
    requires Inv(origin, s) && Enabled(s, Create(c))
    ensures Inv(origin, Next(s, Create(c)))
  {
    var t := Next(s, Create(c));
    hide Chain, Follows;
    forall d | d in t.clients ensures ClientOk(t, d) {
      if d != c {
        assert ClientOk(s, d);
      }
    }
  }

  lemma WriteRecordKeeps(origin: File, s: State, c: Client)
    requires Inv(origin, s) && Enabled(s, WriteRecord(c))
    ensures Inv(origin, Next(s, WriteRecord(c)))
  {
    var t := Next(s, WriteRecord(c));
    hide Chain, Follows;
    assert ClientOk(s, c);
    forall d | d in t.clients ensures ClientOk(t, d) {
      if d != c {
        assert ClientOk(s, d);
        OnlyHolder(s, c, d);
      }
    }
  }

  /** The holder leaves, with or without its lock file. */
  lemma LeaveKeeps(origin: File, s: State, c: Client, lock: Option<Lock>, nextId: nat)
    requires Inv(origin, s) && c in s.clients && Holding(s.clients[c]) && nextId >= s.nextId
    requires lock.Some? ==> lock.value.owner == c && lock.value.identity < nextId
                            && (lock.value.identity == s.clients[c].lease || lock.value.identity >= s.nextId)
                            && (lock.value.record.Some? ==> lock.value.record.value == c.pid)
    ensures Inv(origin, s.(lock := lock, nextId := nextId, clients := s.clients - {c}))
  {
    var t := s.(lock := lock, nextId := nextId, clients := s.clients - {c});
    hide Chain, Follows;
    forall d | d in t.clients ensures ClientOk(t, d) {
      assert ClientOk(s, d) && ClientOk(s, c);
      OnlyHolder(s, c, d);
    }
  }

  lemma CrashKeeps(origin: File, s: State, pid: nat)
    requires Inv(origin, s)
    ensures Inv(origin, Next(s, Crash(pid)))
  {
    var t := Next(s, Crash(pid));
    hide Chain, Follows, Prepared;
    forall d | d in t.clients ensures ClientOk(t, d) {
      assert ClientOk(s, d);
    }
  }

  lemma SpawnKeeps(origin: File, s: State, pid: nat)
    requires Inv(origin, s)
    ensures Inv(origin, Next(s, Spawn(pid)))
  {
    var t := Next(s, Spawn(pid));
    hide Chain, Follows, Prepared;
    forall d | d in t.clients ensures ClientOk(t, d) {
      assert ClientOk(s, d);
    }
  }

  /** Only a complete record of a dead owner is suspected, and that owner is no longer a client. */
  lemma SuspectKeeps(origin: File, s: State, c: Client)
    requires Inv(origin, s) && Enabled(s, Suspect(c))
    ensures Inv(origin, Next(s, Suspect(c)))
  {
    var t := Next(s, Suspect(c));
    hide Chain, Follows, Prepared;
    var owner := s.lock.value.owner;
    assert owner in s.clients ==> ClientOk(s, owner);
    forall d | d in t.clients ensures ClientOk(t, d) {
      if d != c {
        assert ClientOk(s, d);
      }
    }
  }

  lemma UnlinkStaleKeeps(origin: File, s: State, c: Client)
    requires Inv(origin, s) && Enabled(s, UnlinkStale(c))
    ensures Inv(origin, Next(s, UnlinkStale(c)))
  {
    var t := Next(s, UnlinkStale(c));
    hide Chain, Follows, Prepared;
    assert ClientOk(s, c);
    forall d | d in t.clients ensures ClientOk(t, d) {
      assert ClientOk(s, d);
    }
  }

  lemma LoadKeeps(origin: File, s: State, c: Client, expected: int, mutated: Option<Contents>)
    requires Inv(origin, s) && Enabled(s, Load(c, expected, mutated))
    ensures Inv(origin, Next(s, Load(c, expected, mutated)))
  {
    WritesExactlyTheSuccessor(s.file, expected, mutated);
    hide Chain, Follows, Decide, Inv;
    var d := Decide(s.file, expected, mutated);
    MovesOn(origin, s, c, if d.Success? && d.value.Some? then Ready(s.clients[c].lease, s.file, d.value.value, Replace)
                          else Done(s.clients[c].lease));
  }

  lemma CheckKeeps(origin: File, s: State, c: Client)
    requires Inv(origin, s) && Enabled(s, CheckIdentity(c))
    ensures Inv(origin, Next(s, CheckIdentity(c)))
  {
    var p := s.clients[c];
    assert ClientOk(s, c) && Prepared(s.file, p);
    hide Chain, Follows, Inv;
    MovesOn(origin, s, c, if SameIdentity(s.file, p.base) then Checked(p.lease, p.base, p.next, p.kind) else Done(p.lease));
  }

  lemma StepKeeps(origin: File, s: State, step: Step)
    requires Inv(origin, s) && Enabled(s, step)
    ensures Inv(origin, Next(s, step))
  {
    match step
    case Spawn(pid) => SpawnKeeps(origin, s, pid);
    case Crash(pid) => CrashKeeps(origin, s, pid);
    case Create(c) => CreateKeeps(origin, s, c);
    case WriteRecord(c) => WriteRecordKeeps(origin, s, c);
    case AbandonCreate(c, wrote, unlinked) =>
      assert ClientOk(s, c);
      LeaveKeeps(origin, s, c, Next(s, step).lock, s.nextId + 1);
    case Load(c, expected, mutated) => LoadKeeps(origin, s, c, expected, mutated);
    case LoadInvalid(c, replacement) =>
      MovesOn(origin, s, c, Ready(s.clients[c].lease, s.file, AgentRoster(0, replacement), Aside));
    case CheckIdentity(c) => CheckKeeps(origin, s, c);
    case Rename(c) => RenameKeeps(origin, s, c);
    case GiveUp(c) => MovesOn(origin, s, c, Done(s.clients[c].lease));
    case Release(c, unlinked) =>
      assert ClientOk(s, c);
      LeaveKeeps(origin, s, c, Next(s, step).lock, s.nextId);
    case Suspect(c) => SuspectKeeps(origin, s, c);
    case UnlinkStale(c) => UnlinkStaleKeeps(origin, s, c);
  }

  // ---------- Runs ----------

  /** No client yet; a lock file may have been left by a process that is gone. */
  predicate Start(origin: File, s: State) {
    s.clients == map[] && s.log == [] && s.file == origin && LockOk(s)
  }

  function Run(s: State, steps: seq<Step>): State
    decreases steps
  {
    if steps == [] then s else Run(Next(s, steps[0]), steps[1..])
  }

  lemma {:induction false} RunKeeps(origin: File, s: State, steps: seq<Step>)
    requires Inv(origin, s)
    ensures Inv(origin, Run(s, steps))
    decreases steps
  {
    hide Inv, Enabled;
    if steps != [] {
      if Enabled(s, steps[0]) {
        hide Next;
        StepKeeps(origin, s, steps[0]);
      }
      RunKeeps(origin, Next(s, steps[0]), steps[1..]);
    }
  }

  /** Under every interleaving of stores, crashes and stale-lock recovery: never two clients inside
      the lock, and what a reader sees is the end of one chain of writes, each built from its
      immediate predecessor with revision one higher. */
  lemma EveryInterleavingIsSafe(origin: File, s: State, steps: seq<Step>, c: Client, d: Client)
    requires Start(origin, s)
    ensures var t := Run(s, steps);
            && Chain(Seen(origin), t.log, Seen(t.file))
            && (c in t.clients && d in t.clients && InLock(t.clients[c]) && InLock(t.clients[d]) ==> c == d)
  {
    RunKeeps(origin, s, steps);
    var t := Run(s, steps);
    hide Run, Chain;
    if c in t.clients && d in t.clients && InLock(t.clients[c]) && InLock(t.clients[d]) {
      MutualExclusion(origin, t, c, d);
    }
  }

  predicate AllCommits(log: seq<Event>) { forall e <- log :: e.Committed? }

  /** Without a recovery in between, n writes raise the revision by exactly n: no write is lost and
      no two are built from the same revision. */
  lemma {:induction false} RevisionsCountCommits(from: AgentRoster, log: seq<Event>, to: AgentRoster)
    requires AllCommits(log) && Chain(Some(from), log, Some(to))
    ensures to.revision == from.revision + |log|
    ensures forall i :: 0 <= i < |log| ==> log[i].base.revision == from.revision + i
  {
    if log != [] {
      var n := |log| - 1;
      assert log[n] in log;
      RevisionsCountCommits(from, log[..n], log[n].base);
      forall i | 0 <= i < |log| ensures log[i].base.revision == from.revision + i {
        assert i < n ==> log[..n][i] == log[i];
      }
    }
  }

  // ---------- What is written is what was asked for ----------

  /** What a client asks for once it is inside the lock: to put a mutation of the roster at an expected
      revision, or to put a replacement for an invalid one. */
  datatype Request = Mutation(expected: int, mutated: Option<Contents>) | Replacement(contents: Contents)

  /** The request of a step, if it is one of this client's. */
  function RequestOf(step: Step, c: Client): Option<Request> {
    match step
    case Load(d, expected, mutated) => if d == c then Some(Mutation(expected, mutated)) else None
    case LoadInvalid(d, replacement) => if d == c then Some(Replacement(replacement)) else None
    case _ => None
  }

  /** The last request of a client in a run. */
  function Asked(s: State, steps: seq<Step>, c: Client): Option<Request> {
    if steps == [] then None
    else
      var n := |steps| - 1;
      var request := RequestOf(steps[n], c);
      if request.Some? && Enabled(Run(s, steps[..n]), steps[n]) then request else Asked(s, steps[..n], c)
  }

  /** A prepared roster is the one asked for. */
  predicate Answers(p: Phase, request: Option<Request>) {
    p.Ready? || p.Checked? ==>
      && request.Some?
      && match request.value
         case Mutation(expected, mutated) =>
           && p.kind == Replace && mutated.Some? && expected == RosterOf(p.base).revision
           && p.next == AgentRoster(RosterOf(p.base).revision + 1, mutated.value)
         case Replacement(contents) => p.kind != Replace && p.next == AgentRoster(0, contents)
  }

  lemma RunMore(s: State, steps: seq<Step>, step: Step)
    ensures Run(s, steps + [step]) == Next(Run(s, steps), step)
    decreases steps
  {
    hide Next;
    if steps == [] {
      assert [step][1..] == [] && steps + [step] == [step];
      assert Run(Next(s, step), []) == Next(s, step);
    } else {
      RunMore(Next(s, steps[0]), steps[1..], step);
      assert (steps + [step])[1..] == steps[1..] + [step];
    }
  }

  lemma StepAnswers(s: State, step: Step, c: Client, request: Option<Request>)
    requires c in s.clients ==> Answers(s.clients[c], request)
    ensures var t := Next(s, step);
            var next := if RequestOf(step, c).Some? && Enabled(s, step) then RequestOf(step, c) else request;
            c in t.clients ==> Answers(t.clients[c], next)
  {
    hide RosterOf;
    if step.Load? {
      WritesExactlyTheSuccessor(s.file, step.expected, step.mutated);
      hide Decide;
    }
  }

  lemma {:induction false} EveryoneAnswers(s: State, steps: seq<Step>, c: Client)
    requires s.clients == map[]
    ensures var t := Run(s, steps); c in t.clients ==> Answers(t.clients[c], Asked(s, steps, c))
  {
    hide Next, Answers, Enabled;
    if steps != [] {
      var front, step := steps[..|steps| - 1], steps[|steps| - 1];
      EveryoneAnswers(s, front, c);
      RunMore(s, front, step);
      assert front + [step] == steps;
      StepAnswers(Run(s, front), step, c, Asked(s, front, c));
    }
  }

  /** Under every interleaving, the roster that a client puts in place has exactly the contents that
      client asked for, at the revision after the one it expected, and that one is what it replaces. */
  lemma WritesWhatWasAsked(origin: File, s: State, steps: seq<Step>, c: Client)
    requires Start(origin, s)
    requires var t := Run(s, steps); c in t.clients && t.clients[c].Checked? && t.clients[c].kind != Aside
    ensures var t := Run(s, steps); var u := Next(t, Rename(c));
            && u.file.Valid? && !u.file.legacy && Asked(s, steps, c).Some?
            && match Asked(s, steps, c).value
               case Mutation(expected, mutated) =>
                 && mutated.Some? && !t.file.Invalid? && expected == RosterOf(t.file).revision
                 && u.file.roster == AgentRoster(RosterOf(t.file).revision + 1, mutated.value)
                 && u.log == t.log + [Committed(RosterOf(t.file), u.file.roster)]
               case Replacement(contents) =>
                 && t.file.Missing? && u.file.roster == AgentRoster(0, contents)
                 && u.log == t.log + [Recovered(u.file.roster)]
  {
    RunKeeps(origin, s, steps);
    EveryoneAnswers(s, steps, c);
    var t := Run(s, steps);
    hide Run, Asked, Chain, Follows;
    assert ClientOk(t, c);
  }

  // ---------- An undisturbed commit goes through ----------

  /** A client that finds the lock free, asks, and is not disturbed. */
  function Alone(c: Client, expected: int, mutated: Option<Contents>): seq<Step> {
    [Create(c), WriteRecord(c), Load(c, expected, mutated), CheckIdentity(c), Rename(c), GiveUp(c), Release(c, true)]
  }

  function RunAlone(s: State, c: Client, expected: int, mutated: Option<Contents>): State {
    var inside := Next(Next(s, Create(c)), WriteRecord(c));
    var written := Next(Next(Next(inside, Load(c, expected, mutated)), CheckIdentity(c)), Rename(c));
    Next(Next(written, GiveUp(c)), Release(c, true))
  }

  lemma AloneRuns(s: State, c: Client, expected: int, mutated: Option<Contents>)
    ensures Run(s, Alone(c, expected, mutated)) == RunAlone(s, c, expected, mutated)
  {
    hide Next;
    var rest := [GiveUp(c), Release(c, true)];
    RunFive(s, Create(c), WriteRecord(c), Load(c, expected, mutated), CheckIdentity(c), Rename(c));
    var five := [Create(c), WriteRecord(c), Load(c, expected, mutated), CheckIdentity(c), Rename(c)];
    assert Alone(c, expected, mutated) == five + [GiveUp(c)] + [Release(c, true)];
    RunMore(s, five, GiveUp(c));
    RunMore(s, five + [GiveUp(c)], Release(c, true));
  }

  lemma AloneInside(s: State, c: Client)
    requires Idle(s, c) && s.lock.None?
    ensures var t := Next(Next(s, Create(c)), WriteRecord(c));
            && c in t.clients && t.clients[c].Inside? && t.file == s.file && t.alive == s.alive
            && t.lock.Some? && t.lock.value.identity == t.clients[c].lease
  {}

  lemma AloneWrites(s: State, c: Client, expected: int, mutated: Option<Contents>)
    requires c in s.clients && s.clients[c].Inside?
    ensures var t := Next(Next(Next(s, Load(c, expected, mutated)), CheckIdentity(c)), Rename(c));
            && t.file == (if Due(s.file, expected, mutated)
                          then Valid(s.nextId, AgentRoster(RosterOf(s.file).revision + 1, mutated.value), false) else s.file)
            && c in t.clients && InLock(t.clients[c]) && t.clients[c].lease == s.clients[c].lease && t.lock == s.lock
  {
    WritesExactlyTheSuccessor(s.file, expected, mutated);
    hide Decide;
  }

  lemma AloneLeaves(s: State, c: Client)
    requires c in s.clients && InLock(s.clients[c]) && s.lock.Some? && s.lock.value.identity == s.clients[c].lease
    ensures var t := Next(Next(s, GiveUp(c)), Release(c, true)); t.file == s.file && t.lock.None? && c !in t.clients
  {}

  /** A commit that is not disturbed writes what was asked for exactly when it is due, leaves the roster
      alone otherwise, and gives the lock back in either case. */
  lemma UndisturbedCommit(s: State, c: Client, expected: int, mutated: Option<Contents>)
    requires Idle(s, c) && s.lock.None?
    ensures var t := Run(s, Alone(c, expected, mutated));
            && t.lock.None? && c !in t.clients
            && (Due(s.file, expected, mutated) ==>
                  t.file.Valid? && t.file.roster == AgentRoster(RosterOf(s.file).revision + 1, mutated.value))
            && (!Due(s.file, expected, mutated) ==> t.file == s.file)
  {
    AloneRuns(s, c, expected, mutated);
    hide Next, Run, Enabled;
    AloneInside(s, c);
    var inside := Next(Next(s, Create(c)), WriteRecord(c));
    AloneWrites(inside, c, expected, mutated);
    AloneLeaves(Next(Next(Next(inside, Load(c, expected, mutated)), CheckIdentity(c)), Rename(c)), c);
  }

  /** A client inside the lock that finds the roster invalid moves it aside and installs what it was
      asked to. */
  lemma UndisturbedRecovery(s: State, c: Client, contents: Contents)
    requires c in s.clients && s.clients[c].Inside? && s.file.Invalid?
    ensures var aside := Next(Next(Next(s, LoadInvalid(c, contents)), CheckIdentity(c)), Rename(c));
            var t := Next(Next(aside, CheckIdentity(c)), Rename(c));
            && t.file.Valid? && t.file.roster == AgentRoster(0, contents) && t.lock == s.lock
            && t.log == s.log + [MovedAside, Recovered(t.file.roster)]
  {
    var aside := Next(Next(Next(s, LoadInvalid(c, contents)), CheckIdentity(c)), Rename(c));
    assert c in aside.clients && aside.clients[c] == Ready(s.clients[c].lease, Missing, AgentRoster(0, contents), Install)
           && aside.file == Missing && aside.log == s.log + [MovedAside] && aside.lock == s.lock;
    assert s.log + [MovedAside] + [Recovered(AgentRoster(0, contents))]
           == s.log + [MovedAside, Recovered(AgentRoster(0, contents))];
  }

  // ---------- A lock that nobody can take away ----------

  /** The lock has no complete record, and whoever is still about suspects another one. */
  predicate Wedged(s: State) {
    && s.lock.Some? && s.lock.value.record.None?
    && (forall c :: c in s.clients ==> s.clients[c].Suspecting? && s.clients[c].stale != s.lock.value.identity)
  }

  lemma GoneOwnerWedges(origin: File, s: State)
    requires Inv(origin, s) && s.lock.Some? && s.lock.value.record.None? && s.lock.value.owner !in s.clients
    ensures Wedged(s)
  {
    hide Chain, Follows, Prepared;
    forall c | c in s.clients ensures s.clients[c].Suspecting? && s.clients[c].stale != s.lock.value.identity {
      assert ClientOk(s, c);
    }
  }

  lemma WedgedStep(s: State, step: Step)
    requires Wedged(s)
    ensures var t := Next(s, step); Wedged(t) && t.lock == s.lock && t.file == s.file && t.log == s.log
  {
    hide Decide, Renamed;
  }

  lemma {:induction false} WedgedForever(s: State, steps: seq<Step>)
    requires Wedged(s)
    ensures var t := Run(s, steps); Wedged(t) && t.lock == s.lock && t.file == s.file && t.log == s.log
    decreases steps
  {
    hide Next, Wedged;
    if steps != [] {
      WedgedStep(s, steps[0]);
      WedgedForever(Next(s, steps[0]), steps[1..]);
    }
  }

  /** Once the owner of a lock without a complete record is gone, no later run of any length lets a
      client in again or writes the roster. */
  lemma IncompleteRecordBlocksForever(origin: File, s: State, steps: seq<Step>, more: seq<Step>, c: Client)
    requires Start(origin, s)
    requires var t := Run(s, steps);
             t.lock.Some? && t.lock.value.record.None? && t.lock.value.owner !in t.clients
    ensures var t := Run(s, steps); var u := Run(t, more);
            u.lock == t.lock && u.file == t.file && u.log == t.log && !Enabled(u, Create(c))
  {
    RunKeeps(origin, s, steps);
    hide Run, Inv;
    GoneOwnerWedges(origin, Run(s, steps));
    WedgedForever(Run(s, steps), more);
  }

  /** What it takes to get rid of a lock with a complete record: its process is gone, and another
      one takes the lock away. */
  function Recovery(owner: nat): seq<Step> {
    var other := Client(owner + 1, 0);
    [Crash(owner), Crash(other.pid), Spawn(other.pid), Suspect(other), UnlinkStale(other)]
  }

  lemma RecoveryFreesTheLock(s: State)
    requires s.lock.Some? && s.lock.value.record.Some?
    ensures Run(s, Recovery(s.lock.value.record.value)).lock.None?
  {
    var owner := s.lock.value.record.value;
    var other := Client(owner + 1, 0);
    hide Run, Next;
    RunFive(s, Crash(owner), Crash(other.pid), Spawn(other.pid), Suspect(other), UnlinkStale(other));
    OnlyOtherLives(s, owner, other);
    OtherTakesIt(Next(Next(Next(s, Crash(owner)), Crash(other.pid)), Spawn(other.pid)), other);
  }

  lemma OnlyOtherLives(s: State, owner: nat, other: Client)
    requires other.pid != owner
    ensures var t := Next(Next(Next(s, Crash(owner)), Crash(other.pid)), Spawn(other.pid));
            t.lock == s.lock && Idle(t, other) && owner !in t.alive
  {
    CrashClears(s, owner);
    CrashClears(Next(s, Crash(owner)), other.pid);
    hide Next;
    SpawnAdds(Next(Next(s, Crash(owner)), Crash(other.pid)), other.pid);
  }

  lemma CrashClears(s: State, pid: nat)
    ensures var t := Next(s, Crash(pid));
            t.lock == s.lock && t.alive == s.alive - {pid} && forall c :: c in t.clients ==> c.pid != pid
  {}

  lemma SpawnAdds(s: State, pid: nat)
    ensures var t := Next(s, Spawn(pid)); t.lock == s.lock && t.alive == s.alive + {pid} && t.clients == s.clients
  {}

  lemma OtherTakesIt(s: State, other: Client)
    requires Idle(s, other) && s.lock.Some? && s.lock.value.record.Some? && s.lock.value.record.value !in s.alive
    ensures Next(Next(s, Suspect(other)), UnlinkStale(other)).lock.None?
  {}

  lemma RunFive(s: State, a: Step, b: Step, c: Step, d: Step, e: Step)
    ensures Run(s, [a, b, c, d, e]) == Next(Next(Next(Next(Next(s, a), b), c), d), e)
  {
    hide Next;
    RunOne(s, a, [b, c, d, e]);
    RunOne(Next(s, a), b, [c, d, e]);
    RunOne(Next(Next(s, a), b), c, [d, e]);
    RunOne(Next(Next(Next(s, a), b), c), d, [e]);
    RunOne(Next(Next(Next(Next(s, a), b), c), d), e, []);
    assert [a, b, c, d, e] == [a] + [b, c, d, e] && [b, c, d, e] == [b] + [c, d, e];
    assert [c, d, e] == [c] + [d, e] && [d, e] == [d] + [e] && [e] == [e] + [];
  }

  lemma RunOne(s: State, step: Step, rest: seq<Step>)
    ensures Run(s, [step] + rest) == Run(Next(s, step), rest)
  {
    assert ([step] + rest)[1..] == rest;
  }

  /** A creation that fails takes its lock file with it, or leaves it with a record exactly if it was written. */
  lemma AbandonedCreateGivesBack(origin: File, s: State, steps: seq<Step>, c: Client, wrote: bool)
    requires Start(origin, s)
    requires var t := Run(s, steps); c in t.clients && t.clients[c].Created?
    ensures var t := Run(s, steps);
            && Next(t, AbandonCreate(c, wrote, true)).lock.None?
            && var left := Next(t, AbandonCreate(c, wrote, false)).lock;
               left.Some? && left.value.owner == c && (left.value.record.Some? <==> wrote || t.lock.value.record.Some?)
  {
    var t := Run(s, steps);
    RunKeeps(origin, s, steps);
    hide Run;
    assert ClientOk(t, c);
  }

  /** A lock whose owner is no longer there can go away exactly when its record is complete. */
  lemma LeftLockGoesExactly(origin: File, s: State, steps: seq<Step>)
    requires Start(origin, s)
    requires var t := Run(s, steps); t.lock.Some? && t.lock.value.owner !in t.clients
    ensures var t := Run(s, steps);
            (exists more :: Run(t, more).lock.None?) <==> t.lock.value.record.Some?
  {
    var t := Run(s, steps);
    if t.lock.value.record.Some? {
      RecoveryFreesTheLock(t);
    } else {
      RunKeeps(origin, s, steps);
      GoneOwnerWedges(origin, t);
      forall more ensures Run(t, more).lock.Some? {
        WedgedForever(t, more);
      }
    }
  }
}
