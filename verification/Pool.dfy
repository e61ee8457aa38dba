/** The pool of live clients in SessionManager: protection, recency and eviction. */
module Pool {
  import opened Results

  type Id = string

  datatype Reason = Turn | Input | Selected | Activity

  datatype Managed = Managed(client: nat, touchedAt: nat, reasons: set<Reason>)

  type Clients = map<Id, Managed>

  predicate Evictable(clients: Clients, exempt: Option<Id>, id: Id) {
    id in clients && exempt != Some(id) && clients[id].reasons == {}
  }

  function Candidates(clients: Clients, exempt: Option<Id>): set<Id> {
    set id | id in clients && Evictable(clients, exempt, id)
  }

  /** Each touch takes a fresh counter value. */
  ghost predicate DistinctTouches(clients: Clients) {
    forall a, b :: a in clients && b in clients && a != b ==> clients[a].touchedAt != clients[b].touchedAt
  }

  ghost predicate Oldest(clients: Clients, ids: set<Id>, id: Id) {
    id in ids && id in clients && forall j :: j in ids && j in clients ==> clients[id].touchedAt <= clients[j].touchedAt
  }

  lemma {:induction false} OldestExists(clients: Clients, ids: set<Id>) returns (id: Id)
    requires ids != {} && ids <= clients.Keys
    ensures Oldest(clients, ids, id)
    decreases ids
  {
    var first :| first in ids;
    id := first;
    if ids != {first} {
      var next := OldestExists(clients, ids - {first});
      if clients[next].touchedAt < clients[first].touchedAt {
        id := next;
      }
    }
  }

  /** The candidates touched before one of them. */
  ghost function Before(clients: Clients, exempt: Option<Id>, id: Id): set<Id>
    requires id in clients
  {
    set j | j in Candidates(clients, exempt) && clients[j].touchedAt < clients[id].touchedAt
  }

  /** The clients an eviction removes: the candidates with fewer than `excess` others before them. */
  ghost function Victims(clients: Clients, exempt: Option<Id>, limit: nat): set<Id> {
    set id | id in Candidates(clients, exempt) && |Before(clients, exempt, id)| < |clients| - limit
  }

  lemma OneBeforeFewer(clients: Clients, exempt: Option<Id>, oldest: Id, id: Id)
    requires DistinctTouches(clients) && Oldest(clients, Candidates(clients, exempt), oldest)
    requires id in Candidates(clients, exempt) && id != oldest
    ensures |Before(clients - {oldest}, exempt, id)| == |Before(clients, exempt, id)| - 1
  {
    assert Before(clients - {oldest}, exempt, id) == Before(clients, exempt, id) - {oldest};
    assert oldest in Before(clients, exempt, id);
  }

  lemma FewerClients(clients: Clients, exempt: Option<Id>, oldest: Id)
    requires DistinctTouches(clients) && oldest in clients
    ensures DistinctTouches(clients - {oldest}) && |clients - {oldest}| == |clients| - 1
    ensures Candidates(clients - {oldest}, exempt) == Candidates(clients, exempt) - {oldest}
  {
    assert (clients - {oldest}).Keys == clients.Keys - {oldest};
  }

  lemma WithoutOldest(clients: Clients, exempt: Option<Id>, limit: nat, oldest: Id)
    requires DistinctTouches(clients) && Oldest(clients, Candidates(clients, exempt), oldest) && |clients| > limit
    ensures DistinctTouches(clients - {oldest}) && |clients - {oldest}| == |clients| - 1
    ensures Candidates(clients - {oldest}, exempt) == Candidates(clients, exempt) - {oldest}
    ensures Victims(clients, exempt, limit) == Victims(clients - {oldest}, exempt, limit) + {oldest}
  {
    var rest := clients - {oldest};
    FewerClients(clients, exempt, oldest);
    assert Before(clients, exempt, oldest) == {};
    assert oldest in Candidates(clients, exempt);
    hide DistinctTouches, Before, Oldest, Candidates;
    CandidatesAreClients(clients, exempt);
    CandidatesAreClients(rest, exempt);
    forall id ensures id in Victims(clients, exempt, limit) <==> id in Victims(rest, exempt, limit) + {oldest} {
      if id in Candidates(rest, exempt) {
        OneBeforeFewer(clients, exempt, oldest, id);
      }
    }
  }

  lemma NobodyToEvict(clients: Clients, exempt: Option<Id>, limit: nat)
    requires Candidates(clients, exempt) == {} || |clients| <= limit
    ensures Victims(clients, exempt, limit) == {}
  {}

  /** Touched in this order. */
  ghost predicate Ordered(clients: Clients, order: seq<Id>) {
    && (forall id <- order :: id in clients)
    && (forall i, j :: 0 <= i < j < |order| ==> clients[order[i]].touchedAt < clients[order[j]].touchedAt)
  }

  ghost predicate AllOlder(clients: Clients, order: seq<Id>, ids: set<Id>) {
    && (forall id <- order :: id in clients) && ids <= clients.Keys
    && (forall i, id :: 0 <= i < |order| && id in ids ==> clients[order[i]].touchedAt < clients[id].touchedAt)
  }

  lemma NextInOrder(clients: Clients, left: Clients, order: seq<Id>, candidates: set<Id>, oldest: Id)
    requires Ordered(clients, order) && AllOlder(clients, order, candidates)
    requires forall id :: id in left ==> id in clients && left[id] == clients[id]
    requires DistinctTouches(clients) && candidates <= left.Keys && Oldest(left, candidates, oldest)
    ensures Ordered(clients, order + [oldest]) && AllOlder(clients, order + [oldest], candidates - {oldest})
  {
    YoungerThan(left, candidates, oldest);
    hide DistinctTouches;
  }

  /** The eviction loop. `order` is what `evicted` is emitted for. */
  method EvictIfNeeded(clients: Clients, exempt: Option<Id>, limit: nat) returns (left: Clients, order: seq<Id>)
    requires DistinctTouches(clients)
    ensures left == clients - Victims(clients, exempt, limit)
    ensures forall id :: id in order <==> id in Victims(clients, exempt, limit)
    ensures Ordered(clients, order)
    ensures |left| <= limit || forall id :: id in left && exempt != Some(id) ==> left[id].reasons != {}
  {
    hide Victims, Before, DistinctTouches, Oldest, Candidates, Ordered, AllOlder;
    left, order := clients, [];
    ghost var gone: set<Id> := {};
    NothingEvicted(clients, exempt);
    while |left| > limit
      invariant DistinctTouches(left) && left == clients - gone
      invariant Victims(clients, exempt, limit) == Victims(left, exempt, limit) + gone
      invariant forall id :: id in order <==> id in gone
      invariant Ordered(clients, order) && AllOlder(clients, order, Candidates(left, exempt))
      decreases |left|
    {
      var candidates := Candidates(left, exempt);
      if candidates == {} {
        NobodyToEvict(left, exempt, limit);
        NoCandidates(left, exempt);
        return;
      }
      CandidatesAreClients(left, exempt);
      var candidate := LeastRecent(left, candidates);
      OldestIsCandidate(left, candidates, candidate);
      WithoutOldest(left, exempt, limit, candidate);
      NextInOrder(clients, left, order, candidates, candidate);
      order := order + [candidate];
      MinusOneMore(clients, gone, candidate);
      gone := gone + {candidate};
      left := left - {candidate};
    }
    NobodyToEvict(left, exempt, limit);
  }

  lemma NothingEvicted(clients: Clients, exempt: Option<Id>)
    ensures clients - {} == clients && Ordered(clients, []) && AllOlder(clients, [], Candidates(clients, exempt))
  {}

  lemma MinusOneMore(clients: Clients, gone: set<Id>, id: Id)
    ensures clients - gone - {id} == clients - (gone + {id})
  {}

  lemma YoungerThan(clients: Clients, candidates: set<Id>, oldest: Id)
    requires DistinctTouches(clients) && candidates <= clients.Keys && Oldest(clients, candidates, oldest)
    ensures forall id :: id in candidates && id != oldest ==> clients[oldest].touchedAt < clients[id].touchedAt
  {}

  lemma NoCandidates(clients: Clients, exempt: Option<Id>)
    requires Candidates(clients, exempt) == {}
    ensures forall id :: id in clients && exempt != Some(id) ==> clients[id].reasons != {}
  {
    forall id | id in clients && exempt != Some(id) ensures clients[id].reasons != {} {
      assert id !in Candidates(clients, exempt);
    }
  }

  method LeastRecent(clients: Clients, candidates: set<Id>) returns (id: Id)
    requires candidates != {} && candidates <= clients.Keys
    ensures Oldest(clients, candidates, id)
  {
    id :| id in candidates;
    var pending := candidates - {id};
    while pending != {}
      invariant pending <= candidates && id in candidates
      invariant forall j :: j in candidates && j !in pending ==> clients[id].touchedAt <= clients[j].touchedAt
    {
      var next :| next in pending;
      if clients[next].touchedAt < clients[id].touchedAt {
        id := next;
      }
      pending := pending - {next};
    }
  }

  /** Protected and exempt clients stay; the evicted ones were all touched before every candidate
      that stays, and there are just as many as needed, or as there are candidates. */
  lemma EvictionIsLeastRecentlyUsed(clients: Clients, exempt: Option<Id>, limit: nat, gone: Id, kept: Id)
    requires DistinctTouches(clients) && gone in Victims(clients, exempt, limit)
    requires kept in clients && kept !in Victims(clients, exempt, limit)
    ensures Evictable(clients, exempt, gone)
    ensures Evictable(clients, exempt, kept) ==> clients[gone].touchedAt < clients[kept].touchedAt
  {
    if Evictable(clients, exempt, kept) && clients[kept].touchedAt < clients[gone].touchedAt {
      assert Before(clients, exempt, kept) <= Before(clients, exempt, gone);
      Smaller(Before(clients, exempt, kept), Before(clients, exempt, gone));
    }
  }

  lemma {:induction false} Smaller(a: set<Id>, b: set<Id>)
    requires a <= b
    ensures |a| <= |b|
    decreases a
  {
    if a != {} {
      var x :| x in a;
      Smaller(a - {x}, b - {x});
    }
  }

  lemma {:induction false} VictimCount(clients: Clients, exempt: Option<Id>, limit: nat)
    requires DistinctTouches(clients)
    ensures var excess := if |clients| > limit then |clients| - limit else 0;
            |Victims(clients, exempt, limit)|
            == if |Candidates(clients, exempt)| < excess then |Candidates(clients, exempt)| else excess
    decreases |clients|
  {
    hide Victims, Before, DistinctTouches, Oldest, Candidates;
    if |clients| <= limit || Candidates(clients, exempt) == {} {
      NobodyToEvict(clients, exempt, limit);
    } else {
      CandidatesAreClients(clients, exempt);
      var oldest := OldestExists(clients, Candidates(clients, exempt));
      WithoutOldest(clients, exempt, limit, oldest);
      OldestIsCandidate(clients, Candidates(clients, exempt), oldest);
      VictimCount(clients - {oldest}, exempt, limit);
      VictimsAreClients(clients - {oldest}, exempt, limit);
    }
  }

  lemma CandidatesAreClients(clients: Clients, exempt: Option<Id>)
    ensures Candidates(clients, exempt) <= clients.Keys
  {}

  lemma VictimsAreClients(clients: Clients, exempt: Option<Id>, limit: nat)
    ensures Victims(clients, exempt, limit) <= clients.Keys
  {}

  lemma OldestIsCandidate(clients: Clients, ids: set<Id>, id: Id)
    requires Oldest(clients, ids, id)
    ensures id in ids && id in clients
  {}

  // ---------- The manager ----------

  class SessionManager {
    var clients: Clients
    var generations: map<Id, nat>
    var maxLiveSessions: nat
    var touchCounter: nat
    var created: nat

    ghost predicate Valid()
      reads this
    {
      DistinctTouches(clients) && forall id :: id in clients ==> clients[id].touchedAt <= touchCounter
    }

    constructor (limit: nat)
      ensures Valid() && clients == map[] && maxLiveSessions == limit
    {
      clients, generations, maxLiveSessions, touchCounter, created := map[], map[], limit, 0, 0;
    }

    method Evict(exempt: Option<Id>)
      requires Valid()
      modifies this`clients
      ensures Valid() && clients == old(clients) - Victims(old(clients), exempt, maxLiveSessions)
      ensures |clients| <= maxLiveSessions || forall id :: id in clients && exempt != Some(id) ==> clients[id].reasons != {}
    {
      hide Victims;
      var left, _ := EvictIfNeeded(clients, exempt, maxLiveSessions);
      clients := left;
    }

    method SetLimit(limit: nat)
      requires Valid()
      modifies this`clients, this`maxLiveSessions
      ensures Valid() && maxLiveSessions == limit && clients == old(clients) - Victims(old(clients), None, limit)
    {
      hide Victims;
      maxLiveSessions := limit;
      Evict(None);
    }

    method Get(id: Id) returns (client: Option<nat>)
      requires Valid()
      modifies this`clients, this`touchCounter
      ensures Valid()
      ensures client == if id in old(clients) then Some(old(clients)[id].client) else None
      ensures clients == if id in old(clients) then old(clients)[id := old(clients)[id].(touchedAt := touchCounter)] else old(clients)
    {
      if id !in clients { return None; }
      touchCounter := touchCounter + 1;
      clients := clients[id := clients[id].(touchedAt := touchCounter)];
      return Some(clients[id].client);
    }

    /** A new client carries a generation one higher than any before it for the session. */
    method CreateManaged(id: Id, deferred: bool) returns (client: nat)
      requires Valid()
      modifies this
      ensures Valid() && maxLiveSessions == old(maxLiveSessions)
      ensures id in clients && clients[id].client == client
      ensures id in old(clients) ==> client == old(clients)[id].client && generations == old(generations)
      ensures id !in old(clients) ==>
                && generations == old(generations)[id := (if id in old(generations) then old(generations)[id] else 0) + 1]
                && var grown := old(clients)[id := Managed(client, touchCounter, {})];
                   clients == if deferred then grown else grown - Victims(grown, Some(id), maxLiveSessions)
    {
      hide Victims;
      var existing := Get(id);
      if existing.Some? { return existing.value; }
      var generation := (if id in generations then generations[id] else 0) + 1;
      generations := generations[id := generation];
      client := created;
      created := created + 1;
      touchCounter := touchCounter + 1;
      clients := clients[id := Managed(client, touchCounter, {})];
      if !deferred {
        ExemptIsKept(clients, id, maxLiveSessions);
        Evict(Some(id));
      }
    }

    method Stop(id: Id)
      requires Valid()
      modifies this`clients
      ensures Valid() && clients == old(clients) - {id}
    {
      clients := clients - {id};
    }

    /** Only lifting a protection evicts. */
    method SetProtection(id: Id, reason: Reason, enabled: bool)
      requires Valid()
      modifies this`clients, this`touchCounter
      ensures Valid()
      ensures id !in old(clients) ==> clients == old(clients)
      ensures id in old(clients) ==>
                var m := old(clients)[id];
                var changed := old(clients)[id := Managed(m.client, touchCounter,
                                                          if enabled then m.reasons + {reason} else m.reasons - {reason})];
                clients == if enabled then changed else changed - Victims(changed, None, maxLiveSessions)
    {
      hide Victims;
      if id !in clients { return; }
      var managed := clients[id];
      var reasons := if enabled then managed.reasons + {reason} else managed.reasons - {reason};
      touchCounter := touchCounter + 1;
      clients := clients[id := Managed(managed.client, touchCounter, reasons)];
      if !enabled {
        Evict(None);
      }
    }
  }

  lemma ExemptIsKept(clients: Clients, id: Id, limit: nat)
    ensures id !in Victims(clients, Some(id), limit)
  {}
}
