/** The two-map cache of GrokAgentCatalogService: catalogs by workspace and agent entries by
    token, with expiry, least-recently-used eviction and a capacity. */
module Catalog {
  import opened Results
  import opened Lists

  const GROK_AGENT_CATALOG_LIMIT := 64
  const TOKEN_ATTEMPTS := 8

  type Key = string
  type Token = string

  datatype Entry = Entry(catalogKey: Key, generation: nat, expiresAt: int, selector: string)
  datatype Cached = Cached(generation: nat, tokens: seq<Token>, expiresAt: int, lastAccess: int)
  datatype Error = CatalogUnavailable

  type Catalogs = map<Key, Cached>
  type Entries = map<Token, Entry>

  /** The token map is exactly the disjoint union of the cached catalogs' tokens. */
  ghost predicate Indexed(catalogs: Catalogs, entries: Entries) {
    && (forall key, t :: key in catalogs && t in catalogs[key].tokens ==> Belongs(catalogs, entries, key, t))
    && (forall t :: t in entries ==> entries[t].catalogKey in catalogs && t in catalogs[entries[t].catalogKey].tokens)
    && (forall key :: key in catalogs ==> Distinct(catalogs[key].tokens))
  }

  ghost predicate Belongs(catalogs: Catalogs, entries: Entries, key: Key, t: Token)
    requires key in catalogs
  {
    && t in entries && entries[t].catalogKey == key
    && entries[t].generation == catalogs[key].generation && entries[t].expiresAt == catalogs[key].expiresAt
  }

  /** Clearing starts a new generation, so every cached catalog belongs to the current one. */
  ghost predicate AllOf(catalogs: Catalogs, generation: nat) {
    forall key :: key in catalogs ==> catalogs[key].generation == generation
  }

  lemma TokensAreDisjoint(catalogs: Catalogs, entries: Entries, a: Key, b: Key, t: Token)
    requires Indexed(catalogs, entries) && a in catalogs && b in catalogs
    requires t in catalogs[a].tokens && t in catalogs[b].tokens
    ensures a == b
  {
    assert Belongs(catalogs, entries, a, t) && Belongs(catalogs, entries, b, t);
  }

  /** What is left of the entries once a set of catalogs is kept. */
  ghost function EntriesOf(entries: Entries, keys: set<Key>): Entries {
    map t | t in entries && entries[t].catalogKey in keys :: entries[t]
  }

  ghost function Kept(catalogs: Catalogs, keys: set<Key>): Catalogs {
    map key | key in catalogs && key in keys :: catalogs[key]
  }

  lemma TouchStaysIndexed(catalogs: Catalogs, entries: Entries, key: Key, now: int)
    requires Indexed(catalogs, entries) && key in catalogs
    ensures Indexed(catalogs[key := catalogs[key].(lastAccess := now)], entries)
  {
    var cs := catalogs[key := catalogs[key].(lastAccess := now)];
    forall k, t | k in cs && t in cs[k].tokens ensures Belongs(cs, entries, k, t) {
      assert Belongs(catalogs, entries, k, t);
    }
  }

  lemma KeepingStaysIndexed(catalogs: Catalogs, entries: Entries, keys: set<Key>)
    requires Indexed(catalogs, entries)
    ensures Indexed(Kept(catalogs, keys), EntriesOf(entries, keys))
  {
    var c, e := Kept(catalogs, keys), EntriesOf(entries, keys);
    forall key, t | key in c && t in c[key].tokens ensures Belongs(c, e, key, t) {
      assert Belongs(catalogs, entries, key, t);
    }
  }

  /** A catalog and the fresh tokens of its entries. */
  ghost predicate Staged(tokens: seq<Token>, staged: seq<Entry>, key: Key, c: Cached) {
    && |tokens| == |staged| && Distinct(tokens) && c.tokens == tokens
    && forall i :: 0 <= i < |staged| ==>
         staged[i].catalogKey == key && staged[i].generation == c.generation && staged[i].expiresAt == c.expiresAt
  }

  function Inserted(entries: Entries, tokens: seq<Token>, staged: seq<Entry>): Entries
    requires |tokens| == |staged|
  {
    if tokens == [] then entries
    else var n := |tokens| - 1; Inserted(entries, tokens[..n], staged[..n])[tokens[n] := staged[n]]
  }

  /** What was there stays, unless its token is inserted. */
  lemma {:induction false} InsertedElsewhere(entries: Entries, tokens: seq<Token>, staged: seq<Entry>, t: Token)
    requires |tokens| == |staged| && t !in tokens
    ensures var r := Inserted(entries, tokens, staged);
            (t in r <==> t in entries) && (t in entries ==> r[t] == entries[t])
  {
    if tokens != [] {
      var n := |tokens| - 1;
      assert t !in tokens[..n] && t != tokens[n];
      InsertedElsewhere(entries, tokens[..n], staged[..n], t);
    }
  }

  lemma {:induction false} InsertedAt(entries: Entries, tokens: seq<Token>, staged: seq<Entry>, i: nat)
    requires i < |tokens| == |staged| && Distinct(tokens)
    ensures var r := Inserted(entries, tokens, staged); tokens[i] in r && r[tokens[i]] == staged[i]
  {
    var n := |tokens| - 1;
    if i < n {
      InsertedAt(entries, tokens[..n], staged[..n], i);
      assert tokens[..n][i] == tokens[i];
    }
  }

  lemma {:induction false} InsertedSize(entries: Entries, tokens: seq<Token>, staged: seq<Entry>)
    requires |tokens| == |staged|
    ensures |Inserted(entries, tokens, staged)| <= |entries| + |tokens|
  {
    if tokens != [] {
      var n := |tokens| - 1;
      InsertedSize(entries, tokens[..n], staged[..n]);
      SizeGrowsByOne(Inserted(entries, tokens[..n], staged[..n]), tokens[n], staged[n]);
    }
  }

  lemma SizeGrowsByOne(entries: Entries, t: Token, e: Entry)
    ensures |entries[t := e]| <= |entries| + 1
  {
    assert entries[t := e].Keys == entries.Keys + {t};
  }

  lemma CommitStaysIndexed(catalogs: Catalogs, entries: Entries, key: Key, c: Cached, tokens: seq<Token>, staged: seq<Entry>)
    requires Indexed(catalogs, entries) && key !in catalogs
    requires Staged(tokens, staged, key, c) && forall t <- tokens :: t !in entries
    ensures Indexed(catalogs[key := c], Inserted(entries, tokens, staged))
  {
    hide Inserted;
    var cs, es := catalogs[key := c], Inserted(entries, tokens, staged);
    forall t | t in tokens ensures Belongs(cs, es, key, t) {
      InsertedAt(entries, tokens, staged, IndexOf(tokens, t));
    }
    forall t | t !in tokens ensures (t in es <==> t in entries) && (t in entries ==> es[t] == entries[t]) {
      InsertedElsewhere(entries, tokens, staged, t);
    }
    forall k, t | k in catalogs && t in catalogs[k].tokens ensures Belongs(cs, es, k, t) {
      assert Belongs(catalogs, entries, k, t);
    }
  }

  // ---------- Drawing tokens ----------

  /** One call of the token factory: a token of the right form, something else, or an exception. */
  datatype Draw = Candidate(token: Token) | Unusable | Threw

  datatype Issued = Issued(tokens: seq<Token>, drawn: nat)

  predicate Refused(d: Draw, tokens: seq<Token>, entries: Entries) {
    d.Unusable? || (d.Candidate? && (d.token in tokens || d.token in entries))
  }

  /** The position of the first of `attempts` draws that can be used, if the factory does not throw
      before. */
  function FirstUsable(draw: nat -> Draw, from: nat, attempts: nat, tokens: seq<Token>, entries: Entries): (r: Option<nat>)
    ensures r.Some? ==> r.value >= from && draw(r.value).Candidate? && !Refused(draw(r.value), tokens, entries)
    decreases attempts
  {
    if attempts == 0 || draw(from).Threw? then None
    else if !Refused(draw(from), tokens, entries) then Some(from)
    else FirstUsable(draw, from + 1, attempts - 1, tokens, entries)
  }

  /** The tokens that the factory yields for `count` agents, and how often it is called. */
  function Drawn(draw: nat -> Draw, count: nat, entries: Entries): Option<Issued> {
    if count == 0 then Some(Issued([], 0))
    else
      var before := Drawn(draw, count - 1, entries);
      if before.None? then None
      else
        var at := FirstUsable(draw, before.value.drawn, TOKEN_ATTEMPTS, before.value.tokens, entries);
        if at.None? then None else Some(Issued(before.value.tokens + [draw(at.value).token], at.value + 1))
  }

  /** The inner loop of issueTokens. */
  method DrawOne(draw: nat -> Draw, from: nat, tokens: seq<Token>, entries: Entries) returns (r: Option<nat>)
    ensures r == FirstUsable(draw, from, TOKEN_ATTEMPTS, tokens, entries)
  {
    for attempt := 0 to TOKEN_ATTEMPTS
      invariant FirstUsable(draw, from, TOKEN_ATTEMPTS, tokens, entries)
                == FirstUsable(draw, from + attempt, TOKEN_ATTEMPTS - attempt, tokens, entries)
    {
      var candidate := draw(from + attempt);
      if candidate.Threw? { return None; }
      if candidate.Candidate? && candidate.token !in tokens && candidate.token !in entries {
        return Some(from + attempt);
      }
    }
    return None;
  }

  predicate AllRefused(draw: nat -> Draw, from: nat, n: nat, tokens: seq<Token>, entries: Entries) {
    forall k :: from <= k < from + n ==> Refused(draw(k), tokens, entries)
  }

  /** No draw can be used: all attempts are refused, or some are and then the factory throws. */
  ghost predicate GivesUp(draw: nat -> Draw, from: nat, attempts: nat, tokens: seq<Token>, entries: Entries) {
    exists n: nat :: n <= attempts && AllRefused(draw, from, n, tokens, entries) && (n == attempts || draw(from + n).Threw?)
  }

  lemma {:induction false} NoneUsable(draw: nat -> Draw, from: nat, attempts: nat, tokens: seq<Token>, entries: Entries)
    ensures FirstUsable(draw, from, attempts, tokens, entries).None? <==> GivesUp(draw, from, attempts, tokens, entries)
    decreases attempts
  {
    if attempts == 0 || draw(from).Threw? {
      assert AllRefused(draw, from, 0, tokens, entries);
    } else {
      NoneUsable(draw, from + 1, attempts - 1, tokens, entries);
      if GivesUp(draw, from + 1, attempts - 1, tokens, entries) && Refused(draw(from), tokens, entries) {
        var n: nat :| n <= attempts - 1 && AllRefused(draw, from + 1, n, tokens, entries)
                      && (n == attempts - 1 || draw(from + 1 + n).Threw?);
        assert AllRefused(draw, from, n + 1, tokens, entries);
      }
      if GivesUp(draw, from, attempts, tokens, entries) {
        var n: nat :| n <= attempts && AllRefused(draw, from, n, tokens, entries) && (n == attempts || draw(from + n).Threw?);
        assert n > 0 && AllRefused(draw, from + 1, n - 1, tokens, entries);
      }
    }
  }

  /** With `index` tokens issued, the next one cannot be had. */
  ghost predicate StopsAt(draw: nat -> Draw, index: nat, entries: Entries) {
    var before := Drawn(draw, index, entries);
    before.Some? && GivesUp(draw, before.value.drawn, TOKEN_ATTEMPTS, before.value.tokens, entries)
  }

  /** Issuing fails exactly when, after some of the tokens, eight draws in a row are refused against
      exactly those tokens or the factory throws. */
  lemma {:induction false} DrawnFailsExactly(draw: nat -> Draw, count: nat, entries: Entries)
    ensures Drawn(draw, count, entries).None? <==> exists index: nat :: index < count && StopsAt(draw, index, entries)
  {
    hide GivesUp;
    if count > 0 {
      DrawnFailsExactly(draw, count - 1, entries);
      var before := Drawn(draw, count - 1, entries);
      if before.Some? {
        NoneUsable(draw, before.value.drawn, TOKEN_ATTEMPTS, before.value.tokens, entries);
        assert Drawn(draw, count, entries).None? <==> StopsAt(draw, count - 1, entries);
      }
    }
  }

  predicate DrawnBefore(draw: nat -> Draw, bound: nat, t: Token) { exists k: nat :: k < bound && draw(k) == Candidate(t) }

  /** What is issued is new, without repetition, and was drawn. */
  lemma {:induction false} DrawnAreFresh(draw: nat -> Draw, count: nat, entries: Entries)
    requires Drawn(draw, count, entries).Some?
    ensures var d := Drawn(draw, count, entries).value;
            && |d.tokens| == count && Distinct(d.tokens)
            && forall t <- d.tokens :: t !in entries && DrawnBefore(draw, d.drawn, t)
  {
    if count > 0 {
      DrawnAreFresh(draw, count - 1, entries);
      var before := Drawn(draw, count - 1, entries).value;
      var at := FirstUsable(draw, before.drawn, TOKEN_ATTEMPTS, before.tokens, entries).value;
      var d := Drawn(draw, count, entries).value;
      DistinctConcat(before.tokens, [draw(at).token]);
      forall t | t in d.tokens ensures t !in entries && DrawnBefore(draw, d.drawn, t) {
        if t in before.tokens {
          var k: nat :| k < before.drawn && draw(k) == Candidate(t);
        } else {
          assert draw(at) == Candidate(t);
        }
      }
    }
  }

  class GrokAgentCatalogService {
    var catalogs: Catalogs
    var entries: Entries
    var generation: nat

    ghost predicate Valid()
      reads this
    {
      Indexed(catalogs, entries) && |entries| <= GROK_AGENT_CATALOG_LIMIT && AllOf(catalogs, generation)
    }

    constructor ()
      ensures Valid() && catalogs == map[] && entries == map[]
    {
      catalogs, entries, generation := map[], map[], 0;
    }

    /** Tokens and generation from before are refused from now on. */
    method Clear()
      modifies this
      ensures Valid() && catalogs == map[] && entries == map[] && generation != old(generation)
    {
      generation := generation + 1;
      entries := map[];
      catalogs := map[];
    }

    /** A list hit or a completed resolve. */
    method Touch(key: Key, now: int)
      requires Valid() && key in catalogs
      modifies this`catalogs
      ensures Valid() && catalogs == old(catalogs)[key := old(catalogs)[key].(lastAccess := now)]
    {
      TouchStaysIndexed(catalogs, entries, key, now);
      hide Indexed;
      catalogs := catalogs[key := catalogs[key].(lastAccess := now)];
    }

    /** The consistency checks on the way out never fail in a reachable state. */
    method PublicCatalog(key: Key) returns (r: Result<seq<string>, Error>)
      requires Valid() && key in catalogs
      ensures r.Success? && |r.value| == |catalogs[key].tokens|
      ensures forall i :: 0 <= i < |r.value| ==>
                catalogs[key].tokens[i] in entries && r.value[i] == entries[catalogs[key].tokens[i]].selector
    {
      var catalog := catalogs[key];
      var values := [];
      OwnTokens(catalogs, entries, key);
      hide Indexed;
      for i := 0 to |catalog.tokens|
        invariant |values| == i
        invariant forall j :: 0 <= j < i ==>
                    catalog.tokens[j] in entries && values[j] == entries[catalog.tokens[j]].selector
      {
        var token := catalog.tokens[i];
        if token !in entries || entries[token].generation != catalog.generation || entries[token].catalogKey != key {
          return Failure(CatalogUnavailable);
        }
        values := values + [entries[token].selector];
      }
      return Success(values);
    }

    method RemoveCatalog(key: Key)
      requires Valid()
      modifies this`catalogs, this`entries
      ensures Valid()
      ensures catalogs == old(catalogs) - {key}
      ensures entries == EntriesOf(old(entries), old(catalogs).Keys - {key})
    {
      if key !in catalogs {
        NothingToRemove(catalogs, entries, key);
        return;
      }
      RemovalStaysIndexed(catalogs, entries, key);
      hide Indexed, EntriesOf;
      entries := DeleteTokens(catalogs, entries, key);
      catalogs := catalogs - {key};
    }

    /** Evicts whole catalogs, least recently used first, until `incoming` entries fit. */
    method MakeCapacity(incoming: nat) returns (r: Result<(), Error>)
      requires Valid()
      modifies this`catalogs, this`entries
      ensures Valid()
      ensures r.Success? <==> incoming <= GROK_AGENT_CATALOG_LIMIT
      ensures r.Success? ==> |entries| + incoming <= GROK_AGENT_CATALOG_LIMIT
      ensures r.Failure? ==> catalogs == map[]
      ensures LeastRecentlyUsedGone(old(catalogs), catalogs)
      ensures EvictedForRoom(old(catalogs), old(entries), catalogs, incoming)
      ensures entries == EntriesOf(old(entries), catalogs.Keys)
      ensures |old(entries)| + incoming <= GROK_AGENT_CATALOG_LIMIT ==> catalogs == old(catalogs)
    {
      hide Indexed, EntriesOf, LeastRecentlyUsedGone, EvictedForRoom;
      NothingGone(catalogs, entries, incoming);
      while |entries| + incoming > GROK_AGENT_CATALOG_LIMIT
        invariant Valid() && LeastRecentlyUsedGone(old(catalogs), catalogs)
        invariant EvictedForRoom(old(catalogs), old(entries), catalogs, incoming)
        invariant entries == EntriesOf(old(entries), catalogs.Keys)
        invariant |old(entries)| + incoming <= GROK_AGENT_CATALOG_LIMIT ==> catalogs == old(catalogs)
        decreases |catalogs|
      {
        if catalogs == map[] {
          NoCatalogNoEntry(entries);
          return Failure(CatalogUnavailable);
        }
        var oldest := LeastRecent(catalogs);
        OneMoreGone(old(catalogs), old(entries), catalogs, oldest, incoming);
        StillEntriesOf(old(entries), catalogs.Keys, oldest);
        RemoveCatalog(oldest);
      }
      return Success(());
    }

    method PurgeExpired(now: int)
      requires Valid()
      modifies this`catalogs, this`entries
      ensures Valid()
      ensures catalogs == Kept(old(catalogs), Live(old(catalogs), now))
      ensures entries == EntriesOf(old(entries), Live(old(catalogs), now))
    {
      ghost var cs, es := catalogs, entries;
      hide Indexed, EntriesOf;
      NothingExpiredYet(cs, es);
      var keys := catalogs.Keys;
      while keys != {}
        invariant keys <= cs.Keys && Valid()
        invariant catalogs == Kept(cs, keys + Live(cs, now)) && entries == EntriesOf(es, keys + Live(cs, now))
      {
        var key :| key in keys;
        VisitForExpiry(cs, es, keys, key, now);
        if catalogs[key].expiresAt <= now {
          RemoveCatalog(key);
        }
        keys := keys - {key};
      }
      assert keys + Live(cs, now) == Live(cs, now);
      NoneOrphaned(cs, es, now);
      entries := DropOrphans(catalogs, entries, now);
    }

    /** The tokens drawn for `count` agents, or the failure to draw them. */
    method IssueTokens(count: nat, draw: nat -> Draw) returns (r: Result<seq<Token>, Error>)
      requires Valid()
      ensures r == var d := Drawn(draw, count, entries); if d.Some? then Success(d.value.tokens) else Failure(CatalogUnavailable)
      ensures r.Failure? <==> exists index: nat :: index < count && StopsAt(draw, index, entries)
      ensures r.Success? ==> |r.value| == count && Distinct(r.value) && forall t <- r.value :: t !in entries
    {
      hide StopsAt, Distinct, FirstUsable, Indexed, AllOf, Refused;
      DrawnFailsExactly(draw, count, entries);
      var tokens: seq<Token>, drawn: nat := [], 0;
      for index := 0 to count
        invariant Drawn(draw, index, entries) == Some(Issued(tokens, drawn))
      {
        var at := DrawOne(draw, drawn, tokens, entries);
        if at.None? {
          StaysNone(draw, index + 1, count, entries);
          return Failure(CatalogUnavailable);
        }
        tokens := tokens + [draw(at.value).token];
        drawn := at.value + 1;
      }
      DrawnAreFresh(draw, count, entries);
      return Success(tokens);
    }

    /** The synchronous commit of a refreshed catalog: expiry, fresh tokens, replacement of the
        workspace's previous catalog, eviction, registration. */
    method Commit(key: Key, selectors: seq<string>, expected: nat, now: int, ttl: nat, draw: nat -> Draw)
      returns (r: Result<seq<Token>, Error>)
      requires Valid()
      modifies this`catalogs, this`entries
      ensures Valid()
      ensures expected != generation ==> r.Failure? && catalogs == old(catalogs) && entries == old(entries)
      ensures r.Failure? <==>
                || expected != generation || |selectors| > GROK_AGENT_CATALOG_LIMIT
                || exists index: nat :: index < |selectors| && StopsAt(draw, index, EntriesOf(old(entries), Live(old(catalogs), now)))
      ensures r.Failure? && expected == generation ==>
                && catalogs == Kept(old(catalogs), Live(old(catalogs), now))
                && entries == EntriesOf(old(entries), Live(old(catalogs), now))
      ensures r.Success? ==>
                var d := Drawn(draw, |selectors|, EntriesOf(old(entries), Live(old(catalogs), now)));
                d.Some? && r.value == d.value.tokens
      ensures r.Success? ==> key in catalogs && catalogs[key] == Cached(generation, r.value, now + ttl, now)
      ensures r.Success? ==> |r.value| == |selectors| && forall i :: 0 <= i < |selectors| ==>
                r.value[i] in entries && entries[r.value[i]] == Entry(key, generation, now + ttl, selectors[i])
      ensures r.Success? ==>
                && LeastRecentlyUsedGone(Kept(old(catalogs), Live(old(catalogs), now)) - {key}, catalogs - {key})
                && EvictedForRoom(Kept(old(catalogs), Live(old(catalogs), now)) - {key},
                                  EntriesOf(old(entries), Live(old(catalogs), now) - {key}), catalogs - {key}, |selectors|)
    {
      hide Indexed, EntriesOf, LeastRecentlyUsedGone, EvictedForRoom, Inserted, Distinct, Live, Kept, AllOf, Drawn,
           StopsAt;
      if expected != generation { return Failure(CatalogUnavailable); }
      PurgeExpired(now);
      var tokens :- IssueTokens(|selectors|, draw);
      var catalog := Cached(generation, tokens, now + ttl, now);
      var staged := StageEntries(key, generation, now + ttl, selectors);
      if |staged| > GROK_AGENT_CATALOG_LIMIT { return Failure(CatalogUnavailable); }
      ghost var es, others := entries, catalogs.Keys - {key};
      LiveAreKept(old(catalogs), now);
      KeptTwice(old(entries), Live(old(catalogs), now), Live(old(catalogs), now) - {key});
      RemoveCatalog(key);
      ghost var between, live := entries, catalogs;
      var _ := MakeCapacity(|selectors|);
      StillFresh(es, others, between, catalogs.Keys, tokens);
      GoneIsFewer(live, catalogs, key);
      ghost var before := catalogs;
      Register(key, catalog, tokens, staged);
      assert catalogs - {key} == before;
      return Success(tokens);
    }

    method Register(key: Key, catalog: Cached, tokens: seq<Token>, staged: seq<Entry>)
      requires Valid() && key !in catalogs && catalog.generation == generation && |entries| + |tokens| <= GROK_AGENT_CATALOG_LIMIT
      requires Staged(tokens, staged, key, catalog) && forall t <- tokens :: t !in entries
      modifies this`catalogs, this`entries
      ensures Valid() && catalogs == old(catalogs)[key := catalog]
      ensures forall i :: 0 <= i < |tokens| ==> tokens[i] in entries && entries[tokens[i]] == staged[i]
    {
      CommitStaysIndexed(catalogs, entries, key, catalog, tokens, staged);
      InsertedFits(entries, tokens, staged);
      hide Indexed, Inserted;
      catalogs := catalogs[key := catalog];
      entries := InsertAll(entries, tokens, staged);
    }
  }

  /** The registration loop of the commit. */
  method InsertAll(entries: Entries, tokens: seq<Token>, staged: seq<Entry>) returns (r: Entries)
    requires |tokens| == |staged|
    ensures r == Inserted(entries, tokens, staged)
  {
    r := entries;
    for i := 0 to |staged|
      invariant r == Inserted(entries, tokens[..i], staged[..i])
    {
      InsertedOneMore(entries, tokens, staged, i);
      r := r[tokens[i] := staged[i]];
    }
    assert tokens[..|staged|] == tokens && staged[..|staged|] == staged;
  }

  function StageEntries(key: Key, generation: nat, expiresAt: int, selectors: seq<string>): (r: seq<Entry>)
    ensures |r| == |selectors|
    ensures forall i :: 0 <= i < |r| ==> r[i] == Entry(key, generation, expiresAt, selectors[i])
  {
    seq(|selectors|, i requires 0 <= i < |selectors| => Entry(key, generation, expiresAt, selectors[i]))
  }

  ghost function Live(catalogs: Catalogs, now: int): set<Key> {
    set key | key in catalogs && catalogs[key].expiresAt > now
  }

  /** The catalogs that remain are untouched and none was used before one that is gone. */
  ghost predicate LeastRecentlyUsedGone(was: Catalogs, now: Catalogs) {
    && now.Keys <= was.Keys && (forall k :: k in now ==> now[k] == was[k])
    && forall gone, kept :: gone in was && gone !in now && kept in now ==> was[gone].lastAccess <= was[kept].lastAccess
  }

  /** The last one to go: without its going the incoming entries would not have fitted. */
  ghost predicate LastGone(was: Catalogs, entries: Entries, now: Catalogs, incoming: nat, last: Key) {
    && last in was && last !in now
    && (forall gone :: gone in was && gone !in now ==> was[gone].lastAccess <= was[last].lastAccess)
    && |EntriesOf(entries, now.Keys + {last})| + incoming > GROK_AGENT_CATALOG_LIMIT
  }

  /** Nothing is gone without need. */
  ghost predicate EvictedForRoom(was: Catalogs, entries: Entries, now: Catalogs, incoming: nat) {
    now == was || exists last :: LastGone(was, entries, now, incoming, last)
  }

  // ---------- Steps of the loops ----------

  lemma {:induction false} StaysNone(draw: nat -> Draw, index: nat, count: nat, entries: Entries)
    requires index <= count && Drawn(draw, index, entries).None?
    ensures Drawn(draw, count, entries).None?
    decreases count
  {
    if index < count {
      StaysNone(draw, index, count - 1, entries);
    }
  }

  lemma NothingToRemove(catalogs: Catalogs, entries: Entries, key: Key)
    requires Indexed(catalogs, entries) && key !in catalogs
    ensures catalogs - {key} == catalogs && EntriesOf(entries, catalogs.Keys - {key}) == entries
  {}

  /** The deletion loop of removeCatalog. */
  method DeleteTokens(catalogs: Catalogs, entries: Entries, key: Key) returns (left: Entries)
    requires Indexed(catalogs, entries) && key in catalogs
    ensures left == EntriesOf(entries, catalogs.Keys - {key})
  {
    var catalog := catalogs[key];
    OwnTokens(catalogs, entries, key);
    hide Indexed;
    left := entries;
    for i := 0 to |catalog.tokens|
      invariant forall t :: t in left <==> t in entries && t !in catalog.tokens[..i]
      invariant forall t :: t in left ==> left[t] == entries[t]
    {
      var token := catalog.tokens[i];
      OneTokenMore(catalog.tokens, i);
      if token in left && left[token].catalogKey == key && left[token].generation == catalog.generation {
        left := left - {token};
      }
    }
    assert catalog.tokens[..|catalog.tokens|] == catalog.tokens;
  }

  lemma OneTokenMore(tokens: seq<Token>, i: nat)
    requires i < |tokens|
    ensures forall t :: t in tokens[..i + 1] <==> t in tokens[..i] || t == tokens[i]
  {
    assert tokens[..i + 1] == tokens[..i] + [tokens[i]];
  }

  lemma OwnTokens(catalogs: Catalogs, entries: Entries, key: Key)
    requires Indexed(catalogs, entries) && key in catalogs
    ensures forall t :: t in catalogs[key].tokens <==> t in entries && entries[t].catalogKey == key
    ensures forall t <- catalogs[key].tokens :: entries[t].generation == catalogs[key].generation
    ensures forall t :: t in entries ==> entries[t].catalogKey in catalogs
  {
    forall t | t in catalogs[key].tokens ensures Belongs(catalogs, entries, key, t) {}
  }

  lemma RemovalStaysIndexed(catalogs: Catalogs, entries: Entries, key: Key)
    requires Indexed(catalogs, entries)
    ensures Indexed(catalogs - {key}, EntriesOf(entries, catalogs.Keys - {key}))
    ensures |EntriesOf(entries, catalogs.Keys - {key})| <= |entries|
  {
    KeepingStaysIndexed(catalogs, entries, catalogs.Keys - {key});
    hide Indexed;
    assert catalogs - {key} == Kept(catalogs, catalogs.Keys - {key});
    FewerEntries(entries, EntriesOf(entries, catalogs.Keys - {key}));
  }

  lemma {:induction false} FewerEntries(more: Entries, fewer: Entries)
    requires forall t :: t in fewer ==> t in more
    ensures |fewer| <= |more|
    decreases |fewer|
  {
    if fewer != map[] {
      var t :| t in fewer;
      FewerEntries(more - {t}, fewer - {t});
      assert (more - {t}).Keys == more.Keys - {t} && (fewer - {t}).Keys == fewer.Keys - {t};
    }
  }

  method LeastRecent(catalogs: Catalogs) returns (oldest: Key)
    requires catalogs != map[]
    ensures oldest in catalogs && forall k :: k in catalogs ==> catalogs[oldest].lastAccess <= catalogs[k].lastAccess
  {
    oldest :| oldest in catalogs;
    var keys := catalogs.Keys - {oldest};
    while keys != {}
      invariant keys <= catalogs.Keys && oldest in catalogs
      invariant forall k :: k in catalogs && k !in keys ==> catalogs[oldest].lastAccess <= catalogs[k].lastAccess
    {
      var key :| key in keys;
      if catalogs[key].lastAccess < catalogs[oldest].lastAccess {
        oldest := key;
      }
      keys := keys - {key};
    }
  }

  lemma NothingGone(catalogs: Catalogs, entries: Entries, incoming: nat)
    requires Indexed(catalogs, entries)
    ensures LeastRecentlyUsedGone(catalogs, catalogs) && EvictedForRoom(catalogs, entries, catalogs, incoming)
    ensures entries == EntriesOf(entries, catalogs.Keys)
  {}

  lemma NoCatalogNoEntry(entries: Entries)
    requires Indexed(map[], entries)
    ensures entries == map[] && |entries| == 0
  {
    forall t ensures t !in entries {}
    assert entries.Keys == {};
  }

  lemma OneMoreGone(was: Catalogs, entries: Entries, now: Catalogs, oldest: Key, incoming: nat)
    requires LeastRecentlyUsedGone(was, now) && oldest in now
    requires forall k :: k in now ==> now[oldest].lastAccess <= now[k].lastAccess
    requires |EntriesOf(entries, now.Keys)| + incoming > GROK_AGENT_CATALOG_LIMIT
    ensures LeastRecentlyUsedGone(was, now - {oldest}) && EvictedForRoom(was, entries, now - {oldest}, incoming)
    ensures (now - {oldest}).Keys == now.Keys - {oldest}
  {
    hide EntriesOf;
    assert (now - {oldest}).Keys + {oldest} == now.Keys;
    assert LastGone(was, entries, now - {oldest}, incoming, oldest);
  }

  lemma LiveAreKept(catalogs: Catalogs, now: int)
    ensures Kept(catalogs, Live(catalogs, now)).Keys == Live(catalogs, now)
  {}

  lemma KeptTwice(entries: Entries, some: set<Key>, fewer: set<Key>)
    requires fewer <= some
    ensures EntriesOf(EntriesOf(entries, some), fewer) == EntriesOf(entries, fewer)
  {}

  lemma StillEntriesOf(entries: Entries, keys: set<Key>, gone: Key)
    ensures EntriesOf(EntriesOf(entries, keys), keys - {gone}) == EntriesOf(entries, keys - {gone})
  {}

  lemma NothingExpiredYet(catalogs: Catalogs, entries: Entries)
    requires Indexed(catalogs, entries)
    ensures forall live: set<Key> :: Kept(catalogs, catalogs.Keys + live) == catalogs
                                     && EntriesOf(entries, catalogs.Keys + live) == entries
  {}

  lemma VisitForExpiry(cs: Catalogs, es: Entries, keys: set<Key>, key: Key, now: int)
    requires Indexed(cs, es) && keys <= cs.Keys && key in keys
    ensures var next := keys - {key} + Live(cs, now);
            var c, e := Kept(cs, keys + Live(cs, now)), EntriesOf(es, keys + Live(cs, now));
            && key in c && c[key] == cs[key]
            && (cs[key].expiresAt > now ==> Kept(cs, next) == c && EntriesOf(es, next) == e)
            && (cs[key].expiresAt <= now ==> Kept(cs, next) == c - {key} && EntriesOf(es, next) == EntriesOf(e, c.Keys - {key}))
  {
    hide Indexed;
    var before, next := keys + Live(cs, now), keys - {key} + Live(cs, now);
    if cs[key].expiresAt > now {
      assert before == next;
    } else {
      assert next == before - {key};
    }
    assert Indexed(cs, es);
  }

  predicate Orphaned(catalogs: Catalogs, token: Token, entry: Entry, now: int) {
    || entry.expiresAt <= now || entry.catalogKey !in catalogs
    || catalogs[entry.catalogKey].generation != entry.generation || token !in catalogs[entry.catalogKey].tokens
  }

  /** The second sweep of purgeExpired. */
  method DropOrphans(catalogs: Catalogs, entries: Entries, now: int) returns (left: Entries)
    ensures left == map t | t in entries && !Orphaned(catalogs, t, entries[t], now) :: entries[t]
  {
    hide Orphaned;
    left := entries;
    var tokens := entries.Keys;
    while tokens != {}
      invariant tokens <= entries.Keys
      invariant forall t :: t in left <==> t in entries && (t in tokens || !Orphaned(catalogs, t, entries[t], now))
      invariant forall t :: t in left ==> left[t] == entries[t]
    {
      var token :| token in tokens;
      if Orphaned(catalogs, token, entries[token], now) {
        left := left - {token};
      }
      tokens := tokens - {token};
    }
  }

  /** It drops nothing that the first sweep left. */
  lemma NoneOrphaned(catalogs: Catalogs, entries: Entries, now: int)
    requires Indexed(catalogs, entries)
    ensures var kept := EntriesOf(entries, Live(catalogs, now));
            (map t | t in kept && !Orphaned(Kept(catalogs, Live(catalogs, now)), t, kept[t], now) :: kept[t]) == kept
  {
    var kept := EntriesOf(entries, Live(catalogs, now));
    forall t | t in kept ensures !Orphaned(Kept(catalogs, Live(catalogs, now)), t, kept[t], now) {
      assert Belongs(catalogs, entries, entries[t].catalogKey, t);
    }
  }

  lemma StillFresh(entries: Entries, some: set<Key>, fewer: Entries, fewest: set<Key>, tokens: seq<Token>)
    requires fewer == EntriesOf(entries, some) && forall t <- tokens :: t !in entries
    ensures forall t <- tokens :: t !in EntriesOf(fewer, fewest)
  {}

  lemma GoneIsFewer(was: Catalogs, now: Catalogs, key: Key)
    requires LeastRecentlyUsedGone(was, now) && key !in was
    ensures key !in now
  {}

  lemma InsertedFits(entries: Entries, tokens: seq<Token>, staged: seq<Entry>)
    requires |tokens| == |staged| && Distinct(tokens)
    ensures var r := Inserted(entries, tokens, staged);
            && (forall i :: 0 <= i < |tokens| ==> tokens[i] in r && r[tokens[i]] == staged[i])
            && |r| <= |entries| + |tokens|
  {
    hide Inserted;
    InsertedSize(entries, tokens, staged);
    forall i | 0 <= i < |tokens|
      ensures var r := Inserted(entries, tokens, staged); tokens[i] in r && r[tokens[i]] == staged[i]
    {
      InsertedAt(entries, tokens, staged, i);
    }
  }

  lemma InsertedOneMore(entries: Entries, tokens: seq<Token>, staged: seq<Entry>, i: nat)
    requires i < |tokens| == |staged|
    ensures Inserted(entries, tokens[..i + 1], staged[..i + 1])
            == Inserted(entries, tokens[..i], staged[..i])[tokens[i] := staged[i]]
  {
    assert tokens[..i + 1][..i] == tokens[..i] && staged[..i + 1][..i] == staged[..i];
  }
}
