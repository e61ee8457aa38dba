/** Retained terminal output of TerminalHost: the per-session cut at a UTF-8 boundary, the
    byte counter, and the oldest-first trimming to the budget of the whole host. */
module Terminal {
  import opened Results

  type byte = x: int | 0 <= x < 256

  // ---------- Cutting one output ----------

  /** `byte >>> 6 === 0b10` */
  predicate Continues(b: byte) { b / 64 == 2 }

  function SkipContinuation(output: seq<byte>, start: nat): (s: nat)
    requires start <= |output|
    ensures start <= s <= |output|
    ensures s < |output| ==> !Continues(output[s])
    ensures forall i :: start <= i < s ==> Continues(output[i])
    decreases |output| - start
  {
    if start < |output| && Continues(output[start]) then SkipContinuation(output, start + 1) else start
  }

  function Truncate(output: seq<byte>, limit: nat): (r: seq<byte>)
    ensures |r| <= limit && |r| <= |output|
  {
    if |output| <= limit then output
    else output[SkipContinuation(output, |output| - limit)..]
  }

  predicate Suffix(s: seq<byte>, whole: seq<byte>) {
    |s| <= |whole| && s == whole[|whole| - |s|..]
  }

  /** The cut keeps the longest suffix within the limit that starts on a character boundary. */
  lemma TruncateIsLongestAligned(output: seq<byte>, limit: nat, other: seq<byte>)
    requires |output| > limit
    ensures var r := Truncate(output, limit);
            && Suffix(r, output) && |r| <= limit && (r != [] ==> !Continues(r[0]))
            && (Suffix(other, output) && |other| <= limit && (other != [] ==> !Continues(other[0]))
                ==> |other| <= |r|)
  {
    if Suffix(other, output) && other != [] {
      assert other[0] == output[|output| - |other|];
    }
  }

  method TruncateTerminalOutput(output: seq<byte>, byteLimit: nat) returns (r: seq<byte>, truncated: bool)
    ensures r == Truncate(output, byteLimit) && (truncated <==> |output| > byteLimit)
  {
    if |output| <= byteLimit { return output, false; }
    var start := |output| - byteLimit;
    while start < |output| && Continues(output[start])
      invariant start <= |output|
      invariant SkipContinuation(output, start) == SkipContinuation(output, |output| - byteLimit)
    {
      start := start + 1;
    }
    return output[start..], true;
  }

  lemma SuffixOfSuffix(a: seq<byte>, b: seq<byte>, c: seq<byte>)
    requires Suffix(a, b) && Suffix(b, c)
    ensures Suffix(a, c)
  {}

  lemma TruncateIsSuffix(output: seq<byte>, limit: nat)
    ensures Suffix(Truncate(output, limit), output)
  {}

  // ---------- Sums of outputs ----------

  datatype Session = Session(output: seq<byte>, limit: nat, truncated: bool, last: nat)

  type Sessions = map<nat, Session>

  ghost function Sum(m: Sessions, ks: set<nat>): nat
    requires ks <= m.Keys
  {
    if ks == {} then 0 else
    var k :| k in ks;
    |m[k].output| + Sum(m, ks - {k})
  }

  lemma {:induction false} SumRemove(m: Sessions, ks: set<nat>, k: nat)
    requires k in ks && ks <= m.Keys
    ensures Sum(m, ks) == |m[k].output| + Sum(m, ks - {k})
    decreases ks
  {
    var first :| first in ks && Sum(m, ks) == |m[first].output| + Sum(m, ks - {first});
    if first != k {
      SumRemove(m, ks - {first}, k);
      SumRemove(m, ks - {k}, first);
      assert ks - {first} - {k} == ks - {k} - {first};
    }
  }

  lemma {:induction false} SumAgrees(m: Sessions, n: Sessions, ks: set<nat>)
    requires ks <= m.Keys && ks <= n.Keys && forall k <- ks :: m[k].output == n[k].output
    ensures Sum(m, ks) == Sum(n, ks)
    decreases ks
  {
    if ks != {} {
      var k :| k in ks;
      SumRemove(m, ks, k);
      SumRemove(n, ks, k);
      SumAgrees(m, n, ks - {k});
    }
  }

  lemma {:induction false} SumMonotone(m: Sessions, small: set<nat>, big: set<nat>)
    requires small <= big <= m.Keys
    ensures Sum(m, small) <= Sum(m, big)
    decreases big
  {
    assert big == small + (big - small);
    if big - small == {} {
      assert small == big;
    } else {
      var k :| k in big - small;
      SumRemove(m, big, k);
      SumMonotone(m, small, big - {k});
    }
  }

  lemma {:induction false} SumEmpties(m: Sessions, ks: set<nat>)
    requires ks <= m.Keys && forall k <- ks :: m[k].output == []
    ensures Sum(m, ks) == 0
    decreases ks
  {
    if ks != {} {
      var k :| k in ks;
      SumRemove(m, ks, k);
      SumEmpties(m, ks - {k});
    }
  }

  /** Replacing one session's output moves the total by the difference of the lengths. */
  lemma SumUpdate(m: Sessions, k: nat, s: Session)
    requires k in m
    ensures Sum(m[k := s], m.Keys) == Sum(m, m.Keys) - |m[k].output| + |s.output|
  {
    var n := m[k := s];
    assert n.Keys == m.Keys;
    SumRemove(m, m.Keys, k);
    SumRemove(n, m.Keys, k);
    SumAgrees(m, n, m.Keys - {k});
  }

  ghost function Total(m: Sessions): nat { Sum(m, m.Keys) }

  // ---------- The budget of the whole host ----------

  /** Sessions with output last written before `k`. */
  ghost function Older(m: Sessions, k: nat): set<nat>
    requires k in m
  {
    set j | j in m && m[j].output != [] && m[j].last < m[k].last
  }

  /** How far the retained bytes are over the budget once everything older than `k` is gone. */
  ghost function Excess(m: Sessions, budget: nat, k: nat): int
    requires k in m
  {
    Total(m) - Sum(m, Older(m, k)) - budget
  }

  /** What trimming leaves of one session. */
  ghost function Trimmed(m: Sessions, budget: nat, k: nat): Session
    requires k in m
  {
    var excess := Excess(m, budget, k);
    if excess <= 0 || m[k].output == [] then m[k]
    else m[k].(output := Truncate(m[k].output, Cut(|m[k].output|, excess)), truncated := true)
  }

  function Cut(length: nat, excess: int): nat { if length > excess then length - excess else 0 }

  ghost function Budgeted(m: Sessions, budget: nat): Sessions {
    map k | k in m :: Trimmed(m, budget, k)
  }

  /** Only appends give a session output, and each takes a fresh sequence number. */
  ghost predicate DistinctTimes(m: Sessions) {
    forall j, k :: j in m && k in m && j != k && m[j].output != [] && m[k].output != [] ==> m[j].last != m[k].last
  }

  /** A session loses bytes only after every session written less recently has lost all. */
  lemma OldestGoFirst(m: Sessions, budget: nat, older: nat, newer: nat)
    requires older in m && newer in m && m[older].last < m[newer].last
    requires Budgeted(m, budget)[newer].output != m[newer].output
    ensures Budgeted(m, budget)[older].output == []
  {
    if m[older].output != [] {
      assert older in Older(m, newer) && older !in Older(m, older);
      SumRemove(m, Older(m, newer), older);
      SumMonotone(m, Older(m, older), Older(m, newer) - {older});
    }
  }

  predicate Aligned(s: seq<byte>) { s != [] ==> !Continues(s[0]) }

  /** Trimming takes no more than it must: what a trimmed session keeps is a suffix on a character
      boundary, and with any longer such suffix of it, what is older gone and what is newer untouched,
      the budget would still be exceeded. */
  lemma TrimsNoMoreThanNeeded(m: Sessions, budget: nat, k: nat, more: seq<byte>, n: Sessions)
    requires DistinctTimes(m) && k in m && Budgeted(m, budget)[k].output != m[k].output
    requires Suffix(more, m[k].output) && Aligned(more) && |more| > |Budgeted(m, budget)[k].output|
    requires n.Keys == m.Keys && n[k].output == more
    requires forall j :: j in m && j != k ==> n[j].output == if m[j].last < m[k].last then [] else m[j].output
    ensures var left := Budgeted(m, budget)[k].output; Suffix(left, m[k].output) && Aligned(left)
    ensures Total(n) > budget
  {
    var output, excess := m[k].output, Excess(m, budget, k);
    var cut := Cut(|output|, excess);
    TruncateIsLongestAligned(output, cut, more);
    hide Truncate, Suffix;
    OlderGone(m, n, k);
  }

  lemma OlderGone(m: Sessions, n: Sessions, k: nat)
    requires k in m && m[k].output != [] && n.Keys == m.Keys
    requires forall j :: j in m && j != k ==> n[j].output == if m[j].last < m[k].last then [] else m[j].output
    ensures Total(n) == Total(m) - Sum(m, Older(m, k)) - |m[k].output| + |n[k].output|
  {
    var older := Older(m, k);
    var rest := m.Keys - older - {k};
    SumSplit(m, older, m.Keys);
    SumSplit(n, older, n.Keys);
    SumEmpties(n, older);
    assert k in m.Keys - older && m.Keys - older - {k} == rest && n.Keys - older - {k} == rest;
    SumRemove(m, m.Keys - older, k);
    SumRemove(n, n.Keys - older, k);
    hide Sum;
    SumAgrees(m, n, rest);
  }

  lemma WithinBudget(m: Sessions, budget: nat)
    requires Total(m) <= budget
    ensures Budgeted(m, budget) == m
  {
    forall k | k in m ensures Budgeted(m, budget)[k] == m[k] {
      assert Excess(m, budget, k) <= 0;
    }
  }

  /** The sessions visited are those written before every other session with output. */
  ghost predicate OldestPart(m: Sessions, seen: set<nat>) {
    seen <= m.Keys && forall j, k :: j in seen && k in m && k !in seen && m[k].output != [] ==>
                                       m[j].output != [] && m[j].last < m[k].last
  }

  /** Once the bytes fit, the sessions not visited are the ones trimming leaves alone. */
  lemma TrimmingIsDone(was: Sessions, now: Sessions, seen: set<nat>, budget: nat)
    requires OldestPart(was, seen) && now.Keys == was.Keys
    requires forall k :: k in was ==> now[k] == if k in seen then Trimmed(was, budget, k) else was[k]
    requires Total(was) - Sum(was, seen) <= budget
    ensures now == Budgeted(was, budget)
  {
    forall k | k in was && k !in seen && was[k].output != [] ensures Excess(was, budget, k) <= 0 {
      assert seen <= Older(was, k);
      SumMonotone(was, seen, Older(was, k));
    }
  }

  /** When every session with output has been visited, nothing else holds bytes. */
  lemma VisitedAll(m: Sessions, seen: set<nat>)
    requires seen <= m.Keys && forall k :: k in m && k !in seen ==> m[k].output == []
    ensures Total(m) == Sum(m, seen)
  {
    SumEmpties(m, m.Keys - seen);
    SumSplit(m, seen, m.Keys);
  }

  lemma {:induction false} SumSplit(m: Sessions, small: set<nat>, big: set<nat>)
    requires small <= big <= m.Keys
    ensures Sum(m, big) == Sum(m, small) + Sum(m, big - small)
    decreases big
  {
    assert big == small + (big - small);
    if big - small == {} {
      assert small == big;
    } else {
      var k :| k in big - small;
      SumRemove(m, big, k);
      SumRemove(m, big - small, k);
      SumSplit(m, small, big - {k});
      assert big - {k} - small == big - small - {k};
    }
  }

  lemma {:induction false} LeastRecent(m: Sessions, ks: set<nat>) returns (k: nat)
    requires ks != {} && ks <= m.Keys
    ensures k in ks && forall j <- ks :: m[k].last <= m[j].last
    decreases ks
  {
    var first :| first in ks;
    k := first;
    if ks != {first} {
      var next := LeastRecent(m, ks - {first});
      if m[next].last < m[first].last {
        k := next;
      }
    }
  }

  /** Filter and sort: the sessions with output, least recently written first. */
  method OldestFirst(m: Sessions) returns (order: seq<nat>)
    requires DistinctTimes(m)
    ensures forall k :: k in order <==> k in m && m[k].output != []
    ensures forall i, j :: 0 <= i < j < |order| ==> m[order[i]].last < m[order[j]].last
  {
    order := [];
    var pending := set k | k in m && m[k].output != [];
    while pending != {}
      invariant pending <= m.Keys
      invariant forall k :: k in order || k in pending <==> k in m && m[k].output != []
      invariant forall k :: k in order ==> k !in pending
      invariant forall i, j :: 0 <= i < j < |order| ==> m[order[i]].last < m[order[j]].last
      invariant forall j, k :: j in order && k in pending ==> m[j].last < m[k].last
    {
      ghost var least := LeastRecent(m, pending);
      var k :| k in pending && forall j <- pending :: m[k].last <= m[j].last;
      order := order + [k];
      pending := pending - {k};
    }
  }

  // ---------- What every operation keeps ----------

  type Received = map<nat, seq<byte>>

  /** Each output is a suffix of everything its session received, within its own limit; a session is
      marked as truncated exactly when it has lost bytes. */
  ghost predicate Consistent(m: Sessions, sequence: nat, received: Received) {
    && DistinctTimes(m)
    && received.Keys == m.Keys
    && forall k :: k in m ==> Sound(m[k], sequence, received[k])
  }

  ghost predicate Sound(s: Session, sequence: nat, received: seq<byte>) {
    && Suffix(s.output, received) && |s.output| <= s.limit && s.last <= sequence
    && (s.truncated <==> |s.output| < |received|)
  }

  /** What one chunk does before the budget is looked at. */
  function Appended(s: Session, chunk: seq<byte>, time: nat): Session {
    Session(Truncate(s.output + chunk, s.limit), s.limit, s.truncated || |s.output + chunk| > s.limit, time)
  }

  lemma AppendIsSound(s: Session, chunk: seq<byte>, sequence: nat, all: seq<byte>)
    requires Sound(s, sequence, all)
    ensures Sound(Appended(s, chunk, sequence + 1), sequence + 1, all + chunk)
  {
    var whole := s.output + chunk;
    TruncateIsSuffix(whole, s.limit);
    assert whole == (all + chunk)[|all| - |s.output|..];
    SuffixOfSuffix(Truncate(whole, s.limit), whole, all + chunk);
  }

  function AfterChunk(m: Sessions, id: nat, chunk: seq<byte>, sequence: nat): Sessions {
    if id in m then m[id := Appended(m[id], chunk, sequence + 1)] else m
  }

  ghost function ReceivedMore(received: Received, id: nat, chunk: seq<byte>): Received {
    if id in received then received[id := received[id] + chunk] else received
  }

  lemma StaysSound(s: Session, sequence: nat, all: seq<byte>, next: nat)
    requires Sound(s, sequence, all) && sequence <= next
    ensures Sound(s, next, all) && s.last <= sequence
  {}

  /** Written now, or without output. */
  lemma TimesStayDistinct(m: Sessions, id: nat, s: Session, sequence: nat)
    requires DistinctTimes(m) && (forall k :: k in m ==> m[k].last <= sequence) && (s.output == [] || s.last > sequence)
    ensures DistinctTimes(m[id := s])
  {}

  /** One session's replacement by a sound one. */
  lemma OneReplaced(m: Sessions, sequence: nat, received: Received, id: nat, s: Session, all: seq<byte>, next: nat)
    requires Consistent(m, sequence, received) && next >= sequence && Sound(s, next, all)
    requires s.output == [] || s.last > sequence
    ensures Consistent(m[id := s], next, received[id := all])
  {
    hide Sound, DistinctTimes;
    forall k | k in m ensures m[k].last <= sequence && Sound(m[k], next, received[k]) {
      StaysSound(m[k], sequence, received[k], next);
    }
    TimesStayDistinct(m, id, s, sequence);
    var n, more := m[id := s], received[id := all];
    assert n.Keys == m.Keys + {id} && more.Keys == received.Keys + {id};
  }

  lemma AppendKeeps(m: Sessions, sequence: nat, received: Received, id: nat, chunk: seq<byte>)
    requires Consistent(m, sequence, received) && id in m
    ensures var next := AfterChunk(m, id, chunk, sequence);
            && Consistent(next, sequence + 1, ReceivedMore(received, id, chunk))
            && Total(next) == Total(m) - |m[id].output| + |next[id].output|
  {
    var s := Appended(m[id], chunk, sequence + 1);
    AppendIsSound(m[id], chunk, sequence, received[id]);
    SumUpdate(m, id, s);
    assert m[id := s].Keys == m.Keys;
    hide Sound;
    OneReplaced(m, sequence, received, id, s, received[id] + chunk, sequence + 1);
    hide Consistent, Sum, Truncate;
  }

  lemma EmptyIsSound(limit: nat, sequence: nat)
    ensures Sound(Session([], limit, false, 0), sequence, [])
  {}

  lemma RegisterKeeps(m: Sessions, sequence: nat, received: Received, id: nat, limit: nat)
    requires Consistent(m, sequence, received) && id !in m
    ensures var m' := m[id := Session([], limit, false, 0)];
            Consistent(m', sequence, received[id := []]) && Total(m') == Total(m)
  {
    var s := Session([], limit, false, 0);
    EmptyIsSound(limit, sequence);
    OneReplaced(m, sequence, received, id, s, [], sequence);
    hide Consistent, Sound;
    SumOfNew(m, id, s);
  }

  lemma SumOfNew(m: Sessions, id: nat, s: Session)
    requires id !in m && s.output == []
    ensures Total(m[id := s]) == Total(m)
  {
    var n := m[id := s];
    SumRemove(n, n.Keys, id);
    assert n.Keys - {id} == m.Keys;
    SumAgrees(m, n, m.Keys);
  }

  lemma DiscardKeeps(m: Sessions, sequence: nat, received: Received, id: nat)
    requires Consistent(m, sequence, received) && id in m
    ensures Consistent(m - {id}, sequence, received - {id})
    ensures Total(m - {id}) == Total(m) - |m[id].output|
  {
    hide Sound;
    var m', received' := m - {id}, received - {id};
    assert m'.Keys == m.Keys - {id} && received'.Keys == received.Keys - {id};
    assert forall k :: k in m' ==> k in m && m'[k] == m[k] && received'[k] == received[k];
    assert DistinctTimes(m');
    hide DistinctTimes;
    assert Consistent(m', sequence, received');
    hide Consistent;
    SumRemove(m, m.Keys, id);
    SumAgrees(m, m', m'.Keys);
  }

  lemma TrimmingKeeps(m: Sessions, sequence: nat, received: Received, budget: nat)
    requires Consistent(m, sequence, received)
    ensures Consistent(Budgeted(m, budget), sequence, received)
  {
    var n := Budgeted(m, budget);
    forall k | k in m
      ensures Sound(n[k], sequence, received[k]) && n[k].last == m[k].last
      ensures m[k].output == [] ==> n[k].output == []
    {
      var cut := Cut(|m[k].output|, Excess(m, budget, k));
      TruncateIsSuffix(m[k].output, cut);
      SuffixOfSuffix(Truncate(m[k].output, cut), m[k].output, received[k]);
    }
  }

  lemma SeenIsOlder(m: Sessions, seen: set<nat>, id: nat)
    requires id in m && id !in seen && m[id].output != [] && OldestPart(m, seen) && OldestPart(m, seen + {id})
    ensures Older(m, id) == seen
  {
    forall k ensures k in Older(m, id) <==> k in seen {
      if k in m && k !in seen + {id} && m[k].output != [] {
        assert m[id].last < m[k].last;
      }
    }
  }

  /** One turn of the trimming loop, at the oldest session not yet visited. */
  lemma VisitOldest(was: Sessions, now: Sessions, seen: set<nat>, budget: nat, id: nat)
    requires PartlyTrimmed(was, now, seen, budget) && Total(now) > budget
    requires id in was && id !in seen && was[id].output != [] && OldestPart(was, seen + {id})
    ensures var s := now[id].(output := Truncate(now[id].output, Cut(|now[id].output|, Total(now) - budget)),
                              truncated := true);
            && PartlyTrimmed(was, now[id := s], seen + {id}, budget)
            && Total(now[id := s]) == Total(now) - |now[id].output| + |s.output|
  {
    SeenIsOlder(was, seen, id);
    var excess := Total(now) - budget;
    assert Excess(was, budget, id) == excess;
    hide Sum, Truncate, OldestPart, Older, Excess;
    var s := now[id].(output := Truncate(now[id].output, Cut(|now[id].output|, excess)), truncated := true);
    assert s == Trimmed(was, budget, id);
    SumUpdate(now, id, s);
    var next := now[id := s];
    assert next.Keys == now.Keys;
    SumRemove(was, seen + {id}, id);
    assert seen + {id} - {id} == seen;
    assert forall k :: k in was ==> next[k] == if k in seen + {id} then Trimmed(was, budget, k) else was[k];
  }

  /** The sessions visited are trimmed, the others untouched, and while the budget is still
      exceeded the visited ones are empty. */
  ghost predicate PartlyTrimmed(was: Sessions, now: Sessions, seen: set<nat>, budget: nat) {
    && OldestPart(was, seen) && now.Keys == was.Keys
    && (forall k :: k in was ==> now[k] == if k in seen then Trimmed(was, budget, k) else was[k])
    && Total(was) - Sum(was, seen) <= Total(now)
    && (Total(now) > budget ==> Total(now) == Total(was) - Sum(was, seen))
  }

  /** The loop of enforceRetainedOutputBudget over the sorted sessions and the byte counter. */
  method TrimOldestFirst(sessions: Sessions, retainedBytes: int, budget: nat) returns (now: Sessions, bytes: int)
    requires DistinctTimes(sessions) && retainedBytes == Total(sessions)
    ensures now == Budgeted(sessions, budget)
    ensures bytes == Total(now) <= budget
  {
    hide Total, Truncate, Trimmed, Sum, OldestPart, PartlyTrimmed, Budgeted, Cut;
    now, bytes := sessions, retainedBytes;
    if bytes <= budget {
      WithinBudget(sessions, budget);
      return;
    }
    var oldestFirst := OldestFirst(sessions);
    ghost var seen: set<nat> := {};
    NothingVisited(sessions, budget);
    var i := 0;
    while i < |oldestFirst| && bytes > budget
      invariant 0 <= i <= |oldestFirst| && (forall k :: k in seen <==> k in oldestFirst[..i])
      invariant PartlyTrimmed(sessions, now, seen, budget) && bytes == Total(now) && now.Keys == sessions.Keys
    {
      var id := oldestFirst[i];
      NextIsOldest(sessions, oldestFirst, i, seen);
      assert id in oldestFirst && id in now;
      VisitOldest(sessions, now, seen, budget, id);
      var session := now[id];
      var output, _ := TruncateTerminalOutput(session.output, Cut(|session.output|, bytes - budget));
      bytes := bytes - (|session.output| - |output|);
      now := now[id := session.(output := output, truncated := true)];
      seen := seen + {id};
      i := i + 1;
    }
    TrimmedAll(sessions, now, seen, oldestFirst, i, budget);
  }

  lemma TrimmedAll(was: Sessions, now: Sessions, seen: set<nat>, order: seq<nat>, i: nat, budget: nat)
    requires i <= |order| && (forall k :: k in seen <==> k in order[..i])
    requires forall k :: k in order <==> k in was && was[k].output != []
    requires PartlyTrimmed(was, now, seen, budget) && (i == |order| || Total(now) <= budget)
    ensures now == Budgeted(was, budget) && Total(now) <= budget
  {
    if i == |order| {
      assert order[..i] == order;
      VisitedAll(was, seen);
    }
    TrimmingIsDone(was, now, seen, budget);
  }

  method AppendChunk(session: Session, chunk: seq<byte>, time: nat) returns (next: Session)
    ensures next == Appended(session, chunk, time)
  {
    var output, truncated := TruncateTerminalOutput(session.output + chunk, session.limit);
    return Session(output, session.limit, session.truncated || truncated, time);
  }

  class TerminalHost {
    const maxTerminals: nat
    const maxRetainedOutputBytes: nat
    var terminals: set<nat>
    var retained: Sessions
    var retainedOutputBytes: int
    var outputSequence: nat
    /** Every byte each retained session has received. */
    ghost var received: Received

    ghost predicate Valid()
      reads this
    {
      && retainedOutputBytes == Total(retained) <= maxRetainedOutputBytes
      && Consistent(retained, outputSequence, received)
      && |terminals| <= maxTerminals
    }

    constructor (maxTerminals: nat, budget: nat)
      ensures Valid() && retained == map[] && terminals == {}
      ensures this.maxTerminals == maxTerminals && maxRetainedOutputBytes == budget
    {
      this.maxTerminals, maxRetainedOutputBytes := maxTerminals, budget;
      terminals, retained, retainedOutputBytes, outputSequence, received := {}, map[], 0, 0, map[];
    }

    /** The synchronous part of create: the capacity check and the registration. */
    method Create(id: nat, outputByteLimit: nat) returns (r: Result<(), string>)
      requires Valid() && id !in retained && id !in terminals
      modifies this
      ensures Valid()
      ensures r.Success? <==> |old(terminals)| < maxTerminals
      ensures r.Success? ==> terminals == old(terminals) + {id} && received == old(received)[id := []]
                             && retained == old(retained)[id := Session([], outputByteLimit, false, 0)]
      ensures r.Failure? ==> terminals == old(terminals) && retained == old(retained) && received == old(received)
    {
      hide Consistent, Total;
      if |terminals| >= maxTerminals { return Failure("Too many active terminals"); }
      RegisterKeeps(retained, outputSequence, received, id, outputByteLimit);
      terminals := terminals + {id};
      retained := retained[id := Session([], outputByteLimit, false, 0)];
      received := received[id := []];
      return Success(());
    }

    /** The synchronous part of release: the id is free again before its output is discarded. */
    method Release(id: nat) returns (known: bool)
      requires Valid()
      modifies this`terminals
      ensures Valid() && (known <==> id in old(terminals)) && terminals == old(terminals) - {id}
    {
      known := id in terminals;
      terminals := terminals - {id};
    }

    /** The listener on both pipes of a session's child process. */
    method Append(id: nat, chunk: seq<byte>)
      requires Valid() && id in retained
      modifies this
      ensures Valid()
      ensures received == ReceivedMore(old(received), id, chunk)
      ensures terminals == old(terminals) && outputSequence == old(outputSequence) + 1
      ensures retained == Budgeted(AfterChunk(old(retained), id, chunk, old(outputSequence)), maxRetainedOutputBytes)
    {
      hide Sum, Truncate, Suffix, Sound, DistinctTimes;
      AppendKeeps(retained, outputSequence, received, id, chunk);
      hide Consistent, Total, Budgeted, Appended, ReceivedMore;
      var next := AppendChunk(retained[id], chunk, outputSequence + 1);
      retainedOutputBytes := retainedOutputBytes + (|next.output| - |retained[id].output|);
      outputSequence := outputSequence + 1;
      retained := retained[id := next];
      received := ReceivedMore(received, id, chunk);
      EnforceRetainedOutputBudget();
    }

    method EnforceRetainedOutputBudget()
      requires Consistent(retained, outputSequence, received) && retainedOutputBytes == Total(retained)
      modifies this`retained, this`retainedOutputBytes
      ensures retainedOutputBytes == Total(retained) <= maxRetainedOutputBytes
      ensures Consistent(retained, outputSequence, received)
      ensures retained == Budgeted(old(retained), maxRetainedOutputBytes)
    {
      assert DistinctTimes(retained);
      TrimmingKeeps(retained, outputSequence, received, maxRetainedOutputBytes);
      hide Consistent, Total, Budgeted, DistinctTimes;
      retained, retainedOutputBytes := TrimOldestFirst(retained, retainedOutputBytes, maxRetainedOutputBytes);
    }

    /** Done once when a terminal is released, again when the host stops. */
    method DiscardSessionOutput(id: nat)
      requires Valid()
      modifies this
      ensures Valid() && terminals == old(terminals) && outputSequence == old(outputSequence)
      ensures retained == old(retained) - {id} && received == old(received) - {id}
    {
      hide Sound, DistinctTimes, Sum;
      if id in retained {
        DiscardKeeps(retained, outputSequence, received, id);
        hide Consistent, Total;
        retainedOutputBytes := if retainedOutputBytes >= |retained[id].output|
                               then retainedOutputBytes - |retained[id].output| else 0;
      } else {
        assert retained - {id} == retained && received - {id} == received;
      }
      retained := retained - {id};
      received := received - {id};
    }
  }

  lemma NothingVisited(m: Sessions, budget: nat)
    ensures PartlyTrimmed(m, m, {}, budget)
  {}

  lemma NextIsOldest(m: Sessions, order: seq<nat>, i: nat, seen: set<nat>)
    requires i < |order| && (forall k :: k in seen <==> k in order[..i])
    requires forall k :: k in order <==> k in m && m[k].output != []
    requires forall i, j :: 0 <= i < j < |order| ==> m[order[i]].last < m[order[j]].last
    ensures order[i] !in seen && OldestPart(m, seen + {order[i]})
    ensures forall k :: k in seen + {order[i]} <==> k in order[..i + 1]
  {
    assert order[..i + 1] == order[..i] + [order[i]];
    forall j, k | j in seen + {order[i]} && k in m && k !in seen + {order[i]} && m[k].output != []
      ensures m[j].output != [] && m[j].last < m[k].last
    {
      assert j in order[..i + 1] && j in order && k in order;
    }
  }
}
