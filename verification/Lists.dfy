/** Lists of identifiers and of identified records, as the workspace state keeps them. */
module Lists {
  import opened Results

  type Id = string

  datatype Record<T> = Record(id: Id, body: T)

  // ---------- Lists of identifiers ----------

  predicate Distinct(s: seq<Id>) { forall i, j :: 0 <= i < j < |s| ==> s[i] != s[j] }

  function Without(s: seq<Id>, gone: set<Id>): seq<Id> {
    if s == [] then []
    else if s[|s| - 1] in gone then Without(s[..|s| - 1], gone)
    else Without(s[..|s| - 1], gone) + [s[|s| - 1]]
  }

  function Keep(s: seq<Id>, keep: set<Id>): seq<Id> {
    if s == [] then []
    else if s[|s| - 1] in keep then Keep(s[..|s| - 1], keep) + [s[|s| - 1]]
    else Keep(s[..|s| - 1], keep)
  }

  /** First occurrences only. */
  function Unique(s: seq<Id>): seq<Id> {
    if s == [] then []
    else if s[|s| - 1] in s[..|s| - 1] then Unique(s[..|s| - 1])
    else Unique(s[..|s| - 1]) + [s[|s| - 1]]
  }

  function Take<T>(s: seq<T>, limit: nat): seq<T> { if |s| <= limit then s else s[..limit] }

  function Clamped(index: nat, length: nat): nat { if index < length then index else length }

  function Splice<T>(s: seq<T>, index: nat, x: T): seq<T> {
    s[..Clamped(index, |s|)] + [x] + s[Clamped(index, |s|)..]
  }

  /** `indexOf` for an identifier that is there. */
  function IndexOf(s: seq<Id>, x: Id): (i: nat)
    requires x in s
    ensures i < |s| && s[i] == x
  {
    if s[0] == x then 0 else 1 + IndexOf(s[1..], x)
  }

  lemma LastApart(s: seq<Id>)
    requires s != []
    ensures forall x :: x in s <==> x in s[..|s| - 1] || x == s[|s| - 1]
    ensures Distinct(s) <==> Distinct(s[..|s| - 1]) && s[|s| - 1] !in s[..|s| - 1]
  {
    var front, last := s[..|s| - 1], s[|s| - 1];
    assert s == front + [last];
    if Distinct(front) && last !in front {
      forall i, j | 0 <= i < j < |s| ensures s[i] != s[j] {
        assert s[i] == front[i];
        assert j < |front| ==> s[j] == front[j];
      }
    }
    if Distinct(s) {
      forall i | 0 <= i < |front| ensures front[i] != last {
        assert s[i] != s[|front|];
      }
    }
  }

  lemma DistinctConcat(a: seq<Id>, b: seq<Id>)
    ensures Distinct(a + b) <==> Distinct(a) && Distinct(b) && (forall x <- a :: x !in b)
  {
    var c := a + b;
    forall k | 0 <= k < |a| ensures c[k] == a[k] {}
    forall k | 0 <= k < |b| ensures c[|a| + k] == b[k] {}
    if Distinct(a) && Distinct(b) && forall x <- a :: x !in b {
      forall i, j | 0 <= i < j < |c| ensures c[i] != c[j] {
        if i < |a| && j >= |a| {
          assert c[i] in a && c[j] in b;
        } else if i >= |a| {
          assert c[i] == b[i - |a|] && c[j] == b[j - |a|];
        }
      }
    }
    if Distinct(c) {
      forall i, j | 0 <= i < j < |b| ensures b[i] != b[j] {
        assert c[|a| + i] != c[|a| + j];
      }
      forall i, j | 0 <= i < |a| && 0 <= j < |b| ensures a[i] != b[j] {
        assert c[i] != c[|a| + j];
      }
    }
  }

  lemma {:induction false} WithoutHas(s: seq<Id>, gone: set<Id>)
    ensures forall x :: x in Without(s, gone) <==> x in s && x !in gone
    ensures |Without(s, gone)| <= |s|
    ensures Distinct(s) ==> Distinct(Without(s, gone))
  {
    hide Distinct;
    if s != [] {
      var front, last := s[..|s| - 1], s[|s| - 1];
      WithoutHas(front, gone);
      LastApart(s);
      if last !in gone {
        var r := Without(s, gone);
        assert r[..|r| - 1] == Without(front, gone);
        LastApart(r);
      }
    }
  }

  lemma {:induction false} KeepHas(s: seq<Id>, keep: set<Id>)
    ensures forall x :: x in Keep(s, keep) <==> x in s && x in keep
    ensures |Keep(s, keep)| <= |s|
    ensures Distinct(s) ==> Distinct(Keep(s, keep))
  {
    hide Distinct;
    if s != [] {
      var front, last := s[..|s| - 1], s[|s| - 1];
      KeepHas(front, keep);
      LastApart(s);
      if last in keep {
        var r := Keep(s, keep);
        assert r[..|r| - 1] == Keep(front, keep);
        LastApart(r);
      }
    }
  }

  lemma {:induction false} KeepAll(s: seq<Id>, keep: set<Id>)
    requires forall x <- s :: x in keep
    ensures Keep(s, keep) == s
  {
    if s != [] {
      var front, last := s[..|s| - 1], s[|s| - 1];
      assert last in s;
      KeepAll(front, keep);
      Snoc(s);
    }
  }

  lemma {:induction false} WithoutNone(s: seq<Id>, gone: set<Id>)
    requires forall x <- s :: x !in gone
    ensures Without(s, gone) == s
  {
    if s != [] {
      var front, last := s[..|s| - 1], s[|s| - 1];
      assert last in s;
      WithoutNone(front, gone);
      Snoc(s);
    }
  }

  lemma {:induction false} WithoutConcat(a: seq<Id>, b: seq<Id>, gone: set<Id>)
    ensures Without(a + b, gone) == Without(a, gone) + Without(b, gone)
  {
    if b == [] {
      assert a + b == a;
    } else {
      var front, last := b[..|b| - 1], b[|b| - 1];
      WithoutConcat(a, front, gone);
      assert (a + b)[..|a + b| - 1] == a + front;
    }
  }

  lemma {:induction false} UniqueHas(s: seq<Id>)
    ensures Distinct(Unique(s)) && |Unique(s)| <= |s|
    ensures forall x :: x in Unique(s) <==> x in s
  {
    hide Distinct;
    if s == [] {
      assert Distinct([]) by { DistinctEmpty(); }
    } else {
      var front, last := s[..|s| - 1], s[|s| - 1];
      UniqueHas(front);
      LastApart(s);
      if last !in front {
        var r := Unique(s);
        assert r[..|r| - 1] == Unique(front);
        LastApart(r);
      }
    }
  }

  lemma DistinctEmpty()
    ensures Distinct([])
  {}

  lemma {:induction false} UniqueOfDistinct(s: seq<Id>)
    requires Distinct(s)
    ensures Unique(s) == s
  {
    hide Distinct;
    if s != [] {
      LastApart(s);
      UniqueOfDistinct(s[..|s| - 1]);
      Snoc(s);
    }
  }

  lemma TakeHas(s: seq<Id>, limit: nat)
    requires Distinct(s)
    ensures Distinct(Take(s, limit)) && |Take(s, limit)| <= limit
    ensures forall x <- Take(s, limit) :: x in s
  {}

  /** Removing the one occurrence of an identifier cuts the list at its index. */
  // ---------- Order ----------

  /** `x` is there before `y` is for the first time. */
  ghost predicate Before(s: seq<Id>, x: Id, y: Id) {
    exists i :: 0 <= i < |s| && s[i] == x && y !in s[..i + 1]
  }

  /** What is listed is there, once each, in the order in which the list `s` has it first. */
  ghost predicate InOrderOf(r: seq<Id>, s: seq<Id>) {
    && (forall x <- r :: x in s)
    && forall i, j :: 0 <= i < j < |r| ==> Before(s, r[i], r[j])
  }

  lemma BeforeMore(s: seq<Id>, last: Id, x: Id, y: Id)
    requires Before(s, x, y)
    ensures Before(s + [last], x, y)
  {
    var i :| 0 <= i < |s| && s[i] == x && y !in s[..i + 1];
    assert (s + [last])[..i + 1] == s[..i + 1];
  }

  lemma BeforeLast(s: seq<Id>, x: Id, y: Id)
    requires y !in s
    ensures x in s ==> Before(s + [y], x, y)
    ensures Before(s + [x], x, y) <== x != y
  {
    if x in s {
      var i :| 0 <= i < |s| && s[i] == x;
      assert (s + [y])[..i + 1] == s[..i + 1];
    }
    var more := s + [x];
    assert more[|s|] == x && more[..|s| + 1] == more;
  }

  lemma {:induction false} UniqueBefore(s: seq<Id>, x: Id, y: Id)
    requires Before(Unique(s), x, y)
    ensures Before(s, x, y)
  {
    var front, last := s[..|s| - 1], s[|s| - 1];
    var before := Unique(front);
    UniqueHas(front);
    Snoc(s);
    var i :| 0 <= i < |Unique(s)| && Unique(s)[i] == x && y !in Unique(s)[..i + 1];
    if i < |before| {
      assert before[..i + 1] == Unique(s)[..i + 1];
      UniqueBefore(front, x, y);
      BeforeMore(front, last, x, y);
    } else {
      assert Unique(s)[..i + 1] == Unique(s);
      BeforeLast(front, x, y);
    }
  }

  lemma {:induction false} KeepBefore(s: seq<Id>, keep: set<Id>, x: Id, y: Id)
    requires Before(Keep(s, keep), x, y) && y in keep
    ensures Before(s, x, y)
  {
    var kept := Keep(s, keep);
    var front, last := s[..|s| - 1], s[|s| - 1];
    var before := Keep(front, keep);
    KeepHas(front, keep);
    Snoc(s);
    var i :| 0 <= i < |kept| && kept[i] == x && y !in kept[..i + 1];
    if i < |before| {
      assert before[..i + 1] == kept[..i + 1];
      KeepBefore(front, keep, x, y);
      BeforeMore(front, last, x, y);
    } else {
      assert kept[..i + 1] == kept;
      BeforeLast(front, x, y);
    }
  }

  lemma DistinctInOrder(s: seq<Id>)
    requires Distinct(s)
    ensures InOrderOf(s, s)
  {
    forall i, j | 0 <= i < j < |s| ensures Before(s, s[i], s[j]) {
      assert forall k :: 0 <= k < i + 1 ==> s[..i + 1][k] == s[k];
    }
  }

  lemma UniqueInOrder(s: seq<Id>)
    ensures InOrderOf(Unique(s), s)
  {
    UniqueHas(s);
    DistinctInOrder(Unique(s));
    forall i, j | 0 <= i < j < |Unique(s)| ensures Before(s, Unique(s)[i], Unique(s)[j]) {
      UniqueBefore(s, Unique(s)[i], Unique(s)[j]);
    }
  }

  /** The order of a selection of a list is that of the list. */
  ghost predicate Selects(part: seq<Id>, s: seq<Id>) {
    (forall x <- part :: x in s) && forall x, y :: Before(part, x, y) && y in part ==> Before(s, x, y)
  }

  lemma KeepInOrder(s: seq<Id>, keep: set<Id>)
    ensures Selects(Keep(s, keep), s)
  {
    KeepHas(s, keep);
    forall x, y | Before(Keep(s, keep), x, y) && y in Keep(s, keep) ensures Before(s, x, y) {
      KeepBefore(s, keep, x, y);
    }
  }

  lemma OrderCarries(r: seq<Id>, part: seq<Id>, s: seq<Id>)
    requires InOrderOf(r, part) && Selects(part, s)
    ensures InOrderOf(r, s)
  {
    forall i, j | 0 <= i < j < |r| ensures Before(s, r[i], r[j]) {
      assert r[j] in r && Before(part, r[i], r[j]);
    }
  }

  lemma {:induction false} WithoutOne(s: seq<Id>, x: Id)
    requires Distinct(s) && x in s
    ensures Without(s, {x}) == s[..IndexOf(s, x)] + s[IndexOf(s, x) + 1..]
  {
    var i := IndexOf(s, x);
    var a, b := s[..i], s[i + 1..];
    assert s == a + [x] + b;
    DistinctConcat(a + [x], b);
    DistinctConcat(a, [x]);
    hide Distinct;
    WithoutConcat(a + [x], b, {x});
    WithoutConcat(a, [x], {x});
    WithoutNone(a, {x});
    assert x in a + [x];
    WithoutNone(b, {x});
    assert Without([x], {x}) == [];
  }

  lemma SpliceBack(s: seq<Id>, x: Id)
    requires Distinct(s) && x in s
    ensures Splice(Without(s, {x}), IndexOf(s, x), x) == s
  {
    WithoutOne(s, x);
    var i := IndexOf(s, x);
    assert s == s[..i] + [x] + s[i + 1..];
  }

  lemma SpliceHas<T>(s: seq<T>, index: nat, x: T)
    ensures forall y :: y in Splice(s, index, x) <==> y in s || y == x
    ensures |Splice(s, index, x)| == |s| + 1
  {
    var i := Clamped(index, |s|);
    assert s == s[..i] + s[i..];
  }

  lemma SpliceDistinct(s: seq<Id>, index: nat, x: Id)
    requires Distinct(s) && x !in s
    ensures Distinct(Splice(s, index, x))
  {
    var i := Clamped(index, |s|);
    assert s == s[..i] + s[i..];
    DistinctConcat(s[..i], s[i..]);
    DistinctConcat(s[..i], [x]);
    DistinctConcat(s[..i] + [x], s[i..]);
  }

  lemma Snoc<T>(s: seq<T>)
    requires s != []
    ensures s == s[..|s| - 1] + [s[|s| - 1]]
  {}

  // ---------- Lists of records ----------

  function Ids<T>(s: seq<Record<T>>): seq<Id> {
    if s == [] then [] else Ids(s[..|s| - 1]) + [s[|s| - 1].id]
  }

  /** distinctRecordsById */
  function FirstById<T>(s: seq<Record<T>>): seq<Record<T>> {
    if s == [] then []
    else if s[|s| - 1].id in Ids(s[..|s| - 1]) then FirstById(s[..|s| - 1])
    else FirstById(s[..|s| - 1]) + [s[|s| - 1]]
  }

  function WithoutIds<T>(s: seq<Record<T>>, gone: set<Id>): seq<Record<T>> {
    if s == [] then []
    else if s[|s| - 1].id in gone then WithoutIds(s[..|s| - 1], gone)
    else WithoutIds(s[..|s| - 1], gone) + [s[|s| - 1]]
  }

  /** The first record with an identifier. */
  function Find<T>(s: seq<Record<T>>, id: Id): (r: Option<Record<T>>)
    ensures r.Some? ==> r.value in s && r.value.id == id
  {
    if s == [] then None else if s[0].id == id then Some(s[0]) else Find(s[1..], id)
  }

  /** Replaces the body of every record with an identifier. */
  function Amend<T>(s: seq<Record<T>>, id: Id, body: T): seq<Record<T>> {
    if s == [] then []
    else
      var last := s[|s| - 1];
      Amend(s[..|s| - 1], id, body) + [if last.id == id then Record(id, body) else last]
  }

  /** Assignment to a key of an object: in place when the key is there, at the end otherwise. */
  function Put<T>(s: seq<Record<T>>, id: Id, body: T): seq<Record<T>> {
    if id in Ids(s) then Amend(s, id, body) else s + [Record(id, body)]
  }

  function Lookup<T>(s: seq<Record<T>>, id: Id): Option<T> {
    var r := Find(s, id);
    if r.Some? then Some(r.value.body) else None
  }

  lemma {:induction false} IdsAt<T>(s: seq<Record<T>>)
    ensures |Ids(s)| == |s| && forall i :: 0 <= i < |s| ==> Ids(s)[i] == s[i].id
  {
    if s != [] {
      IdsAt(s[..|s| - 1]);
    }
  }

  lemma IdsHas<T>(s: seq<Record<T>>)
    ensures forall r <- s :: r.id in Ids(s)
    ensures forall id :: id in Ids(s) ==> Held(s, id)
  {
    IdsAt(s);
    forall id | id in Ids(s) ensures Held(s, id) {
      var i :| 0 <= i < |Ids(s)| && Ids(s)[i] == id;
      assert s[i] in s;
    }
  }

  ghost predicate Held<T>(s: seq<Record<T>>, id: Id) { exists r :: r in s && r.id == id }

  /** With distinct identifiers, finding is the same as being there. */
  lemma {:induction false} FindIs<T>(s: seq<Record<T>>, r: Record<T>)
    requires r in s && Distinct(Ids(s))
    ensures Find(s, r.id) == Some(r)
  {
    IdsAt(s);
    if s[0] == r {
    } else {
      var i :| 0 <= i < |s| && s[i] == r;
      assert Ids(s)[0] != Ids(s)[i];
      IdsTail(s);
      DistinctConcat([s[0].id], Ids(s[1..]));
      assert r == s[1..][i - 1];
      FindIs(s[1..], r);
    }
  }

  lemma {:induction false} IdsConcat<T>(a: seq<Record<T>>, b: seq<Record<T>>)
    ensures Ids(a + b) == Ids(a) + Ids(b)
  {
    if b == [] {
      assert a + b == a;
    } else {
      IdsConcat(a, b[..|b| - 1]);
      assert (a + b)[..|a + b| - 1] == a + b[..|b| - 1];
    }
  }

  lemma IdsTail<T>(s: seq<Record<T>>)
    requires s != []
    ensures Ids(s) == [s[0].id] + Ids(s[1..])
  {
    assert s == [s[0]] + s[1..];
    IdsConcat([s[0]], s[1..]);
    assert Ids([s[0]]) == [s[0].id];
  }

  lemma {:induction false} FindNone<T>(s: seq<Record<T>>, id: Id)
    ensures Find(s, id).None? <==> id !in Ids(s)
  {
    if s != [] {
      IdsTail(s);
      FindNone(s[1..], id);
    }
  }

  lemma {:induction false} FirstByIdHas<T>(s: seq<Record<T>>)
    ensures Distinct(Ids(FirstById(s)))
    ensures forall r <- FirstById(s) :: r in s
    ensures forall id :: id in Ids(FirstById(s)) <==> id in Ids(s)
  {
    hide Distinct;
    if s == [] {
      DistinctEmpty();
    } else {
      var front, last := s[..|s| - 1], s[|s| - 1];
      FirstByIdHas(front);
      if last.id !in Ids(front) {
        IdsConcat(FirstById(front), [last]);
        assert Ids([last]) == [last.id];
        var r := Ids(FirstById(s));
        assert r[..|r| - 1] == Ids(FirstById(front));
        LastApart(r);
      }
    }
  }

  lemma {:induction false} FirstByIdOfDistinct<T>(s: seq<Record<T>>)
    requires Distinct(Ids(s))
    ensures FirstById(s) == s
  {
    hide Distinct;
    if s != [] {
      LastApart(Ids(s));
      var front := s[..|s| - 1];
      assert Ids(s)[..|Ids(s)| - 1] == Ids(front);
      FirstByIdOfDistinct(front);
      Snoc(s);
    }
  }

  lemma {:induction false} WithoutIdsHas<T>(s: seq<Record<T>>, gone: set<Id>)
    ensures forall r :: r in WithoutIds(s, gone) <==> r in s && r.id !in gone
    ensures Ids(WithoutIds(s, gone)) == Without(Ids(s), gone)
  {
    if s != [] {
      WithoutIdsHas(s[..|s| - 1], gone);
    }
  }

  lemma InWithoutIds<T>(s: seq<Record<T>>, gone: set<Id>, r: Record<T>)
    ensures r in WithoutIds(s, gone) <==> r in s && r.id !in gone
  {
    WithoutIdsHas(s, gone);
  }

  lemma {:induction false} AmendHas<T>(s: seq<Record<T>>, id: Id, body: T)
    ensures Ids(Amend(s, id, body)) == Ids(s)
    ensures forall r :: r in Amend(s, id, body) <==> (r in s && r.id != id) || (r == Record(id, body) && id in Ids(s))
  {
    if s != [] {
      AmendHas(s[..|s| - 1], id, body);
    }
  }

  lemma {:induction false} FindAmended<T>(s: seq<Record<T>>, id: Id, body: T, key: Id)
    ensures Find(Amend(s, id, body), key)
            == if key == id && id in Ids(s) then Some(Record(id, body)) else Find(s, key)
  {
    if s == [] {
    } else {
      AmendTail(s, id, body);
      IdsTail(s);
      FindAmended(s[1..], id, body, key);
    }
  }

  lemma {:induction false} AmendTail<T>(s: seq<Record<T>>, id: Id, body: T)
    requires s != []
    ensures Amend(s, id, body) == [if s[0].id == id then Record(id, body) else s[0]] + Amend(s[1..], id, body)
  {
    var n := |s| - 1;
    if n > 0 {
      var front, tail := s[..n], s[1..];
      AmendTail(front, id, body);
      assert tail[..n - 1] == front[1..] && tail[n - 1] == s[n] && front[0] == s[0];
      var x := if s[n].id == id then Record(id, body) else s[n];
      assert Amend(tail, id, body) == Amend(front[1..], id, body) + [x];
      assert Amend(s, id, body) == Amend(front, id, body) + [x];
    }
  }

  lemma {:induction false} FindConcat<T>(a: seq<Record<T>>, b: seq<Record<T>>, id: Id)
    ensures Find(a + b, id) == if Find(a, id).Some? then Find(a, id) else Find(b, id)
  {
    if a == [] {
      assert a + b == b;
    } else {
      FindConcat(a[1..], b, id);
      assert (a + b)[1..] == a[1..] + b;
    }
  }

  /** An assignment changes what one key maps to and nothing else. */
  lemma LookupPut<T>(s: seq<Record<T>>, id: Id, body: T, key: Id)
    ensures Lookup(Put(s, id, body), key) == if key == id then Some(body) else Lookup(s, key)
  {
    FindNone(s, id);
    if id in Ids(s) {
      FindAmended(s, id, body, key);
    } else {
      FindConcat(s, [Record(id, body)], key);
    }
  }

  lemma {:induction false} LookupWithout<T>(s: seq<Record<T>>, gone: set<Id>, key: Id)
    ensures Lookup(WithoutIds(s, gone), key) == if key in gone then None else Lookup(s, key)
  {
    if s != [] {
      var front, last := s[..|s| - 1], s[|s| - 1];
      LookupWithout(front, gone, key);
      Snoc(s);
      FindConcat(front, [last], key);
      FindConcat(WithoutIds(front, gone), [last], key);
    }
  }

  lemma PutHas<T>(s: seq<Record<T>>, id: Id, body: T)
    requires Distinct(Ids(s))
    ensures Distinct(Ids(Put(s, id, body)))
    ensures forall r :: r in Put(s, id, body) <==> (r in s && r.id != id) || r == Record(id, body)
  {
    if id in Ids(s) {
      AmendHas(s, id, body);
    } else {
      IdsConcat(s, [Record(id, body)]);
      assert Ids([Record(id, body)]) == [id];
      DistinctConcat(Ids(s), [id]);
      IdsHas(s);
    }
  }
}
