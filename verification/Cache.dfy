/** The caching reader: an LRU with unbounded staleness on error, and a singleflight table
    that keeps at most one detached query per key and a bounded number in all.

    Every lock-held section is one method of `CachingReader` and one step on `Cache`;
    between them anything may interleave. The cycles and the hops paths are the same code
    over different keys and results, so both are instances of this class. */
module Cache {
  import opened Wrappers

  // maxInflightLeaders
  const MAX_LEADERS: nat := 32

  // Truncated and Panicked are the errors isRefusal names.
  datatype Err = Truncated | Panicked | Failed

  predicate IsRefusal(e: Err) { e.Truncated? || e.Panicked? }

  /** What an inner query returned, or what a waiter is handed. */
  datatype Outcome<V> = Value(value: V) | Error(err: Err)

  datatype Entry<V> = Entry(value: V, expires: int)

  /** A query in flight is a call that has no answer yet. */
  datatype Cache<K, V> = Cache(
    max: nat, items: map<K, Entry<V>>, order: seq<K>, inflight: map<K, nat>,
    // every call ever led, numbered in order: its key, and its answer once it has one
    keys: seq<K>, answers: map<nat, Outcome<V>>)

  datatype Admission<V> = Hit(value: V) | Refused | Joined(call: nat) | Led(call: nat)

  // ---------------------------------------------------------------- recency lists

  function Without<K(==,!new)>(s: seq<K>, k: K): (r: seq<K>)
    ensures |r| <= |s|
    ensures forall x :: x in r <==> x in s && x != k
  {
    if s == [] then [] else if s[0] == k then Without(s[1..], k) else [s[0]] + Without(s[1..], k)
  }

  function Touch<K(==,!new)>(order: seq<K>, k: K): seq<K> {
    [k] + Without(order, k)
  }

  function Take<K>(s: seq<K>, n: nat): seq<K> {
    if |s| <= n then s else s[..n]
  }

  ghost predicate Distinct<K>(s: seq<K>) {
    forall i, j :: 0 <= i < j < |s| ==> s[i] != s[j]
  }

  lemma ConsDistinct<K(!new)>(x: K, s: seq<K>)
    requires Distinct(s) && x !in s
    ensures Distinct([x] + s)
  {
  }

  lemma {:induction false} WithoutDistinct<K(!new)>(s: seq<K>, k: K)
    requires Distinct(s)
    ensures Distinct(Without(s, k)) && Distinct(Touch(s, k))
    ensures k in s ==> |Without(s, k)| == |s| - 1
    ensures k !in s ==> Without(s, k) == s
  {
    if s != [] {
      WithoutDistinct(s[1..], k);
      assert s[0] !in s[1..];
      if s[0] != k {
        ConsDistinct(s[0], Without(s[1..], k));
        assert [s[0]] + s[1..] == s;
      }
    }
    ConsDistinct(k, Without(s, k));
  }

  lemma WithoutHead<K(!new)>(s: seq<K>, k: K)
    requires Distinct(s) && s != [] && s[0] == k
    ensures Without(s, k) == s[1..]
  {
    assert k !in s[1..];
    WithoutDistinct(s[1..], k);
  }

  /** Dropping what is past n and then taking k out, against the other way round. */
  lemma {:induction false} WithoutTake<K(!new)>(s: seq<K>, n: nat, k: K)
    requires Distinct(s)
    ensures k in Take(s, n) ==> Without(Take(s, n), k) == Take(Without(s, k), n - 1)
    ensures k !in Take(s, n) ==> Take(Without(s, k), n) == Take(s, n)
    decreases |s|
  {
    WithoutDistinct(s, k);
    if |s| > n {
      if n == 0 {
      } else if s[0] == k {
        WithoutHead(s, k);
        assert s[..n][1..] == s[1..][..n - 1];
        WithoutHead(s[..n], k);
      } else {
        WithoutTake(s[1..], n - 1, k);
        assert s[..n] == [s[0]] + s[1..][..n - 1];
        assert s[..n][1..] == s[1..][..n - 1];
      }
    }
  }

  // ---------------------------------------------------------------- the steps

  function Fresh<K, V>(c: Cache<K, V>, k: K, now: int): bool {
    k in c.items && now <= c.items[k].expires
  }

  /** lookup: a hit moves to the front; an expired entry stays where it is. */
  function AfterLookup<K(==,!new), V>(c: Cache<K, V>, k: K, now: int): Cache<K, V> {
    if Fresh(c, k, now) then c.(order := Touch(c.order, k)) else c
  }

  /** The section that re-checks the cache and joins, leads or is refused. */
  function Admit<K, V>(c: Cache<K, V>, k: K, now: int): Admission<V> {
    if Fresh(c, k, now) then Hit(c.items[k].value)
    else if k in c.inflight then Joined(c.inflight[k])
    else if |c.inflight| >= MAX_LEADERS then Refused
    else Led(|c.keys|)
  }

  function AfterEnter<K(==,!new), V>(c: Cache<K, V>, k: K, now: int): Cache<K, V> {
    match Admit(c, k, now)
    case Hit(_) => c.(order := Touch(c.order, k))
    case Led(call) => c.(inflight := c.inflight[k := call], keys := c.keys + [k])
    case _ => c
  }

  /** storeLocked: the key to the front, and the least recently used past max forgotten. */
  function Stored<K(==,!new), V>(c: Cache<K, V>, k: K, e: Entry<V>): Cache<K, V> {
    var order := Take(Touch(c.order, k), c.max);
    if k in c.items then c.(items := c.items[k := e], order := Touch(c.order, k))
    else c.(items := map x | x in c.items[k := e] && x in order :: c.items[k := e][x], order := order)
  }

  /** What waiters on the call get: its own result, or the stale entry in place of an
      outage. */
  function Answer<K, V>(c: Cache<K, V>, hasRows: V -> bool, k: K, got: Outcome<V>): Outcome<V> {
    if got.Error? && !IsRefusal(got.err) && k in c.items && hasRows(c.items[k].value) then Value(c.items[k].value)
    else got
  }

  /** The leader's one section: store, and free the slot. */
  function AfterFinish<K(==,!new), V>(c: Cache<K, V>, hasRows: V -> bool, k: K, got: Outcome<V>, ttl: int, now: int): Cache<K, V>
    requires k in c.inflight
  {
    var call := c.inflight[k];
    var answered := c.(answers := c.answers[call := Answer(c, hasRows, k, got)], inflight := c.inflight - {k});
    if got.Value? then Stored(answered, k, Entry(got.value, now + ttl)) else answered
  }

  // ---------------------------------------------------------------- the invariant

  ghost predicate Listed<K(!new), V>(c: Cache<K, V>) {
    && Distinct(c.order) && |c.order| <= c.max && c.max > 0
    && forall k :: k in c.order <==> k in c.items
  }

  /** The call holds the key's slot. */
  predicate Holds<K(==)>(inflight: map<K, nat>, k: K, call: nat) { k in inflight && inflight[k] == call }

  /** A call is without an answer exactly while it holds its key's one slot. */
  ghost predicate OpenWhileHeld<K(!new), V>(inflight: map<K, nat>, keys: seq<K>, answers: map<nat, Outcome<V>>) {
    forall call: nat :: call < |keys| ==> (call !in answers <==> Holds(inflight, keys[call], call))
  }

  /** A slot is held by a call for its key. */
  ghost predicate HeldForKey<K(!new)>(inflight: map<K, nat>, keys: seq<K>) {
    forall k :: k in inflight ==> inflight[k] < |keys| && keys[inflight[k]] == k
  }

  ghost predicate AnsweredCalls<V>(answers: map<nat, Outcome<V>>, n: nat) { forall call :: call in answers ==> call < n }

  /** One slot a key, and never more slots than the ceiling. */
  ghost predicate Single<K(!new), V>(c: Cache<K, V>) {
    && |c.inflight| <= MAX_LEADERS
    && OpenWhileHeld(c.inflight, c.keys, c.answers)
    && HeldForKey(c.inflight, c.keys)
    && AnsweredCalls(c.answers, |c.keys|)
  }

  /** So no two queries for one key are outstanding together. */
  lemma OneQueryPerKey<K(!new), V>(c: Cache<K, V>, i: nat, j: nat)
    requires Single(c) && i < |c.keys| && j < |c.keys| && i !in c.answers && j !in c.answers
    requires c.keys[i] == c.keys[j]
    ensures i == j
  {
  }

  /** And no more than the ceiling are outstanding in all. */
  lemma FewQueries<K(!new), V>(c: Cache<K, V>, calls: set<nat>)
    requires Single(c) && forall call :: call in calls ==> call < |c.keys| && call !in c.answers
    ensures |calls| <= MAX_LEADERS
  {
    ImageIsSmaller(c.inflight, calls);
  }

  lemma {:induction false} ImageIsSmaller<K(!new)>(m: map<K, nat>, values: set<nat>)
    requires forall v :: v in values ==> v in m.Values
    ensures |values| <= |m|
    decreases |values|
  {
    if values != {} {
      var v :| v in values;
      var k :| k in m && m[k] == v;
      assert m.Keys == (m - {k}).Keys + {k};
      forall w | w in values - {v} ensures w in (m - {k}).Values {
        var j :| j in m && m[j] == w;
        assert j in m - {k} && (m - {k})[j] == w;
      }
      ImageIsSmaller(m - {k}, values - {v});
    }
  }

  lemma TouchListed<K(!new), V>(c: Cache<K, V>, k: K)
    requires Listed(c) && k in c.items
    ensures Listed(c.(order := Touch(c.order, k)))
  {
    WithoutDistinct(c.order, k);
  }

  lemma StoredListed<K(!new), V>(c: Cache<K, V>, k: K, e: Entry<V>)
    requires Listed(c)
    ensures Listed(Stored(c, k, e)) && k in Stored(c, k, e).items && Stored(c, k, e).items[k] == e
    ensures forall x :: x in Stored(c, k, e).items && x != k ==> x in c.items && Stored(c, k, e).items[x] == c.items[x]
  {
    WithoutDistinct(c.order, k);
    var r := Stored(c, k, e);
    if k !in c.items {
      var touched := Touch(c.order, k);
      assert r.order[0] == k;
      assert forall x :: x in r.order ==> x in touched;
    }
  }

  lemma LeadOpens<K(!new), V>(inflight: map<K, nat>, keys: seq<K>, answers: map<nat, Outcome<V>>, k: K)
    requires OpenWhileHeld(inflight, keys, answers) && AnsweredCalls(answers, |keys|) && k !in inflight
    ensures OpenWhileHeld(inflight[k := |keys|], keys + [k], answers)
  {
    forall call: nat | call < |keys| + 1 ensures call !in answers <==> Holds(inflight[k := |keys|], (keys + [k])[call], call) {
      if call < |keys| {
        assert call !in answers <==> Holds(inflight, keys[call], call);
      }
    }
  }

  lemma LeadHolds<K(!new)>(inflight: map<K, nat>, keys: seq<K>, k: K)
    requires HeldForKey(inflight, keys)
    ensures HeldForKey(inflight[k := |keys|], keys + [k])
  {
  }

  lemma OneMoreKey<K(!new)>(m: map<K, nat>, k: K, v: nat)
    requires k !in m
    ensures |m[k := v]| == |m| + 1
  {
    assert m[k := v].Keys == m.Keys + {k};
  }

  lemma LeadSingle<K(!new), V>(c: Cache<K, V>, k: K)
    requires Single(c) && k !in c.inflight && |c.inflight| < MAX_LEADERS
    ensures Single(c.(inflight := c.inflight[k := |c.keys|], keys := c.keys + [k]))
  {
    LeadOpens(c.inflight, c.keys, c.answers, k);
    LeadHolds(c.inflight, c.keys, k);
    OneMoreKey(c.inflight, k, |c.keys|);
  }

  lemma EnterSingle<K(!new), V>(c: Cache<K, V>, k: K, now: int)
    requires Single(c)
    ensures Single(AfterEnter(c, k, now))
  {
    if Admit(c, k, now).Led? {
      LeadSingle(c, k);
    }
  }

  lemma AnswerSingle<K(!new), V>(c: Cache<K, V>, k: K, answer: Outcome<V>)
    requires Single(c) && k in c.inflight
    ensures Single(c.(answers := c.answers[c.inflight[k] := answer], inflight := c.inflight - {k}))
  {
    assert c.inflight.Keys == (c.inflight - {k}).Keys + {k};
  }

  // ---------------------------------------------------------------- whole runs

  /** The lock-held sections, in the order the lock is taken. */
  datatype Action<K, V> = Lookup(k: K, now: int) | Enter(k: K, now: int) | Finish(k: K, got: Outcome<V>, ttl: int, now: int)

  function Step<K(==,!new), V>(c: Cache<K, V>, hasRows: V -> bool, a: Action<K, V>): Cache<K, V> {
    match a
    case Lookup(k, now) => AfterLookup(c, k, now)
    case Enter(k, now) => AfterEnter(c, k, now)
    case Finish(k, got, ttl, now) => if k in c.inflight then AfterFinish(c, hasRows, k, got, ttl, now) else c
  }

  ghost function Run<K(!new), V>(max: nat, hasRows: V -> bool, acts: seq<Action<K, V>>): Cache<K, V> {
    if acts == [] then Cache(max, map[], [], map[], [], map[])
    else Step(Run(max, hasRows, acts[..|acts| - 1]), hasRows, acts[|acts| - 1])
  }

  lemma FinishSound<K(!new), V>(c: Cache<K, V>, hasRows: V -> bool, a: Action<K, V>)
    requires Listed(c) && Single(c) && a.Finish? && a.k in c.inflight
    ensures Listed(Step(c, hasRows, a)) && Single(Step(c, hasRows, a))
  {
    var answer := Answer(c, hasRows, a.k, a.got);
    AnswerSingle(c, a.k, answer);
    if a.got.Value? {
      StoredListed(c.(answers := c.answers[c.inflight[a.k] := answer], inflight := c.inflight - {a.k}), a.k, Entry(a.got.value, a.now + a.ttl));
    }
  }

  lemma StepSound<K(!new), V>(c: Cache<K, V>, hasRows: V -> bool, a: Action<K, V>)
    requires Listed(c) && Single(c)
    ensures Listed(Step(c, hasRows, a)) && Single(Step(c, hasRows, a))
  {
    if a.Finish? {
      if a.k in c.inflight {
        FinishSound(c, hasRows, a);
      }
    } else {
      if Fresh(c, a.k, a.now) {
        TouchListed(c, a.k);
      }
      if a.Enter? {
        EnterSingle(c, a.k, a.now);
      }
    }
  }

  lemma {:induction false} RunSound<K(!new), V>(max: nat, hasRows: V -> bool, acts: seq<Action<K, V>>)
    requires max > 0
    ensures Listed(Run(max, hasRows, acts)) && Single(Run(max, hasRows, acts))
  {
    if acts != [] {
      RunSound(max, hasRows, acts[..|acts| - 1]);
      StepSound(Run(max, hasRows, acts[..|acts| - 1]), hasRows, acts[|acts| - 1]);
    }
  }

  // ---------------------------------------------------------------- every answer is a result

  /** Some query for k returned v. */
  ghost predicate Returned<K(!new), V(!new)>(acts: seq<Action<K, V>>, k: K, v: V) {
    exists i :: 0 <= i < |acts| && acts[i].Finish? && acts[i].k == k && acts[i].got == Value(v)
  }

  ghost predicate Sourced<K(!new), V(!new)>(c: Cache<K, V>, acts: seq<Action<K, V>>) {
    && (forall k :: k in c.items ==> Returned(acts, k, c.items[k].value))
    && (forall call :: call in c.answers && call < |c.keys| && c.answers[call].Value? ==>
          Returned(acts, c.keys[call], c.answers[call].value))
  }

  lemma ReturnedLater<K(!new), V(!new)>(acts: seq<Action<K, V>>, a: Action<K, V>, k: K, v: V)
    ensures Returned(acts, k, v) ==> Returned(acts + [a], k, v)
    ensures a.Finish? && a.k == k && a.got == Value(v) ==> Returned(acts + [a], k, v)
  {
    if Returned(acts, k, v) {
      var i :| 0 <= i < |acts| && acts[i].Finish? && acts[i].k == k && acts[i].got == Value(v);
      assert (acts + [a])[i] == acts[i];
    }
    if a.Finish? && a.k == k && a.got == Value(v) {
      assert (acts + [a])[|acts|] == a;
    }
  }

  /** A finish leaves an item as it was, or as the result it brought. */
  lemma FinishItem<K(!new), V(!new)>(c: Cache<K, V>, hasRows: V -> bool, a: Action<K, V>, k: K)
    requires Listed(c) && a.Finish? && a.k in c.inflight && k in Step(c, hasRows, a).items
    ensures var v := Step(c, hasRows, a).items[k].value;
            (k in c.items && c.items[k].value == v) || (k == a.k && a.got == Value(v))
  {
    if a.got.Value? {
      var answered := c.(answers := c.answers[c.inflight[a.k] := Answer(c, hasRows, a.k, a.got)], inflight := c.inflight - {a.k});
      StoredListed(answered, a.k, Entry(a.got.value, a.now + a.ttl));
    }
  }

  lemma FinishItemsSourced<K(!new), V(!new)>(c: Cache<K, V>, hasRows: V -> bool, acts: seq<Action<K, V>>, a: Action<K, V>, k: K)
    requires Listed(c) && Sourced(c, acts) && a.Finish? && a.k in c.inflight && k in Step(c, hasRows, a).items
    ensures Returned(acts + [a], k, Step(c, hasRows, a).items[k].value)
  {
    FinishItem(c, hasRows, a, k);
    ReturnedLater(acts, a, k, Step(c, hasRows, a).items[k].value);
  }

  lemma FinishAnswersSourced<K(!new), V(!new)>(c: Cache<K, V>, hasRows: V -> bool, acts: seq<Action<K, V>>, a: Action<K, V>, d: nat)
    requires Single(c) && Sourced(c, acts) && a.Finish? && a.k in c.inflight
    requires d in Step(c, hasRows, a).answers && d < |c.keys| && Step(c, hasRows, a).answers[d].Value?
    ensures Returned(acts + [a], c.keys[d], Step(c, hasRows, a).answers[d].value)
  {
    ReturnedLater(acts, a, c.keys[d], Step(c, hasRows, a).answers[d].value);
  }

  lemma FinishSourced<K(!new), V(!new)>(c: Cache<K, V>, hasRows: V -> bool, acts: seq<Action<K, V>>, a: Action<K, V>)
    requires Listed(c) && Single(c) && Sourced(c, acts) && a.Finish? && a.k in c.inflight
    ensures Sourced(Step(c, hasRows, a), acts + [a])
  {
    var r := Step(c, hasRows, a);
    forall k | k in r.items ensures Returned(acts + [a], k, r.items[k].value) {
      FinishItemsSourced(c, hasRows, acts, a, k);
    }
    forall d | d in r.answers && d < |r.keys| && r.answers[d].Value? ensures Returned(acts + [a], r.keys[d], r.answers[d].value) {
      FinishAnswersSourced(c, hasRows, acts, a, d);
    }
  }

  /** Whatever is cached or handed out under a key is what some query for that same key
      returned: neither coalescing nor stale serving ever crosses keys. */
  lemma {:induction false} AnswersAreResults<K(!new), V(!new)>(max: nat, hasRows: V -> bool, acts: seq<Action<K, V>>)
    requires max > 0
    ensures Sourced(Run(max, hasRows, acts), acts)
  {
    if acts != [] {
      var before, a := acts[..|acts| - 1], acts[|acts| - 1];
      var c := Run(max, hasRows, before);
      RunSound(max, hasRows, before);
      AnswersAreResults(max, hasRows, before);
      assert acts == before + [a];
      if a.Finish? && a.k in c.inflight {
        FinishSourced(c, hasRows, before, a);
      } else {
        var r := Step(c, hasRows, a);
        forall k | k in r.items ensures Returned(acts, k, r.items[k].value) {
          ReturnedLater(before, a, k, r.items[k].value);
        }
        forall d | d in r.answers && d < |r.keys| && r.answers[d].Value? ensures Returned(acts, r.keys[d], r.answers[d].value) {
          assert r.keys[d] == c.keys[d];
          ReturnedLater(before, a, r.keys[d], r.answers[d].value);
        }
      }
    }
  }

  // ---------------------------------------------------------------- no redundant leader

  ghost predicate ClockRuns<K(!new), V>(acts: seq<Action<K, V>>) {
    forall i, j :: 0 <= i <= j < |acts| ==> acts[i].now <= acts[j].now
  }

  /** Action m pushed k out of the LRU. */
  ghost predicate Evicts<K(!new), V>(max: nat, hasRows: V -> bool, acts: seq<Action<K, V>>, m: nat, k: K) {
    m < |acts| && k in Run(max, hasRows, acts[..m]).items && k !in Run(max, hasRows, acts[..m + 1]).items
  }

  lemma RunStep<K(!new), V>(max: nat, hasRows: V -> bool, acts: seq<Action<K, V>>, m: nat)
    requires m < |acts|
    ensures Run(max, hasRows, acts[..m + 1]) == Step(Run(max, hasRows, acts[..m]), hasRows, acts[m])
  {
    assert acts[..m + 1][..m] == acts[..m];
  }

  /** The key holds this entry and no query for it is in flight. */
  ghost predicate Stands<K(!new), V>(c: Cache<K, V>, k: K, e: Entry<V>) {
    k !in c.inflight && k in c.items && c.items[k] == e
  }

  lemma StoreStands<K(!new), V>(c: Cache<K, V>, hasRows: V -> bool, a: Action<K, V>)
    requires Listed(c) && Single(c) && a.Finish? && a.got.Value? && a.k in c.inflight
    ensures Stands(Step(c, hasRows, a), a.k, Entry(a.got.value, a.now + a.ttl))
  {
    var answered := c.(answers := c.answers[c.inflight[a.k] := Answer(c, hasRows, a.k, a.got)], inflight := c.inflight - {a.k});
    StoredListed(answered, a.k, Entry(a.got.value, a.now + a.ttl));
  }

  lemma KeepsStanding<K(!new), V>(c: Cache<K, V>, hasRows: V -> bool, a: Action<K, V>, k: K, e: Entry<V>)
    requires Listed(c) && Single(c) && Stands(c, k, e) && a.now <= e.expires
    requires k in Step(c, hasRows, a).items
    ensures Stands(Step(c, hasRows, a), k, e)
  {
    if a.Finish? && a.k in c.inflight && a.got.Value? {
      var answered := c.(answers := c.answers[c.inflight[a.k] := Answer(c, hasRows, a.k, a.got)], inflight := c.inflight - {a.k});
      StoredListed(answered, a.k, Entry(a.got.value, a.now + a.ttl));
    }
  }

  /** A stored result stands, with no leader for its key, until it expires or is evicted. */
  lemma {:induction false} StoredStands<K(!new), V>(max: nat, hasRows: V -> bool, acts: seq<Action<K, V>>, i: nat, j: nat)
    requires max > 0 && i < j <= |acts| && ClockRuns(acts)
    requires acts[i].Finish? && acts[i].got.Value? && acts[i].k in Run(max, hasRows, acts[..i]).inflight
    requires forall m :: i < m < j ==> !Evicts(max, hasRows, acts, m, acts[i].k)
    requires acts[j - 1].now <= acts[i].now + acts[i].ttl
    ensures Stands(Run(max, hasRows, acts[..j]), acts[i].k, Entry(acts[i].got.value, acts[i].now + acts[i].ttl))
    decreases j
  {
    var m, e := j - 1, Entry(acts[i].got.value, acts[i].now + acts[i].ttl);
    var c, k := Run(max, hasRows, acts[..m]), acts[i].k;
    RunSound(max, hasRows, acts[..m]);
    RunStep(max, hasRows, acts, m);
    if m == i {
      StoreStands(c, hasRows, acts[i]);
    } else {
      StoredStands(max, hasRows, acts, i, m);
      assert !Evicts(max, hasRows, acts, m, k);
      KeepsStanding(c, hasRows, acts[m], k, e);
    }
    assert Stands(Step(c, hasRows, acts[m]), k, e);
    assert acts[..m + 1] == acts[..j];
  }

  /** After a success no caller leads another query for the key within its lifetime,
      however the callers' two looks at the cache interleave, unless it was evicted. */
  lemma NoRedundantLeader<K(!new), V>(max: nat, hasRows: V -> bool, acts: seq<Action<K, V>>, i: nat, j: nat)
    requires max > 0 && i < j < |acts| && ClockRuns(acts)
    requires acts[i].Finish? && acts[i].got.Value? && acts[i].k in Run(max, hasRows, acts[..i]).inflight
    requires acts[j].Enter? && acts[j].k == acts[i].k && acts[j].now <= acts[i].now + acts[i].ttl
    requires forall m :: i < m < j ==> !Evicts(max, hasRows, acts, m, acts[i].k)
    ensures Admit(Run(max, hasRows, acts[..j]), acts[j].k, acts[j].now) == Hit(acts[i].got.value)
  {
    StoredStands(max, hasRows, acts, i, j);
  }

  // ---------------------------------------------------------------- least recently used

  /** The keys a run touched, by hits and by stores, in time order. */
  ghost function Touches<K(!new), V>(max: nat, hasRows: V -> bool, acts: seq<Action<K, V>>): seq<K> {
    if acts == [] then []
    else
      var before := Touches(max, hasRows, acts[..|acts| - 1]);
      var c, a := Run(max, hasRows, acts[..|acts| - 1]), acts[|acts| - 1];
      if Touching(c, a) then before + [a.k] else before
  }

  predicate Touching<K, V>(c: Cache<K, V>, a: Action<K, V>) {
    if a.Finish? then a.k in c.inflight && a.got.Value? else Fresh(c, a.k, a.now)
  }

  lemma OrderStep<K(!new), V>(c: Cache<K, V>, hasRows: V -> bool, a: Action<K, V>)
    requires Listed(c)
    ensures var r := Step(c, hasRows, a);
            && r.max == c.max
            && r.order == (if !Touching(c, a) then c.order
                           else if a.k in c.order then Touch(c.order, a.k) else Take(Touch(c.order, a.k), c.max))
  {
  }

  /** The distinct keys of a log, most recent first. */
  ghost function Recent<K(!new)>(log: seq<K>): (r: seq<K>)
    ensures forall x :: x in r <==> x in log
  {
    if log == [] then [] else Touch(Recent(log[..|log| - 1]), log[|log| - 1])
  }

  lemma {:induction false} RecentDistinct<K(!new)>(log: seq<K>)
    ensures Distinct(Recent(log))
  {
    if log != [] {
      RecentDistinct(log[..|log| - 1]);
      WithoutDistinct(Recent(log[..|log| - 1]), log[|log| - 1]);
    }
  }

  lemma TouchTake<K(!new)>(recent: seq<K>, max: nat, k: K)
    requires Distinct(recent) && max > 0
    ensures Take(Touch(recent, k), max) ==
            if k in Take(recent, max) then Touch(Take(recent, max), k) else Take(Touch(Take(recent, max), k), max)
  {
    WithoutTake(recent, max, k);
    WithoutDistinct(recent, k);
    var t := Take(recent, max);
    assert Take([k] + Without(recent, k), max) == [k] + Take(Without(recent, k), max - 1);
    if k !in t {
      assert forall i, j :: 0 <= i < j < |t| ==> t[i] != t[j];
      WithoutDistinct(t, k);
      assert Take(Without(recent, k), max - 1) == Take(Take(Without(recent, k), max), max - 1);
      assert Take([k] + t, max) == [k] + Take(t, max - 1);
    }
  }

  /** The cache holds exactly the max most recently touched keys, in that order. */
  lemma {:induction false} HoldsMostRecent<K(!new), V>(max: nat, hasRows: V -> bool, acts: seq<Action<K, V>>)
    requires max > 0
    ensures Run(max, hasRows, acts).order == Take(Recent(Touches(max, hasRows, acts)), max)
    ensures Run(max, hasRows, acts).max == max
  {
    if acts != [] {
      var before, a := acts[..|acts| - 1], acts[|acts| - 1];
      HoldsMostRecent(max, hasRows, before);
      RunSound(max, hasRows, before);
      var c, log := Run(max, hasRows, before), Touches(max, hasRows, before);
      OrderStep(c, hasRows, a);
      RecentDistinct(log);
      TouchTake(Recent(log), max, a.k);
      assert (log + [a.k])[..|log|] == log;
    }
  }

  // ---------------------------------------------------------------- what callers get

  /** The result last kept for a key, and how long it lives: the last of its queries to
      succeed. */
  ghost function LastStored<K(!new), V>(max: nat, hasRows: V -> bool, acts: seq<Action<K, V>>, k: K): Option<Entry<V>> {
    if acts == [] then None
    else
      var before, a := acts[..|acts| - 1], acts[|acts| - 1];
      if a.Finish? && a.k == k && a.got.Value? && k in Run(max, hasRows, before).inflight then Some(Entry(a.got.value, a.now + a.ttl))
      else LastStored(max, hasRows, before, k)
  }

  /** A step leaves an entry as it was, or stores the one its own query brought. */
  lemma StepItem<K(!new), V>(c: Cache<K, V>, hasRows: V -> bool, a: Action<K, V>, k: K)
    requires Listed(c) && k in Step(c, hasRows, a).items
    ensures if a.Finish? && a.k == k && a.got.Value? && k in c.inflight
            then Step(c, hasRows, a).items[k] == Entry(a.got.value, a.now + a.ttl)
            else k in c.items && Step(c, hasRows, a).items[k] == c.items[k]
  {
    if a.Finish? && a.k in c.inflight && a.got.Value? {
      var answered := c.(answers := c.answers[c.inflight[a.k] := Answer(c, hasRows, a.k, a.got)], inflight := c.inflight - {a.k});
      StoredListed(answered, a.k, Entry(a.got.value, a.now + a.ttl));
    }
  }

  lemma {:induction false} ItemsAreLastStored<K(!new), V>(max: nat, hasRows: V -> bool, acts: seq<Action<K, V>>, k: K)
    requires max > 0 && k in Run(max, hasRows, acts).items
    ensures LastStored(max, hasRows, acts, k) == Some(Run(max, hasRows, acts).items[k])
  {
    var before := acts[..|acts| - 1];
    RunSound(max, hasRows, before);
    StepItem(Run(max, hasRows, before), hasRows, acts[|acts| - 1], k);
    if k in Run(max, hasRows, before).items {
      ItemsAreLastStored(max, hasRows, before, k);
    }
  }

  lemma HeldIsRecent<K(!new), V>(max: nat, hasRows: V -> bool, acts: seq<Action<K, V>>, k: K)
    requires max > 0
    ensures k in Run(max, hasRows, acts).items <==> k in Take(Recent(Touches(max, hasRows, acts)), max)
  {
    RunSound(max, hasRows, acts);
    HoldsMostRecent(max, hasRows, acts);
  }

  /** A key is a hit if and only if it is among the max most recently touched and its last
      result has not expired; and the hit is that result. */
  lemma HitIff<K(!new), V>(max: nat, hasRows: V -> bool, acts: seq<Action<K, V>>, k: K, now: int)
    requires max > 0
    ensures var c, last := Run(max, hasRows, acts), LastStored(max, hasRows, acts, k);
            && (Admit(c, k, now).Hit? <==> k in Take(Recent(Touches(max, hasRows, acts)), max) && last.Some? && now <= last.value.expires)
            && (Admit(c, k, now).Hit? ==> Admit(c, k, now) == Hit(last.value.value))
  {
    HeldIsRecent(max, hasRows, acts, k);
    if k in Run(max, hasRows, acts).items {
      ItemsAreLastStored(max, hasRows, acts, k);
    }
  }

  /** An answer, once given, stays. */
  lemma {:induction false} AnswerStays<K(!new), V>(max: nat, hasRows: V -> bool, acts: seq<Action<K, V>>, i: nat, call: nat)
    requires max > 0 && i <= |acts| && call in Run(max, hasRows, acts[..i]).answers
    ensures call in Run(max, hasRows, acts).answers
    ensures Run(max, hasRows, acts).answers[call] == Run(max, hasRows, acts[..i]).answers[call]
    decreases |acts|
  {
    if i == |acts| {
      assert acts[..i] == acts;
    } else {
      var before := acts[..|acts| - 1];
      assert before[..i] == acts[..i];
      AnswerStays(max, hasRows, before, i, call);
      RunSound(max, hasRows, before);
      var c := Run(max, hasRows, before);
      StepAnswers(c, hasRows, acts[|acts| - 1], call);
    }
  }

  lemma StepAnswers<K(!new), V>(c: Cache<K, V>, hasRows: V -> bool, a: Action<K, V>, call: nat)
    requires Single(c) && call in c.answers
    ensures call in Step(c, hasRows, a).answers && Step(c, hasRows, a).answers[call] == c.answers[call]
  {
    if a.Finish? && a.k in c.inflight {
      var held := c.inflight[a.k];
      assert Holds(c.inflight, c.keys[held], held);
    }
  }

  /** What the callers of a query get in the end, over any run. Its own result if it
      succeeded. If it failed, its own error, unless it failed other than by refusal while
      the cache held rows for the key: then the result last stored for it. */
  lemma CallersGet<K(!new), V>(max: nat, hasRows: V -> bool, acts: seq<Action<K, V>>, i: nat)
    requires max > 0 && i < |acts| && acts[i].Finish? && acts[i].k in Run(max, hasRows, acts[..i]).inflight
    ensures var a, before := acts[i], Run(max, hasRows, acts[..i]);
            var call, last := before.inflight[a.k], LastStored(max, hasRows, acts[..i], a.k);
            var stale := a.k in before.items && last.Some? && hasRows(last.value.value);
            && call in Run(max, hasRows, acts).answers
            && var answer := Run(max, hasRows, acts).answers[call];
               && (a.got.Value? ==> answer == a.got)
               && (a.got.Error? && (a.got.err == Truncated || a.got.err == Panicked || !stale) ==> answer == a.got)
               && (a.got == Error(Failed) && stale ==> answer == Value(last.value.value))
  {
    var a, before := acts[i], Run(max, hasRows, acts[..i]);
    RunStep(max, hasRows, acts, i);
    AnswerStays(max, hasRows, acts, i + 1, before.inflight[a.k]);
    if a.k in before.items {
      ItemsAreLastStored(max, hasRows, acts[..i], a.k);
    }
  }

  // ---------------------------------------------------------------- the reader

  lemma LastIsGone<K(!new)>(s: seq<K>)
    requires s != [] && Distinct(s)
    ensures forall x :: x in s[..|s| - 1] <==> x in s && x != s[|s| - 1]
  {
  }

  class CachingReader<K(==,!new), V(!new)> {
    const max: nat
    const hasRows: V -> bool
    var items: map<K, Entry<V>>
    var order: seq<K>
    var inflight: map<K, nat>
    var keys: seq<K>
    var answers: map<nat, Outcome<V>>
    // every section that has run
    ghost var acts: seq<Action<K, V>>

    ghost function View(): Cache<K, V>
      reads this
    {
      Cache(max, items, order, inflight, keys, answers)
    }

    ghost predicate Valid()
      reads this
    {
      max > 0 && View() == Run(max, hasRows, acts)
    }

    constructor (max: int, fallback: nat, hasRows: V -> bool)
      requires fallback > 0
      ensures Valid() && acts == [] && this.hasRows == hasRows && this.max == if max <= 0 then fallback else max
    {
      this.max := if max <= 0 then fallback else max;
      this.hasRows := hasRows;
      items, order, inflight, keys, answers, acts := map[], [], map[], [], map[], [];
    }

    lemma Acted(a: Action<K, V>)
      requires Valid()
      ensures Run(max, hasRows, acts + [a]) == Step(View(), hasRows, a)
      ensures Listed(View()) && Single(View())
    {
      assert (acts + [a])[..|acts|] == acts;
      RunSound(max, hasRows, acts);
    }

    method Lookup(k: K, now: int) returns (hit: Option<V>)
      requires Valid()
      modifies this`order, this`acts
      ensures Valid() && acts == old(acts) + [Action.Lookup(k, now)]
      ensures hit == if k in items && now <= items[k].expires then Some(items[k].value) else None
    {
      Acted(Action.Lookup(k, now));
      acts := acts + [Action.Lookup(k, now)];
      if k !in items {
        return None;
      }
      var e := items[k];
      if now > e.expires {
        return None;
      }
      order := Touch(order, k);
      return Some(e.value);
    }

    method Enter(k: K, now: int) returns (r: Admission<V>)
      requires Valid()
      modifies this`order, this`inflight, this`keys, this`acts
      ensures Valid() && acts == old(acts) + [Action.Enter(k, now)]
      ensures var hit := k in items && now <= items[k].expires;
              && (r.Hit? <==> hit) && (hit ==> r.value == items[k].value)
              && (r.Joined? <==> !hit && k in old(inflight)) && (r.Joined? ==> r.call == old(inflight)[k])
              && (r.Refused? <==> !hit && k !in old(inflight) && |old(inflight)| >= 32)
              && (r.Led? ==> inflight == old(inflight)[k := r.call] && keys == old(keys) + [k] && r.call == |old(keys)|)
              && (!r.Led? ==> inflight == old(inflight) && keys == old(keys))
    {
      Acted(Action.Enter(k, now));
      acts := acts + [Action.Enter(k, now)];
      if k in items {
        var e := items[k];
        if now <= e.expires {
          order := Touch(order, k);
          return Hit(e.value);
        }
      }
      if k in inflight {
        return Joined(inflight[k]);
      }
      if |inflight| >= MAX_LEADERS {
        return Refused;
      }
      var call := |keys|;
      inflight := inflight[k := call];
      keys := keys + [k];
      return Led(call);
    }

    /** storeLocked, with its eviction loop. */
    method Store(k: K, e: Entry<V>)
      requires Listed(View())
      modifies this`items, this`order
      ensures View() == Stored(old(View()), k, e)
    {
      if k in items {
        items := items[k := e];
        order := Touch(order, k);
        return;
      }
      WithoutDistinct(order, k);
      order := [k] + order;
      items := items[k := e];
      EvictPastMax();
    }

    /** What is left of olds once order is the recency list. */
    ghost predicate Restricts(olds: map<K, Entry<V>>)
      reads this
    {
      (forall x :: x in items <==> x in olds && x in order) && (forall x :: x in items ==> items[x] == olds[x])
    }

    method EvictLast(ghost olds: map<K, Entry<V>>)
      requires Distinct(order) && order != [] && Restricts(olds)
      modifies this`items, this`order
      ensures order == old(order)[..|old(order)| - 1] && Distinct(order) && Restricts(olds)
    {
      var oldest := order[|order| - 1];
      LastIsGone(order);
      order := order[..|order| - 1];
      items := items - {oldest};
    }

    method EvictPastMax()
      requires Distinct(order) && forall x :: x in items <==> x in order
      modifies this`items, this`order
      ensures order == Take(old(order), max)
      ensures items == map x | x in old(items) && x in order :: old(items)[x]
    {
      assert order[..|order|] == order;
      while |order| > max
        invariant |order| <= |old(order)| && order == old(order)[..|order|]
        invariant |order| < |old(order)| ==> |order| >= max
        invariant Distinct(order) && Restricts(old(items))
        decreases |order|
      {
        EvictLast(old(items));
      }
    }

    /** The leader's section: keep a success, let a stale entry stand in for an outage, and
        give the slot back. */
    method Finish(k: K, got: Outcome<V>, ttl: int, now: int)
      requires Valid() && k in inflight
      modifies this`items, this`order, this`inflight, this`answers, this`acts
      ensures Valid() && acts == old(acts) + [Action.Finish(k, got, ttl, now)]
      ensures old(inflight)[k] in answers && answers == old(answers)[old(inflight)[k] := answers[old(inflight)[k]]]
      ensures var stale := k in old(items) && hasRows(old(items)[k].value);
              answers[old(inflight)[k]] ==
                if got.Error? && got.err != Truncated && got.err != Panicked && stale then Value(old(items)[k].value) else got
    {
      Acted(Action.Finish(k, got, ttl, now));
      acts := acts + [Action.Finish(k, got, ttl, now)];
      var answer := got;
      if got.Error? && k in items && !IsRefusal(got.err) {
        var e := items[k];
        if hasRows(e.value) {
          answer := Value(e.value);
        }
      }
      answers := answers[inflight[k] := answer];
      inflight := inflight - {k};
      if got.Value? {
        Store(k, Entry(got.value, now + ttl));
      }
    }
  }
}
