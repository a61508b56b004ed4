/** The sharded delivery queue behind the alert state machine.

    A transition is committed only if its shard takes it, so the promise to keep is that
    nothing is committed but untold, and that each (target, alert) is told in commit
    order. Producers run under one lock; each shard's worker steps on its own. */
module Dispatch {
  import opened Wrappers
  import opened Alerting

  const SHARDS: nat := 8
  // dispatchQueueDepth / dispatchShards and dispatchQueueBytes / dispatchShards.
  const SHARD_DEPTH: nat := 128
  const SHARD_BYTES := 8_388_608
  const HEALTH_GROUP := "_cluster"

  datatype Target = Target(group: string, name: string, host: string, url: string, family: string) {
    function Id(): string { group + "/" + name }
  }

  datatype Event = Event(
    target: Target, alert: string, source: string, time: int, change: Transition,
    firingSources: set<string>,
    // the addresses on the cycle's path and the errors of its http samples
    hops: seq<string>, samples: seq<string>)
  {
    function Key(): Alerting.Key { Alerting.Key(target.Id(), alert) }

    predicate Anonymous() {
      target.group == HEALTH_GROUP ==>
        target.host == "" && target.url == "" && target.family == "" && hops == [] && samples == []
    }
  }

  /** scrubHealthAddresses: no health target's address leaves the evaluator. */
  function Scrub(ev: Event): (r: Event)
    ensures r.Anonymous() && r.Key() == ev.Key() && r.change == ev.change && r.source == ev.source
    ensures r.time == ev.time && r.firingSources == ev.firingSources
    ensures ev.target.group != HEALTH_GROUP ==> r == ev
  {
    if ev.target.group != HEALTH_GROUP then ev
    else ev.(target := ev.target.(host := "", url := "", family := ""), hops := [], samples := [])
  }

  /** The dispatcher's policy and the size it is charged: pure functions of the event. */
  datatype Dispatcher = Dispatcher(wants: Event -> bool, size: Event -> nat)

  datatype QueuedEvent = QueuedEvent(ev: Event, bytes: nat, shard: nat)

  function Byte(c: char): bv64 { (c as int % 256) as bv64 }

  /** One step of FNV-1a. */
  function Mix(h: bv64, c: char): bv64 { (h ^ Byte(c)) * 1099511628211 }

  function Fold<H>(step: (H, char) -> H, h: H, s: string): H
    decreases |s|
  {
    if s == [] then h else Fold(step, step(h, s[0]), s[1..])
  }

  function Slot(h: bv64): (shard: nat)
    ensures shard < SHARDS
  {
    (h % 8) as nat
  }

  function Seed(target: string): bv64 { Fold(Mix, 14695981039346656037, target) * 1099511628211 }

  /** FNV-1a over the two names' bytes with a separator step between them. */
  function ShardFor(target: string, alert: string): (shard: nat)
    ensures shard < SHARDS
  {
    Slot(Fold(Mix, Seed(target), alert))
  }

  function ShardOf(ev: Event): nat {
    ShardFor(ev.target.Id(), ev.alert)
  }

  lemma {:induction false} FoldAppend<H>(step: (H, char) -> H, h: H, s: string, c: char)
    ensures Fold(step, h, s + [c]) == step(Fold(step, h, s), c)
    decreases |s|
  {
    if s == [] {
      assert ([] + [c])[1..] == [];
    } else {
      assert (s + [c])[1..] == s[1..] + [c];
      FoldAppend(step, step(h, s[0]), s[1..], c);
    }
  }

  /** Two bytes of one block of eight, as two digits up to 7 are. */
  predicate Neighbours(x: bv64, y: bv64) { x != y && x / 8 == y / 8 }

  lemma NeighboursMixApart(h: bv64, x: bv64, y: bv64)
    requires Neighbours(x, y)
    ensures ((h ^ x) * 1099511628211) % 8 != ((h ^ y) * 1099511628211) % 8
  {
  }

  lemma SlotsDiffer(x: bv64, y: bv64)
    requires x % 8 != y % 8
    ensures Slot(x) != Slot(y)
  {
    assert Slot(x) as bv64 == x % 8;
    assert Slot(y) as bv64 == y % 8;
  }

  lemma MixedApart(h: bv64, c: char, d: char)
    requires Neighbours(Byte(c), Byte(d))
    ensures Slot(Mix(h, c)) != Slot(Mix(h, d))
  {
    NeighboursMixApart(h, Byte(c), Byte(d));
    SlotsDiffer(Mix(h, c), Mix(h, d));
  }

  /** Alerts of one target that are numbered apart do not wait for one another: names that
      differ only in a last byte of one block of eight have different workers. */
  lemma NumberedAlertsSpread(target: string, alert: string, c: char, d: char)
    requires Neighbours(Byte(c), Byte(d))
    ensures ShardFor(target, alert + [c]) != ShardFor(target, alert + [d])
  {
    FoldAppend(Mix, Seed(target), alert, c);
    FoldAppend(Mix, Seed(target), alert, d);
    MixedApart(Fold(Mix, Seed(target), alert), c, d);
  }

  // ---------------------------------------------------------------- one shard

  datatype Worker = Waiting | Delivering(q: QueuedEvent) | Returned

  /** A channel, its worker, and the counter both write. */
  datatype Shard = Shard(pending: seq<QueuedEvent>, worker: Worker, bytes: int)

  function InHand(w: Worker): seq<QueuedEvent> {
    if w.Delivering? then [w.q] else []
  }

  function Held(s: Shard): seq<QueuedEvent> {
    InHand(s.worker) + s.pending
  }

  function TotalBytes(qs: seq<QueuedEvent>): nat {
    if qs == [] then 0 else qs[0].bytes + TotalBytes(qs[1..])
  }

  lemma {:induction false} TotalBytesConcat(a: seq<QueuedEvent>, b: seq<QueuedEvent>)
    ensures TotalBytes(a + b) == TotalBytes(a) + TotalBytes(b)
  {
    if a == [] {
      assert a + b == b;
    } else {
      assert (a + b)[1..] == a[1..] + b;
      TotalBytesConcat(a[1..], b);
    }
  }

  lemma TotalBytesSnoc(a: seq<QueuedEvent>, q: QueuedEvent)
    ensures TotalBytes(a + [q]) == TotalBytes(a) + q.bytes
  {
    TotalBytesConcat(a, [q]);
    assert [q][1..] == [];
  }

  /** The counter is the bytes held, and passes the ceiling only while one event accounts
      for all of it. */
  ghost predicate Accounted(s: Shard) {
    && s.bytes == TotalBytes(Held(s))
    && |s.pending| <= SHARD_DEPTH
    && (s.bytes > SHARD_BYTES ==> exists i :: 0 <= i < |Held(s)| && Held(s)[i].bytes == s.bytes)
  }

  datatype Refusal = NotRefused | Closed | Bytes | Depth

  /** What the byte budget and the channel answer. */
  function Verdict(s: Shard, size: nat): Refusal {
    if s.bytes + size > SHARD_BYTES && s.bytes != 0 then Bytes
    else if |s.pending| >= SHARD_DEPTH then Depth
    else NotRefused
  }

  function Pushed(s: Shard, q: QueuedEvent): Shard {
    Shard(s.pending + [q], s.worker, s.bytes + q.bytes)
  }

  function Received(s: Shard): Shard
    requires s.pending != []
  {
    Shard(s.pending[1..], Delivering(s.pending[0]), s.bytes)
  }

  function Finished(s: Shard): Shard
    requires s.worker.Delivering?
  {
    Shard(s.pending, Waiting, s.bytes - s.worker.q.bytes)
  }

  lemma PushAccounted(s: Shard, q: QueuedEvent)
    requires Accounted(s) && Verdict(s, q.bytes) == NotRefused
    ensures Accounted(Pushed(s, q))
  {
    var t := Pushed(s, q);
    assert Held(t) == Held(s) + [q];
    TotalBytesSnoc(Held(s), q);
    assert Held(t)[|Held(s)|].bytes == q.bytes;
  }

  lemma ReceiveAccounted(s: Shard)
    requires Accounted(s) && s.worker == Waiting && s.pending != []
    ensures Accounted(Received(s))
  {
    assert Held(Received(s)) == Held(s);
  }

  /** Releasing the oldest event held keeps the account. */
  lemma ReleaseAccounted(s: Shard, t: Shard)
    requires Accounted(s) && Held(s) != [] && Held(t) == Held(s)[1..]
    requires t.bytes == s.bytes - Held(s)[0].bytes && |t.pending| <= SHARD_DEPTH
    ensures Accounted(t)
  {
    if t.bytes > SHARD_BYTES {
      var i :| 0 <= i < |Held(s)| && Held(s)[i].bytes == s.bytes;
      if i > 0 {
        assert Held(t)[i - 1].bytes == s.bytes;
        BytesInclude(Held(t), i - 1);
      }
    }
  }

  lemma {:induction false} BytesInclude(qs: seq<QueuedEvent>, i: nat)
    requires i < |qs|
    ensures qs[i].bytes <= TotalBytes(qs)
  {
    if i > 0 {
      BytesInclude(qs[1..], i - 1);
    }
  }

  // ---------------------------------------------------------------- commit order

  /** The events of one shard, in order. */
  function OfShard(qs: seq<QueuedEvent>, shard: nat): (r: seq<QueuedEvent>) {
    if qs == [] then []
    else if qs[|qs| - 1].shard == shard then OfShard(qs[..|qs| - 1], shard) + [qs[|qs| - 1]]
    else OfShard(qs[..|qs| - 1], shard)
  }

  lemma OfShardSnoc(qs: seq<QueuedEvent>, q: QueuedEvent, shard: nat)
    ensures OfShard(qs + [q], shard) == OfShard(qs, shard) + (if q.shard == shard then [q] else [])
  {
    assert (qs + [q])[..|qs|] == qs;
  }

  /** The events of one (target, alert), in order. */
  function OfKey(qs: seq<QueuedEvent>, key: Key): seq<QueuedEvent> {
    if qs == [] then []
    else if qs[|qs| - 1].ev.Key() == key then OfKey(qs[..|qs| - 1], key) + [qs[|qs| - 1]]
    else OfKey(qs[..|qs| - 1], key)
  }

  lemma OfKeySnoc(qs: seq<QueuedEvent>, q: QueuedEvent, key: Key)
    ensures OfKey(qs + [q], key) == OfKey(qs, key) + (if q.ev.Key() == key then [q] else [])
  {
    assert (qs + [q])[..|qs|] == qs;
  }

  lemma {:induction false} OfKeyConcat(a: seq<QueuedEvent>, b: seq<QueuedEvent>, key: Key)
    ensures OfKey(a + b, key) == OfKey(a, key) + OfKey(b, key)
  {
    if b == [] {
      assert a + b == a;
    } else {
      var b', q := b[..|b| - 1], b[|b| - 1];
      assert a + b == (a + b') + [q] && b == b' + [q];
      OfKeyConcat(a, b', key);
      OfKeySnoc(a + b', q, key);
      OfKeySnoc(b', q, key);
    }
  }

  ghost predicate Placed(qs: seq<QueuedEvent>) {
    forall i :: 0 <= i < |qs| ==> qs[i].shard == ShardFor(qs[i].ev.Key().target, qs[i].ev.Key().alert)
  }

  /** Only scrubbed events the dispatcher wants are ever committed. */
  ghost predicate Clean(d: Dispatcher, qs: seq<QueuedEvent>) {
    forall i :: 0 <= i < |qs| ==> qs[i].ev.Anonymous() && d.wants(qs[i].ev)
  }

  lemma CommitsWell(d: Dispatcher, qs: seq<QueuedEvent>, q: QueuedEvent)
    requires Placed(qs) && Clean(d, qs)
    requires q.shard == ShardFor(q.ev.Key().target, q.ev.Key().alert) && q.ev.Anonymous() && d.wants(q.ev)
    ensures Placed(qs + [q]) && Clean(d, qs + [q])
  {
  }

  /** A (target, alert) pair lives in one shard, so its order is its shard's order. */
  lemma {:induction false} KeyWithinShard(qs: seq<QueuedEvent>, key: Key, shard: nat)
    requires Placed(qs) && shard == ShardFor(key.target, key.alert)
    ensures OfKey(OfShard(qs, shard), key) == OfKey(qs, key)
  {
    if qs != [] {
      var qs', q := qs[..|qs| - 1], qs[|qs| - 1];
      KeyWithinShard(qs', key, shard);
      if q.shard == shard {
        OfKeySnoc(OfShard(qs', shard), q, key);
      }
    }
  }

  // ---------------------------------------------------------------- the queue

  function Load(shards: seq<Shard>): nat {
    if shards == [] then 0 else |Held(shards[0])| + Load(shards[1..])
  }

  lemma {:induction false} LoadSet(shards: seq<Shard>, i: nat, s: Shard)
    requires i < |shards|
    ensures Load(shards[i := s]) == Load(shards) - |Held(shards[i])| + |Held(s)|
    ensures |Held(shards[i])| <= Load(shards)
  {
    if i == 0 {
      assert shards[i := s][1..] == shards[1..];
    } else {
      assert shards[i := s][1..] == shards[1..][i - 1 := s];
      LoadSet(shards[1..], i - 1, s);
    }
  }

  /** An event as the queue carries it: scrubbed, charged and placed. */
  function Queued(d: Dispatcher, ev: Event): (q: QueuedEvent)
    ensures q.ev.Anonymous() && q.ev.Key() == ev.Key() && q.ev.change == ev.change && q.ev.source == ev.source
    ensures q.shard == ShardFor(ev.Key().target, ev.Key().alert) && q.ev == Scrub(ev) && q.bytes == d.size(q.ev)
  {
    QueuedEvent(Scrub(ev), d.size(Scrub(ev)), ShardFor(ev.target.Id(), ev.alert))
  }

  /** What an offer comes to: nothing, if it was refused or would notify nobody. */
  function Commitment(d: Dispatcher, ev: Event, taken: bool): seq<QueuedEvent> {
    if taken && d.wants(Scrub(ev)) then [Queued(d, ev)] else []
  }

  /** What became of everything accepted, in commit order, delivery order, and the order
      it was given up in at shutdown. */
  datatype Ledger = Ledger(committed: seq<QueuedEvent>, told: seq<QueuedEvent>, abandoned: seq<QueuedEvent>) {
    function Commit(q: QueuedEvent): Ledger { CommitAll([q]) }

    function CommitAll(qs: seq<QueuedEvent>): Ledger { Ledger(committed + qs, told, abandoned) }

    function Tell(q: QueuedEvent): Ledger { Ledger(committed, told + [q], abandoned) }

    function Abandon(qs: seq<QueuedEvent>): Ledger { Ledger(committed, told, abandoned + qs) }
  }

  /** A shard refuses an event if and only if its channel is full, or it holds something and
      would pass its ceiling with the newcomer. So a shard with room refuses nothing, and one
      that holds nothing takes any event: a bounded queue needs a progress condition. */
  lemma RefusesIffCrowded(s: Shard, size: nat)
    requires Accounted(s)
    ensures Verdict(s, size) != NotRefused
            <==> |s.pending| >= SHARD_DEPTH || (TotalBytes(Held(s)) > 0 && TotalBytes(Held(s)) + size > SHARD_BYTES)
    ensures Verdict(s, size) == Bytes <==> TotalBytes(Held(s)) > 0 && TotalBytes(Held(s)) + size > SHARD_BYTES
  {
  }

  lemma ShardIsAccounted(shards: seq<Shard>, inflight: nat, closed: bool, l: Ledger, i: nat)
    requires Consistent(shards, inflight, closed, l) && i < SHARDS
    ensures Accounted(shards[i])
  {
  }

  lemma NothingCommitted(l: Ledger)
    ensures l.CommitAll([]) == l
  {
  }

  /** A shard tells what it was given, in order, and holds the rest; only a worker that
      returned at shutdown has given anything up. */
  ghost predicate InOrder(s: Shard, i: nat, l: Ledger) {
    if s.worker == Returned then
      s.pending == [] && OfShard(l.committed, i) == OfShard(l.told, i) + OfShard(l.abandoned, i)
    else
      OfShard(l.abandoned, i) == [] && OfShard(l.committed, i) == OfShard(l.told, i) + Held(s)
  }

  ghost predicate Consistent(shards: seq<Shard>, inflight: nat, closed: bool, l: Ledger) {
    && |shards| == SHARDS
    && (forall i :: 0 <= i < SHARDS ==> Accounted(shards[i]))
    && (forall i :: 0 <= i < SHARDS ==> InOrder(shards[i], i, l))
    && (forall i :: 0 <= i < SHARDS ==> shards[i].worker == Returned ==> closed)
    && inflight == Load(shards)
  }

  lemma {:induction false} EmptyLoad(shards: seq<Shard>)
    requires forall i :: 0 <= i < |shards| ==> Held(shards[i]) == []
    ensures Load(shards) == 0
  {
    if shards != [] {
      EmptyLoad(shards[1..]);
    }
  }

  lemma {:induction false} OfShardMembers(qs: seq<QueuedEvent>, shard: nat)
    ensures forall q :: q in OfShard(qs, shard) ==> q.shard == shard && q in qs
  {
    if qs != [] {
      OfShardMembers(qs[..|qs| - 1], shard);
    }
  }

  lemma {:induction false} OfShardConcat(a: seq<QueuedEvent>, b: seq<QueuedEvent>, shard: nat)
    ensures OfShard(a + b, shard) == OfShard(a, shard) + OfShard(b, shard)
  {
    if b == [] {
      assert a + b == a;
    } else {
      var b', q := b[..|b| - 1], b[|b| - 1];
      assert a + b == (a + b') + [q] && b == b' + [q];
      OfShardConcat(a, b', shard);
      OfShardSnoc(a + b', q, shard);
      OfShardSnoc(b', q, shard);
    }
  }

  lemma {:induction false} OfShardIdentity(qs: seq<QueuedEvent>, shard: nat, other: nat)
    requires forall q :: q in qs ==> q.shard == shard
    ensures OfShard(qs, other) == if other == shard then qs else []
  {
    if qs != [] {
      OfShardIdentity(qs[..|qs| - 1], shard, other);
    }
  }

  lemma PushInOrder(s: Shard, i: nat, l: Ledger, q: QueuedEvent)
    requires InOrder(s, i, l) && s.worker != Returned && q.shard == i
    ensures InOrder(Pushed(s, q), i, l.Commit(q))
  {
    OfShardSnoc(l.committed, q, i);
    assert Held(Pushed(s, q)) == Held(s) + [q];
  }

  lemma PushConsistent(shards: seq<Shard>, inflight: nat, l: Ledger, q: QueuedEvent)
    requires Consistent(shards, inflight, false, l) && q.shard < SHARDS
    requires Verdict(shards[q.shard], q.bytes) == NotRefused
    ensures var s := shards[q.shard];
            Consistent(shards[q.shard := Pushed(s, q)], inflight + 1, false,
                       l.Commit(q))
  {
    var s := shards[q.shard];
    var t := Pushed(s, q);
    var next := shards[q.shard := t];
    PushAccounted(s, q);
    LoadSet(shards, q.shard, t);
    assert Held(t) == Held(s) + [q];
    PushInOrder(s, q.shard, l, q);
    forall i | 0 <= i < SHARDS ensures InOrder(next[i], i, l.Commit(q)) {
      if i != q.shard {
        OfShardSnoc(l.committed, q, i);
        assert InOrder(shards[i], i, l);
      }
    }
  }

  lemma ReceiveConsistent(shards: seq<Shard>, inflight: nat, closed: bool, l: Ledger, i: nat)
    requires Consistent(shards, inflight, closed, l) && i < SHARDS
    requires shards[i].worker == Waiting && shards[i].pending != []
    ensures var s := shards[i];
            Consistent(shards[i := Received(s)], inflight, closed, l)
  {
    var s := shards[i];
    var t := Received(s);
    ReceiveAccounted(s);
    assert Held(t) == Held(s);
    LoadSet(shards, i, t);
    assert InOrder(shards[i], i, l);
  }

  lemma FinishInOrder(s: Shard, i: nat, l: Ledger)
    requires InOrder(s, i, l) && s.worker.Delivering?
    ensures InOrder(Finished(s), i, l.Tell(s.worker.q))
    ensures s.worker.q.shard == i
  {
    assert s.worker.q in OfShard(l.committed, i);
    OfShardMembers(l.committed, i);
    OfShardSnoc(l.told, s.worker.q, i);
  }

  lemma TellsWell(s: Shard, i: nat, l: Ledger)
    requires InOrder(s, i, l) && s.worker.Delivering? && Placed(l.committed) && Placed(l.told)
    ensures Placed(l.told + [s.worker.q])
  {
    assert s.worker.q in OfShard(l.committed, i);
    OfShardMembers(l.committed, i);
    var j :| 0 <= j < |l.committed| && l.committed[j] == s.worker.q;
  }

  lemma FinishConsistent(shards: seq<Shard>, inflight: nat, closed: bool, l: Ledger, k: nat)
    requires Consistent(shards, inflight, closed, l) && k < SHARDS && shards[k].worker.Delivering?
    ensures inflight > 0
    ensures var s := shards[k];
            Consistent(shards[k := Finished(s)], inflight - 1, closed,
                       l.Tell(s.worker.q))
  {
    var s := shards[k];
    var q, t := s.worker.q, Finished(s);
    var next, l' := shards[k := t], l.Tell(q);
    assert Held(s) == [q] + Held(t);
    ReleaseAccounted(s, t);
    LoadSet(shards, k, t);
    FinishInOrder(s, k, l);
    forall i | 0 <= i < SHARDS ensures InOrder(next[i], i, l') {
      if i != k {
        OfShardSnoc(l.told, q, i);
        assert InOrder(shards[i], i, l);
      }
    }
  }

  lemma QuitInOrder(s: Shard, i: nat, l: Ledger)
    requires InOrder(s, i, l) && s.worker == Waiting
    ensures InOrder(Shard([], Returned, 0), i, l.Abandon(s.pending))
    ensures forall q :: q in s.pending ==> q.shard == i
  {
    assert Held(s) == s.pending;
    OfShardMembers(l.committed, i);
    forall q | q in s.pending ensures q.shard == i {
      assert q in OfShard(l.committed, i);
    }
    OfShardConcat(l.abandoned, s.pending, i);
    OfShardIdentity(s.pending, i, i);
  }

  lemma AbandonElsewhere(s: Shard, i: nat, l: Ledger, qs: seq<QueuedEvent>, k: nat)
    requires InOrder(s, i, l) && i != k && forall q :: q in qs ==> q.shard == k
    ensures InOrder(s, i, l.Abandon(qs))
  {
    OfShardConcat(l.abandoned, qs, i);
    OfShardIdentity(qs, k, i);
  }

  lemma QuitConsistent(shards: seq<Shard>, inflight: nat, l: Ledger, k: nat)
    requires Consistent(shards, inflight, true, l) && k < SHARDS && shards[k].worker == Waiting
    ensures inflight >= |shards[k].pending|
    ensures Consistent(shards[k := Shard([], Returned, 0)], inflight - |shards[k].pending|, true,
                       l.Abandon(shards[k].pending))
  {
    var s, t := shards[k], Shard([], Returned, 0);
    var next, l' := shards[k := t], l.Abandon(s.pending);
    assert Held(s) == s.pending;
    LoadSet(shards, k, t);
    QuitInOrder(s, k, l);
    forall i | 0 <= i < SHARDS ensures InOrder(next[i], i, l') {
      if i != k {
        assert InOrder(shards[i], i, l);
        AbandonElsewhere(shards[i], i, l, s.pending, k);
      }
    }
  }

  /** The queue's whole invariant, on its fields' values. */
  ghost predicate Sound(d: Dispatcher, shards: seq<Shard>, inflight: nat, closed: bool, l: Ledger) {
    Consistent(shards, inflight, closed, l) && Placed(l.committed) && Placed(l.told) && Clean(d, l.committed)
  }

  lemma QuitKeeps(d: Dispatcher, shards: seq<Shard>, inflight: nat, l: Ledger, k: nat)
    requires Sound(d, shards, inflight, true, l) && k < SHARDS && shards[k].worker == Waiting
    ensures inflight >= |shards[k].pending|
    ensures Sound(d, shards[k := Shard([], Returned, 0)], inflight - |shards[k].pending|, true, l.Abandon(shards[k].pending))
  {
    QuitConsistent(shards, inflight, l, k);
  }

  /** What the operator is told of one (target, alert) is what was committed, in commit
      order and up to what the queue still holds: nothing is committed but untold, short
      of shutdown. */
  lemma ToldInCommitOrder(shards: seq<Shard>, inflight: nat, closed: bool, l: Ledger, key: Key)
    requires Consistent(shards, inflight, closed, l) && Placed(l.committed) && Placed(l.told)
    ensures var k := ShardFor(key.target, key.alert);
            OfKey(l.committed, key) == OfKey(l.told, key)
              + (if shards[k].worker == Returned then OfKey(OfShard(l.abandoned, k), key) else OfKey(Held(shards[k]), key))
  {
    var k := ShardFor(key.target, key.alert);
    assert InOrder(shards[k], k, l);
    KeyWithinShard(l.committed, key, k);
    KeyWithinShard(l.told, key, k);
    if shards[k].worker == Returned {
      OfKeyConcat(OfShard(l.told, k), OfShard(l.abandoned, k), key);
    } else {
      OfKeyConcat(OfShard(l.told, k), Held(shards[k]), key);
    }
  }

  class DispatchQueue {
    const dispatcher: Dispatcher
    var shards: seq<Shard>
    var inflight: nat
    var closed: bool
    var refusals: nat
    ghost var ledger: Ledger

    ghost predicate Valid()
      reads this
    {
      Sound(dispatcher, shards, inflight, closed, ledger)
    }

    constructor (dispatcher: Dispatcher)
      ensures Valid() && ledger == Ledger([], [], []) && !closed && this.dispatcher == dispatcher
    {
      this.dispatcher := dispatcher;
      shards := seq(SHARDS, _ => Shard([], Waiting, 0));
      inflight, closed, refusals := 0, false, 0;
      ledger := Ledger([], [], []);
      new;
      EmptyLoad(shards);
    }

    /** What enqueueDispatch answers: after Close nothing is taken; before, what notifies
        nobody always is, and the rest as its shard's counter and channel allow. */
    ghost predicate Takes(ev: Event)
      requires |shards| == SHARDS
      reads this
    {
      var q := Queued(dispatcher, ev);
      !closed && (dispatcher.wants(q.ev) ==> Verdict(shards[q.shard], q.bytes) == NotRefused)
    }

    /** enqueueDispatch. Before Close, what notifies nobody is taken, and so is any event whose
        shard has room for it or holds nothing. */
    method Offer(ev: Event) returns (taken: bool)
      requires Valid()
      modifies this`shards, this`inflight, this`refusals, this`ledger
      ensures Valid()
      ensures taken == old(Takes(ev))
      ensures ledger == old(ledger).CommitAll(Commitment(dispatcher, ev, taken))
      ensures var sent := Scrub(ev);
              var s := old(shards)[ShardFor(ev.Key().target, ev.Key().alert)];
              taken <==> !closed && (dispatcher.wants(sent) ==>
                && |s.pending| < SHARD_DEPTH
                && (TotalBytes(Held(s)) == 0 || TotalBytes(Held(s)) + dispatcher.size(sent) <= SHARD_BYTES))
      ensures !taken ==> shards == old(shards) && refusals == old(refusals) + 1
    {
      NothingCommitted(ledger);
      if closed {
        refusals := refusals + 1;
        return false;
      }
      var q := Queued(dispatcher, ev);
      if !dispatcher.wants(q.ev) {
        return true;
      }
      ShardIsAccounted(shards, inflight, closed, ledger, q.shard);
      RefusesIffCrowded(shards[q.shard], q.bytes);
      if Verdict(shards[q.shard], q.bytes) != NotRefused {
        refusals := refusals + 1;
        return false;
      }
      Push(q);
      return true;
    }

    method Push(q: QueuedEvent)
      requires Valid() && !closed && q.shard == ShardFor(q.ev.Key().target, q.ev.Key().alert)
      requires q.ev.Anonymous() && dispatcher.wants(q.ev) && Verdict(shards[q.shard], q.bytes) == NotRefused
      modifies this`shards, this`inflight, this`ledger
      ensures Valid() && ledger == old(ledger).Commit(q)
    {
      var s := shards[q.shard];
      PushConsistent(shards, inflight, ledger, q);
      CommitsWell(dispatcher, ledger.committed, q);
      shards := shards[q.shard := Pushed(s, q)];
      inflight := inflight + 1;
      ledger := ledger.Commit(q);
    }

    /** A worker takes the oldest event of its channel. */
    method Receive(i: nat)
      requires Valid() && i < SHARDS && shards[i].worker == Waiting && shards[i].pending != []
      modifies this`shards
      ensures Valid()
      ensures shards == old(shards)[i := Received(old(shards[i]))] && ledger == old(ledger)
    {
      var s := shards[i];
      ReceiveConsistent(shards, inflight, closed, ledger, i);
      shards := shards[i := Received(s)];
    }

    /** The delivery came back, or panicked: either way it is told and released. */
    method Finish(i: nat)
      requires Valid() && i < SHARDS && shards[i].worker.Delivering?
      modifies this`shards, this`inflight, this`ledger
      ensures Valid() && inflight == old(inflight) - 1
      ensures ledger == old(ledger).Tell(old(shards[i].worker.q))
      ensures shards == old(shards)[i := Finished(old(shards[i]))]
    {
      var s := shards[i];
      TellsWell(s, i, ledger);
      FinishConsistent(shards, inflight, closed, ledger, i);
      shards := shards[i := Finished(s)];
      inflight := inflight - 1;
      ledger := ledger.Tell(s.worker.q);
    }

    method Close()
      requires Valid()
      modifies this`closed
      ensures Valid() && closed && ledger == old(ledger)
    {
      closed := true;
    }

    /** A worker that saw quit drains its channel, balancing both counters, and returns. */
    method Quit(i: nat)
      requires Valid() && closed && i < SHARDS && shards[i].worker == Waiting
      modifies this`shards, this`inflight, this`ledger
      ensures Valid() && shards == old(shards)[i := Shard([], Returned, 0)]
      ensures inflight == old(inflight) - |old(shards[i].pending)|
      ensures ledger == old(ledger).Abandon(old(shards[i].pending))
    {
      var rest, next := shards[i].pending, shards[i := Shard([], Returned, 0)];
      ghost var given := ledger.Abandon(rest);
      QuitKeeps(dispatcher, shards, inflight, ledger, i);
      shards, inflight, ledger := next, inflight - |rest|, given;
    }
  }
}
