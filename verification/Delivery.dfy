/** From the slave's buffer to the master's fanout when acknowledgements are lost.

    Delivery is at least once: a batch whose answer never arrives goes back to the head of
    the buffer and is sent again, although the master may have ingested any part of it.
    The window of `Dedup` makes it at most once. `Flow` follows identities only: where
    each one is, what the master remembers, and what reached the fanout. */
module Delivery {
  import opened Wrappers
  import opened Dedup
  import P = PushSink

  // cluster.PushBatchCycles, the slave's batchLimit.
  const LIMIT: nat := 100

  datatype Flow = Flow(
    buffer: seq<CycleID>, flying: bool, batch: seq<CycleID>,
    // the cycles of the batch in flight that the master has finished with
    handled: set<nat>,
    history: History, fanout: seq<CycleID>,
    // ids whose target the master's config did not know when it handled them
    skipped: set<CycleID>,
    produced: seq<CycleID>, accepted: seq<CycleID>, discarded: seq<CycleID>, lost: seq<CycleID>,
    // every id ever sent, in the order of first sending; the first `tainted` of the
    // buffer have been sent before
    posted: seq<CycleID>, tainted: nat)
  {
    /** The cycles that were sent and are not settled. */
    function Front(): seq<CycleID>
      requires tainted <= |buffer|
    {
      if flying then batch else buffer[..tainted]
    }
  }

  const START := Flow([], false, [], {}, EMPTY, [], {}, [], [], [], [], [], 0)

  datatype Event =
    | Produce(id: CycleID, evicted: nat)        // a cycle enters; the oldest may be evicted
    | Drain                                     // a batch leaves for the master
    | Handle(i: nat, resolved: bool, done: bool) // the master handles one cycle of it
    | Settle(ok: bool)                          // acknowledged, or dropped on a verdict
    | Requeue(evicted: nat)                     // goes back; the newest may be evicted

  ghost predicate Enabled(f: Flow, e: Event) {
    match e
    case Produce(id, evicted) => id !in f.produced && evicted <= |f.buffer|
    case Drain => !f.flying && f.buffer != []
    case Handle(i, _, _) => f.flying && i < |f.batch|
    case Settle(ok) => f.flying && (ok ==> forall i :: 0 <= i < |f.batch| ==> i in f.handled)
    case Requeue(evicted) => f.flying && evicted <= |f.buffer|
  }

  /** admit, deliver, and the release of a delivery that did not return. */
  ghost function Handled(f: Flow, i: nat, resolved: bool, done: bool): Flow
    requires i < |f.batch|
  {
    var id := f.batch[i];
    if !resolved then f.(handled := f.handled + {i}, skipped := f.skipped + {id})
    else if f.history.Remembers(id) then f.(handled := f.handled + {i})
    else if done then
      f.(handled := f.handled + {i}, history := f.history.Insert(id), fanout := f.fanout + [id])
    else f.(history := f.history.Insert(id).Release(id))
  }

  ghost function Step(f: Flow, e: Event): Flow
    requires Enabled(f, e) && f.tainted <= |f.buffer|
  {
    match e
    case Produce(id, d) =>
      f.(buffer := f.buffer[d..] + [id], lost := f.lost + f.buffer[..d], produced := f.produced + [id],
         tainted := if d <= f.tainted then f.tainted - d else 0)
    case Drain =>
      var n := if LIMIT < |f.buffer| then LIMIT else |f.buffer|;
      var unsent := if f.tainted <= n then f.buffer[f.tainted..n] else [];
      f.(buffer := f.buffer[n..], flying := true, batch := f.buffer[..n], handled := {},
         posted := f.posted + unsent, tainted := 0)
    case Handle(i, resolved, done) =>
      Handled(f, i, resolved, done)
    case Settle(ok) =>
      if ok then f.(flying := false, batch := [], accepted := f.accepted + f.batch)
      else f.(flying := false, batch := [], discarded := f.discarded + f.batch)
    case Requeue(d) =>
      var keep := |f.buffer| - d;
      f.(buffer := f.batch + f.buffer[..keep], flying := false, batch := [],
         lost := f.lost + f.buffer[keep..], tainted := |f.batch|)
  }

  // ---------------------------------------------------------------- where every cycle is

  ghost function Places(accepted: seq<CycleID>, discarded: seq<CycleID>, lost: seq<CycleID>, batch: seq<CycleID>,
                        buffer: seq<CycleID>): multiset<CycleID>
  {
    multiset(accepted) + multiset(discarded) + multiset(lost) + multiset(batch) + multiset(buffer)
  }

  ghost function Total(f: Flow): multiset<CycleID> {
    Places(f.accepted, f.discarded, f.lost, f.batch, f.buffer)
  }

  ghost predicate NoRepeats(s: seq<CycleID>) {
    forall i, j :: 0 <= i < j < |s| ==> s[i] != s[j]
  }

  /** Every cycle is buffered, in flight, settled or lost, and in one of these only. */
  ghost predicate Conserved(f: Flow) {
    && NoRepeats(f.produced)
    && Total(f) == multiset(f.produced)
    && (!f.flying ==> f.batch == [])
    && f.tainted <= |f.buffer|
  }

  lemma {:induction false} NoRepeatsCounts(s: seq<CycleID>, x: CycleID)
    requires NoRepeats(s)
    ensures multiset(s)[x] <= 1
  {
    if s != [] {
      NoRepeatsCounts(s[1..], x);
      assert s == [s[0]] + s[1..];
      if x == s[0] {
        assert x !in s[1..];
      }
    }
  }

  lemma {:induction false} CountsNoRepeats(s: seq<CycleID>)
    requires forall x :: multiset(s)[x] <= 1
    ensures NoRepeats(s)
  {
    if s != [] {
      assert s == [s[0]] + s[1..];
      assert forall x :: multiset(s)[x] == multiset([s[0]])[x] + multiset(s[1..])[x];
      CountsNoRepeats(s[1..]);
      forall i, j | 0 <= i < j < |s| ensures s[i] != s[j] {
        if i == 0 {
          assert s[j] == s[1..][j - 1] && s[j] in multiset(s[1..]);
        } else {
          assert s[i] == s[1..][i - 1] && s[j] == s[1..][j - 1];
        }
      }
    }
  }

  lemma SplitCount(s: seq<CycleID>, i: nat)
    requires i <= |s|
    ensures multiset(s[..i]) + multiset(s[i..]) == multiset(s)
  {
    assert s == s[..i] + s[i..];
  }

  lemma ProduceConserves(f: Flow, id: CycleID, d: nat)
    requires Conserved(f) && Enabled(f, Produce(id, d))
    ensures Conserved(Step(f, Produce(id, d)))
  {
    SplitCount(f.buffer, d);
  }

  lemma DrainConserves(f: Flow)
    requires Conserved(f) && Enabled(f, Drain)
    ensures Conserved(Step(f, Drain))
  {
    SplitCount(f.buffer, if LIMIT < |f.buffer| then LIMIT else |f.buffer|);
  }

  lemma RequeueMoves(accepted: seq<CycleID>, discarded: seq<CycleID>, lost: seq<CycleID>, batch: seq<CycleID>,
                     buffer: seq<CycleID>, keep: nat)
    requires keep <= |buffer|
    ensures Places(accepted, discarded, lost + buffer[keep..], [], batch + buffer[..keep])
         == Places(accepted, discarded, lost, batch, buffer)
  {
    SplitCount(buffer, keep);
  }

  lemma RequeueConserves(f: Flow, d: nat)
    requires Conserved(f) && Enabled(f, Requeue(d))
    ensures Conserved(Step(f, Requeue(d)))
  {
    RequeueMoves(f.accepted, f.discarded, f.lost, f.batch, f.buffer, |f.buffer| - d);
  }

  lemma StepConserves(f: Flow, e: Event)
    requires Conserved(f) && Enabled(f, e)
    ensures Conserved(Step(f, e))
  {
    match e
    case Produce(id, d) => ProduceConserves(f, id, d);
    case Drain => DrainConserves(f);
    case Handle(i, resolved, done) =>
    case Settle(ok) =>
    case Requeue(d) => RequeueConserves(f, d);
  }

  /** A cycle is in one place at a time. */
  lemma OnePlace(f: Flow, x: CycleID)
    requires Conserved(f)
    ensures Total(f)[x] <= 1
    ensures x in f.batch ==> x !in f.buffer
    ensures NoRepeats(f.batch) && NoRepeats(f.buffer)
  {
    forall y ensures Total(f)[y] <= 1 && multiset(f.batch)[y] <= 1 && multiset(f.buffer)[y] <= 1 {
      NoRepeatsCounts(f.produced, y);
    }
    CountsNoRepeats(f.batch);
    CountsNoRepeats(f.buffer);
  }

  // ---------------------------------------------------------------- sending order

  /** What was sent and is unsettled is exactly the newest stretch of the sending order,
      at most one batch long, and sits at the head of the buffer when not in flight. */
  ghost predicate InOrder(f: Flow)
    requires f.tainted <= |f.buffer|
  {
    var front := f.Front();
    && NoRepeats(f.posted)
    && |front| <= LIMIT && |front| <= |f.posted| && f.posted[|f.posted| - |front|..] == front
    && (f.flying ==> f.tainted == 0)
    && (forall i :: f.tainted <= i < |f.buffer| ==> f.buffer[i] !in f.posted)
    && (forall x :: x in f.posted ==> x in f.produced)
  }

  lemma {:induction false} AppendNoRepeats(s: seq<CycleID>, t: seq<CycleID>)
    requires NoRepeats(s) && NoRepeats(t)
    requires forall x :: x in t ==> x !in s
    ensures NoRepeats(s + t)
  {
    forall i, j | 0 <= i < j < |s + t| ensures (s + t)[i] != (s + t)[j] {
      if i < |s| <= j {
        assert (s + t)[j] == t[j - |s|] && t[j - |s|] in t;
      }
    }
  }

  lemma BufferIsProduced(f: Flow)
    requires Conserved(f)
    ensures forall x :: x in f.buffer ==> x in f.produced
  {
    forall x | x in f.buffer ensures x in f.produced {
      assert x in multiset(f.buffer) && x in Total(f);
    }
  }

  /** Nothing of the unsent stretch [t, n), and nothing behind it, was sent before. */
  lemma UnsentIsNew(buffer: seq<CycleID>, posted: seq<CycleID>, t: nat, n: nat)
    requires NoRepeats(buffer) && NoRepeats(posted) && t <= n <= |buffer|
    requires forall i :: t <= i < |buffer| ==> buffer[i] !in posted
    ensures NoRepeats(posted + buffer[t..n])
    ensures forall i :: n <= i < |buffer| ==> buffer[i] !in posted + buffer[t..n]
  {
    var unsent := buffer[t..n];
    forall j | 0 <= j < |unsent| ensures unsent[j] !in posted {
      assert unsent[j] == buffer[t + j];
    }
    AppendNoRepeats(posted, unsent);
    forall i, j | n <= i < |buffer| && 0 <= j < |unsent| ensures unsent[j] != buffer[i] {
      assert unsent[j] == buffer[t + j];
    }
  }

  lemma DrainInOrder(f: Flow)
    requires Conserved(f) && InOrder(f) && Enabled(f, Drain)
    ensures InOrder(Step(f, Drain))
  {
    var n := if LIMIT < |f.buffer| then LIMIT else |f.buffer|;
    var g := Step(f, Drain);
    OnePlace(f, CycleID("", 0));
    UnsentIsNew(f.buffer, f.posted, f.tainted, n);
    BufferIsProduced(f);
    var k := |f.posted| - f.tainted;
    assert g.batch == f.buffer[..f.tainted] + f.buffer[f.tainted..n];
    assert g.posted[k..] == f.posted[k..] + f.buffer[f.tainted..n];
    forall i | 0 <= i < |g.buffer| ensures g.buffer[i] !in g.posted {
      assert g.buffer[i] == f.buffer[n + i];
    }
  }

  lemma ProduceInOrder(f: Flow, id: CycleID, d: nat)
    requires Conserved(f) && InOrder(f) && Enabled(f, Produce(id, d))
    ensures InOrder(Step(f, Produce(id, d)))
  {
    var g := Step(f, Produce(id, d));
    if !f.flying && d <= f.tainted {
      assert g.Front() == f.Front()[d..];
      assert f.posted[|f.posted| - f.tainted..][d..] == f.posted[|f.posted| - g.tainted..];
    }
    forall i | g.tainted <= i < |g.buffer| ensures g.buffer[i] !in g.posted {
      if i < |f.buffer| - d {
        assert g.buffer[i] == f.buffer[i + d];
      } else {
        assert g.buffer[i] == id;
      }
    }
  }

  lemma HandleInOrder(f: Flow, i: nat, resolved: bool, done: bool)
    requires Conserved(f) && InOrder(f) && Enabled(f, Handle(i, resolved, done))
    ensures var g := Step(f, Handle(i, resolved, done)); g.tainted <= |g.buffer| && InOrder(g)
  {
  }

  lemma SettleInOrder(f: Flow, ok: bool)
    requires Conserved(f) && InOrder(f) && Enabled(f, Settle(ok))
    ensures Step(f, Settle(ok)).tainted <= |Step(f, Settle(ok)).buffer| && InOrder(Step(f, Settle(ok)))
  {
    assert Step(f, Settle(ok)).Front() == [];
  }

  lemma RequeueInOrder(f: Flow, d: nat)
    requires Conserved(f) && InOrder(f) && Enabled(f, Requeue(d))
    ensures Step(f, Requeue(d)).tainted <= |Step(f, Requeue(d)).buffer| && InOrder(Step(f, Requeue(d)))
  {
    var g := Step(f, Requeue(d));
    assert g.Front() == f.Front();
    forall i | g.tainted <= i < |g.buffer| ensures g.buffer[i] !in g.posted {
      assert g.buffer[i] == f.buffer[i - |f.batch|];
    }
  }

  lemma StepInOrder(f: Flow, e: Event)
    requires Conserved(f) && InOrder(f) && Enabled(f, e)
    ensures Step(f, e).tainted <= |Step(f, e).buffer| && InOrder(Step(f, e))
  {
    match e
    case Produce(id, d) => ProduceInOrder(f, id, d);
    case Drain => DrainInOrder(f);
    case Handle(i, resolved, done) => HandleInOrder(f, i, resolved, done);
    case Settle(ok) => SettleInOrder(f, ok);
    case Requeue(d) => RequeueInOrder(f, d);
  }

  /** Positions of two ids in the sending order are less than a batch apart. */
  ghost predicate Close(posted: seq<CycleID>, x: CycleID, y: CycleID) {
    forall a, b :: 0 <= a < |posted| && 0 <= b < |posted| && posted[a] == x && posted[b] == y ==> a - LIMIT < b < a + LIMIT
  }

  /** Everything the master inserted since it inserted a still unsettled cycle was sent
      less than a batch before or after that cycle. */
  ghost predicate Near(f: Flow)
    requires f.tainted <= |f.buffer|
  {
    && (forall p :: 0 <= p < |f.history.ids| ==> f.history.ids[p] in f.posted)
    && forall q, p :: 0 <= q < p < |f.history.ids| && f.history.ids[q] in f.Front() ==>
         Close(f.posted, f.history.ids[q], f.history.ids[p])
  }

  lemma FrontIsClose(f: Flow, x: CycleID, y: CycleID)
    requires f.tainted <= |f.buffer| && InOrder(f) && x in f.Front() && y in f.Front()
    ensures Close(f.posted, x, y)
  {
    var front, posted := f.Front(), f.posted;
    var k := |posted| - |front|;
    forall z | z in front ensures forall a :: 0 <= a < |posted| && posted[a] == z ==> k <= a {
      var i :| 0 <= i < |front| && front[i] == z;
      assert posted[k..][i] == posted[k + i];
    }
  }

  /** Posting other identities moves none already posted. */
  lemma CloseStays(posted: seq<CycleID>, more: seq<CycleID>, x: CycleID, y: CycleID)
    requires Close(posted, x, y) && x in posted && y in posted && NoRepeats(posted + more)
    ensures Close(posted + more, x, y)
  {
    var all := posted + more;
    forall a | 0 <= a < |all| && (all[a] == x || all[a] == y) ensures a < |posted| {
      var z := all[a];
      var a' :| 0 <= a' < |posted| && posted[a'] == z;
      assert all[a'] == z;
    }
  }

  lemma DrainNear(f: Flow)
    requires Conserved(f) && InOrder(f) && Near(f) && Enabled(f, Drain)
    ensures Step(f, Drain).tainted <= |Step(f, Drain).buffer| && Near(Step(f, Drain))
  {
    var g := Step(f, Drain);
    var ids := f.history.ids;
    var n := if LIMIT < |f.buffer| then LIMIT else |f.buffer|;
    forall q, p | 0 <= q < p < |ids| && ids[q] in g.Front() ensures Close(g.posted, ids[q], ids[p]) {
      var i :| 0 <= i < n && f.buffer[i] == ids[q];
      assert i < f.tainted;
      assert f.buffer[..f.tainted][i] == ids[q] && ids[q] in f.Front();
      assert Close(f.posted, ids[q], ids[p]);
      DrainInOrder(f);
      CloseStays(f.posted, if f.tainted <= n then f.buffer[f.tainted..n] else [], ids[q], ids[p]);
    }
  }

  lemma HandleNear(f: Flow, i: nat, resolved: bool, done: bool)
    requires Conserved(f) && InOrder(f) && Near(f) && Enabled(f, Handle(i, resolved, done))
    ensures Near(Step(f, Handle(i, resolved, done)))
  {
    var g := Step(f, Handle(i, resolved, done));
    var ids := f.history.ids;
    assert f.batch[i] in f.Front();
    assert f.batch[i] in f.posted by {
      var front, k := f.Front(), |f.posted| - |f.batch|;
      assert f.posted[k..][i] == f.posted[k + i];
    }
    forall q, p | 0 <= q < p < |g.history.ids| && g.history.ids[q] in g.Front()
      ensures Close(g.posted, g.history.ids[q], g.history.ids[p])
    {
      if p == |ids| {
        FrontIsClose(f, ids[q], f.batch[i]);
      }
    }
  }

  lemma StepNear(f: Flow, e: Event)
    requires Conserved(f) && InOrder(f) && Near(f) && Enabled(f, e)
    ensures Step(f, e).tainted <= |Step(f, e).buffer| && Near(Step(f, e))
  {
    var g := Step(f, e);
    match e
    case Produce(id, d) =>
      forall x | x in g.Front() ensures x in f.Front() {
        if !f.flying {
          var i :| 0 <= i < g.tainted && g.buffer[i] == x;
          assert f.buffer[..f.tainted][i + d] == x;
        }
      }
    case Drain => DrainNear(f);
    case Handle(i, resolved, done) => HandleNear(f, i, resolved, done);
    case Settle(ok) =>
    case Requeue(d) =>
      assert g.Front() == f.Front();
  }

  // ---------------------------------------------------------------- at most once

  /** Released slots among the last WINDOW insertions: deliveries that did not return. */
  ghost function RecentReleases(h: History): set<nat> {
    set p | p in h.released && |h.ids| <= p + WINDOW
  }

  // As many failed deliveries as the window can hold beside what was sent around a cycle.
  const TOLERATED: nat := WINDOW - 2 * LIMIT + 1

  /** Few enough deliveries failed to return that the window still covers what can be
      sent again. With a fanout that always returns there are none. */
  ghost predicate Calm(h: History) {
    |RecentReleases(h)| <= TOLERATED
  }

  ghost predicate Once(f: Flow) {
    var h := f.history;
    && NoRepeats(f.fanout)
    && (forall p :: p in h.released ==> p < |h.ids|)
    && (forall p :: 0 <= p < |h.ids| && p !in h.released ==> h.ids[p] in f.fanout)
    && (forall x :: x in f.fanout ==> exists p :: 0 <= p < |h.ids| && p !in h.released && h.ids[p] == x)
    && (forall p, q :: 0 <= p < q < |h.ids| && p !in h.released && q !in h.released ==> h.ids[p] != h.ids[q])
  }

  ghost function Interval(lo: nat, hi: nat): (s: set<nat>)
    requires lo <= hi
    ensures |s| == hi - lo && forall k: nat :: k in s <==> lo <= k < hi
    decreases hi
  {
    if lo == hi then {} else Interval(lo, hi - 1) + {hi - 1}
  }

  ghost function Rank(posted: seq<CycleID>, x: CycleID): (a: nat)
    requires x in posted
    ensures a < |posted| && posted[a] == x
  {
    var a :| 0 <= a < |posted| && posted[a] == x;
    a
  }

  /** Insertions, by the order their ids were sent in. */
  ghost function Ranks(f: Flow, ps: set<nat>): (m: map<nat, nat>)
    requires forall k :: k in ps ==> k < |f.history.ids| && f.history.ids[k] in f.posted
  {
    map k | k in ps :: Rank(f.posted, f.history.ids[k])
  }

  /** Unreleased insertions are of distinct ids, so those around one id are few. */
  lemma FewAround(f: Flow, ps: set<nat>, a: nat)
    requires Once(f) && forall k :: k in ps ==> k < |f.history.ids| && k !in f.history.released && f.history.ids[k] in f.posted
    requires forall k :: k in ps ==> a - LIMIT < Rank(f.posted, f.history.ids[k]) < a + LIMIT
    ensures |ps| <= 2 * LIMIT - 1
  {
    var ranks, ids := Ranks(f, ps), f.history.ids;
    forall j, k | j in ranks && k in ranks && ranks[j] == ranks[k] ensures j == k {
      assert ids[j] == f.posted[ranks[j]] == ids[k];
    }
    InjectionIsBounded(ranks, if a + 1 < LIMIT then 0 else a + 1 - LIMIT, a + LIMIT);
    assert ranks.Keys == ps;
  }

  /** Unreleased insertions after an unsettled cycle's are of other ids, all distinct and
      sent less than a batch from it, so they are fewer than two batches less one. */
  lemma FewInsertionsSince(f: Flow, p: nat, lo: nat)
    requires f.tainted <= |f.buffer| && Near(f) && Once(f)
    requires p < lo <= |f.history.ids| && p !in f.history.released && f.history.ids[p] in f.Front()
    ensures |Interval(lo, |f.history.ids|) - f.history.released| <= 2 * LIMIT - 2
  {
    var h := f.history;
    var since, a := Interval(lo, |h.ids|) - h.released, Rank(f.posted, h.ids[p]);
    forall k | k in since + {p} ensures a - LIMIT < Rank(f.posted, h.ids[k]) < a + LIMIT {
      assert k != p ==> Close(f.posted, h.ids[p], h.ids[k]);
    }
    FewAround(f, since + {p}, a);
  }

  lemma WindowSplits(h: History)
    requires |h.ids| >= WINDOW && forall p :: p in h.released ==> p < |h.ids|
    ensures |Interval(|h.ids| - WINDOW, |h.ids|) - h.released| + |RecentReleases(h)| == WINDOW
  {
    var last := Interval(|h.ids| - WINDOW, |h.ids|);
    assert last == (last - h.released) + RecentReleases(h);
  }

  /** An unsettled cycle's insertion is still in the window. */
  lemma FrontIsInWindow(f: Flow, p: nat)
    requires f.tainted <= |f.buffer| && Near(f) && Once(f) && Calm(f.history)
    requires p < |f.history.ids| && p !in f.history.released && f.history.ids[p] in f.Front()
    ensures |f.history.ids| <= p + WINDOW
  {
    var h := f.history;
    assert |RecentReleases(h)| <= TOLERATED;
    if |h.ids| > p + WINDOW {
      FewInsertionsSince(f, p, |h.ids| - WINDOW);
      WindowSplits(h);
    }
  }

  /** A cycle that reached the fanout is recognised for as long as it can be sent again. */
  lemma FrontIsRemembered(f: Flow, x: CycleID)
    requires f.tainted <= |f.buffer| && Near(f) && Once(f) && Calm(f.history)
    requires x in f.Front() && x in f.fanout
    ensures f.history.Remembers(x)
  {
    var h := f.history;
    var p :| 0 <= p < |h.ids| && p !in h.released && h.ids[p] == x;
    FrontIsInWindow(f, p);
    assert h.Live(p);
  }

  lemma InsertIsNew(f: Flow, i: nat)
    requires f.tainted <= |f.buffer| && Near(f) && Once(f) && Calm(f.history)
    requires f.flying && i < |f.batch| && !f.history.Remembers(f.batch[i])
    ensures f.batch[i] !in f.fanout
  {
    if f.batch[i] in f.fanout {
      FrontIsRemembered(f, f.batch[i]);
    }
  }

  lemma InsertOnce(f: Flow, i: nat)
    requires Once(f) && i < |f.batch| && !f.history.Remembers(f.batch[i]) && f.batch[i] !in f.fanout
    ensures Once(Handled(f, i, true, true))
  {
    var x, h, g := f.batch[i], f.history, Handled(f, i, true, true);
    forall y | y in g.fanout ensures exists p :: 0 <= p < |g.history.ids| && p !in g.history.released && g.history.ids[p] == y {
      if y in f.fanout {
        var p :| 0 <= p < |h.ids| && p !in h.released && h.ids[p] == y;
        assert g.history.ids[p] == y;
      } else {
        assert g.history.ids[|h.ids|] == y;
      }
    }
  }

  lemma ReleaseOnce(f: Flow, i: nat)
    requires Once(f) && i < |f.batch| && !f.history.Remembers(f.batch[i]) && f.batch[i] !in f.fanout
    ensures Once(Handled(f, i, true, false))
  {
    var h, r := f.history, Handled(f, i, true, false);
    forall y | y in r.fanout ensures exists p :: 0 <= p < |r.history.ids| && p !in r.history.released && r.history.ids[p] == y {
      var p :| 0 <= p < |h.ids| && p !in h.released && h.ids[p] == y;
      assert r.history.ids[p] == y;
    }
  }

  lemma StepOnce(f: Flow, e: Event)
    requires Conserved(f) && InOrder(f) && Near(f) && Once(f) && Calm(f.history) && Enabled(f, e)
    ensures Once(Step(f, e))
  {
    match e
    case Handle(i, resolved, done) =>
      if resolved && !f.history.Remembers(f.batch[i]) {
        InsertIsNew(f, i);
        InsertOnce(f, i);
        ReleaseOnce(f, i);
      }
    case _ =>
  }

  /** What the master finished with reached the fanout or had no target. */
  ghost predicate Reported(f: Flow) {
    && (forall i :: i in f.handled && i < |f.batch| ==> f.batch[i] in f.fanout || f.batch[i] in f.skipped)
    && (forall x :: x in f.accepted ==> x in f.fanout || x in f.skipped)
  }

  lemma StepReported(f: Flow, e: Event)
    requires Once(f) && Reported(f) && Enabled(f, e) && f.tainted <= |f.buffer|
    ensures Reported(Step(f, e))
  {
    match e
    case Handle(i, resolved, done) =>
      if resolved && f.history.Remembers(f.batch[i]) {
        var p: nat :| f.history.Live(p) && f.history.ids[p] == f.batch[i];
        assert f.history.ids[p] in f.fanout;
      }
    case _ =>
  }

  // ---------------------------------------------------------------- whole runs

  /** Where a run of events leads, if each was possible when it happened. */
  ghost function After(es: seq<Event>): Option<Flow> {
    if es == [] then Some(START)
    else
      var e := es[|es| - 1];
      match After(es[..|es| - 1])
      case None => None
      case Some(f) => if f.tainted <= |f.buffer| && Enabled(f, e) then Some(Step(f, e)) else None
  }

  lemma {:induction false} RunsConserve(es: seq<Event>)
    requires After(es).Some?
    ensures var f := After(es).value;
            Conserved(f) && InOrder(f) && Near(f)
  {
    if es != [] {
      var before, e := es[..|es| - 1], es[|es| - 1];
      RunsConserve(before);
      StepConserves(After(before).value, e);
      StepInOrder(After(before).value, e);
      StepNear(After(before).value, e);
    }
  }

  ghost predicate CalmRun(es: seq<Event>) {
    forall k :: 0 <= k <= |es| && After(es[..k]).Some? ==> Calm(After(es[..k]).value.history)
  }

  /** Under lost acknowledgements, arbitrary retries, evictions at either end and
      deliveries that fail to return: no identity reaches the fanout twice, every cycle is
      in exactly one place, and an accepted cycle did reach the fanout unless the master
      knew no target for it. */
  lemma {:induction false} EndToEnd(es: seq<Event>)
    requires After(es).Some? && CalmRun(es)
    ensures var f := After(es).value;
            && Once(f) && NoRepeats(f.fanout)
            && Total(f) == multiset(f.produced) && NoRepeats(f.produced)
            && Reported(f)
  {
    RunsConserve(es);
    if es != [] {
      var before, e := es[..|es| - 1], es[|es| - 1];
      assert forall k :: 0 <= k <= |before| ==> before[..k] == es[..k];
      EndToEnd(before);
      RunsConserve(before);
      assert before[..|before|] == before;
      StepOnce(After(before).value, e);
      StepReported(After(before).value, e);
    }
  }

  predicate Fails(e: Event) {
    e.Handle? && e.resolved && !e.done
  }

  /** How many deliveries of the run did not return. */
  function Failures(es: seq<Event>): nat {
    if es == [] then 0 else Failures(es[..|es| - 1]) + if Fails(es[|es| - 1]) then 1 else 0
  }

  lemma {:induction false} FailuresGrow(es: seq<Event>, k: nat)
    requires k <= |es|
    ensures Failures(es[..k]) <= Failures(es)
  {
    if k == |es| {
      assert es[..k] == es;
    } else {
      FailuresGrow(es[..|es| - 1], k);
      assert es[..|es| - 1][..k] == es[..k];
    }
  }

  /** A failed delivery releases its own slot; older slots of its identity are released
      already or out of the window. */
  lemma FailureReleasesOne(h: History, id: CycleID)
    requires !h.Remembers(id) && forall p :: p in h.released ==> p < |h.ids|
    ensures |RecentReleases(h.Insert(id).Release(id))| <= |RecentReleases(h)| + 1
  {
    var next := h.Insert(id).Release(id);
    assert forall p: nat :: h.Live(p) ==> h.ids[p] != id;
    var most, now := RecentReleases(h) + {|h.ids|}, RecentReleases(next);
    assert most == now + (most - now);
  }

  lemma InsertReleasesNone(h: History, id: CycleID)
    requires forall p :: p in h.released ==> p < |h.ids|
    ensures |RecentReleases(h.Insert(id))| <= |RecentReleases(h)|
  {
    var most, now := RecentReleases(h), RecentReleases(h.Insert(id));
    assert most == now + (most - now);
  }

  lemma {:induction false} ReleasesAreFailures(es: seq<Event>)
    requires After(es).Some?
    ensures var h := After(es).value.history;
            |RecentReleases(h)| <= Failures(es) && forall p :: p in h.released ==> p < |h.ids|
  {
    if es != [] {
      var before, e := es[..|es| - 1], es[|es| - 1];
      ReleasesAreFailures(before);
      var f := After(before).value;
      if e.Handle? && e.resolved && !f.history.Remembers(f.batch[e.i]) {
        FailureReleasesOne(f.history, f.batch[e.i]);
        InsertReleasesNone(f.history, f.batch[e.i]);
      }
    }
  }

  /** A run with few failed deliveries is calm throughout. */
  lemma FewFailuresAreCalm(es: seq<Event>)
    requires After(es).Some? && Failures(es) <= TOLERATED
    ensures CalmRun(es)
  {
    forall k | 0 <= k <= |es| && After(es[..k]).Some? ensures Calm(After(es[..k]).value.history) {
      FailuresGrow(es, k);
      ReleasesAreFailures(es[..k]);
    }
  }
}
