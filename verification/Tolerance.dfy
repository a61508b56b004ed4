/** How many failed deliveries the window survives, exactly.

    A delivery that does not return gives its slot back but leaves it in the ring, so each
    one ages the rest. `Delivery` shows that TOLERATED of them do no harm. Here one more
    is enough: a run of the slave and the master, its cycles handled in batch order and
    every push cut short at the delivery that failed, in which a cycle reaches the fanout
    twice. */
module Tolerance {
  import opened Wrappers
  import opened Dedup
  import opened Delivery

  // ---------------------------------------------------------------- pushes in batch order

  /** The cycle a push handles next; none once a delivery has failed, or between pushes. */
  function NextCursor(cursor: Option<nat>, e: Event): Option<nat> {
    match e
    case Produce(_, _) => cursor
    case Drain => Some(0)
    case Handle(i, _, _) => if Fails(e) then None else Some(i + 1)
    case Settle(_) => None
    case Requeue(_) => None
  }

  function Cursor(es: seq<Event>): Option<nat> {
    if es == [] then None else NextCursor(Cursor(es[..|es| - 1]), es[|es| - 1])
  }

  /** Each push handles its batch from the front and stops at a delivery that fails. */
  ghost predicate InBatchOrder(es: seq<Event>) {
    forall k :: 0 <= k < |es| && es[k].Handle? ==> Cursor(es[..k]) == Some(es[k].i)
  }

  /** A run with what it comes to. */
  datatype Run = Run(es: seq<Event>, f: Flow, cursor: Option<nat>, failures: nat)

  ghost predicate Real(r: Run) {
    && After(r.es) == Some(r.f) && r.f.tainted <= |r.f.buffer| && InBatchOrder(r.es)
    && Cursor(r.es) == r.cursor && Failures(r.es) == r.failures
    && forall id :: id in r.f.history.released ==> id < |r.f.history.ids|
  }

  ghost predicate Can(r: Run, e: Event) {
    r.f.tainted <= |r.f.buffer| && Enabled(r.f, e) && (e.Handle? ==> r.cursor == Some(e.i))
  }

  ghost function Do(r: Run, e: Event): Run
    requires Can(r, e)
  {
    Run(r.es + [e], Step(r.f, e), NextCursor(r.cursor, e), r.failures + if Fails(e) then 1 else 0)
  }

  lemma DoIsReal(r: Run, e: Event)
    requires Real(r) && Can(r, e)
    ensures Real(Do(r, e))
  {
    var next := r.es + [e];
    assert next[..|r.es|] == r.es;
    forall k | 0 <= k < |next| && next[k].Handle? ensures Cursor(next[..k]) == Some(next[k].i) {
      if k < |r.es| {
        assert next[..k] == r.es[..k];
      }
    }
    ReleasesAreFailures(next);
    RunsConserve(next);
  }

  // ---------------------------------------------------------------- the run, phase by phase

  function Name(k: nat): CycleID {
    CycleID("t", k)
  }

  function Names(lo: nat, hi: nat): (s: seq<CycleID>)
    requires lo <= hi
    ensures |s| == hi - lo && forall i :: 0 <= i < |s| ==> s[i] == Name(lo + i)
  {
    seq(hi - lo, i requires 0 <= i < hi - lo => Name(lo + i))
  }

  /** Between pushes, with the cycles lo to hi buffered and none from hi on produced. */
  ghost predicate Waits(r: Run, lo: nat, hi: nat) {
    && Real(r) && lo <= hi && !r.f.flying && r.f.buffer == Names(lo, hi)
    && forall k: nat :: k >= hi ==> Name(k) !in r.f.produced
  }

  /** In a push that has the whole buffer in flight and has come to cycle i of it. */
  ghost predicate Pushes(r: Run, lo: nat, hi: nat, i: nat) {
    && Real(r) && lo <= hi && i <= hi - lo && r.f.flying && r.f.buffer == [] && r.f.batch == Names(lo, hi)
    && r.cursor == Some(i) && forall k: nat :: k >= hi ==> Name(k) !in r.f.produced
  }

  /** Only the buffer's side moved. */
  predicate SameMaster(r: Run, s: Run) {
    s.f.history == r.f.history && s.f.fanout == r.f.fanout && s.failures == r.failures
  }

  /** A cycle is produced; a full buffer gives up its oldest for it. */
  lemma ProduceOne(r: Run, lo: nat, hi: nat, evicting: bool) returns (s: Run)
    requires Waits(r, lo, hi) && (evicting ==> lo < hi)
    ensures Waits(s, if evicting then lo + 1 else lo, hi + 1) && SameMaster(r, s)
  {
    var e := Produce(Name(hi), if evicting then 1 else 0);
    DoIsReal(r, e);
    s := Do(r, e);
    assert s.f.buffer == Names(if evicting then lo + 1 else lo, hi + 1);
  }

  lemma {:induction false} ProduceMany(r: Run, lo: nat, hi: nat, n: nat) returns (s: Run)
    requires Waits(r, lo, hi)
    ensures Waits(s, lo, hi + n) && SameMaster(r, s)
  {
    s := r;
    if n > 0 {
      s := ProduceMany(r, lo, hi, n - 1);
      s := ProduceOne(s, lo, hi + n - 1, false);
    }
  }

  lemma {:induction false} ReplaceMany(r: Run, lo: nat, hi: nat, n: nat) returns (s: Run)
    requires Waits(r, lo, hi) && lo < hi
    ensures Waits(s, lo + n, hi + n) && SameMaster(r, s)
  {
    s := r;
    if n > 0 {
      s := ReplaceMany(r, lo, hi, n - 1);
      s := ProduceOne(s, lo + n - 1, hi + n - 1, true);
    }
  }

  lemma Send(r: Run, lo: nat, hi: nat) returns (s: Run)
    requires Waits(r, lo, hi) && lo < hi <= lo + LIMIT
    ensures Pushes(s, lo, hi, 0) && SameMaster(r, s)
  {
    DoIsReal(r, Drain);
    s := Do(r, Drain);
    assert s.f.batch == Names(lo, hi);
  }

  /** The acknowledgement is lost, or the push was cut short. */
  lemma ComeBack(r: Run, lo: nat, hi: nat) returns (s: Run)
    requires Real(r) && lo <= hi && r.f.flying && r.f.buffer == [] && r.f.batch == Names(lo, hi)
    requires forall k: nat :: k >= hi ==> Name(k) !in r.f.produced
    ensures Waits(s, lo, hi) && SameMaster(r, s)
  {
    DoIsReal(r, Requeue(0));
    s := Do(r, Requeue(0));
    assert s.f.buffer == Names(lo, hi);
  }

  /** The master knows no target for the first n cycles of the batch. */
  lemma {:induction false} SkipMany(r: Run, lo: nat, hi: nat, n: nat) returns (s: Run)
    requires Pushes(r, lo, hi, 0) && n <= hi - lo
    ensures Pushes(s, lo, hi, n) && SameMaster(r, s)
  {
    if n == 0 {
      s := r;
    } else {
      var m := SkipMany(r, lo, hi, n - 1);
      DoIsReal(m, Handle(n - 1, false, true));
      s := Do(m, Handle(n - 1, false, true));
    }
  }

  /** No slot of this identity is held. */
  ghost predicate Absent(h: History, id: CycleID) {
    forall p :: 0 <= p < |h.ids| && h.ids[p] == id ==> p in h.released
  }

  lemma AbsentIsForgotten(h: History, id: CycleID)
    requires Absent(h, id)
    ensures !h.Remembers(id)
  {
  }

  lemma Deliver(r: Run, lo: nat, hi: nat, i: nat) returns (s: Run)
    requires Pushes(r, lo, hi, i) && i < hi - lo && !r.f.history.Remembers(Name(lo + i))
    ensures Pushes(s, lo, hi, i + 1) && s.failures == r.failures
    ensures s.f.history == r.f.history.Insert(Name(lo + i)) && s.f.fanout == r.f.fanout + [Name(lo + i)]
  {
    DoIsReal(r, Handle(i, true, true));
    s := Do(r, Handle(i, true, true));
  }

  /** A cycle the window still holds is not delivered again. */
  lemma Recognise(r: Run, lo: nat, hi: nat, i: nat) returns (s: Run)
    requires Pushes(r, lo, hi, i) && i < hi - lo && r.f.history.Remembers(Name(lo + i))
    ensures Pushes(s, lo, hi, i + 1) && SameMaster(r, s)
  {
    DoIsReal(r, Handle(i, true, true));
    s := Do(r, Handle(i, true, true));
  }

  /** Slot 0 holds x, nothing else does, and every other identity of [from, to) is absent. */
  ghost predicate Holds(h: History, x: CycleID, from: nat, to: nat) {
    && |h.ids| > 0 && h.ids[0] == x && 0 !in h.released
    && (forall p :: 0 < p < |h.ids| ==> h.ids[p] != x)
    && forall k: nat :: from <= k < to && Name(k) != x ==> Absent(h, Name(k))
  }

  lemma HeldIsRemembered(h: History, x: CycleID, from: nat, to: nat)
    requires Holds(h, x, from, to)
    ensures h.Remembers(x) <==> |h.ids| <= WINDOW
  {
    if |h.ids| <= WINDOW {
      assert h.Live(0);
    }
  }

  /** Delivering the absent cycles i to j of the batch. */
  lemma {:induction false} DeliverMany(r: Run, lo: nat, hi: nat, i: nat, j: nat, x: CycleID) returns (s: Run)
    requires Pushes(r, lo, hi, i) && i <= j <= hi - lo
    requires Holds(r.f.history, x, lo + i, lo + j) && forall k: nat :: lo + i <= k < lo + j ==> Name(k) != x
    ensures Pushes(s, lo, hi, j) && s.failures == r.failures
    ensures |s.f.history.ids| == |r.f.history.ids| + j - i && s.f.history.released == r.f.history.released
    ensures s.f.history.ids[..|r.f.history.ids|] == r.f.history.ids
    ensures forall p :: |r.f.history.ids| <= p < |s.f.history.ids| ==> s.f.history.ids[p] == Name(lo + i + p - |r.f.history.ids|)
    ensures Holds(s.f.history, x, 0, 0) && (x in r.f.fanout ==> x in s.f.fanout)
    decreases j
  {
    if i == j {
      s := r;
    } else {
      var m := DeliverMany(r, lo, hi, i, j - 1, x);
      var id := Name(lo + j - 1);
      forall p | 0 <= p < |m.f.history.ids| && m.f.history.ids[p] == id ensures p in m.f.history.released {
        if p < |r.f.history.ids| {
          assert m.f.history.ids[..|r.f.history.ids|][p] == r.f.history.ids[p];
          assert Absent(r.f.history, id);
        }
      }
      AbsentIsForgotten(m.f.history, id);
      s := Deliver(m, lo, hi, j - 1);
    }
  }

  /** A failed delivery takes a slot and holds nothing by it. */
  lemma FailHolds(h: History, x: CycleID, from: nat, to: nat, y: CycleID)
    requires Holds(h, x, from, to) && y != x && forall p :: p in h.released ==> p < |h.ids|
    ensures Holds(h.Insert(y).Release(y), x, from, to)
  {
  }

  /** One push of x and its followers that fails at the cycle after x. */
  lemma FailOnce(r: Run, lo: nat, hi: nat) returns (s: Run)
    requires Waits(r, lo, hi) && lo + 2 <= hi <= lo + LIMIT
    requires Holds(r.f.history, Name(lo), lo, hi) && |r.f.history.ids| <= WINDOW
    ensures Waits(s, lo, hi) && Holds(s.f.history, Name(lo), lo, hi)
    ensures |s.f.history.ids| == |r.f.history.ids| + 1 && s.failures == r.failures + 1 && s.f.fanout == r.f.fanout
  {
    var x, y := Name(lo), Name(lo + 1);
    var sent := Send(r, lo, hi);
    HeldIsRemembered(r.f.history, x, lo, hi);
    var seen := Recognise(sent, lo, hi, 0);
    AbsentIsForgotten(r.f.history, y);
    FailHolds(r.f.history, x, lo, hi, y);
    DoIsReal(seen, Handle(1, true, false));
    s := ComeBack(Do(seen, Handle(1, true, false)), lo, hi);
  }

  lemma {:induction false} FailMany(r: Run, lo: nat, hi: nat, n: nat) returns (s: Run)
    requires Waits(r, lo, hi) && lo + 2 <= hi <= lo + LIMIT
    requires Holds(r.f.history, Name(lo), lo, hi) && |r.f.history.ids| + n <= WINDOW + 1
    ensures Waits(s, lo, hi) && Holds(s.f.history, Name(lo), lo, hi)
    ensures |s.f.history.ids| == |r.f.history.ids| + n && s.failures == r.failures + n && s.f.fanout == r.f.fanout
  {
    if n == 0 {
      s := r;
    } else {
      var m := FailMany(r, lo, hi, n - 1);
      s := FailOnce(m, lo, hi);
    }
  }

  /** x is delivered last of its batch, the cycles before it were skipped, and the
      acknowledgement is lost. */
  lemma DeliverLast() returns (s: Run)
    ensures Waits(s, 0, LIMIT) && s.failures == 0 && s.f.fanout == [Name(LIMIT - 1)]
    ensures s.f.history == History([Name(LIMIT - 1)], {})
  {
    var start := Run([], START, None, 0);
    assert start.f.buffer == Names(0, 0);
    var r := ProduceMany(start, 0, 0, LIMIT);
    r := Send(r, 0, LIMIT);
    r := SkipMany(r, 0, LIMIT, LIMIT - 1);
    r := Deliver(r, 0, LIMIT, LIMIT - 1);
    s := ComeBack(r, 0, LIMIT);
  }

  lemma HoldsBefore(h: History)
    requires |h.ids| == LIMIT && h.ids[..1] == [Name(LIMIT - 1)] && h.released == {}
    requires forall p :: 1 <= p < |h.ids| ==> h.ids[p] == Name(p - 1)
    ensures Holds(h, Name(LIMIT - 1), LIMIT - 1, 2 * LIMIT - 1)
  {
    assert h.ids[..1][0] == h.ids[0];
  }

  /** The cycles before x are delivered after it, and then evicted for new ones. */
  lemma DeliverBefore() returns (s: Run)
    ensures Waits(s, LIMIT - 1, 2 * LIMIT - 1) && Holds(s.f.history, Name(LIMIT - 1), LIMIT - 1, 2 * LIMIT - 1)
    ensures |s.f.history.ids| == LIMIT && s.failures == 0 && Name(LIMIT - 1) in s.f.fanout
  {
    var x := Name(LIMIT - 1);
    var r := DeliverLast();
    r := Send(r, 0, LIMIT);
    r := DeliverMany(r, 0, LIMIT, 0, LIMIT - 1, x);
    assert r.f.history.ids[..1] == [x];
    r := ComeBack(r, 0, LIMIT);
    HoldsBefore(r.f.history);
    s := ReplaceMany(r, 0, LIMIT, LIMIT - 1);
  }

  /** The cycles after x fill what is left of the window, and x is delivered again. */
  lemma DeliverAgain(r: Run) returns (s: Run)
    requires Waits(r, LIMIT - 1, 2 * LIMIT - 1) && Holds(r.f.history, Name(LIMIT - 1), LIMIT - 1, 2 * LIMIT - 1)
    requires WINDOW - LIMIT + 1 < |r.f.history.ids| <= WINDOW && Name(LIMIT - 1) in r.f.fanout
    ensures Real(s) && s.failures == r.failures && !NoRepeats(s.f.fanout)
  {
    var lo, hi, x := LIMIT - 1, 2 * LIMIT - 1, Name(LIMIT - 1);
    HeldIsRemembered(r.f.history, x, lo, hi);
    s := Send(r, lo, hi);
    s := Recognise(s, lo, hi, 0);
    s := DeliverMany(s, lo, hi, 1, LIMIT, x);
    HeldIsRemembered(s.f.history, x, 0, 0);
    s := ComeBack(s, lo, hi);
    s := Send(s, lo, hi);
    var again := Deliver(s, lo, hi, 0);
    var i :| 0 <= i < |s.f.fanout| && s.f.fanout[i] == x;
    assert again.f.fanout[i] == again.f.fanout[|s.f.fanout|];
    s := again;
  }

  /** One failed delivery more than the window tolerates, and a cycle reaches the fanout
      twice. */
  lemma OneFailureMore() returns (es: seq<Event>)
    ensures After(es).Some? && InBatchOrder(es) && Failures(es) == TOLERATED + 1
    ensures !NoRepeats(After(es).value.fanout)
  {
    var r := DeliverBefore();
    r := FailMany(r, LIMIT - 1, 2 * LIMIT - 1, TOLERATED + 1);
    r := DeliverAgain(r);
    es := r.es;
  }

  // ---------------------------------------------------------------- exactly

  /** No run in which at most n deliveries fail delivers an identity twice. */
  ghost predicate Survives(n: nat) {
    forall es :: After(es).Some? && Failures(es) <= n ==> NoRepeats(After(es).value.fanout)
  }

  /** And none in which pushes are handled in batch order. */
  ghost predicate SurvivesInOrder(n: nat) {
    forall es :: After(es).Some? && InBatchOrder(es) && Failures(es) <= n ==> NoRepeats(After(es).value.fanout)
  }

  /** The window survives n failed deliveries exactly when they and two batches, less the
      cycle itself and one slot, fit in it; whether or not a push keeps to batch order. */
  lemma SurvivesIff(n: nat)
    ensures Survives(n) <==> n <= WINDOW - 2 * LIMIT + 1
    ensures SurvivesInOrder(n) <==> n <= WINDOW - 2 * LIMIT + 1
  {
    if n <= TOLERATED {
      forall es | After(es).Some? && Failures(es) <= n ensures NoRepeats(After(es).value.fanout) {
        FewFailuresAreCalm(es);
        EndToEnd(es);
      }
    } else {
      var es := OneFailureMore();
    }
  }
}
