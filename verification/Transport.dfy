/** The push loop over the real buffer: `Delivery` composed with the sink's specification,
    and the loop's own methods over the ring. */
module Transport {
  import opened Wrappers
  import opened Dedup
  import opened PushSink
  import D = Delivery
  import I = Ingest

  function Withhold(ps: seq<Payload>, markers: bool): (r: seq<Payload>)
    ensures |r| == |ps| && forall i :: 0 <= i < |ps| ==> r[i] == ps[i].Withheld(markers)
  {
    seq(|ps|, i requires 0 <= i < |ps| => ps[i].Withheld(markers))
  }

  // ---------------------------------------------------------------- verdicts

  /** How a push came back, as far as flushOnce tells the answers apart. */
  datatype Verdict =
    | Accepted
    | AuthFailed
    | NotFound
    | Rejected
    | Redirected
    | Unregistered(again: Registration)
    | Unreachable
  datatype Registration = Registered | RegisterAuthFailed | RegisterRefused | RegisterFailed

  predicate Requeues(v: Verdict) {
    v.Redirected? || v.Unregistered? || v.Unreachable?
  }

  function Batch(s: Sink, markers: bool): seq<Payload> {
    Withhold(s.entries[..DrainCount(s, D.LIMIT)], markers)
  }

  /** What one flush makes of the buffer. */
  function AfterFlush(s: Sink, markers: bool, v: Verdict): Sink
    requires s.ringLen > 0 && |s.entries| <= s.ringLen
  {
    var batch := Batch(s, markers);
    if Requeues(v) then AfterRequeue(AfterDrain(s, D.LIMIT), batch) else AfterDrain(s, D.LIMIT)
  }

  /** The first n entries are back at the head, whole but for hops that never leave, and what
      was dropped for them is the newest of the rest. */
  ghost predicate CameBack(was: seq<Payload>, now: seq<Payload>, n: nat, markers: bool, dropped: int) {
    && n <= |was| && 0 <= dropped <= |was| - n && |now| == |was| - dropped
    && (forall i :: 0 <= i < n ==>
          now[i] == if was[i].group == HEALTH_GROUP && !markers then was[i].(hops := Slice([], 0)) else was[i])
    && (forall i :: n <= i < |now| ==> now[i] == was[i] || now[i] == was[i].(hops := Slice([], 0)))
  }

  lemma RequeueBringsBack(s: Sink, markers: bool)
    requires s.ringLen > 0 && |s.entries| <= s.ringLen && s.entries != []
    ensures var n := if |s.entries| > 100 then 100 else |s.entries|;
            var r := AfterRequeue(AfterDrain(s, D.LIMIT), Batch(s, markers));
            CameBack(s.entries, r.entries, n, markers, r.dropped - s.dropped)
  {
    var drained, batch := AfterDrain(s, D.LIMIT), Batch(s, markers);
    var k, d := RequeueMeaning(drained, batch);
    var r := AfterRequeue(drained, batch);
    forall i | |batch| <= i < |r.entries| ensures r.entries[i] == s.entries[i] || r.entries[i] == s.entries[i].(hops := Slice([], 0)) {
      StripOnlyHops(drained.entries, k, i - |batch|);
    }
  }

  /** What a flush of a buffer that holds something comes to. Only an answer that is final
      for these cycles costs them; any other, a lost one above all, brings them back. */
  ghost predicate Flushed(was: Sink, now: Sink, markers: bool, v: Verdict) {
    var n := if |was.entries| > 100 then 100 else |was.entries|;
    if v.Accepted? || v.AuthFailed? || v.NotFound? || v.Rejected?
    then now.entries == was.entries[n..] && now.dropped == was.dropped
    else CameBack(was.entries, now.entries, n, markers, now.dropped - was.dropped)
  }

  lemma FlushMeaning(s: Sink, markers: bool, v: Verdict)
    requires s.ringLen > 0 && |s.entries| <= s.ringLen && s.entries != []
    ensures Flushed(s, AfterFlush(s, markers, v), markers, v)
  {
    RequeueBringsBack(s, markers);
  }

  /** An answer no later push could better: the slave exits for want of its token, or of a
      name the master takes. */
  predicate Exits(v: Verdict) {
    match v
    case AuthFailed => true
    case Unregistered(again) => again == RegisterAuthFailed || again == RegisterRefused
    case _ => false
  }

  method TakeBatch(sink: PushSink) returns (batch: seq<Payload>)
    requires sink.Valid()
    modifies sink, sink.buf
    ensures sink.Valid() && (sink.buf == old(sink.buf) || fresh(sink.buf)) && sink.hopMarkers == old(sink.hopMarkers)
    ensures batch == Batch(old(sink.View()), sink.hopMarkers) && sink.View() == AfterDrain(old(sink.View()), D.LIMIT)
    ensures |batch| == DrainCount(old(sink.View()), D.LIMIT) && (old(sink.entries) == [] <==> batch == [])
    ensures old(sink.entries) == [] ==> sink.View() == old(sink.View())
    ensures sink.size == old(sink.size) - |batch| && (|batch| < D.LIMIT ==> sink.size == 0)
  {
    batch := sink.Drain(D.LIMIT);
  }

  /** A failed push puts its batch back. */
  method PutBack(sink: PushSink, batch: seq<Payload>, ghost drained: Sink)
    requires sink.Valid() && sink.View() == drained
    modifies sink, sink.buf
    ensures sink.Valid() && (sink.buf == old(sink.buf) || fresh(sink.buf)) && sink.hopMarkers == old(sink.hopMarkers)
    ensures sink.View() == AfterRequeue(drained, batch)
  {
    sink.Requeue(batch);
  }

  /** What becomes of a batch once its push is answered. */
  method Answered(sink: PushSink, batch: seq<Payload>, verdict: Verdict) returns (pushed: nat, fatal: bool)
    requires sink.Valid()
    modifies sink, sink.buf
    ensures sink.Valid() && (sink.buf == old(sink.buf) || fresh(sink.buf))
    ensures sink.View() == if Requeues(verdict) then AfterRequeue(old(sink.View()), batch) else old(sink.View())
    ensures verdict.Accepted? ==> sink.size == old(sink.size)
    ensures pushed == (if verdict.Accepted? then |batch| else 0) && fatal == Exits(verdict)
  {
    ghost var drained := sink.View();
    match verdict
    case Accepted =>
      return |batch|, false;
    case AuthFailed =>
      return 0, true;
    case NotFound =>
      return 0, false;
    case Rejected =>
      return 0, false;
    case Redirected =>
      PutBack(sink, batch, drained);
      return 0, false;
    case Unregistered(again) =>
      PutBack(sink, batch, drained);
      return 0, again.RegisterAuthFailed? || again.RegisterRefused?;
    case Unreachable =>
      PutBack(sink, batch, drained);
      return 0, false;
  }

  method FlushOnce(sink: PushSink, verdict: Verdict) returns (pushed: nat, fatal: bool)
    requires sink.Valid()
    modifies sink, sink.buf
    ensures sink.Valid() && (sink.buf == old(sink.buf) || fresh(sink.buf))
    ensures old(sink.entries) == [] ==> pushed == 0 && !fatal && sink.View() == old(sink.View())
    ensures old(sink.entries) != [] ==>
              && sink.View() == AfterFlush(old(sink.View()), old(sink.hopMarkers), verdict)
              && Flushed(old(sink.View()), sink.View(), old(sink.hopMarkers), verdict)
              && pushed == (if verdict.Accepted? then DrainCount(old(sink.View()), D.LIMIT) else 0)
              && (fatal <==> (verdict.AuthFailed? || verdict == Unregistered(RegisterAuthFailed) || verdict == Unregistered(RegisterRefused)))
    ensures verdict.Accepted? ==> sink.size == old(sink.size) - pushed && (pushed < D.LIMIT ==> sink.size == 0)
  {
    var batch := TakeBatch(sink);
    if |batch| == 0 {
      return 0, false;
    }
    FlushMeaning(old(sink.View()), old(sink.hopMarkers), verdict);
    pushed, fatal := Answered(sink, batch, verdict);
  }

  /** FlushOnce, seen by a loop that only counts. */
  method FlushAndCount(sink: PushSink, verdict: Verdict) returns (pushed: nat, fatal: bool)
    requires sink.Valid()
    modifies sink, sink.buf
    ensures sink.Valid() && (sink.buf == old(sink.buf) || fresh(sink.buf))
    ensures pushed <= D.LIMIT && (pushed > 0 ==> verdict.Accepted?)
    ensures fatal <==> old(sink.size) > 0 && Exits(verdict)
    ensures verdict.Accepted? ==> sink.size == old(sink.size) - pushed && (pushed < D.LIMIT ==> sink.size == 0)
  {
    pushed, fatal := FlushOnce(sink, verdict);
  }

  /** One tick of the push loop. It flushes again only after an accepted full batch, so a
      failing batch is never pushed twice in a tick, and with nothing arriving the tick
      ends. */
  method PushTick(sink: PushSink, verdicts: nat -> Verdict) returns (calls: nat, fatal: bool)
    requires sink.Valid()
    modifies sink, sink.buf
    ensures sink.Valid() && calls > 0
    ensures forall k :: 0 <= k < calls - 1 ==> verdicts(k).Accepted?
    ensures (calls - 1) * D.LIMIT <= old(sink.size)
    ensures verdicts(calls - 1).Accepted? ==> sink.size == 0
    ensures fatal <==> old(sink.size) > (calls - 1) * D.LIMIT && Exits(verdicts(calls - 1))
  {
    calls := 0;
    while true
      invariant sink.Valid() && (sink.buf == old(sink.buf) || fresh(sink.buf))
      invariant forall k :: 0 <= k < calls ==> verdicts(k).Accepted?
      invariant sink.size + calls * D.LIMIT == old(sink.size)
      decreases sink.size
    {
      var pushed, bad := FlushAndCount(sink, verdicts(calls));
      calls := calls + 1;
      if bad {
        return calls, true;
      }
      if pushed < D.LIMIT {
        return calls, false;
      }
    }
  }

  // ---------------------------------------------------------------- the composed system

  datatype System = System(sink: Sink, markers: bool, batch: seq<Payload>, flow: D.Flow)

  datatype Input =
    | NewCycle(p: Payload)
    | Send
    | MasterHandles(i: nat, resolved: bool, done: bool)
    | Answer(v: Verdict)
    | Markers(ok: bool)

  function Start(budget: int): System {
    System(Sink([], INITIAL_RING_ENTRIES, budget, 0, 0), false, [], D.START)
  }

  ghost predicate Possible(s: System, x: Input) {
    match x
    case NewCycle(p) => I.WireId(p) !in s.flow.produced
    case Send => !s.flow.flying && s.sink.entries != []
    case MasterHandles(i, _, _) => s.flow.flying && i < |s.batch|
    case Answer(v) => s.flow.flying && (v.Accepted? ==> forall i :: 0 <= i < |s.batch| ==> i in s.flow.handled)
    case Markers(_) => true
  }

  function NextSink(s: System, x: Input): Sink
    requires s.sink.ringLen > 0 && |s.sink.entries| <= s.sink.ringLen
  {
    match x
    case NewCycle(p) => AfterOnCycle(s.sink, p.Withheld(s.markers))
    case Send => AfterDrain(s.sink, D.LIMIT)
    case Answer(v) => if Requeues(v) then AfterRequeue(s.sink, s.batch) else s.sink
    case _ => s.sink
  }

  /** What the step is to the identities: the sink decides how many it evicts. */
  function EventOf(s: System, x: Input): Option<D.Event>
    requires s.sink.ringLen > 0 && |s.sink.entries| <= s.sink.ringLen
    requires NextSink(s, x).dropped >= s.sink.dropped
  {
    var evicted := NextSink(s, x).dropped - s.sink.dropped;
    match x
    case NewCycle(p) => Some(D.Produce(I.WireId(p), evicted))
    case Send => Some(D.Drain)
    case MasterHandles(i, resolved, done) => Some(D.Handle(i, resolved, done))
    case Answer(v) => Some(if Requeues(v) then D.Requeue(evicted) else D.Settle(v.Accepted?))
    case Markers(_) => None
  }

  /** The identities the flow follows are the ones in the buffer and in flight, and the
      sink's drop counter counts the lost ones. */
  ghost predicate Coupled(s: System) {
    && s.sink.ringLen > 0 && |s.sink.entries| <= s.sink.ringLen
    && s.flow.buffer == I.WireIds(s.sink.entries)
    && s.flow.batch == I.WireIds(s.batch)
    && s.sink.dropped == |s.flow.lost|
    && s.flow.tainted <= |s.flow.buffer|
    && (s.flow.flying <==> s.batch != [])
  }

  lemma StrippedIds(ps: seq<Payload>, k: nat)
    ensures I.WireIds(StripFirst(ps, k)) == I.WireIds(ps)
  {
    forall i | 0 <= i < |ps| ensures I.WireIds(StripFirst(ps, k))[i] == I.WireIds(ps)[i] {
      StripOnlyHops(ps, k, i);
    }
  }

  lemma NewCycleIds(s: Sink, p: Payload)
    requires s.ringLen > 0
    ensures var r := AfterOnCycle(s, p);
            var d := r.dropped - s.dropped;
            && 0 <= d <= |s.entries| && |r.entries| <= r.ringLen && r.ringLen > 0
            && I.WireIds(r.entries) == I.WireIds(s.entries)[d..] + [I.WireId(p)]
  {
    var k, d := OnCycleMeaning(s, p);
    StrippedIds(s.entries, k);
  }

  lemma IdsConcat(ps: seq<Payload>, qs: seq<Payload>, n: nat)
    requires n <= |qs|
    ensures I.WireIds(ps + qs[..n]) == I.WireIds(ps) + I.WireIds(qs)[..n]
  {
  }

  lemma RequeueIds(s: Sink, batch: seq<Payload>)
    requires s.ringLen > 0 && batch != []
    ensures var r := AfterRequeue(s, batch);
            var d := r.dropped - s.dropped;
            && 0 <= d <= |s.entries| && |r.entries| <= r.ringLen && r.ringLen > 0
            && I.WireIds(r.entries) == I.WireIds(batch) + I.WireIds(s.entries)[..|s.entries| - d]
  {
    var k, d := RequeueMeaning(s, batch);
    StrippedIds(s.entries, k);
    IdsConcat(batch, StripFirst(s.entries, k), |s.entries| - d);
  }

  lemma SinkNeverForgetsDrops(s: System, x: Input)
    requires Coupled(s)
    ensures NextSink(s, x).dropped >= s.sink.dropped
  {
    match x
    case NewCycle(p) => NewCycleIds(s.sink, p.Withheld(s.markers));
    case Answer(v) =>
      if Requeues(v) && s.batch != [] {
        RequeueIds(s.sink, s.batch);
      }
    case _ =>
  }

  function NextBatch(s: System, x: Input): seq<Payload> {
    match x
    case Send => Batch(s.sink, s.markers)
    case Answer(_) => []
    case _ => s.batch
  }

  ghost function Next(s: System, x: Input): System
    requires Coupled(s) && Possible(s, x)
  {
    SinkNeverForgetsDrops(s, x);
    EventIsEnabled(s, x);
    var e := EventOf(s, x);
    System(NextSink(s, x), if x.Markers? then x.ok else s.markers, NextBatch(s, x),
           if e.Some? then D.Step(s.flow, e.value) else s.flow)
  }

  lemma EventIsEnabled(s: System, x: Input)
    requires Coupled(s) && Possible(s, x) && NextSink(s, x).dropped >= s.sink.dropped
    ensures EventOf(s, x).Some? ==> D.Enabled(s.flow, EventOf(s, x).value)
  {
    match x
    case NewCycle(p) => NewCycleIds(s.sink, p.Withheld(s.markers));
    case Answer(v) =>
      if Requeues(v) {
        RequeueIds(s.sink, s.batch);
      }
    case _ =>
  }

  lemma CycleIsCoupled(s: System, p: Payload)
    requires Coupled(s) && Possible(s, NewCycle(p))
    ensures Coupled(Next(s, NewCycle(p)))
  {
    NewCycleIds(s.sink, p.Withheld(s.markers));
  }

  lemma AnswerIsCoupled(s: System, v: Verdict)
    requires Coupled(s) && Possible(s, Answer(v))
    ensures Coupled(Next(s, Answer(v)))
  {
    if Requeues(v) {
      RequeueIds(s.sink, s.batch);
    }
  }

  /** The buffer's evictions, strips and withheld hops are invisible to the identities:
      every step of the system is one event of the flow. */
  lemma NextIsCoupled(s: System, x: Input)
    requires Coupled(s) && Possible(s, x)
    ensures Coupled(Next(s, x))
  {
    match x
    case NewCycle(p) => CycleIsCoupled(s, p);
    case Send =>
    case MasterHandles(i, resolved, done) =>
    case Answer(v) => AnswerIsCoupled(s, v);
    case Markers(_) =>
  }

  /** Where a run of inputs leads from an empty buffer, with the events it amounts to. */
  ghost function Trace(budget: int, xs: seq<Input>): Option<(System, seq<D.Event>)> {
    if xs == [] then Some((Start(budget), []))
    else
      var x := xs[|xs| - 1];
      match Trace(budget, xs[..|xs| - 1])
      case None => None
      case Some((s, es)) =>
        if Coupled(s) && Possible(s, x) then
          SinkNeverForgetsDrops(s, x);
          Some((Next(s, x), Log(s, es, x)))
        else None
  }

  function Log(s: System, es: seq<D.Event>, x: Input): seq<D.Event>
    requires s.sink.ringLen > 0 && |s.sink.entries| <= s.sink.ringLen
    requires NextSink(s, x).dropped >= s.sink.dropped
  {
    match EventOf(s, x)
    case Some(e) => es + [e]
    case None => es
  }

  lemma StepRefines(s: System, es: seq<D.Event>, x: Input)
    requires Coupled(s) && Possible(s, x) && NextSink(s, x).dropped >= s.sink.dropped
    requires D.After(es) == Some(s.flow)
    ensures D.After(Log(s, es, x)) == Some(Next(s, x).flow)
  {
    EventIsEnabled(s, x);
    match EventOf(s, x)
    case Some(e) => assert (es + [e])[..|es|] == es;
    case None =>
  }

  /** The system refines the flow, whatever the byte budget makes it evict. */
  lemma {:induction false} TraceRefines(budget: int, xs: seq<Input>)
    requires Trace(budget, xs).Some?
    ensures Coupled(Trace(budget, xs).value.0)
    ensures D.After(Trace(budget, xs).value.1) == Some(Trace(budget, xs).value.0.flow)
  {
    if xs != [] {
      var before, x := xs[..|xs| - 1], xs[|xs| - 1];
      TraceRefines(budget, before);
      var (s, es) := Trace(budget, before).value;
      NextIsCoupled(s, x);
      SinkNeverForgetsDrops(s, x);
      StepRefines(s, es, x);
    }
  }

  /** How many deliveries did not return. */
  function FailedHandles(xs: seq<Input>): nat {
    if xs == [] then 0
    else
      var x := xs[|xs| - 1];
      FailedHandles(xs[..|xs| - 1]) + if x.MasterHandles? && x.resolved && !x.done then 1 else 0
  }

  lemma {:induction false} EventsFail(budget: int, xs: seq<Input>)
    requires Trace(budget, xs).Some?
    ensures D.Failures(Trace(budget, xs).value.1) == FailedHandles(xs)
  {
    if xs != [] {
      var before, x := xs[..|xs| - 1], xs[|xs| - 1];
      EventsFail(budget, before);
      var (s, es) := Trace(budget, before).value;
      SinkNeverForgetsDrops(s, x);
      if !x.Markers? {
        var e := EventOf(s, x).value;
        assert (es + [e])[..|es|] == es;
      }
    }
  }

  /** The buffer, the retries and the window together: while few enough deliveries fail to
      return, a cycle that is ever produced reaches the fanout at most once; it is in
      exactly one of the buffer, the batch in flight, the settled batches and the drop
      counter; and if its batch was accepted it reached the fanout unless the master knew
      no target for it. */
  lemma EndToEnd(budget: int, xs: seq<Input>)
    requires Trace(budget, xs).Some?
    requires FailedHandles(xs) <= D.TOLERATED
    ensures var s := Trace(budget, xs).value.0;
            var f := s.flow;
            && D.NoRepeats(f.fanout) && D.NoRepeats(f.produced)
            && multiset(f.produced) ==
               multiset(f.accepted) + multiset(f.discarded) + multiset(f.lost)
               + multiset(I.WireIds(s.batch)) + multiset(I.WireIds(s.sink.entries))
            && s.sink.dropped == |f.lost|
            && forall id :: id in f.accepted ==> id in f.fanout || id in f.skipped
  {
    TraceRefines(budget, xs);
    EventsFail(budget, xs);
    var es := Trace(budget, xs).value.1;
    D.FewFailuresAreCalm(es);
    D.EndToEnd(es);
  }

  // ---------------------------------------------------------------- what is given up

  /** An answer after which the slave gives its batch up: final for these very cycles. */
  predicate GivesUp(x: Input) {
    x.Answer? && (x.v.AuthFailed? || x.v.NotFound? || x.v.Rejected?)
  }

  lemma TraceNext(budget: int, xs: seq<Input>)
    requires Trace(budget, xs).Some? && xs != []
    ensures var before := Trace(budget, xs[..|xs| - 1]);
            && before.Some? && Coupled(before.value.0) && Possible(before.value.0, xs[|xs| - 1])
            && Trace(budget, xs).value.0 == Next(before.value.0, xs[|xs| - 1])
  {
  }

  lemma StepDiscards(s: System, x: Input, id: CycleID)
    requires Coupled(s) && Possible(s, x) && id in Next(s, x).flow.discarded && id !in s.flow.discarded
    ensures GivesUp(x) && id in I.WireIds(s.batch)
  {
    EventIsEnabled(s, x);
  }

  /** Input i gave up a batch that held this cycle. */
  ghost predicate Refused(budget: int, xs: seq<Input>, i: nat, id: CycleID) {
    && i < |xs| && GivesUp(xs[i])
    && Trace(budget, xs[..i]).Some? && id in I.WireIds(Trace(budget, xs[..i]).value.0.batch)
  }

  /** What is discarded was in a batch given such an answer. */
  lemma {:induction false} DiscardedWasRefused(budget: int, xs: seq<Input>, id: CycleID) returns (i: nat)
    requires Trace(budget, xs).Some? && id in Trace(budget, xs).value.0.flow.discarded
    ensures Refused(budget, xs, i, id)
  {
    var n := |xs| - 1;
    TraceNext(budget, xs);
    if id !in Trace(budget, xs[..n]).value.0.flow.discarded {
      StepDiscards(Trace(budget, xs[..n]).value.0, xs[n], id);
      return n;
    }
    i := DiscardedWasRefused(budget, xs[..n], id);
    assert xs[..n][..i] == xs[..i];
  }

  /** So while no answer is final no measurement is lost but to the byte budget: every cycle
      ever produced is accepted, buffered, in flight, or counted as dropped. */
  lemma OnlyTheBudgetLoses(budget: int, xs: seq<Input>)
    requires Trace(budget, xs).Some? && forall i :: 0 <= i < |xs| ==> !GivesUp(xs[i])
    ensures var s := Trace(budget, xs).value.0;
            && s.flow.discarded == [] && s.sink.dropped == |s.flow.lost|
            && multiset(s.flow.produced) ==
               multiset(s.flow.accepted) + multiset(s.flow.lost) + multiset(I.WireIds(s.batch)) + multiset(I.WireIds(s.sink.entries))
  {
    TraceRefines(budget, xs);
    var (s, es) := Trace(budget, xs).value;
    D.RunsConserve(es);
    if s.flow.discarded != [] {
      var i := DiscardedWasRefused(budget, xs, s.flow.discarded[0]);
    }
  }
}
