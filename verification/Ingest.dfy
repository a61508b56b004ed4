/** The master's end of a push: resolve each cycle's target, admit its identity once, and
    hand what is admitted to the fanout. */
module Ingest {
  import opened Wrappers
  import opened Dedup
  import opened PushSink
  import D = Delivery

  datatype TargetRef = TargetRef(group: string, name: string, probe: string) {
    function Id(): string { group + "/" + name }
  }

  /** What the fanout receives: identity from the master's config, never from the wire. */
  datatype Cycle = Cycle(target: TargetRef, source: string, time: int)

  function CycleId(c: Cycle): CycleID {
    CycleID(c.target.Id(), c.time)
  }

  /** The flattened key the wire names, whichever way it splits group from name. */
  function WireKey(p: Payload): string {
    p.group + "/" + p.name
  }

  function WireId(p: Payload): CycleID {
    CycleID(WireKey(p), p.time)
  }

  predicate KeyedById(targets: map<string, TargetRef>) {
    forall k :: k in targets ==> targets[k].Id() == k
  }

  /** all[j] is the last target of its id. */
  predicate IsLast(all: seq<TargetRef>, j: nat)
    requires j < |all|
  {
    forall m :: j < m < |all| ==> all[m].Id() != all[j].Id()
  }

  /** The map holds, under each id that occurs, the last target to carry it. */
  ghost predicate Resolves(targets: map<string, TargetRef>, all: seq<TargetRef>) {
    && (forall j :: 0 <= j < |all| ==> all[j].Id() in targets && (IsLast(all, j) ==> targets[all[j].Id()] == all[j]))
    && forall k :: k in targets ==> targets[k] in all && targets[k].Id() == k
  }

  /** A health target shadows a configured one of the same id, and a later one an earlier. */
  method ResolveTargets(configured: seq<TargetRef>, health: seq<TargetRef>) returns (targets: map<string, TargetRef>)
    ensures KeyedById(targets) && Resolves(targets, configured + health)
  {
    targets := map[];
    var all := configured + health;
    ghost var done: seq<TargetRef> := [];
    for i := 0 to |all|
      invariant done == all[..i] && Resolves(targets, done)
    {
      ResolvesNext(targets, done, all[i]);
      targets := targets[all[i].Id() := all[i]];
      done := done + [all[i]];
    }
    assert done == all;
  }

  lemma ResolvesNext(targets: map<string, TargetRef>, all: seq<TargetRef>, t: TargetRef)
    requires Resolves(targets, all)
    ensures Resolves(targets[t.Id() := t], all + [t])
  {
    var longer := all + [t];
    forall j | 0 <= j < |longer|
      ensures longer[j].Id() in targets[t.Id() := t] && (IsLast(longer, j) ==> targets[t.Id() := t][longer[j].Id()] == longer[j])
    {
      if j < |all| {
        assert longer[j] == all[j];
        if IsLast(longer, j) {
          assert longer[|all|] == t && t.Id() != all[j].Id();
          assert forall m :: j < m < |all| ==> longer[m] == all[m];
          assert IsLast(all, j);
        }
      }
    }
  }

  /** The cycles of a batch the fanout gets, given the calls the window has answered: those
      with a known target whose identity the window does not remember at that point. */
  ghost function Delivered(targets: map<string, TargetRef>, source: string, calls: seq<Op>, batch: seq<Payload>): seq<Cycle> {
    if batch == [] then []
    else
      var p := batch[|batch| - 1];
      var rest := batch[..|batch| - 1];
      var before := Delivered(targets, source, calls, rest);
      var key := WireKey(p);
      if key !in targets || Run(Calls(targets, calls, rest)).Remembers(CycleID(targets[key].Id(), p.time)) then before
      else before + [Cycle(targets[key], source, p.time)]
  }

  ghost function Calls(targets: map<string, TargetRef>, calls: seq<Op>, batch: seq<Payload>): seq<Op> {
    if batch == [] then calls
    else
      var p := batch[|batch| - 1];
      var before := Calls(targets, calls, batch[..|batch| - 1]);
      var key := WireKey(p);
      if key in targets then before + [Op.Admit(CycleID(targets[key].Id(), p.time))] else before
  }

  ghost function CallsOf(d: CycleDedup, source: string): seq<Op>
    reads d
  {
    if source in d.calls then d.calls[source] else []
  }

  /** How many cycles of a batch name no target the master knows. */
  function Unknown(targets: map<string, TargetRef>, batch: seq<Payload>): nat {
    if batch == [] then 0
    else Unknown(targets, batch[..|batch| - 1]) + if WireKey(batch[|batch| - 1]) in targets then 0 else 1
  }

  /** The window's answer, as far as the pushing source is concerned. */
  method AdmitCycle(dedup: CycleDedup, registered: Option<set<string>>, source: string, id: CycleID) returns (admitted: bool)
    requires dedup.Valid()
    modifies dedup
    ensures dedup.Valid() && CallsOf(dedup, source) == old(CallsOf(dedup, source)) + [Op.Admit(id)]
    ensures admitted <==> !Run(old(CallsOf(dedup, source))).Remembers(id)
  {
    admitted := dedup.Admit(registered, source, id.target, id.nano);
  }

  /** The identity a cycle is admitted under is its resolved target's. */
  function AdmitOf(targets: map<string, TargetRef>, p: Payload): Op
    requires WireKey(p) in targets
  {
    Op.Admit(CycleID(targets[WireKey(p)].Id(), p.time))
  }

  /** The window would admit this cycle after these calls. */
  ghost predicate IsNew(targets: map<string, TargetRef>, calls: seq<Op>, p: Payload) {
    WireKey(p) in targets && !Run(calls).Remembers(AdmitOf(targets, p).id)
  }

  /** Every delivery of the first k cycles returned. */
  ghost predicate AllReturn(targets: map<string, TargetRef>, calls: seq<Op>, batch: seq<Payload>, k: nat, lost: set<nat>)
    requires k <= |batch|
  {
    forall i :: 0 <= i < k && IsNew(targets, Calls(targets, calls, batch[..i]), batch[i]) ==> i !in lost
  }

  /** What becomes of one cycle: no known target, seen already, delivered, or given back. */
  datatype Fate = Unresolved | Duplicate | Accepted | Released

  ghost function FateOf(targets: map<string, TargetRef>, calls: seq<Op>, p: Payload, back: bool): Fate {
    if WireKey(p) !in targets then Unresolved
    else if !IsNew(targets, calls, p) then Duplicate
    else if back then Accepted else Released
  }

  /** The calls the window answers for one cycle. */
  function CallsFor(targets: map<string, TargetRef>, p: Payload, fate: Fate): seq<Op>
    requires fate != Unresolved ==> WireKey(p) in targets
  {
    match fate
    case Unresolved => []
    case Released => [AdmitOf(targets, p), Op.Forget(AdmitOf(targets, p).id)]
    case _ => [AdmitOf(targets, p)]
  }

  /** What the loop keeps count of. */
  datatype Tally = Tally(fanout: seq<Cycle>, accepted: nat, duplicates: nat) {
    function Count(targets: map<string, TargetRef>, source: string, p: Payload, fate: Fate): Tally
      requires fate != Unresolved ==> WireKey(p) in targets
    {
      match fate
      case Accepted => Tally(fanout + [Cycle(targets[WireKey(p)], source, p.time)], accepted + 1, duplicates)
      case Duplicate => Tally(fanout, accepted, duplicates + 1)
      case _ => this
    }
  }

  /** What the batch has come to after some of its cycles. */
  ghost predicate Ingested(targets: map<string, TargetRef>, source: string, before: seq<Op>, done: seq<Payload>,
                           after: seq<Op>, t: Tally)
  {
    && t.fanout == Delivered(targets, source, before, done) && after == Calls(targets, before, done)
    && t.accepted == |t.fanout| && t.accepted + t.duplicates + Unknown(targets, done) == |done|
  }

  lemma IngestedNext(targets: map<string, TargetRef>, source: string, before: seq<Op>, done: seq<Payload>,
                     after: seq<Op>, t: Tally, p: Payload)
    requires Ingested(targets, source, before, done, after, t)
    ensures var fate := FateOf(targets, after, p, true);
            Ingested(targets, source, before, done + [p], after + CallsFor(targets, p, fate), t.Count(targets, source, p, fate))
  {
    assert (done + [p])[..|done|] == done;
    NoCallAppends(after);
  }

  lemma NoCallAppends(calls: seq<Op>)
    ensures calls + [] == calls
  {
  }

  lemma CallsAppend(calls: seq<Op>, a: Op, b: Op)
    ensures calls + [a] + [b] == calls + [a, b]
  {
  }

  /** deliver: a delivery that does not come back gives its slot back on the way out. */
  method Deliver(dedup: CycleDedup, source: string, id: CycleID, back: bool)
    requires dedup.Valid() && CallsOf(dedup, source) != []
    modifies dedup
    ensures dedup.Valid()
    ensures CallsOf(dedup, source) == old(CallsOf(dedup, source)) + if back then [] else [Op.Forget(id)]
  {
    if !back {
      dedup.Forget(source, id.target, id.nano);
    }
  }

  /** One cycle of the batch. */
  method IngestCycle(dedup: CycleDedup, registered: Option<set<string>>, targets: map<string, TargetRef>,
                     source: string, p: Payload, back: bool) returns (fate: Fate)
    requires dedup.Valid()
    modifies dedup
    ensures dedup.Valid() && fate == FateOf(targets, old(CallsOf(dedup, source)), p, back)
    ensures CallsOf(dedup, source) == old(CallsOf(dedup, source)) + CallsFor(targets, p, fate)
  {
    ghost var calls := CallsOf(dedup, source);
    var key := WireKey(p);
    if key !in targets {
      NoCallAppends(calls);
      return Unresolved;
    }
    var id := CycleID(targets[key].Id(), p.time);
    var admitted := AdmitCycle(dedup, registered, source, id);
    if !admitted {
      return Duplicate;
    }
    CallsAppend(calls, Op.Admit(id), Op.Forget(id));
    NoCallAppends(calls + [Op.Admit(id)]);
    Deliver(dedup, source, id, back);
    fate := if back then Accepted else Released;
  }

  /** The batch as far as cycle k, all of whose deliveries came back. */
  ghost predicate Passed(targets: map<string, TargetRef>, source: string, before: seq<Op>, batch: seq<Payload>, k: nat,
                         lost: set<nat>, after: seq<Op>, t: Tally)
  {
    && k <= |batch| && Ingested(targets, source, before, batch[..k], after, t)
    && AllReturn(targets, before, batch, k, lost)
  }

  lemma PassesNext(targets: map<string, TargetRef>, source: string, before: seq<Op>, batch: seq<Payload>, k: nat,
                   lost: set<nat>, after: seq<Op>, t: Tally, fate: Fate)
    requires Passed(targets, source, before, batch, k, lost, after, t) && k < |batch|
    requires fate == FateOf(targets, after, batch[k], k !in lost) && fate != Released
    ensures Passed(targets, source, before, batch, k + 1, lost, after + CallsFor(targets, batch[k], fate),
                   t.Count(targets, source, batch[k], fate))
  {
    assert batch[..k + 1] == batch[..k] + [batch[k]];
    NoCallAppends(after);
    IngestedNext(targets, source, before, batch[..k], after, t, batch[k]);
  }

  /** ingestBatch: the deliveries of the lost cycles do not come back. The first of them
      ends the batch, and done is the cycles gone through before it. */
  method IngestBatch(dedup: CycleDedup, registered: Option<set<string>>, targets: map<string, TargetRef>,
                     source: string, batch: seq<Payload>, lost: set<nat>)
    returns (accepted: nat, duplicates: nat, fanout: seq<Cycle>, done: nat)
    requires dedup.Valid() && KeyedById(targets)
    modifies dedup
    ensures dedup.Valid() && done <= |batch|
    ensures fanout == Delivered(targets, source, old(CallsOf(dedup, source)), batch[..done])
    ensures AllReturn(targets, old(CallsOf(dedup, source)), batch, done, lost)
    ensures var calls := Calls(targets, old(CallsOf(dedup, source)), batch[..done]);
            if done < |batch| then
              && FateOf(targets, calls, batch[done], done !in lost) == Released
              && CallsOf(dedup, source) == calls + CallsFor(targets, batch[done], Released)
            else
              && CallsOf(dedup, source) == calls
              && accepted == |fanout| && accepted + duplicates + Unknown(targets, batch) == |batch|
  {
    accepted, duplicates, fanout, done := 0, 0, [], 0;
    ghost var before := CallsOf(dedup, source);
    ghost var calls, tally := before, Tally([], 0, 0);
    while done < |batch|
      invariant dedup.Valid() && calls == CallsOf(dedup, source) && tally == Tally(fanout, accepted, duplicates)
      invariant Passed(targets, source, before, batch, done, lost, calls, tally)
    {
      var fate := IngestCycle(dedup, registered, targets, source, batch[done], done !in lost);
      if fate == Released {
        return;
      }
      PassesNext(targets, source, before, batch, done, lost, calls, tally, fate);
      calls, tally := calls + CallsFor(targets, batch[done], fate), tally.Count(targets, source, batch[done], fate);
      match fate {
        case Accepted =>
          fanout := fanout + [Cycle(targets[WireKey(batch[done])], source, batch[done].time)];
          accepted := accepted + 1;
        case Duplicate =>
          duplicates := duplicates + 1;
        case Unresolved =>
      }
      done := done + 1;
    }
    assert batch[..done] == batch;
  }

  function IdsOf(cs: seq<Cycle>): (ids: seq<CycleID>)
    ensures |ids| == |cs| && forall i :: 0 <= i < |cs| ==> ids[i] == CycleId(cs[i])
  {
    seq(|cs|, i requires 0 <= i < |cs| => CycleId(cs[i]))
  }

  /** One more cycle: an unknown one changes nothing, a known one is admitted if new. */
  lemma BatchNext(targets: map<string, TargetRef>, source: string, calls: seq<Op>, done: seq<Payload>, p: Payload)
    ensures var before, sent := Calls(targets, calls, done), Delivered(targets, source, calls, done);
            if WireKey(p) !in targets
            then Calls(targets, calls, done + [p]) == before && Delivered(targets, source, calls, done + [p]) == sent
            else
              var id := CycleID(targets[WireKey(p)].Id(), p.time);
              && Calls(targets, calls, done + [p]) == before + [Op.Admit(id)]
              && Delivered(targets, source, calls, done + [p]) ==
                 if Run(before).Remembers(id) then sent else sent + [Cycle(targets[WireKey(p)], source, p.time)]
  {
    assert (done + [p])[..|done|] == done;
  }

  ghost predicate InsertsWhatItDelivers(before: History, after: History, sent: seq<Cycle>) {
    after.ids == before.ids + IdsOf(sent) && after.released == before.released
  }

  lemma IdsGrow(sent: seq<Cycle>, c: Cycle)
    ensures IdsOf(sent + [c]) == IdsOf(sent) + [CycleId(c)]
  {
  }

  lemma InsertsNext(targets: map<string, TargetRef>, source: string, calls: seq<Op>, done: seq<Payload>, p: Payload)
    requires KeyedById(targets)
    requires InsertsWhatItDelivers(Run(calls), Run(Calls(targets, calls, done)), Delivered(targets, source, calls, done))
    ensures InsertsWhatItDelivers(Run(calls), Run(Calls(targets, calls, done + [p])), Delivered(targets, source, calls, done + [p]))
  {
    BatchNext(targets, source, calls, done, p);
    if WireKey(p) in targets {
      var t := targets[WireKey(p)];
      AdmitRuns(Calls(targets, calls, done), CycleID(t.Id(), p.time));
      IdsGrow(Delivered(targets, source, calls, done), Cycle(t, source, p.time));
    }
  }

  /** The fanout gets exactly what the window inserts, in that order, and only inserts. */
  lemma {:induction false} DeliveredIsInserted(targets: map<string, TargetRef>, source: string, calls: seq<Op>, batch: seq<Payload>)
    requires KeyedById(targets)
    ensures InsertsWhatItDelivers(Run(calls), Run(Calls(targets, calls, batch)), Delivered(targets, source, calls, batch))
    ensures |Delivered(targets, source, calls, batch)| <= |batch|
  {
    if batch == [] {
      assert IdsOf([]) == [];
    } else {
      var p, rest := batch[|batch| - 1], batch[..|batch| - 1];
      DeliveredIsInserted(targets, source, calls, rest);
      InsertsNext(targets, source, calls, rest, p);
      assert rest + [p] == batch;
    }
  }

  /** This cycle was made of this payload: the target the master knows it by, the source that
      pushed it and not one the wire names, and the payload's time. */
  ghost predicate MadeOf(c: Cycle, targets: map<string, TargetRef>, source: string, p: Payload) {
    && p.group + "/" + p.name in targets && c.target == targets[p.group + "/" + p.name]
    && c.source == source && c.time == p.time
  }

  /** Nothing reaches the fanout but cycles of the batch, each stamped so. */
  lemma {:induction false} DeliveredIsStamped(targets: map<string, TargetRef>, source: string, calls: seq<Op>, batch: seq<Payload>, j: nat)
    returns (i: nat)
    requires j < |Delivered(targets, source, calls, batch)|
    ensures i < |batch| && MadeOf(Delivered(targets, source, calls, batch)[j], targets, source, batch[i])
  {
    i := |batch| - 1;
    if j < |Delivered(targets, source, calls, batch[..i])| {
      i := DeliveredIsStamped(targets, source, calls, batch[..i], j);
    }
  }

  lemma AdmitRuns(calls: seq<Op>, id: CycleID)
    ensures var h, next := Run(calls), Run(calls + [Op.Admit(id)]);
            next.released == h.released && next.ids == if h.Remembers(id) then h.ids else h.ids + [id]
  {
    assert (calls + [Op.Admit(id)])[..|calls|] == calls;
  }

  /** No measurement of one batch reaches the fanout twice, however its names are split
      between group and name, and every cycle is stamped with the pushing slave. */
  lemma BatchDeliversOnce(targets: map<string, TargetRef>, source: string, calls: seq<Op>, batch: seq<Payload>, i: nat, j: nat)
    requires KeyedById(targets) && |batch| <= WINDOW
    requires i < j < |Delivered(targets, source, calls, batch)|
    ensures CycleId(Delivered(targets, source, calls, batch)[i]) != CycleId(Delivered(targets, source, calls, batch)[j])
  {
    DeliveredIsInserted(targets, source, calls, batch);
    RunIsSound(calls);
    RunIsSound(Calls(targets, calls, batch));
    var n, h := |Run(calls).ids|, Run(Calls(targets, calls, batch));
    assert h.Live(n + i) && h.Live(n + j);
  }

  /** One call makes its identity the history's, at a position at or after n unless an
      earlier one still protects it. */
  lemma AdmitInserts(calls: seq<Op>, id: CycleID, n: nat) returns (p: nat)
    requires n <= |Run(calls).ids|
    requires forall q: nat :: q < n && Run(calls).Live(q) ==> Run(calls).ids[q] != id
    ensures n <= p < |Run(calls + [Op.Admit(id)]).ids| && Run(calls + [Op.Admit(id)]).ids[p] == id
  {
    assert (calls + [Op.Admit(id)])[..|calls|] == calls;
    var h := Run(calls);
    if h.Remembers(id) {
      p :| h.Live(p) && h.ids[p] == id;
    } else {
      p := |h.ids|;
    }
  }

  /** Every resolved cycle of the batch is remembered afterwards, if it was new before. */
  lemma {:induction false} BatchIsRemembered(targets: map<string, TargetRef>, calls: seq<Op>, batch: seq<Payload>, i: nat)
    returns (p: nat)
    requires KeyedById(targets) && i < |batch| && WireKey(batch[i]) in targets
    requires !Run(calls).Remembers(WireId(batch[i]))
    ensures |Run(calls).ids| <= p < |Run(Calls(targets, calls, batch)).ids|
    ensures Run(Calls(targets, calls, batch)).ids[p] == WireId(batch[i])
    decreases |batch|
  {
    var rest := batch[..|batch| - 1];
    var before, last := Calls(targets, calls, rest), batch[|batch| - 1];
    DeliveredIsInserted(targets, "", calls, rest);
    DeliveredIsInserted(targets, "", calls, batch);
    if i == |rest| {
      RunIsSound(calls);
      forall q: nat | q < |Run(calls).ids| && Run(before).Live(q) ensures Run(before).ids[q] != WireId(last) {
        assert Run(calls).Live(q);
      }
      p := AdmitInserts(before, WireId(last), |Run(calls).ids|);
    } else {
      p := BatchIsRemembered(targets, calls, rest, i);
      if WireKey(last) in targets {
        assert (before + [Op.Admit(WireId(last))])[..|before|] == before;
      }
    }
  }

  /** A batch resent because its acknowledgement was lost delivers nothing. */
  lemma {:induction false} RedeliveryIsSilent(targets: map<string, TargetRef>, source: string, calls: seq<Op>, batch: seq<Payload>, k: nat)
    requires KeyedById(targets) && k <= |batch| <= WINDOW
    requires forall p :: p in batch ==> !Run(calls).Remembers(WireId(p))
    ensures var once := Calls(targets, calls, batch);
            && Delivered(targets, source, once, batch[..k]) == []
            && Run(Calls(targets, once, batch[..k])) == Run(once)
  {
    if k > 0 {
      RedeliveryIsSilent(targets, source, calls, batch, k - 1);
      assert batch[..k][..k - 1] == batch[..k - 1];
      var once, p := Calls(targets, calls, batch), batch[k - 1];
      var key := WireKey(p);
      if key in targets {
        var at := BatchIsRemembered(targets, calls, batch, k - 1);
        DeliveredIsInserted(targets, source, calls, batch);
        RunIsSound(calls);
        assert Run(once).Live(at);
        var before := Calls(targets, once, batch[..k - 1]);
        var op := Op.Admit(CycleID(targets[key].Id(), p.time));
        assert (before + [op])[..|before|] == before;
      }
    }
  }

  // ---------------------------------------------------------------- the flow's end of it

  function WireIds(ps: seq<Payload>): (ids: seq<CycleID>)
    ensures |ids| == |ps| && forall i :: 0 <= i < |ps| ==> ids[i] == WireId(ps[i])
  {
    seq(|ps|, i requires 0 <= i < |ps| => WireId(ps[i]))
  }

  /** Cycle i of a push as an event of the flow. */
  function HandleOf(targets: map<string, TargetRef>, batch: seq<Payload>, i: nat, back: bool): D.Event
    requires i < |batch|
  {
    D.Handle(i, WireKey(batch[i]) in targets, back)
  }

  /** The first k cycles of a push, every delivery of which came back. */
  function Handles(targets: map<string, TargetRef>, batch: seq<Payload>, k: nat): seq<D.Event>
    requires k <= |batch|
  {
    if k == 0 then [] else Handles(targets, batch, k - 1) + [HandleOf(targets, batch, k - 1, true)]
  }

  /** The flow stands where the program does: same window, and the same cycles delivered. */
  ghost predicate Stands(f: D.Flow, batch: seq<Payload>, calls: seq<Op>, fanout: seq<CycleID>) {
    f.flying && f.batch == WireIds(batch) && f.history == Run(calls) && f.fanout == fanout
  }

  /** What the window makes of one cycle. */
  ghost function Admitted(h: History, id: CycleID, resolved: bool, back: bool): History {
    if !resolved || h.Remembers(id) then h else if back then h.Insert(id) else h.Insert(id).Release(id)
  }

  lemma HandleLeaves(f: D.Flow, i: nat, resolved: bool, back: bool)
    requires i < |f.batch|
    ensures var g := D.Handled(f, i, resolved, back);
            && g.flying == f.flying && g.batch == f.batch && g.history == Admitted(f.history, f.batch[i], resolved, back)
            && g.fanout == if resolved && !f.history.Remembers(f.batch[i]) && back then f.fanout + [f.batch[i]] else f.fanout
  {
  }

  lemma FateRuns(targets: map<string, TargetRef>, calls: seq<Op>, p: Payload, back: bool)
    requires KeyedById(targets)
    ensures var fate, resolved := FateOf(targets, calls, p, back), WireKey(p) in targets;
            && Run(calls + CallsFor(targets, p, fate)) == Admitted(Run(calls), WireId(p), resolved, back)
            && (fate == Accepted <==> resolved && !Run(calls).Remembers(WireId(p)) && back)
  {
    var fate := FateOf(targets, calls, p, back);
    NoCallAppends(calls);
    if WireKey(p) in targets {
      var admit := AdmitOf(targets, p);
      assert admit.id == WireId(p);
      RunsOneMore(calls, admit);
      RunsOneMore(calls + [admit], Op.Forget(admit.id));
      CallsAppend(calls, admit, Op.Forget(admit.id));
    }
  }

  lemma AfterHandle(es: seq<D.Event>, i: nat, resolved: bool, back: bool)
    requires D.After(es).Some? && D.After(es).value.flying && i < |D.After(es).value.batch|
    ensures D.After(es + [D.Handle(i, resolved, back)]) == Some(D.Handled(D.After(es).value, i, resolved, back))
  {
    var e := D.Handle(i, resolved, back);
    assert (es + [e])[..|es|] == es;
    D.RunsConserve(es);
  }

  /** One cycle of the program is one event of the flow. */
  lemma CycleIsHandled(es: seq<D.Event>, targets: map<string, TargetRef>, source: string, calls: seq<Op>,
                       batch: seq<Payload>, k: nat, back: bool, fanout: seq<CycleID>, after: seq<Op>, told: seq<CycleID>)
    requires KeyedById(targets) && k < |batch| && D.After(es).Some? && Stands(D.After(es).value, batch, calls, fanout)
    requires after == calls + CallsFor(targets, batch[k], FateOf(targets, calls, batch[k], back))
    requires told == if FateOf(targets, calls, batch[k], back) == Accepted then fanout + [WireId(batch[k])] else fanout
    ensures D.After(es + [HandleOf(targets, batch, k, back)]).Some?
    ensures Stands(D.After(es + [HandleOf(targets, batch, k, back)]).value, batch, after, told)
  {
    var resolved := WireKey(batch[k]) in targets;
    AfterHandle(es, k, resolved, back);
    HandleLeaves(D.After(es).value, k, resolved, back);
    FateRuns(targets, calls, batch[k], back);
  }

  lemma RunsOneMore(calls: seq<Op>, op: Op)
    ensures Run(calls + [op]) == Apply(Run(calls), op)
  {
    assert (calls + [op])[..|calls|] == calls;
  }

  /** What one more cycle of a batch, whose delivery comes back, adds to calls and fanout. */
  lemma FateAdds(targets: map<string, TargetRef>, source: string, calls: seq<Op>, done: seq<Payload>, p: Payload)
    requires KeyedById(targets)
    ensures var before := Calls(targets, calls, done);
            var fate := FateOf(targets, before, p, true);
            && Calls(targets, calls, done + [p]) == before + CallsFor(targets, p, fate)
            && IdsOf(Delivered(targets, source, calls, done + [p])) ==
               IdsOf(Delivered(targets, source, calls, done)) + if fate == Accepted then [WireId(p)] else []
  {
    BatchNext(targets, source, calls, done, p);
    var sent := Delivered(targets, source, calls, done);
    NoCallAppends(Calls(targets, calls, done));
    assert IdsOf(sent) + [] == IdsOf(sent);
    if WireKey(p) in targets {
      IdsGrow(sent, Cycle(targets[WireKey(p)], source, p.time));
    }
  }

  /** The flow's events for a push come to exactly what the program does with it: the same
      window, and the same cycles to the fanout in the same order. */
  lemma {:induction false} IngestIsHandling(es: seq<D.Event>, targets: map<string, TargetRef>, source: string, calls: seq<Op>,
                                            batch: seq<Payload>, k: nat)
    requires KeyedById(targets) && k <= |batch| && D.After(es).Some?
    requires D.After(es).value.flying && D.After(es).value.batch == WireIds(batch) && D.After(es).value.history == Run(calls)
    ensures D.After(es + Handles(targets, batch, k)).Some?
    ensures Stands(D.After(es + Handles(targets, batch, k)).value, batch, Calls(targets, calls, batch[..k]),
                   D.After(es).value.fanout + IdsOf(Delivered(targets, source, calls, batch[..k])))
  {
    var sent := D.After(es).value.fanout;
    if k == 0 {
      assert es + [] == es;
      assert sent + [] == sent;
    } else {
      HandlesExtend(es, targets, batch, k);
      IngestIsHandling(es, targets, source, calls, batch, k - 1);
      CycleAdds(es + Handles(targets, batch, k - 1), targets, source, calls, batch[..k - 1], batch, k - 1, sent);
    }
  }

  lemma HandlesExtend(es: seq<D.Event>, targets: map<string, TargetRef>, batch: seq<Payload>, k: nat)
    requires 0 < k <= |batch|
    ensures es + Handles(targets, batch, k) == es + Handles(targets, batch, k - 1) + [HandleOf(targets, batch, k - 1, true)]
    ensures batch[..k] == batch[..k - 1] + [batch[k - 1]]
  {
  }

  lemma CycleAdds(events: seq<D.Event>, targets: map<string, TargetRef>, source: string, calls: seq<Op>, done: seq<Payload>,
                  batch: seq<Payload>, k: nat, sent: seq<CycleID>)
    requires KeyedById(targets) && k < |batch| && D.After(events).Some?
    requires Stands(D.After(events).value, batch, Calls(targets, calls, done), sent + IdsOf(Delivered(targets, source, calls, done)))
    ensures D.After(events + [HandleOf(targets, batch, k, true)]).Some?
    ensures Stands(D.After(events + [HandleOf(targets, batch, k, true)]).value, batch, Calls(targets, calls, done + [batch[k]]),
                   sent + IdsOf(Delivered(targets, source, calls, done + [batch[k]])))
  {
    var before, ids := Calls(targets, calls, done), IdsOf(Delivered(targets, source, calls, done));
    FateAdds(targets, source, calls, done, batch[k]);
    FanoutGrows(sent, ids, WireId(batch[k]));
    CycleIsHandled(events, targets, source, before, batch, k, true, sent + ids, Calls(targets, calls, done + [batch[k]]),
                   sent + IdsOf(Delivered(targets, source, calls, done + [batch[k]])));
  }

  lemma FanoutGrows(sent: seq<CycleID>, more: seq<CycleID>, id: CycleID)
    ensures sent + more + [id] == sent + (more + [id]) && sent + (more + []) == sent + more
  {
    assert more + [] == more;
  }
}
