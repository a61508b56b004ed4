/** A run of the evaluator: the calls that reached its state machine, the events they offered
    to the delivery queue, and what the operator hears of one (target, alert) in the end. */
module Notices {
  import opened Wrappers
  import opened Replay
  import opened Alerting
  import opened Dispatch

  datatype Alert = Alert(sustained: int, quorum: Quorum)

  datatype Config = Config(interval: int, alerts: map<string, Alert>)

  datatype Measured = Measured(time: int, target: Target, alerts: seq<string>, source: string, sent: int,
                               hops: seq<string>, samples: seq<string>)

  /** One cycle as it reaches the state machine: the live config, the receive clock, the
      alerts whose condition parsed, and those whose condition holds on this cycle. */
  datatype Call = Call(cfg: Config, cy: Measured, now: int, known: set<string>, triggered: set<string>)

  predicate Evaluable(c: Call) {
    c.cy.sent != 0 && c.cy.alerts != [] && c.now - c.cy.time <= AlertFreshness(c.cfg.interval)
  }

  predicate Watches(c: Call, name: string) {
    name in c.cfg.alerts && name in c.known
  }

  function InputFor(c: Call, name: string, taken: bool): Input
    requires name in c.cfg.alerts
  {
    var a := c.cfg.alerts[name];
    Input(Alerting.Key(c.cy.target.Id(), name), c.cy.source, c.cy.time, c.now, c.cfg.interval,
          a.sustained, a.quorum, name in c.triggered, taken)
  }

  /** The event a transition is dispatched as. */
  function EventFor(c: Call, name: string, t: Transition, sources: set<string>): (ev: Event)
    ensures ev.Key() == Alerting.Key(c.cy.target.Id(), name) && ev.change == t && ev.source == c.cy.source
  {
    Event(c.cy.target, name, c.cy.source, c.cy.time, t, sources, c.cy.hops, c.cy.samples)
  }

  /** The event one step offers to the queue, if it offers any. */
  function OfferedEvent(b: Book, c: Call, name: string): Option<Event>
    requires name in c.cfg.alerts
  {
    var x := InputFor(c, name, true);
    match Offered(b, x)
    case None => None
    case Some(t) =>
      Some(EventFor(c, name, t, FiringSources(Judged(b, x), x.now, AlertFreshness(x.interval)) - {""}))
  }

  /** Whether the queue takes the transition is an outcome: nothing before it depends on it. */
  lemma TakenIsAnOutcome(b: Book, c: Call, name: string, taken: bool)
    requires name in c.cfg.alerts
    ensures var x, y := InputFor(c, name, taken), InputFor(c, name, true);
            && Judge(EntryOf(b, x.key, x.source), x) == Judge(EntryOf(b, y.key, y.source), y)
            && Judged(b, x) == Judged(b, y) && WarmupOf(b, x) == WarmupOf(b, y)
            && NextAgg(b, x) == NextAgg(b, y) && Offered(b, x) == Offered(b, y)
  {
    var x, y := InputFor(c, name, taken), InputFor(c, name, true);
    assert Judge(EntryOf(b, x.key, x.source), x) == Judge(EntryOf(b, y.key, y.source), y);
    assert Judged(b, x) == Judged(b, y);
    assert NextAgg(b, x) == NextAgg(b, y);
  }

  // ---------------------------------------------------------------- moves

  /** One alert judged on one cycle, with the queue's answer, or a reload of the quorum modes. */
  datatype Move = Evaluated(c: Call, name: string, taken: bool) | Reloaded(changed: set<string>)

  ghost predicate Watched(ms: seq<Move>) {
    forall i :: 0 <= i < |ms| && ms[i].Evaluated? ==> Watches(ms[i].c, ms[i].name)
  }

  function TurnOf(m: Move): Turn
    requires m.Evaluated? ==> Watches(m.c, m.name)
  {
    match m
    case Evaluated(c, name, taken) => Cycle(InputFor(c, name, taken))
    case Reloaded(changed) => Reload(changed)
  }

  ghost function Turns(ms: seq<Move>): (ts: seq<Turn>)
    requires Watched(ms)
    ensures |ts| == |ms|
  {
    if ms == [] then [] else Turns(ms[..|ms| - 1]) + [TurnOf(ms[|ms| - 1])]
  }

  /** What a move on a book commits to the queue. */
  function Committing(d: Dispatcher, b: Book, m: Move): seq<QueuedEvent>
    requires m.Evaluated? ==> Watches(m.c, m.name)
  {
    match m
    case Evaluated(c, name, taken) => CommittedOffer(d, OfferedEvent(b, c, name), taken)
    case Reloaded(_) => []
  }

  function CommittedOffer(d: Dispatcher, offer: Option<Event>, taken: bool): seq<QueuedEvent> {
    match offer
    case Some(ev) => Commitment(d, ev, taken)
    case None => []
  }

  /** The ledger once an offer was answered. */
  function Booked(l: Ledger, d: Dispatcher, offer: Option<Event>, taken: bool): Ledger {
    l.CommitAll(CommittedOffer(d, offer, taken))
  }

  lemma NoOfferBooksNothing(l: Ledger, d: Dispatcher)
    ensures forall taken :: Booked(l, d, None, taken) == l
  {
  }

  /** Everything a run commits, in order. */
  ghost function Committed(d: Dispatcher, ms: seq<Move>): seq<QueuedEvent>
    requires Watched(ms)
  {
    if ms == [] then []
    else
      var before := ms[..|ms| - 1];
      Committed(d, before) + Committing(d, After(Turns(before)), ms[|ms| - 1])
  }

  lemma MoveExtends(d: Dispatcher, ms: seq<Move>, m: Move)
    requires Watched(ms) && (m.Evaluated? ==> Watches(m.c, m.name))
    ensures Watched(ms + [m]) && Turns(ms + [m]) == Turns(ms) + [TurnOf(m)]
    ensures Committed(d, ms + [m]) == Committed(d, ms) + Committing(d, After(Turns(ms)), m)
  {
    assert (ms + [m])[..|ms|] == ms;
  }

  /** The moves one call makes for the given names, whatever the queue answered. */
  ghost predicate MovesFor(ms: seq<Move>, c: Call, names: seq<string>)
    decreases |names|
  {
    if names == [] then ms == []
    else
      var rest, name := names[..|names| - 1], names[|names| - 1];
      if !Watches(c, name) then MovesFor(ms, c, rest)
      else
        && ms != [] && MovesFor(ms[..|ms| - 1], c, rest)
        && var last := ms[|ms| - 1]; last.Evaluated? && last == Evaluated(c, name, last.taken)
  }

  lemma MovesForNext(before: seq<Move>, n: nat, c: Call, names: seq<string>, i: nat, m: Move)
    requires i < |names| && n <= |before| && MovesFor(before[n..], c, names[..i]) && Watches(c, names[i])
    requires m.Evaluated? && m == Evaluated(c, names[i], m.taken)
    ensures MovesFor((before + [m])[n..], c, names[..i + 1])
  {
    assert names[..i + 1][..i] == names[..i];
    assert (before + [m])[n..] == before[n..] + [m];
    assert (before[n..] + [m])[..|before| - n] == before[n..];
  }

  /** Every alert the target names that is configured and whose condition parsed gets its move,
      and nothing else does. */
  lemma {:induction false} MovesAreNamed(ms: seq<Move>, c: Call, names: seq<string>)
    requires MovesFor(ms, c, names)
    ensures forall name :: name in names && name in c.cfg.alerts && name in c.known ==>
              exists k :: 0 <= k < |ms| && ms[k].Evaluated? && ms[k].name == name && ms[k].c == c
    ensures forall k :: 0 <= k < |ms| ==>
              ms[k].Evaluated? && ms[k].c == c && ms[k].name in names && ms[k].name in c.cfg.alerts && ms[k].name in c.known
    decreases |names|
  {
    if names != [] {
      var rest, last := names[..|names| - 1], names[|names| - 1];
      assert names == rest + [last];
      if Watches(c, last) {
        var before := ms[..|ms| - 1];
        MovesAreNamed(before, c, rest);
        assert ms == before + [ms[|ms| - 1]];
        forall name | name in names && name in c.cfg.alerts && name in c.known
          ensures exists k :: 0 <= k < |ms| && ms[k].Evaluated? && ms[k].name == name && ms[k].c == c
        {
          if name != last {
            var k :| 0 <= k < |before| && before[k].Evaluated? && before[k].name == name && before[k].c == c;
            assert ms[k] == before[k];
          } else {
            assert ms[|ms| - 1].name == name;
          }
        }
      } else {
        MovesAreNamed(ms, c, rest);
      }
    }
  }

  // ---------------------------------------------------------------- what is heard

  /** The live dispatcher's filter: only a transition into or out of firing notifies anyone. */
  ghost predicate NotifiesOnFiring(d: Dispatcher) {
    forall ev: Event :: d.wants(ev) <==> ev.change.next == Firing || ev.change.prev == Firing
  }

  /** The firing and resolve notices among these events of one source, or of a whole key. */
  function Bits(qs: seq<QueuedEvent>, key: Key, source: Option<string>): seq<bool> {
    if qs == [] then []
    else
      var ev := qs[|qs| - 1].ev;
      Bits(qs[..|qs| - 1], key, source)
      + (if ev.Key() == key && (source == None || source == Some(ev.source)) then Told(ev.change) else [])
  }

  lemma {:induction false} BitsConcat(a: seq<QueuedEvent>, b: seq<QueuedEvent>, key: Key, source: Option<string>)
    ensures Bits(a + b, key, source) == Bits(a, key, source) + Bits(b, key, source)
  {
    if b == [] {
      assert a + b == a;
    } else {
      var b', q := b[..|b| - 1], b[|b| - 1];
      assert (a + b)[..|a + b| - 1] == a + b';
      BitsConcat(a, b', key, source);
    }
  }

  /** Events of other keys say nothing of this one. */
  lemma {:induction false} BitsOfKey(qs: seq<QueuedEvent>, key: Key, source: Option<string>)
    ensures Bits(OfKey(qs, key), key, source) == Bits(qs, key, source)
  {
    if qs != [] {
      var qs', q := qs[..|qs| - 1], qs[|qs| - 1];
      BitsOfKey(qs', key, source);
      if q.ev.Key() == key {
        assert (OfKey(qs', key) + [q])[..|OfKey(qs', key)|] == OfKey(qs', key);
      }
    }
  }

  lemma TellingsNext(ts: seq<Turn>, turn: Turn, key: Key, source: Option<string>)
    ensures Tellings(ts + [turn], key, source) == Tellings(ts, key, source) + Tells(After(ts), turn, key, source)
  {
    assert (ts + [turn])[..|ts|] == ts;
  }

  /** A move commits a notice exactly when it is an accepted firing or resolve. */
  lemma MoveTells(d: Dispatcher, b: Book, m: Move, key: Key, source: Option<string>)
    requires NotifiesOnFiring(d) && (m.Evaluated? ==> Watches(m.c, m.name))
    ensures Bits(Committing(d, b, m), key, source) == Tells(b, TurnOf(m), key, source)
  {
    if m.Evaluated? {
      TakenIsAnOutcome(b, m.c, m.name, m.taken);
      var offer := OfferedEvent(b, m.c, m.name);
      if offer.Some? && m.taken && d.wants(Scrub(offer.value)) {
        var q := Queued(d, offer.value);
        assert Committing(d, b, m) == [q] && [q][..0] == [];
      }
    }
  }

  /** The committed notices are the run's accepted firing and resolve transitions. */
  lemma {:induction false} CommittedTells(d: Dispatcher, ms: seq<Move>, key: Key, source: Option<string>)
    requires NotifiesOnFiring(d) && Watched(ms)
    ensures Bits(Committed(d, ms), key, source) == Tellings(Turns(ms), key, source)
  {
    if ms != [] {
      var before, m := ms[..|ms| - 1], ms[|ms| - 1];
      CommittedTells(d, before, key, source);
      MoveTells(d, After(Turns(before)), m, key, source);
      BitsConcat(Committed(d, before), Committing(d, After(Turns(before)), m), key, source);
      TellingsNext(Turns(before), TurnOf(m), key, source);
    }
  }

  /** What of a shard's events the operator has not heard: those it holds, or at shutdown
      those it gave up. */
  function Unheard(s: Shard, i: nat, l: Ledger): seq<QueuedEvent> {
    if s.worker == Returned then OfShard(l.abandoned, i) else Held(s)
  }

  /** The operator hears of a (target, alert) the transitions the state machine kept, every
      one of them, in order, up to what its shard still holds. */
  lemma OperatorHears(d: Dispatcher, ms: seq<Move>, shards: seq<Shard>, inflight: nat, closed: bool, l: Ledger,
                      key: Key, source: Option<string>)
    requires NotifiesOnFiring(d) && Watched(ms) && l.committed == Committed(d, ms)
    requires Consistent(shards, inflight, closed, l) && Placed(l.committed) && Placed(l.told)
    ensures var k := ShardFor(key.target, key.alert);
            Tellings(Turns(ms), key, source)
            == Bits(l.told, key, source) + Bits(Unheard(shards[k], k, l), key, source)
  {
    var k := ShardFor(key.target, key.alert);
    var unheard := Unheard(shards[k], k, l);
    ToldInCommitOrder(shards, inflight, closed, l, key);
    BitsOfKey(l.committed, key, source);
    BitsOfKey(l.told, key, source);
    BitsOfKey(unheard, key, source);
    BitsConcat(OfKey(l.told, key), OfKey(unheard, key), key, source);
    CommittedTells(d, ms, key, source);
  }

  /** Who speaks for a key: its aggregate under a quorum, each of its sources otherwise. */
  ghost predicate SpeaksFor(ms: seq<Move>, key: Key, source: Option<string>)
    requires Watched(ms)
  {
    QuorumIs(Turns(ms), key, source == None)
  }

  /** The stored state of whoever speaks. */
  function Fires(b: Book, key: Key, source: Option<string>): bool {
    match source
    case None => AggOf(b, key) == Firing
    case Some(src) => EntryOf(b, key, src).state == Firing
  }

  lemma SpeakerAlternates(ms: seq<Move>, key: Key, source: Option<string>)
    requires Watched(ms) && SpeaksFor(ms, key, source)
    ensures Alternates(Tellings(Turns(ms), key, source))
    ensures LastSays(Tellings(Turns(ms), key, source), Fires(After(Turns(ms)), key, source))
  {
    match source
    case None => QuorumAlternates(Turns(ms), key);
    case Some(src) => SourceAlternates(Turns(ms), key, src);
  }

  lemma FrontAlternates(heard: seq<bool>, rest: seq<bool>, fires: bool)
    requires Alternates(heard + rest) && LastSays(heard + rest, fires)
    ensures Alternates(heard) && (rest == [] ==> LastSays(heard, fires))
  {
    assert forall i :: 0 <= i < |heard| ==> (heard + rest)[i] == heard[i];
    assert heard + [] == heard;
  }

  /** What the operator has heard alternates, firing first; and once the shard holds nothing
      of the key, the last notice heard agrees with the state the evaluator stores. */
  lemma HeardAlternates(d: Dispatcher, ms: seq<Move>, shards: seq<Shard>, inflight: nat, closed: bool, l: Ledger,
                        key: Key, source: Option<string>)
    requires NotifiesOnFiring(d) && Watched(ms) && l.committed == Committed(d, ms)
    requires Consistent(shards, inflight, closed, l) && Placed(l.committed) && Placed(l.told)
    requires SpeaksFor(ms, key, source)
    ensures Alternates(Bits(l.told, key, source))
    ensures var k := ShardFor(key.target, key.alert);
            Bits(Unheard(shards[k], k, l), key, source) == [] ==>
              LastSays(Bits(l.told, key, source), Fires(After(Turns(ms)), key, source))
  {
    var k := ShardFor(key.target, key.alert);
    var told, rest := Bits(l.told, key, source), Bits(Unheard(shards[k], k, l), key, source);
    OperatorHears(d, ms, shards, inflight, closed, l, key, source);
    SpeakerAlternates(ms, key, source);
    FrontAlternates(told, rest, Fires(After(Turns(ms)), key, source));
  }
}
