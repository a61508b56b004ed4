/** The evaluator: the gates, loops and in-place updates of OnCycle, proved to take the
    steps of `Alerting` and to commit to the delivery queue exactly the transitions those
    steps keep. */
module Evaluator {
  import opened Wrappers
  import opened Replay
  import opened Alerting
  import opened Dispatch
  import opened Notices
  import Paging

  // ---------------------------------------------------------------- the loops

  method PruneQuietSources(s: Sources, now: int, window: int) returns (r: Sources)
    ensures r == PruneQuiet(s, now, window)
  {
    r := s;
    var rest := s.Keys;
    while rest != {}
      invariant rest <= s.Keys
      invariant r == map src | src in s && (src in rest || src in PruneQuiet(s, now, window)) :: s[src]
      decreases |rest|
    {
      var src :| src in rest;
      rest := rest - {src};
      var st := s[src];
      if now - st.lastSeen <= window {
        continue;
      }
      if st.state != Firing && now - st.mark.last > RETENTION {
        r := r - {src};
      }
    }
  }

  /** Taking one more element off the list of those left to visit. */
  lemma VisitOne<T>(all: set<T>, rest: set<T>, x: T)
    requires x in rest
    ensures |all - (rest - {x})| == |all - rest| + (if x in all then 1 else 0)
  {
    if x in all {
      assert all - (rest - {x}) == (all - rest) + {x};
    } else {
      assert all - (rest - {x}) == all - rest;
    }
  }

  /** Pruning keeps every live source as it is. */
  lemma PruneKeepsVotes(s: Sources, now: int, window: int)
    ensures Live(TallyPrune(s, now, window), now, window) == Live(s, now, window)
    ensures FiringSources(TallyPrune(s, now, window), now, window) == FiringSources(s, now, window)
  {
  }

  /** The map half done: sources still to visit are as they were, the others pruned. */
  ghost function HalfPruned(s: Sources, rest: set<string>, now: int, window: int): Sources {
    map src | src in s && (src in rest || src in TallyPrune(s, now, window)) ::
      if src in rest then s[src] else TallyPrune(s, now, window)[src]
  }

  lemma HalfPrunedStep(s: Sources, rest: set<string>, now: int, window: int, src: string)
    requires src in rest && rest <= s.Keys
    ensures src in HalfPruned(s, rest, now, window) && HalfPruned(s, rest, now, window)[src] == s[src]
    ensures HalfPruned(s, rest - {src}, now, window) ==
            var r, st := HalfPruned(s, rest, now, window), s[src];
            if !Stale(st, now, window) then r
            else if Expired(st, now) then r - {src}
            else r[src := st.(state := OK, consecHits := 0)]
    ensures src in Live(s, now, window) <==> !Stale(s[src], now, window)
    ensures src in FiringSources(s, now, window) <==> !Stale(s[src], now, window) && s[src].state == Firing
  {
  }

  /** What one visit leaves of the map. */
  function Visited(r: Sources, src: string, now: int, window: int): Sources
    requires src in r
  {
    if !Stale(r[src], now, window) then r
    else if Expired(r[src], now) then r - {src}
    else r[src := r[src].(state := OK, consecHits := 0)]
  }

  /** One source: a stale one leaves the vote, and its identity too once nothing it sent
      could be fresh again. */
  method Visit(s: Sources, src: string, now: int, window: int) returns (r: Sources, stale: bool, fires: bool)
    requires src in s
    ensures r == Visited(s, src, now, window)
    ensures stale == Stale(s[src], now, window) && fires == (s[src].state == Firing)
  {
    var st := s[src];
    r, stale, fires := s, now - st.lastSeen > window, st.state == Firing;
    if stale {
      if now - st.mark.last > RETENTION {
        r := r - {src};
      } else {
        r := r[src := st.(state := OK, consecHits := 0)];
      }
    }
  }

  /** The tally half done. */
  ghost predicate HalfTallied(s: Sources, rest: set<string>, now: int, window: int, r: Sources, firing: nat, live: nat) {
    && rest <= s.Keys && r == HalfPruned(s, rest, now, window)
    && live == |Live(s, now, window) - rest| && firing == |FiringSources(s, now, window) - rest|
  }

  lemma TallyStarts(s: Sources, now: int, window: int)
    ensures HalfTallied(s, s.Keys, now, window, s, 0, 0)
  {
    assert Live(s, now, window) - s.Keys == {} && FiringSources(s, now, window) - s.Keys == {};
  }

  lemma TallySteps(s: Sources, rest: set<string>, now: int, window: int, r: Sources, firing: nat, live: nat, src: string)
    requires HalfTallied(s, rest, now, window, r, firing, live) && src in rest
    ensures src in r
    ensures var stale, fires := Stale(r[src], now, window), r[src].state == Firing;
            HalfTallied(s, rest - {src}, now, window, Visited(r, src, now, window),
                        if !stale && fires then firing + 1 else firing, if stale then live else live + 1)
  {
    HalfPrunedStep(s, rest, now, window, src);
    VisitOne(Live(s, now, window), rest, src);
    VisitOne(FiringSources(s, now, window), rest, src);
  }

  lemma TallyEnds(s: Sources, now: int, window: int, r: Sources, firing: nat, live: nat)
    requires HalfTallied(s, {}, now, window, r, firing, live)
    ensures r == TallyPrune(s, now, window)
    ensures firing == |FiringSources(r, now, window)| && live == |Live(r, now, window)|
  {
    PruneKeepsVotes(s, now, window);
    assert Live(s, now, window) - {} == Live(s, now, window);
    assert FiringSources(s, now, window) - {} == FiringSources(s, now, window);
  }

  method Tally(s: Sources, now: int, window: int) returns (r: Sources, firing: nat, live: nat)
    ensures r == TallyPrune(s, now, window)
    ensures firing == |FiringSources(r, now, window)| && live == |Live(r, now, window)|
  {
    r, firing, live := s, 0, 0;
    var rest := s.Keys;
    TallyStarts(s, now, window);
    while rest != {}
      invariant HalfTallied(s, rest, now, window, r, firing, live)
      decreases |rest|
    {
      var src :| src in rest;
      TallySteps(s, rest, now, window, r, firing, live, src);
      rest := rest - {src};
      var stale, fires;
      r, stale, fires := Visit(r, src, now, window);
      if stale {
        continue;
      }
      live := live + 1;
      if fires {
        firing := firing + 1;
      }
    }
    TallyEnds(s, now, window, r, firing, live);
  }

  // ---------------------------------------------------------------- the evaluator

  function KeyOf(c: Call, name: string): Key {
    Alerting.Key(c.cy.target.Id(), name)
  }

  /** The key's sources with this cycle judged, before any is pruned. */
  function JudgedFirst(b: Book, x: Input): Sources {
    SourcesOf(b, x.key)[x.source := Judge(EntryOf(b, x.key, x.source), x)]
  }

  /** What a source that speaks for itself offers. */
  function SourceOffer(c: Call, name: string, prev: State, judged: Sources): Option<Event>
    requires c.cy.source in judged
  {
    var window := AlertFreshness(c.cfg.interval);
    var next := judged[c.cy.source].state;
    if prev == next then None
    else Some(EventFor(c, name, Transition(prev, next, 0, 0),
                       FiringSources(PruneQuiet(judged, c.now, window), c.now, window) - {""}))
  }

  /** What an aggregate offers. */
  function QuorumOffer(c: Call, name: string, t: Transition, sources: set<string>): Option<Event> {
    if t.prev == t.next then None else Some(EventFor(c, name, t, sources))
  }

  class Evaluator {
    var states: map<Key, Sources>
    var agg: map<Key, State>
    var warmup: map<Key, Warmup>
    const queue: DispatchQueue
    // every step the state machine has taken, with the queue's answers
    ghost var moves: seq<Move>

    ghost function View(): Book
      reads this
    {
      Book(states, agg, warmup)
    }

    /** The maps are what the run left, and the queue was given what the run kept. */
    ghost predicate Valid()
      reads this, queue
    {
      && queue.Valid() && Watched(moves) && Possible(Turns(moves))
      && View() == After(Turns(moves))
      && queue.ledger.committed == Committed(queue.dispatcher, moves)
    }

    constructor (queue: DispatchQueue)
      requires queue.Valid() && queue.ledger.committed == []
      ensures Valid() && this.queue == queue && moves == []
    {
      this.queue := queue;
      states, agg, warmup, moves := map[], map[], map[], [];
    }

    /** The workers step on their own: what they do to the queue is no concern of the run's. */
    twostate lemma WorkersStep()
      requires old(Valid()) && unchanged(this) && queue.Valid()
      requires queue.ledger.committed == old(queue.ledger.committed)
      ensures Valid()
    {
    }

    /** The operator hears of a key the transitions the run kept, in order, up to what its
        shard still holds; what was heard alternates, and agrees with the stored state once
        nothing is held. */
    lemma Heard(key: Key, source: Option<string>)
      requires Valid() && NotifiesOnFiring(queue.dispatcher)
      ensures var k := ShardFor(key.target, key.alert);
              var heard, unheard := Bits(queue.ledger.told, key, source),
                                    Bits(Unheard(queue.shards[k], k, queue.ledger), key, source);
              && Tellings(Turns(moves), key, source) == heard + unheard
              && (SpeaksFor(moves, key, source) ==>
                    && Alternates(heard)
                    && (unheard == [] ==> LastSays(heard, Fires(View(), key, source))))
    {
      OperatorHears(queue.dispatcher, moves, queue.shards, queue.inflight, queue.closed, queue.ledger, key, source);
      if SpeaksFor(moves, key, source) {
        HeardAlternates(queue.dispatcher, moves, queue.shards, queue.inflight, queue.closed, queue.ledger, key, source);
      }
    }

    /** A cycle of a source that speaks for itself offers a page exactly when it makes the
        alert's sustained triggered cycles in a row, counted on the run, and the source is not
        firing already. */
    lemma Pages(c: Call, name: string)
      requires Valid() && name in c.cfg.alerts && name in c.known
      requires !c.cfg.alerts[name].quorum.majority && c.cfg.alerts[name].quorum.min <= 0
      ensures var key := KeyOf(c, name);
              var offer, was := OfferedEvent(View(), c, name), EntryOf(View(), key, c.cy.source);
              offer.Some? && offer.value.change.next == Firing
              <==> Admits(was.mark, c.cy.time, c.now) && name in c.triggered && was.state != Firing
                   && Paging.Streak(Turns(moves), key, c.cy.source) + 1 >= c.cfg.alerts[name].sustained
    {
      Paging.SourcePages(moves, c, name);
    }

    /** What the queue would answer to an offer; no offer is never refused. */
    ghost predicate Accepts(offer: Option<Event>)
      requires queue.Valid()
      reads this, queue
    {
      offer.Some? ==> queue.Takes(offer.value)
    }

    /** Offers one transition: taken and wanted exactly when committed. */
    method Enqueue(c: Call, name: string, t: Transition, sources: set<string>) returns (taken: bool)
      requires queue.Valid()
      modifies queue
      ensures queue.Valid()
      ensures var offer := Some(EventFor(c, name, t, sources));
              && taken == old(Accepts(offer))
              && queue.ledger == Booked(old(queue.ledger), queue.dispatcher, offer, taken)
    {
      taken := queue.Offer(EventFor(c, name, t, sources));
    }

    /** The part of the step that needs no quorum. */
    method Unaided(c: Call, name: string, prev: State, judged: Sources) returns (s: Sources, taken: bool)
      requires queue.Valid() && c.cy.source in judged
      modifies queue
      ensures queue.Valid()
      ensures var pruned := PruneQuiet(judged, c.now, AlertFreshness(c.cfg.interval));
              var now := judged[c.cy.source];
              s == if !taken && c.cy.source in pruned then pruned[c.cy.source := now.(state := prev)] else pruned
      ensures var offer := SourceOffer(c, name, prev, judged);
              && taken == old(Accepts(offer))
              && queue.ledger == Booked(old(queue.ledger), queue.dispatcher, offer, taken)
    {
      var window := AlertFreshness(c.cfg.interval);
      var st := judged[c.cy.source];
      s := PruneQuietSources(judged, c.now, window);
      taken := true;
      ghost var offer := SourceOffer(c, name, prev, judged);
      NoOfferBooksNothing(queue.ledger, queue.dispatcher);
      if prev != st.state {
        taken := Enqueue(c, name, Transition(prev, st.state, 0, 0), FiringSources(s, c.now, window) - {""});
        if !taken && c.cy.source in s {
          s := s[c.cy.source := st.(state := prev)];
        }
      }
    }

    /** The quorum's part up to its verdict: tally, threshold and warm-up. */
    method PollQuorum(c: Call, name: string, bySource: Sources) returns (s: Sources, firing: nat, live: nat, next: State)
      requires Watches(c, name) && c.cfg.alerts[name].quorum.Enabled()
      requires bySource == JudgedFirst(View(), InputFor(c, name, true))
      modifies this`warmup
      ensures var b, x := old(View()), InputFor(c, name, true);
              var window := AlertFreshness(x.interval);
              && s == Judged(b, x) && firing == |FiringSources(s, x.now, window)| && live == |Live(s, x.now, window)|
              && next == NextAgg(b, x) && warmup == b.warmup[x.key := WarmupOf(b, x)]
    {
      var key, quorum := Alerting.Key(c.cy.target.Id(), name), c.cfg.alerts[name].quorum;
      s, firing, live := Tally(bySource, c.now, AlertFreshness(c.cfg.interval));
      next := OK;
      if live > 0 && firing >= quorum.Threshold(live) {
        next := Firing;
      }
      var prevAgg := if key in agg then agg[key] else OK;
      var w := if key in warmup then warmup[key] else Warmup(c.now, {});
      w := w.(sourcesSeen := w.sourcesSeen + {c.cy.source});
      warmup := warmup[key := w];
      if next == Firing && prevAgg != Firing && !w.Ready(c.now, StalenessWindow(c.cfg.interval)) {
        next := prevAgg;
      }
    }

    /** The aggregate moves only as far as the queue takes the transition. */
    method MoveAggregate(c: Call, name: string, next: State, firing: nat, live: nat, sources: set<string>) returns (taken: bool)
      requires queue.Valid()
      modifies this`agg, queue
      ensures queue.Valid()
      ensures var key, prev := KeyOf(c, name), AggOf(old(View()), KeyOf(c, name));
              agg == if prev == next then old(agg) else old(agg)[key := if taken then next else prev]
      ensures var prev := AggOf(old(View()), KeyOf(c, name));
              var offer := QuorumOffer(c, name, Transition(prev, next, firing, live), sources);
              && taken == old(Accepts(offer))
              && queue.ledger == Booked(old(queue.ledger), queue.dispatcher, offer, taken)
    {
      var key := Alerting.Key(c.cy.target.Id(), name);
      var prevAgg := if key in agg then agg[key] else OK;
      taken := true;
      NoOfferBooksNothing(queue.ledger, queue.dispatcher);
      if prevAgg != next {
        agg := agg[key := next];
        taken := Enqueue(c, name, Transition(prevAgg, next, firing, live), sources);
        if !taken {
          OverwriteTwice(old(agg), key, next, prevAgg);
          agg := agg[key := prevAgg];
        }
      }
    }

    /** An admitted cycle without a quorum: one source speaks for itself. */
    method StepSource(c: Call, name: string) returns (taken: bool)
      requires queue.Valid() && Watches(c, name) && !c.cfg.alerts[name].quorum.Enabled()
      requires Applies(View(), InputFor(c, name, true))
      modifies this`states, queue
      ensures queue.Valid()
      ensures View() == Step(old(View()), InputFor(c, name, taken))
      ensures var offer := OfferedEvent(old(View()), c, name);
              && taken == old(Accepts(offer))
              && queue.ledger == Booked(old(queue.ledger), queue.dispatcher, offer, taken)
    {
      var a, key := c.cfg.alerts[name], Alerting.Key(c.cy.target.Id(), name);
      var bySource := if key in states then states[key] else map[];
      var st := if c.cy.source in bySource then bySource[c.cy.source] else NEW;
      var prev := st.state;
      st := Advance(st, c, a, name in c.triggered);
      bySource := bySource[c.cy.source := st];
      SourceStep(View(), c, name, bySource);
      bySource, taken := Unaided(c, name, prev, bySource);
      states := states[key := bySource];
    }

    /** An admitted cycle with a quorum: the sources speak together. */
    method StepQuorum(c: Call, name: string) returns (taken: bool)
      requires queue.Valid() && Watches(c, name) && c.cfg.alerts[name].quorum.Enabled()
      requires Applies(View(), InputFor(c, name, true))
      modifies this`states, this`agg, this`warmup, queue
      ensures queue.Valid()
      ensures View() == Step(old(View()), InputFor(c, name, taken))
      ensures var offer := OfferedEvent(old(View()), c, name);
              && taken == old(Accepts(offer))
              && queue.ledger == Booked(old(queue.ledger), queue.dispatcher, offer, taken)
    {
      var a, key := c.cfg.alerts[name], Alerting.Key(c.cy.target.Id(), name);
      var bySource := if key in states then states[key] else map[];
      var st := if c.cy.source in bySource then bySource[c.cy.source] else NEW;
      st := Advance(st, c, a, name in c.triggered);
      bySource := bySource[c.cy.source := st];
      ghost var b, x := View(), InputFor(c, name, true);
      var firing, live, next;
      bySource, firing, live, next := PollQuorum(c, name, bySource);
      states := states[key := bySource];
      var sources := FiringSources(bySource, c.now, AlertFreshness(c.cfg.interval)) - {""};
      assert Verdicted(b, x) == Transition(AggOf(View(), x.key), next, firing, live);
      taken := MoveAggregate(c, name, next, firing, live, sources);
      QuorumStep(b, c, name, taken);
    }

    /** One step of the state machine. The transition it offers is kept exactly when the
        queue takes it. */
    method TakeStep(c: Call, name: string) returns (taken: bool)
      requires queue.Valid() && Watches(c, name)
      modifies this`states, this`agg, this`warmup, queue
      ensures queue.Valid()
      ensures View() == Step(old(View()), InputFor(c, name, taken))
      ensures var offer := OfferedEvent(old(View()), c, name);
              && taken == old(Accepts(offer))
              && queue.ledger == Booked(old(queue.ledger), queue.dispatcher, offer, taken)
    {
      var key := Alerting.Key(c.cy.target.Id(), name);
      var bySource := if key in states then states[key] else map[];
      var st := if c.cy.source in bySource then bySource[c.cy.source] else NEW;
      if !Admits(st.mark, c.cy.time, c.now) {
        NoOfferBooksNothing(queue.ledger, queue.dispatcher);
        states := states[key := bySource[c.cy.source := st]];
        return true;
      }
      if c.cfg.alerts[name].quorum.Enabled() {
        taken := StepQuorum(c, name);
      } else {
        taken := StepSource(c, name);
      }
    }

    /** One alert of one cycle extends the run by its step, and commits what the step keeps
        if it notifies anyone. */
    method EvaluateOne(c: Call, name: string)
      requires Valid() && Watches(c, name) && Evaluable(c)
      requires c.now >= Clock(Turns(moves)) && c.cfg.interval <= MAX_PROBE_INTERVAL
      modifies this, queue
      ensures Valid() && Clock(Turns(moves)) == c.now
      ensures var offer := OfferedEvent(old(View()), c, name);
              && moves == old(moves) + [Evaluated(c, name, old(Accepts(offer)))]
              && queue.ledger == Booked(old(queue.ledger), queue.dispatcher, offer, old(Accepts(offer)))
    {
      var taken := TakeStep(c, name);
      ghost var m := Evaluated(c, name, taken);
      MoveExtends(queue.dispatcher, moves, m);
      TakesStep(Turns(moves), InputFor(c, name, taken));
      moves := moves + [m];
    }

    /** evaluate: every alert the target names, in order, repeats included. */
    method Evaluate(c: Call)
      requires Valid() && Evaluable(c)
      requires c.now >= Clock(Turns(moves)) && c.cfg.interval <= MAX_PROBE_INTERVAL
      modifies this, queue
      ensures Valid() && old(moves) <= moves
      ensures MovesFor(moves[|old(moves)|..], c, c.cy.alerts)
      ensures queue.ledger.told == old(queue.ledger.told) && queue.ledger.abandoned == old(queue.ledger.abandoned)
    {
      ghost var n := |moves|;
      assert moves[n..] == [] && c.cy.alerts[..0] == [];
      for i := 0 to |c.cy.alerts|
        invariant Valid() && old(moves) <= moves && c.now >= Clock(Turns(moves))
        invariant MovesFor(moves[n..], c, c.cy.alerts[..i])
        invariant queue.ledger.told == old(queue.ledger.told) && queue.ledger.abandoned == old(queue.ledger.abandoned)
      {
        EvaluateNth(c, i, n);
      }
      assert c.cy.alerts[..|c.cy.alerts|] == c.cy.alerts;
    }

    method EvaluateNth(c: Call, i: nat, ghost n: nat)
      requires Valid() && Evaluable(c) && i < |c.cy.alerts|
      requires c.now >= Clock(Turns(moves)) && c.cfg.interval <= MAX_PROBE_INTERVAL
      requires n <= |moves| && MovesFor(moves[n..], c, c.cy.alerts[..i])
      modifies this, queue
      ensures Valid() && old(moves) <= moves && c.now >= Clock(Turns(moves))
      ensures MovesFor(moves[n..], c, c.cy.alerts[..i + 1])
      ensures queue.ledger.told == old(queue.ledger.told) && queue.ledger.abandoned == old(queue.ledger.abandoned)
    {
      var names := c.cy.alerts;
      if Watches(c, names[i]) {
        ghost var before := moves;
        EvaluateOne(c, names[i]);
        MovesForNext(before, n, c, names, i, moves[|before|]);
      } else {
        assert names[..i + 1][..i] == names[..i];
      }
    }

    /** OnCycle. A cycle that sent nothing, names no alert, or is older than the freshness
        window changes nothing at all. */
    method OnCycle(c: Call)
      requires Valid() && c.now >= Clock(Turns(moves)) && c.cfg.interval <= MAX_PROBE_INTERVAL
      modifies this, queue
      ensures Valid() && old(moves) <= moves
      ensures var age, interval := c.now - c.cy.time, if c.cfg.interval <= 0 then MINUTE else c.cfg.interval;
              if c.cy.sent != 0 && c.cy.alerts != [] && (age <= 5 * MINUTE || age <= 3 * interval)
              then MovesFor(moves[|old(moves)|..], c, c.cy.alerts)
              else moves == old(moves) && View() == old(View()) && queue.ledger == old(queue.ledger)
      ensures queue.ledger.told == old(queue.ledger.told) && queue.ledger.abandoned == old(queue.ledger.abandoned)
    {
      if c.cy.sent == 0 {
        return;
      }
      if |c.cy.alerts| == 0 {
        return;
      }
      if c.now - c.cy.time > AlertFreshness(c.cfg.interval) {
        return;
      }
      Evaluate(c);
    }

    /** Refresh drops the aggregates of alerts whose quorum mode a reload changed. */
    method ReloadModes(changed: set<string>)
      requires Valid()
      modifies this`agg, this`warmup, this`moves
      ensures Valid() && moves == old(moves) + [Reloaded(changed)]
      ensures agg == map k | k in old(agg) && k.alert !in changed :: old(agg)[k]
      ensures warmup == map k | k in old(warmup) && k.alert !in changed :: old(warmup)[k]
    {
      ghost var was := View();
      agg := map k | k in agg && k.alert !in changed :: agg[k];
      warmup := map k | k in warmup && k.alert !in changed :: warmup[k];
      assert View() == Refresh(was, changed);
      ReloadMoves(queue.dispatcher, moves, changed);
      moves := moves + [Reloaded(changed)];
    }

    /** One admitted cycle moves one source's counters. */
    method Advance(st: AlertState, c: Call, a: Alert, triggered: bool) returns (r: AlertState)
      ensures forall x: Input :: x.time == c.cy.time && x.now == c.now && x.sustained == a.sustained && x.triggered == triggered ==>
                r == Judge(st, x)
    {
      r := st.(mark := Accept(st.mark, c.cy.time, c.now), lastSeen := c.now);
      if triggered {
        r := r.(consecHits := r.consecHits + 1);
        match r.state
        case OK =>
          if r.consecHits >= a.sustained {
            r := r.(state := Firing);
          } else {
            r := r.(state := Pending);
          }
        case Pending =>
          if r.consecHits >= a.sustained {
            r := r.(state := Firing);
          }
        case Firing =>
      } else {
        r := r.(consecHits := 0, state := OK);
      }
    }
  }

  lemma OverwriteTwice<K, V>(m: map<K, V>, k: K, v: V, w: V)
    ensures m[k := v][k := w] == m[k := w]
  {
  }

  /** What a step without a quorum is made of. */
  lemma SourceStep(b: Book, c: Call, name: string, judged: Sources)
    requires Watches(c, name) && !c.cfg.alerts[name].quorum.Enabled() && Applies(b, InputFor(c, name, true))
    requires judged == JudgedFirst(b, InputFor(c, name, true))
    ensures var x := InputFor(c, name, true);
            var pruned := PruneQuiet(judged, c.now, AlertFreshness(c.cfg.interval));
            var prev := EntryOf(b, x.key, x.source).state;
            && OfferedEvent(b, c, name) == SourceOffer(c, name, prev, judged)
            && (OfferedEvent(b, c, name) == None ==> prev == judged[x.source].state)
            && forall taken :: Step(b, InputFor(c, name, taken)) ==
                 b.(states := b.states[x.key :=
                      if OfferedEvent(b, c, name).Some? && !taken && x.source in pruned
                      then pruned[x.source := judged[x.source].(state := prev)] else pruned])
  {
    forall taken
      ensures var x := InputFor(c, name, taken);
              Offered(b, x) == Offered(b, InputFor(c, name, true)) && Judged(b, x) == Judged(b, InputFor(c, name, true))
    {
      TakenIsAnOutcome(b, c, name, taken);
    }
  }

  /** The transition a quorum's verdict makes. */
  function Verdicted(b: Book, x: Input): Transition {
    var window, s := AlertFreshness(x.interval), Judged(b, x);
    Transition(AggOf(b, x.key), NextAgg(b, x), |FiringSources(s, x.now, window)|, |Live(s, x.now, window)|)
  }

  /** What a step with one is made of. */
  lemma QuorumStep(b: Book, c: Call, name: string, taken: bool)
    requires Watches(c, name) && c.cfg.alerts[name].quorum.Enabled() && Applies(b, InputFor(c, name, true))
    ensures var x := InputFor(c, name, true);
            var s, t := Judged(b, x), Verdicted(b, x);
            && OfferedEvent(b, c, name) == QuorumOffer(c, name, t, FiringSources(s, c.now, AlertFreshness(x.interval)) - {""})
            && Step(b, InputFor(c, name, taken)) ==
                 Book(b.states[x.key := s],
                      if t.prev == t.next then b.agg else b.agg[x.key := if taken then t.next else t.prev],
                      b.warmup[x.key := WarmupOf(b, x)])
  {
    TakenIsAnOutcome(b, c, name, taken);
  }

  lemma ReloadExtends(ts: seq<Turn>, changed: set<string>)
    requires Possible(ts)
    ensures After(ts + [Reload(changed)]) == Refresh(After(ts), changed)
    ensures Possible(ts + [Reload(changed)])
  {
    var next := ts + [Reload(changed)];
    assert next[..|ts|] == ts;
    forall i | 0 <= i < |next| ensures Gated(next, i) {
      if i < |ts| {
        assert Gated(ts, i) && next[..i] == ts[..i];
      }
    }
  }

  lemma ReloadMoves(d: Dispatcher, ms: seq<Move>, changed: set<string>)
    requires Watched(ms) && Possible(Turns(ms))
    ensures var next := ms + [Reloaded(changed)];
            && Watched(next) && Possible(Turns(next)) && Committed(d, next) == Committed(d, ms)
            && After(Turns(next)) == Refresh(After(Turns(ms)), changed)
  {
    MoveExtends(d, ms, Reloaded(changed));
    assert Committing(d, After(Turns(ms)), Reloaded(changed)) == [];
    ReloadExtends(Turns(ms), changed);
  }

  /** A gated step extends a possible run. */
  lemma TakesStep(ts: seq<Turn>, x: Input)
    requires Possible(ts) && x.now >= Clock(ts) && Fresh(x.time, x.now, x.interval)
    ensures After(ts + [Cycle(x)]) == Step(After(ts), x)
    ensures Possible(ts + [Cycle(x)]) && Clock(ts + [Cycle(x)]) == x.now
  {
    AfterNext(ts, x);
    NextIsPossible(ts, x);
  }
}
