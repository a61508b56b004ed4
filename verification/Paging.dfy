/** When an alert pages: the state machine's decisions, told from the log of what arrived.

    Nothing here looks at the counters the state machine keeps. How often in a row a source
    has triggered, when it was last heard, who votes and who has been heard since warm-up
    began are all read off the run itself, and the state machine is shown to act on them. */
module Paging {
  import opened Wrappers
  import opened Replay
  import opened Alerting
  import opened Dispatch
  import opened Notices

  // ---------------------------------------------------------------- the log

  /** When the source's last applied cycle for the key was received. */
  ghost function LastHeard(ts: seq<Turn>, key: Key, source: string): int {
    if ts == [] then ZERO_TIME
    else
      var n := |ts| - 1;
      if Applied(ts, n) && ts[n].x.key == key && ts[n].x.source == source then ts[n].x.now
      else LastHeard(ts[..n], key, source)
  }

  ghost predicate Known(ts: seq<Turn>, key: Key, source: string) { source in SourcesOf(After(ts), key) }

  /** How many cycles in a row, up to the last one applied, triggered: counted since the
      source last sent one that did not, was last forgotten, or last fell out of a vote. */
  ghost function Streak(ts: seq<Turn>, key: Key, source: string): nat {
    if ts == [] then 0
    else
      var n := |ts| - 1;
      var before := Streak(ts[..n], key, source);
      if !Applied(ts, n) || ts[n].x.key != key then before
      else if ts[n].x.source == source then if ts[n].x.triggered then before + 1 else 0
      else if !Known(ts, key, source) then 0
      else if ts[n].x.quorum.Enabled() && ts[n].x.now - LastHeard(ts[..n], key, source) > AlertFreshness(ts[n].x.interval) then 0
      else before
  }

  /** What a step does to the count of any one source. */
  lemma StepCounts(b: Book, x: Input, key: Key, source: string)
    ensures var was, now := EntryOf(b, key, source), EntryOf(Step(b, x), key, source);
            if !Applies(b, x) || x.key != key then
              && now == was
              && (source in SourcesOf(Step(b, x), key) ==> source in SourcesOf(b, key) || (x.key == key && x.source == source))
            else if x.source == source then
              && source in SourcesOf(Step(b, x), key) && now.lastSeen == x.now
              && now.consecHits == if x.triggered then was.consecHits + 1 else 0
            else if source !in SourcesOf(Step(b, x), key) then now == NEW
            else
              && source in SourcesOf(b, key) && now.lastSeen == was.lastSeen
              && now.consecHits == if x.quorum.Enabled() && x.now - was.lastSeen > AlertFreshness(x.interval) then 0 else was.consecHits
  {
    JudgedKeepsOwn(b, x);
  }

  lemma FirstIsApplied(b: Book, x: Input)
    requires x.source !in SourcesOf(b, x.key)
    ensures Applies(b, x)
  {
  }

  /** The entry's counters are the log's. */
  ghost predicate Counted(ts: seq<Turn>, key: Key, source: string) {
    && EntryOf(After(ts), key, source).consecHits == Streak(ts, key, source)
    && (Known(ts, key, source) ==> EntryOf(After(ts), key, source).lastSeen == LastHeard(ts, key, source))
  }

  lemma TurnCounts(ts: seq<Turn>, turn: Turn, key: Key, source: string)
    requires Counted(ts, key, source)
    ensures Counted(ts + [turn], key, source)
  {
    var next := ts + [turn];
    assert next[..|ts|] == ts;
    match turn
    case Reload(changed) =>
      assert SourcesOf(After(next), key) == SourcesOf(After(ts), key);
    case Cycle(x) =>
      StepCounts(After(ts), x, key, source);
      if x.source !in SourcesOf(After(ts), x.key) {
        FirstIsApplied(After(ts), x);
      }
  }

  lemma {:induction false} RunCounts(ts: seq<Turn>, key: Key, source: string)
    ensures Counted(ts, key, source)
  {
    if ts != [] {
      RunCounts(ts[..|ts| - 1], key, source);
      TurnCounts(ts[..|ts| - 1], ts[|ts| - 1], key, source);
      assert ts[..|ts| - 1] + [ts[|ts| - 1]] == ts;
    }
  }

  // ---------------------------------------------------------------- sustained

  /** A source that speaks for itself. It pages, or asks to, on the first cycle that makes
      its run of triggered ones long enough, and on every further one until the queue takes
      it; fewer leave it pending, and one that does not trigger resolves it. */
  lemma SourceDecides(ts: seq<Turn>, x: Input)
    requires Applies(After(ts), x) && !x.quorum.majority && x.quorum.min <= 0
    ensures var b, o := After(ts), Offered(After(ts), x);
            var was, now := EntryOf(b, x.key, x.source).state, EntryOf(Step(b, x), x.key, x.source).state;
            var n := Streak(ts, x.key, x.source) + 1;
            && (o.Some? && o.value.next == Firing <==> x.triggered && was != Firing && n >= x.sustained)
            && (o.Some? && o.value.next == Pending <==> x.triggered && was == OK && n < x.sustained)
            && (o.Some? && o.value.next == OK <==> !x.triggered && was != OK)
            && (o.Some? ==> o.value.prev == was && o.value.firing == 0 && o.value.live == 0)
            && now == if o.Some? && x.taken then o.value.next else was
  {
    RunCounts(ts, x.key, x.source);
    JudgedKeepsOwn(After(ts), x);
  }

  /** A source with a vote. */
  lemma VoterDecides(ts: seq<Turn>, x: Input)
    requires Applies(After(ts), x) && (x.quorum.majority || x.quorum.min > 0)
    ensures var was, now := EntryOf(After(ts), x.key, x.source).state, EntryOf(Step(After(ts), x), x.key, x.source).state;
            var n := Streak(ts, x.key, x.source) + 1;
            && (now == Firing <==> x.triggered && (was == Firing || n >= x.sustained))
            && (now == Pending <==> x.triggered && was != Firing && n < x.sustained)
  {
    RunCounts(ts, x.key, x.source);
    JudgedKeepsOwn(After(ts), x);
  }

  /** The key's alert asks for this many cycles in a row throughout, and no transition of a
      source that speaks for itself was refused. */
  ghost predicate Steady(ts: seq<Turn>, key: Key, sustained: int) {
    forall i :: 0 <= i < |ts| && ts[i].Cycle? && ts[i].x.key == key ==>
      ts[i].x.sustained == sustained && (ts[i].x.taken || ts[i].x.quorum.Enabled())
  }

  /** A source's state is its streak's. */
  ghost predicate InStep(ts: seq<Turn>, key: Key, source: string, sustained: int) {
    var n, state := Streak(ts, key, source), EntryOf(After(ts), key, source).state;
    (state == Firing <==> n >= 1 && n >= sustained) && (state == OK <==> n == 0)
  }

  /** What a step leaves of the state of any one source. */
  lemma StepStates(b: Book, x: Input, key: Key, source: string)
    requires x.key == key && x.source != source && Applies(b, x) && source in SourcesOf(Step(b, x), key)
    ensures EntryOf(Step(b, x), key, source).state ==
            if x.quorum.Enabled() && x.now - EntryOf(b, key, source).lastSeen > AlertFreshness(x.interval) then OK
            else EntryOf(b, key, source).state
  {
  }

  lemma TurnInStep(ts: seq<Turn>, turn: Turn, key: Key, source: string, sustained: int)
    requires InStep(ts, key, source, sustained) && Steady(ts + [turn], key, sustained)
    ensures InStep(ts + [turn], key, source, sustained)
  {
    var next := ts + [turn];
    assert next[..|ts|] == ts && next[|ts|] == turn;
    RunCounts(ts, key, source);
    match turn
    case Reload(changed) =>
      assert SourcesOf(After(next), key) == SourcesOf(After(ts), key);
    case Cycle(x) =>
      StepCounts(After(ts), x, key, source);
      if Applies(After(ts), x) && x.key == key {
        if x.source != source {
          if source in SourcesOf(After(next), key) {
            StepStates(After(ts), x, key, source);
          }
        } else if x.quorum.Enabled() {
          VoterDecides(ts, x);
        } else {
          SourceDecides(ts, x);
        }
      }
  }

  /** Over any run, reaping and stale votes included: a source fires exactly while its last
      sustained cycles in a row triggered, and is pending while fewer did. */
  lemma {:induction false} FiresIffSustained(ts: seq<Turn>, key: Key, source: string, sustained: int)
    requires Steady(ts, key, sustained)
    ensures InStep(ts, key, source, sustained)
  {
    if ts != [] {
      var before := ts[..|ts| - 1];
      assert forall i :: 0 <= i < |before| ==> before[i] == ts[i];
      FiresIffSustained(before, key, source, sustained);
      assert before + [ts[|ts| - 1]] == ts;
      TurnInStep(before, ts[|ts| - 1], key, source, sustained);
    }
  }

  // ---------------------------------------------------------------- the vote

  /** The sources heard within a window of now, and those of them that fire. */
  ghost function Voters(ts: seq<Turn>, key: Key, now: int, window: int): set<string> {
    set src | src in SourcesOf(After(ts), key) && now - LastHeard(ts, key, src) <= window
  }

  ghost function FiringVoters(ts: seq<Turn>, key: Key, now: int, window: int): set<string> {
    set src | src in Voters(ts, key, now, window) && EntryOf(After(ts), key, src).state == Firing
  }

  /** The sources the state machine counts are the ones the log says have a vote. */
  lemma VotersAreCounted(ts: seq<Turn>, key: Key, now: int, window: int)
    ensures Live(SourcesOf(After(ts), key), now, window) == Voters(ts, key, now, window)
    ensures FiringSources(SourcesOf(After(ts), key), now, window) == FiringVoters(ts, key, now, window)
  {
    forall src | src in SourcesOf(After(ts), key)
      ensures SourcesOf(After(ts), key)[src].lastSeen == LastHeard(ts, key, src)
    {
      RunCounts(ts, key, src);
    }
  }

  lemma JudgedIsKept(ts: seq<Turn>, x: Input)
    requires Applies(After(ts), x) && (x.quorum.Enabled() || x.taken)
    ensures SourcesOf(After(ts + [Cycle(x)]), x.key) == Judged(After(ts), x)
  {
    AfterNext(ts, x);
  }

  /** The sources a quorum has heard since its mode was last changed, and when it first did. */
  ghost function HeardOf(ts: seq<Turn>, key: Key): set<string> {
    if ts == [] then {}
    else
      var n := |ts| - 1;
      match ts[n]
      case Reload(changed) => if key.alert in changed then {} else HeardOf(ts[..n], key)
      case Cycle(x) =>
        if Applied(ts, n) && x.key == key && x.quorum.Enabled() then HeardOf(ts[..n], key) + {x.source}
        else HeardOf(ts[..n], key)
  }

  ghost function FirstHeard(ts: seq<Turn>, key: Key): int {
    if ts == [] then ZERO_TIME
    else
      var n := |ts| - 1;
      match ts[n]
      case Reload(_) => FirstHeard(ts[..n], key)
      case Cycle(x) =>
        if Applied(ts, n) && x.key == key && x.quorum.Enabled() && HeardOf(ts[..n], key) == {} then x.now
        else FirstHeard(ts[..n], key)
  }

  /** The warm-up record is the log's. */
  ghost predicate Warmed(ts: seq<Turn>, key: Key) {
    var b := After(ts);
    if HeardOf(ts, key) == {} then key !in b.warmup
    else key in b.warmup && b.warmup[key] == Warmup(FirstHeard(ts, key), HeardOf(ts, key))
  }

  lemma TurnWarms(ts: seq<Turn>, turn: Turn, key: Key)
    requires Warmed(ts, key)
    ensures Warmed(ts + [turn], key)
  {
    assert (ts + [turn])[..|ts|] == ts;
    if turn.Cycle? {
      assert turn.x.source in HeardOf(ts, key) + {turn.x.source};
    }
  }

  lemma {:induction false} RunWarms(ts: seq<Turn>, key: Key)
    ensures Warmed(ts, key)
  {
    if ts != [] {
      RunWarms(ts[..|ts| - 1], key);
      TurnWarms(ts[..|ts| - 1], ts[|ts| - 1], key);
      assert ts[..|ts| - 1] + [ts[|ts| - 1]] == ts;
    }
  }

  /** The votes reach the threshold: more than half, or as many as asked for. */
  ghost predicate Reached(q: Quorum, firing: nat, live: nat) {
    if q.majority then 2 * firing > live else firing >= q.min
  }

  /** A quorum pages if and only if the votes reach its threshold and it has heard two
      sources, or one for a whole warm-up; and resolves if and only if they do not. */
  lemma QuorumDecides(ts: seq<Turn>, x: Input)
    requires Applies(After(ts), x) && (x.quorum.majority || x.quorum.min > 0)
    ensures var o, window := Offered(After(ts), x), AlertFreshness(x.interval);
            var next := ts + [Cycle(x)];
            var firing, live := |FiringVoters(next, x.key, x.now, window)|, |Voters(next, x.key, x.now, window)|;
            var warm := |HeardOf(next, x.key)| >= 2 || x.now - FirstHeard(next, x.key) >= StalenessWindow(x.interval);
            && (if AggOf(After(ts), x.key) == Firing then o.Some? <==> !Reached(x.quorum, firing, live)
                else o.Some? <==> Reached(x.quorum, firing, live) && warm)
            && (o.Some? ==> o.value == if AggOf(After(ts), x.key) == Firing then Transition(Firing, OK, firing, live)
                                       else Transition(OK, Firing, firing, live))
  {
    var next, window := ts + [Cycle(x)], AlertFreshness(x.interval);
    assert next[..|ts|] == ts;
    AggNeverPending(ts, x.key);
    RunWarms(ts, x.key);
    RunWarms(next, x.key);
    JudgedIsKept(ts, x);
    VotersAreCounted(next, x.key, x.now, window);
    JudgedKeepsOwn(After(ts), x);
    assert x.source in Live(Judged(After(ts), x), x.now, window);
    assert WarmupOf(After(ts), x) == Warmup(FirstHeard(next, x.key), HeardOf(next, x.key));
  }

  // ---------------------------------------------------------------- what is forgotten

  /** Reaping bounds the state: no other source of the key that is out of the window, with
      nothing applied within the retention, is kept past an applied cycle, unless it speaks
      for itself and owes a resolve. */
  lemma ReapersReap(ts: seq<Turn>, x: Input, source: string)
    requires Applies(After(ts), x) && source != x.source && Known(ts + [Cycle(x)], x.key, source)
    requires x.now - LastHeard(ts, x.key, source) > AlertFreshness(x.interval)
    ensures var st := EntryOf(After(ts + [Cycle(x)]), x.key, source);
            x.now - st.mark.last <= RETENTION || (!x.quorum.Enabled() && st.state == Firing)
  {
    AfterNext(ts, x);
    RunCounts(ts, x.key, source);
    StepCounts(After(ts), x, x.key, source);
  }

  // ---------------------------------------------------------------- the program's own terms

  /** The sources that fire once this cycle has been judged. */
  ghost function FiringNow(ms: seq<Move>, c: Call, name: string): set<string>
    requires Watched(ms) && Watches(c, name)
  {
    var key := Alerting.Key(c.cy.target.group + "/" + c.cy.target.name, name);
    FiringVoters(Turns(ms) + [Cycle(InputFor(c, name, true))], key, c.now, AlertFreshness(c.cfg.interval)) - {""}
  }

  lemma OffersFiringSources(ms: seq<Move>, c: Call, name: string)
    requires Watched(ms) && Watches(c, name)
    ensures var offer := OfferedEvent(After(Turns(ms)), c, name);
            offer.Some? ==>
              && Applies(After(Turns(ms)), InputFor(c, name, true))
              && offer.value.firingSources == FiringNow(ms, c, name)
              && offer.value.target == c.cy.target && offer.value.alert == name
              && offer.value.source == c.cy.source && offer.value.time == c.cy.time
              && offer.value.hops == c.cy.hops && offer.value.samples == c.cy.samples
  {
    var x := InputFor(c, name, true);
    if OfferedEvent(After(Turns(ms)), c, name).Some? {
      JudgedIsKept(Turns(ms), x);
      VotersAreCounted(Turns(ms) + [Cycle(x)], x.key, x.now, AlertFreshness(x.interval));
    }
  }

  /** An alert without a quorum offers a firing event on a cycle, whatever ran before, if and
      only if the cycle is applied and triggers it, the source is not firing, and the alert's
      sustained cycles of it in a row, this one included, have triggered. */
  lemma SourcePages(ms: seq<Move>, c: Call, name: string)
    requires Watched(ms) && name in c.cfg.alerts && name in c.known
    requires !c.cfg.alerts[name].quorum.majority && c.cfg.alerts[name].quorum.min <= 0
    ensures var key := Alerting.Key(c.cy.target.group + "/" + c.cy.target.name, name);
            var b, offer := After(Turns(ms)), OfferedEvent(After(Turns(ms)), c, name);
            var was, n := EntryOf(b, key, c.cy.source), Streak(Turns(ms), key, c.cy.source) + 1;
            var applied := Admits(was.mark, c.cy.time, c.now);
            && (offer.Some? && offer.value.change.next == Firing
                <==> applied && name in c.triggered && was.state != Firing && n >= c.cfg.alerts[name].sustained)
            && (offer.Some? && offer.value.change.next == Pending
                <==> applied && name in c.triggered && was.state == OK && n < c.cfg.alerts[name].sustained)
            && (offer.Some? && offer.value.change.next == OK <==> applied && name !in c.triggered && was.state != OK)
            && (offer.Some? ==> offer.value.change.prev == was.state)
  {
    var x := InputFor(c, name, true);
    if Applies(After(Turns(ms)), x) {
      SourceDecides(Turns(ms), x);
    }
  }

  /** And one with a quorum if and only if the votes and the warm-up say so. */
  lemma QuorumPages(ms: seq<Move>, c: Call, name: string)
    requires Watched(ms) && name in c.cfg.alerts && name in c.known
    requires c.cfg.alerts[name].quorum.majority || c.cfg.alerts[name].quorum.min > 0
    ensures var key := Alerting.Key(c.cy.target.group + "/" + c.cy.target.name, name);
            var b, offer, next := After(Turns(ms)), OfferedEvent(After(Turns(ms)), c, name), Turns(ms) + [Cycle(InputFor(c, name, true))];
            var window := AlertFreshness(c.cfg.interval);
            var firing, live := |FiringVoters(next, key, c.now, window)|, |Voters(next, key, c.now, window)|;
            var reached := if c.cfg.alerts[name].quorum.majority then 2 * firing > live else firing >= c.cfg.alerts[name].quorum.min;
            var warm := |HeardOf(next, key)| >= 2 || c.now - FirstHeard(next, key) >= StalenessWindow(c.cfg.interval);
            var applied := Admits(EntryOf(b, key, c.cy.source).mark, c.cy.time, c.now);
            && (offer.Some? && offer.value.change.next == Firing <==> applied && AggOf(b, key) != Firing && reached && warm)
            && (offer.Some? && offer.value.change.next != Firing <==> applied && AggOf(b, key) == Firing && !reached)
            && (offer.Some? ==> offer.value.change.firing == firing && offer.value.change.live == live)
  {
    var x := InputFor(c, name, true);
    if Applies(After(Turns(ms)), x) {
      QuorumDecides(Turns(ms), x);
    }
  }
}
