/** The alert state machine for one cycle against one alert, as a step on values, and what
    holds over every run of such steps.

    A run is any interleaving of cycles for any (target, alert, source), with a receive
    clock that never goes back and intervals that may change at every step. Whether the
    delivery queue took a transition is an input: the theorems hold for every queue. */
module Alerting {
  import opened Wrappers
  import opened Replay

  datatype State = OK | Pending | Firing

  datatype Key = Key(target: string, alert: string)

  datatype AlertState = AlertState(state: State, consecHits: int, lastSeen: int, mark: Mark)

  const NEW := AlertState(OK, 0, ZERO_TIME, UNSEEN)

  type Sources = map<string, AlertState>

  datatype Quorum = Quorum(majority: bool, min: int) {
    predicate Enabled() { majority || min > 0 }

    function Threshold(live: nat): int {
      if majority then live / 2 + 1 else min
    }
  }

  datatype Warmup = Warmup(firstSeen: int, sourcesSeen: set<string>) {
    predicate Ready(now: int, window: int) {
      |sourcesSeen| >= 2 || now - firstSeen >= window
    }
  }

  /** The evaluator's three maps. */
  datatype Book = Book(states: map<Key, Sources>, agg: map<Key, State>, warmup: map<Key, Warmup>)

  const BLANK := Book(map[], map[], map[])

  /** One evaluable cycle against one alert its target names. */
  datatype Input = Input(
    key: Key, source: string, time: int, now: int, interval: int,
    sustained: int, quorum: Quorum, triggered: bool,
    // the delivery queue took the transition, if there was one
    taken: bool)

  /** The part of the dispatched event the state machine decides. */
  datatype Transition = Transition(prev: State, next: State, firing: nat, live: nat)

  // ---------------------------------------------------------------- the step

  function SourcesOf(b: Book, key: Key): Sources {
    if key in b.states then b.states[key] else map[]
  }

  function EntryOf(b: Book, key: Key, source: string): AlertState {
    var s := SourcesOf(b, key);
    if source in s then s[source] else NEW
  }

  /** The entry after a cycle it admits. */
  function Judge(st: AlertState, x: Input): AlertState {
    var mark := Accept(st.mark, x.time, x.now);
    if x.triggered then
      var hits := st.consecHits + 1;
      var state :=
        match st.state
        case OK => if hits >= x.sustained then Firing else Pending
        case Pending => if hits >= x.sustained then Firing else Pending
        case Firing => Firing;
      AlertState(state, hits, x.now, mark)
    else AlertState(OK, 0, x.now, mark)
  }

  predicate Stale(st: AlertState, now: int, window: int) {
    now - st.lastSeen > window
  }

  predicate Expired(st: AlertState, now: int) {
    now - st.mark.last > RETENTION
  }

  /** pruneQuietSources: forget sources that can produce no evaluable cycle and owe no resolve. */
  function PruneQuiet(s: Sources, now: int, window: int): Sources {
    map src | src in s && !(Stale(s[src], now, window) && s[src].state != Firing && Expired(s[src], now)) :: s[src]
  }

  /** tally's pruning: a stale source loses its vote, and its identity once expired. */
  function TallyPrune(s: Sources, now: int, window: int): Sources {
    map src | src in s && !(Stale(s[src], now, window) && Expired(s[src], now)) ::
      if Stale(s[src], now, window) then s[src].(state := OK, consecHits := 0) else s[src]
  }

  function Live(s: Sources, now: int, window: int): set<string> {
    set src | src in s && !Stale(s[src], now, window)
  }

  function FiringSources(s: Sources, now: int, window: int): set<string> {
    set src | src in s && !Stale(s[src], now, window) && s[src].state == Firing
  }

  predicate Applies(b: Book, x: Input) {
    Admits(EntryOf(b, x.key, x.source).mark, x.time, x.now)
  }

  /** The key's sources once this cycle is judged and the quiet ones are gone. */
  function Judged(b: Book, x: Input): Sources {
    var s := SourcesOf(b, x.key)[x.source := Judge(EntryOf(b, x.key, x.source), x)];
    if x.quorum.Enabled() then TallyPrune(s, x.now, AlertFreshness(x.interval))
    else PruneQuiet(s, x.now, AlertFreshness(x.interval))
  }

  function AggOf(b: Book, key: Key): State {
    if key in b.agg then b.agg[key] else OK
  }

  function WarmupOf(b: Book, x: Input): Warmup {
    var w := if x.key in b.warmup then b.warmup[x.key] else Warmup(x.now, {});
    w.(sourcesSeen := w.sourcesSeen + {x.source})
  }

  /** The quorum's verdict on the judged sources. Only a new firing is held back. */
  function NextAgg(b: Book, x: Input): State {
    var window := AlertFreshness(x.interval);
    var firing, live := |FiringSources(Judged(b, x), x.now, window)|, |Live(Judged(b, x), x.now, window)|;
    var next := if live > 0 && firing >= x.quorum.Threshold(live) then Firing else OK;
    if next == Firing && AggOf(b, x.key) != Firing && !WarmupOf(b, x).Ready(x.now, StalenessWindow(x.interval))
    then AggOf(b, x.key) else next
  }

  /** The transition an applied cycle offers to the delivery queue. */
  function Offered(b: Book, x: Input): Option<Transition> {
    var window := AlertFreshness(x.interval);
    if !Applies(b, x) then None
    else if x.quorum.Enabled() then
      if AggOf(b, x.key) == NextAgg(b, x) then None
      else Some(Transition(AggOf(b, x.key), NextAgg(b, x),
                           |FiringSources(Judged(b, x), x.now, window)|, |Live(Judged(b, x), x.now, window)|))
    else
      var prev, next := EntryOf(b, x.key, x.source).state, Judge(EntryOf(b, x.key, x.source), x).state;
      if prev == next then None else Some(Transition(prev, next, 0, 0))
  }

  /** A refused transition is undone; what the cycle measured is kept. */
  function Step(b: Book, x: Input): Book {
    var entry := EntryOf(b, x.key, x.source);
    var offered := Offered(b, x);
    var refused := offered.Some? && !x.taken;
    if !Applies(b, x) then
      b.(states := b.states[x.key := SourcesOf(b, x.key)[x.source := entry]])
    else if x.quorum.Enabled() then
      Book(b.states[x.key := Judged(b, x)],
           if offered == None then b.agg
           else b.agg[x.key := if refused then AggOf(b, x.key) else NextAgg(b, x)],
           b.warmup[x.key := WarmupOf(b, x)])
    else
      var s := Judged(b, x);
      var s' := if refused && x.source in s then s[x.source := s[x.source].(state := entry.state)] else s;
      b.(states := b.states[x.key := s'])
  }

  /** The reload of the alerts' quorum modes drops aggregates whose mode changed. */
  function Refresh(b: Book, changed: set<string>): Book {
    b.(agg := map k | k in b.agg && k.alert !in changed :: b.agg[k],
       warmup := map k | k in b.warmup && k.alert !in changed :: b.warmup[k])
  }

  lemma JudgedKeepsOwn(b: Book, x: Input)
    ensures x.source in Judged(b, x)
    ensures Judged(b, x)[x.source] == Judge(EntryOf(b, x.key, x.source), x)
  {
  }

  /** A majority pages only when more than half of the live sources are firing and two
      sources have been heard, or one for a whole warm-up window; and it resolves only when
      they no longer are. */
  lemma MajorityDecides(b: Book, x: Input)
    requires x.quorum.majority && AggOf(b, x.key) != Pending && Offered(b, x).Some?
    ensures var t := Offered(b, x).value;
            && t.firing <= t.live
            && (t.next == Firing ==> 2 * t.firing > t.live && WarmupOf(b, x).Ready(x.now, StalenessWindow(x.interval)))
            && (t.next != Firing ==> t.prev == Firing && 2 * t.firing <= t.live)
  {
    var window, s := AlertFreshness(x.interval), Judged(b, x);
    var firing, live := FiringSources(s, x.now, window), Live(s, x.now, window);
    assert live == firing + (live - firing);
  }

  // ---------------------------------------------------------------- runs

  datatype Turn = Cycle(x: Input) | Reload(changed: set<string>)

  function Turned(b: Book, turn: Turn): Book {
    match turn
    case Cycle(x) => Step(b, x)
    case Reload(changed) => Refresh(b, changed)
  }

  ghost function After(ts: seq<Turn>): Book {
    if ts == [] then BLANK else Turned(After(ts[..|ts| - 1]), ts[|ts| - 1])
  }

  ghost function Clock(ts: seq<Turn>): int {
    if ts == [] then ZERO_TIME
    else
      match ts[|ts| - 1]
      case Cycle(x) => x.now
      case Reload(_) => Clock(ts[..|ts| - 1])
  }

  /** The gates OnCycle puts in front of the state machine, on a clock that never goes back. */
  ghost predicate Gated(ts: seq<Turn>, i: nat)
    requires i < |ts|
  {
    ts[i].Cycle? ==>
      var x := ts[i].x; x.now >= Clock(ts[..i]) && Fresh(x.time, x.now, x.interval)
  }

  ghost predicate Possible(ts: seq<Turn>) {
    forall i :: 0 <= i < |ts| ==> Gated(ts, i)
  }

  /** Turn i applied a measurement to the alert state. */
  ghost predicate Applied(ts: seq<Turn>, i: nat) {
    i < |ts| && ts[i].Cycle? && Applies(After(ts[..i]), ts[i].x)
  }

  ghost predicate SameMeasurement(x: Input, y: Input) {
    x.key == y.key && x.source == y.source && x.time == y.time
  }

  // ---------------------------------------------------------------- at most once

  /** The stamp can no longer be applied: too old for every gate, or barred by its entry. */
  ghost predicate Spent(b: Book, clock: int, key: Key, source: string, t: int) {
    clock - t > RETENTION || Bars(EntryOf(b, key, source).mark, t)
  }

  /** The stamps of an entry's mark stay a kept list over every run. */
  ghost predicate KeptIn(b: Book) {
    forall key: Key, source: string :: Kept(EntryOf(b, key, source).mark)
  }

  /** Turn i pushed out of a full list a stamp that some gate still lets through. */
  ghost predicate EvictsAt(ts: seq<Turn>, i: nat) {
    Applied(ts, i) && EvictsFresh(EntryOf(After(ts[..i]), ts[i].x.key, ts[i].x.source).mark, ts[i].x.time, ts[i].x.now)
  }

  ghost predicate NeverEvicts(ts: seq<Turn>) {
    forall i: nat :: i < |ts| ==> !EvictsAt(ts, i)
  }

  /** What one step does to one entry's mark: accept, forget, or nothing. */
  lemma StepMarks(b: Book, x: Input, key: Key, source: string)
    ensures var was, now := EntryOf(b, key, source).mark, EntryOf(Step(b, x), key, source).mark;
            if Applies(b, x) && key == x.key && source == x.source then now == Accept(was, x.time, x.now)
            else now == was || (now == UNSEEN && Applies(b, x) && x.now - was.last > RETENTION)
  {
    JudgedKeepsOwn(b, x);
  }

  lemma StepKeepsMarks(b: Book, x: Input)
    requires KeptIn(b) && x.now >= ZERO_TIME
    ensures KeptIn(Step(b, x))
  {
    forall key, source ensures Kept(EntryOf(Step(b, x), key, source).mark) {
      var was := EntryOf(b, key, source).mark;
      StepMarks(b, x, key, source);
      if Applies(b, x) && key == x.key && source == x.source {
        AcceptKeeps(was, x.time, x.now);
      }
    }
  }

  lemma PrefixIsPossible(ts: seq<Turn>, j: nat)
    requires Possible(ts) && j <= |ts|
    ensures Possible(ts[..j]) && (NeverEvicts(ts) ==> NeverEvicts(ts[..j]))
  {
    var before := ts[..j];
    forall i: nat | i < j ensures Gated(before, i) && (NeverEvicts(ts) ==> !EvictsAt(before, i)) {
      assert Gated(ts, i) && before[..i] == ts[..i];
      assert EvictsAt(before, i) == EvictsAt(ts, i);
    }
  }

  lemma {:induction false} ClockIsReal(ts: seq<Turn>)
    requires Possible(ts)
    ensures Clock(ts) >= ZERO_TIME
  {
    if ts != [] {
      PrefixIsPossible(ts, |ts| - 1);
      ClockIsReal(ts[..|ts| - 1]);
      assert Gated(ts, |ts| - 1);
    }
  }

  lemma {:induction false} RunKeepsMarks(ts: seq<Turn>)
    requires Possible(ts)
    ensures KeptIn(After(ts))
  {
    if ts != [] {
      var n := |ts| - 1;
      PrefixIsPossible(ts, n);
      RunKeepsMarks(ts[..n]);
      if ts[n].Cycle? {
        assert Gated(ts, n);
        ClockIsReal(ts[..n]);
        StepKeepsMarks(After(ts[..n]), ts[n].x);
      } else {
        assert forall key, source :: EntryOf(After(ts), key, source) == EntryOf(After(ts[..n]), key, source);
      }
    }
  }

  /** A reaper that forgets an entry, or a list that forgets a stamp, forgets only stamps
      every gate refuses from now on. */
  lemma StepSpends(b: Book, clock: int, x: Input, key: Key, source: string, t: int)
    requires KeptIn(b) && x.now >= clock
    requires Applies(b, x) ==> !EvictsFresh(EntryOf(b, x.key, x.source).mark, x.time, x.now)
    requires Spent(b, clock, key, source, t) || (Applies(b, x) && key == x.key && source == x.source && t == x.time)
    ensures Spent(Step(b, x), x.now, key, source, t)
  {
    StepMarks(b, x, key, source);
    var was := EntryOf(b, key, source).mark;
    assert Kept(was);
    if x.now - t <= RETENTION && Applies(b, x) && key == x.key && source == x.source {
      AcceptKeepsBarred(was, x.time, x.now, t);
    }
  }

  lemma {:induction false} RunSpends(ts: seq<Turn>, i: nat)
    requires Possible(ts) && NeverEvicts(ts) && Applied(ts, i)
    ensures Spent(After(ts), Clock(ts), ts[i].x.key, ts[i].x.source, ts[i].x.time)
    decreases |ts|
  {
    var n := |ts| - 1;
    var before := ts[..n];
    assert Gated(ts, n) && !EvictsAt(ts, n);
    PrefixIsPossible(ts, n);
    RunKeepsMarks(before);
    if i < n {
      assert before[..i] == ts[..i];
      RunSpends(before, i);
    }
    if ts[n].Cycle? {
      StepSpends(After(before), Clock(before), ts[n].x, ts[i].x.key, ts[i].x.source, ts[i].x.time);
    }
  }

  /** A spent stamp passes one gate or the other no more. */
  lemma SpentIsRefused(b: Book, clock: int, x: Input)
    requires Spent(b, clock, x.key, x.source, x.time) && x.now >= clock && Fresh(x.time, x.now, x.interval)
    ensures !Applies(b, x)
  {
    RetentionCoversFreshness(x.interval);
  }

  /** No measurement is applied to the alert state twice, although reapers delete the
      identity it was recognised by and reloads move every window in between. */
  lemma AtMostOnce(ts: seq<Turn>, i: nat, j: nat)
    requires Possible(ts) && NeverEvicts(ts)
    requires i < j && Applied(ts, i) && Applied(ts, j)
    ensures !SameMeasurement(ts[i].x, ts[j].x)
  {
    var before := ts[..j];
    PrefixIsPossible(ts, j);
    assert before[..i] == ts[..i];
    RunSpends(before, i);
    assert Gated(ts, j);
    if SameMeasurement(ts[i].x, ts[j].x) {
      SpentIsRefused(After(before), Clock(before), ts[j].x);
    }
  }

  // ---------------------------------------------------------------- exactly when

  /** After some prefix of the run, this cycle would pass every gate and be applied, though
      the same measurement was applied before. */
  ghost predicate RepeatsAfter(ts: seq<Turn>, k: nat, x: Input) {
    && k <= |ts| && Possible(ts[..k] + [Cycle(x)]) && Applies(After(ts[..k]), x)
    && exists j: nat :: j < k && Applied(ts, j) && SameMeasurement(ts[j].x, x)
  }

  /** The run, or one it could have become, applies some measurement a second time. */
  ghost predicate CanRepeat(ts: seq<Turn>) {
    exists k: nat, x: Input :: RepeatsAfter(ts, k, x)
  }

  /** Some applied turn carried this stamp. */
  ghost predicate AppliedStamp(ts: seq<Turn>, key: Key, source: string, t: int) {
    exists j: nat :: j < |ts| && Applied(ts, j) && ts[j].x.key == key && ts[j].x.source == source && ts[j].x.time == t
  }

  lemma AppliedStays(ts: seq<Turn>, turn: Turn, key: Key, source: string, t: int)
    requires AppliedStamp(ts, key, source, t)
    ensures AppliedStamp(ts + [turn], key, source, t)
  {
    var j: nat :| j < |ts| && Applied(ts, j) && ts[j].x.key == key && ts[j].x.source == source && ts[j].x.time == t;
    assert (ts + [turn])[..j] == ts[..j] && Applied(ts + [turn], j);
  }

  /** Whatever a list remembers was applied. */
  lemma {:induction false} ListedWasApplied(ts: seq<Turn>, key: Key, source: string, t: int)
    requires Possible(ts) && t in EntryOf(After(ts), key, source).mark.ahead
    ensures AppliedStamp(ts, key, source, t)
  {
    var n := |ts| - 1;
    var before := ts[..n];
    assert ts == before + [ts[n]];
    PrefixIsPossible(ts, n);
    match ts[n]
    case Reload(_) =>
      ListedWasApplied(before, key, source, t);
      AppliedStays(before, ts[n], key, source, t);
    case Cycle(x) =>
      RunKeepsMarks(before);
      assert Gated(ts, n);
      ClockIsReal(before);
      StepMarks(After(before), x, key, source);
      var own := Applies(After(before), x) && key == x.key && source == x.source;
      if own {
        AcceptKeeps(EntryOf(After(before), key, source).mark, x.time, x.now);
      }
      if own && t == x.time {
        assert Applied(ts, n);
      } else {
        ListedWasApplied(before, key, source, t);
        AppliedStays(before, ts[n], key, source, t);
      }
  }

  /** Turn j applied a cycle of this entry that was not ahead of the clock. */
  ghost predicate OnTime(ts: seq<Turn>, j: nat, key: Key, source: string, t: int) {
    Applied(ts, j) && ts[j].x.key == key && ts[j].x.source == source && ts[j].x.time == t && t <= ts[j].x.now
  }

  /** What a mark holds was applied, the past mark on time; or it is as it began. */
  ghost predicate Marks(ts: seq<Turn>, key: Key, source: string) {
    var m := EntryOf(After(ts), key, source).mark;
    && (m.last == ZERO_TIME || AppliedStamp(ts, key, source, m.last))
    && (m.past == ZERO_TIME || exists j: nat :: j < |ts| && OnTime(ts, j, key, source, m.past))
  }

  lemma OnTimeStays(ts: seq<Turn>, turn: Turn, j: nat, key: Key, source: string, t: int)
    requires j < |ts| && OnTime(ts, j, key, source, t)
    ensures OnTime(ts + [turn], j, key, source, t)
  {
    assert (ts + [turn])[..j] == ts[..j];
  }

  lemma MarksStay(ts: seq<Turn>, turn: Turn, key: Key, source: string)
    requires Marks(ts, key, source)
    requires EntryOf(After(ts + [turn]), key, source).mark == EntryOf(After(ts), key, source).mark
    ensures Marks(ts + [turn], key, source)
  {
    var m := EntryOf(After(ts), key, source).mark;
    if m.last != ZERO_TIME {
      AppliedStays(ts, turn, key, source, m.last);
    }
    if m.past != ZERO_TIME {
      var j: nat :| j < |ts| && OnTime(ts, j, key, source, m.past);
      OnTimeStays(ts, turn, j, key, source, m.past);
    }
  }

  lemma AcceptMarks(ts: seq<Turn>, x: Input)
    requires Marks(ts, x.key, x.source) && Applies(After(ts), x)
    ensures Marks(ts + [Cycle(x)], x.key, x.source)
  {
    var next, m := ts + [Cycle(x)], EntryOf(After(ts), x.key, x.source).mark;
    AfterNext(ts, x);
    StepMarks(After(ts), x, x.key, x.source);
    assert next[..|ts|] == ts && Applied(next, |ts|);
    if m.last != ZERO_TIME {
      AppliedStays(ts, Cycle(x), x.key, x.source, m.last);
    }
    if x.time <= x.now {
      assert OnTime(next, |ts|, x.key, x.source, x.time);
    } else if m.past != ZERO_TIME {
      var j: nat :| j < |ts| && OnTime(ts, j, x.key, x.source, m.past);
      OnTimeStays(ts, Cycle(x), j, x.key, x.source, m.past);
    }
  }

  lemma {:induction false} RunMarks(ts: seq<Turn>, key: Key, source: string)
    ensures Marks(ts, key, source)
  {
    if ts != [] {
      var before, turn := ts[..|ts| - 1], ts[|ts| - 1];
      assert ts == before + [turn];
      RunMarks(before, key, source);
      match turn
      case Reload(_) => MarksStay(before, turn, key, source);
      case Cycle(x) =>
        AfterNext(before, x);
        StepMarks(After(before), x, key, source);
        if Applies(After(before), x) && key == x.key && source == x.source {
          AcceptMarks(before, x);
        } else if EntryOf(After(ts), key, source).mark == EntryOf(After(before), key, source).mark {
          MarksStay(before, turn, key, source);
        }
    }
  }

  /** Only a replay is refused, or a cycle that arrives out of order: the guard turns away no
      measurement without having applied the same one, a newer one that was not ahead of the
      clock, or, for one that is ahead itself, a newer one. */
  lemma RefusedHasReason(ts: seq<Turn>, x: Input) returns (j: nat)
    requires Possible(ts) && !Applies(After(ts), x) && x.time > ZERO_TIME
    ensures Applied(ts, j) && ts[j].x.key == x.key && ts[j].x.source == x.source
    ensures ts[j].x.time == x.time || (ts[j].x.time > x.time && (x.time > x.now || ts[j].x.time <= ts[j].x.now))
  {
    var m := EntryOf(After(ts), x.key, x.source).mark;
    RunMarks(ts, x.key, x.source);
    if x.time > x.now {
      j := StampedBy(ts, x.key, x.source, m.last);
    } else if x.time <= m.past {
      j :| j < |ts| && OnTime(ts, j, x.key, x.source, m.past);
    } else {
      ListedWasApplied(ts, x.key, x.source, x.time);
      j := StampedBy(ts, x.key, x.source, x.time);
    }
  }

  lemma StampedBy(ts: seq<Turn>, key: Key, source: string, t: int) returns (j: nat)
    requires AppliedStamp(ts, key, source, t)
    ensures j < |ts| && Applied(ts, j) && ts[j].x.key == key && ts[j].x.source == source && ts[j].x.time == t
  {
    j :| j < |ts| && Applied(ts, j) && ts[j].x.key == key && ts[j].x.source == source && ts[j].x.time == t;
  }

  lemma NextIsPossible(ts: seq<Turn>, x: Input)
    requires Possible(ts) && x.now >= Clock(ts) && Fresh(x.time, x.now, x.interval)
    ensures Possible(ts + [Cycle(x)])
  {
    var next := ts + [Cycle(x)];
    assert next[..|ts|] == ts;
    forall i | 0 <= i < |next| ensures Gated(next, i) {
      if i < |ts| {
        assert Gated(ts, i) && next[..i] == ts[..i];
      }
    }
  }

  /** A later cycle that carries stamp h for the same entry. */
  function Again(x: Input, h: int): Input {
    Input(x.key, x.source, h, if h > x.now then h else x.now, MAX_PROBE_INTERVAL, x.sustained, x.quorum, false, true)
  }

  lemma AgainIsFresh(x: Input, h: int)
    requires x.now - h <= RETENTION
    ensures Fresh(h, Again(x, h).now, MAX_PROBE_INTERVAL)
  {
  }

  /** The evicted stamp is applied again by the next cycle that carries it. */
  lemma EvictedIsApplied(before: seq<Turn>, x: Input)
    requires Possible(before) && Applies(After(before), x)
    requires EvictsFresh(EntryOf(After(before), x.key, x.source).mark, x.time, x.now)
    ensures var h := EntryOf(After(before), x.key, x.source).mark.ahead[0];
            Applies(After(before + [Cycle(x)]), Again(x, h))
  {
    RunKeepsMarks(before);
    AfterNext(before, x);
    StepMarks(After(before), x, x.key, x.source);
    var mark := EntryOf(After(before), x.key, x.source).mark;
    EvictedIsAdmitted(mark, x.time, x.now, Again(x, mark.ahead[0]).now);
  }

  lemma AppliedEarlier(ts: seq<Turn>, i: nat, x: Input) returns (j: nat)
    requires i <= |ts| && AppliedStamp(ts[..i], x.key, x.source, x.time)
    ensures j < i && Applied(ts, j) && SameMeasurement(ts[j].x, x)
  {
    var before := ts[..i];
    j :| j < |before| && Applied(before, j) && before[j].x.key == x.key && before[j].x.source == x.source && before[j].x.time == x.time;
    assert before[..j] == ts[..j];
  }

  lemma EvictionRepeats(ts: seq<Turn>, i: nat)
    requires Possible(ts) && i < |ts| && EvictsAt(ts, i)
    ensures CanRepeat(ts)
  {
    var x, before, upto := ts[i].x, ts[..i], ts[..i + 1];
    assert upto == before + [Cycle(x)];
    var h := EntryOf(After(before), x.key, x.source).mark.ahead[0];
    PrefixIsPossible(ts, i);
    PrefixIsPossible(ts, i + 1);
    EvictedIsApplied(before, x);
    ListedWasApplied(before, x.key, x.source, h);
    var j := AppliedEarlier(ts, i, Again(x, h));
    AgainIsFresh(x, h);
    NextIsPossible(upto, Again(x, h));
    assert RepeatsAfter(ts, i + 1, Again(x, h));
  }

  lemma RepeatNeedsEviction(ts: seq<Turn>, k: nat, x: Input)
    requires Possible(ts) && NeverEvicts(ts)
    ensures !RepeatsAfter(ts, k, x)
  {
    if RepeatsAfter(ts, k, x) {
      var before := ts[..k];
      var j: nat :| j < k && Applied(ts, j) && SameMeasurement(ts[j].x, x);
      PrefixIsPossible(ts, k);
      assert before[..j] == ts[..j] && Applied(before, j);
      RunSpends(before, j);
      assert Gated(before + [Cycle(x)], k) && (before + [Cycle(x)])[..k] == before;
      SpentIsRefused(After(before), Clock(before), x);
    }
  }

  /** A measurement can be applied twice exactly when some turn pushed one that no gate
      refuses yet out of a full list. */
  lemma RepeatsIffEvicts(ts: seq<Turn>)
    requires Possible(ts)
    ensures CanRepeat(ts) <==> !NeverEvicts(ts)
  {
    if NeverEvicts(ts) {
      forall k: nat, x: Input ensures !RepeatsAfter(ts, k, x) {
        RepeatNeedsEviction(ts, k, x);
      }
    } else {
      var i: nat :| i < |ts| && EvictsAt(ts, i);
      EvictionRepeats(ts, i);
    }
  }

  /** One cycle stamped t while the clock stands at 0, and k of them, stamped 1 to k. */
  function AheadInput(t: nat): Input {
    Input(Key("t", "a"), "s", t, 0, MINUTE, 1, Quorum(false, 0), false, true)
  }

  function AheadRun(k: nat): (ts: seq<Turn>)
    ensures |ts| == k
  {
    if k == 0 then [] else AheadRun(k - 1) + [Cycle(AheadInput(k))]
  }

  function Upto(lo: int, hi: int): (s: seq<int>)
    requires lo <= hi
    ensures |s| == hi - lo && forall i :: 0 <= i < |s| ==> s[i] == lo + i
  {
    seq(hi - lo, i => lo + i)
  }

  /** The mark after k of them: all remembered, as far as the list goes. */
  function AheadMark(k: nat): Mark {
    if k == 0 then UNSEEN else Mark(true, k, ZERO_TIME, Upto(if k > CEILING then k - CEILING + 1 else 1, k + 1))
  }

  lemma AheadMarkGrows(k: nat)
    ensures Admits(AheadMark(k), k + 1, 0) && Accept(AheadMark(k), k + 1, 0) == AheadMark(k + 1)
  {
    assert Newest(AheadMark(k).ahead + [k + 1]) == AheadMark(k + 1).ahead;
  }

  lemma AheadStep(b: Book, k: nat)
    requires EntryOf(b, Key("t", "a"), "s").mark == AheadMark(k)
    ensures EntryOf(Step(b, AheadInput(k + 1)), Key("t", "a"), "s").mark == AheadMark(k + 1)
  {
    AheadMarkGrows(k);
    JudgedKeepsOwn(b, AheadInput(k + 1));
  }

  lemma {:induction false} AheadRunFills(k: nat)
    ensures EntryOf(After(AheadRun(k)), Key("t", "a"), "s").mark == AheadMark(k)
  {
    if k > 0 {
      AheadRunFills(k - 1);
      AheadStep(After(AheadRun(k - 1)), k - 1);
      AfterNext(AheadRun(k - 1), AheadInput(k));
    }
  }

  lemma AfterNext(ts: seq<Turn>, x: Input)
    ensures After(ts + [Cycle(x)]) == Step(After(ts), x)
  {
    assert (ts + [Cycle(x)])[..|ts|] == ts;
  }

  /** The bound on the list is needed: CEILING + 1 stamps ahead of the clock push the
      oldest out, and once the clock reaches it the same measurement is applied again. */
  lemma OverflowAppliesTwice()
    ensures exists ts: seq<Turn>, j: nat :: |ts| == CEILING + 2 && j == CEILING + 1
              && Possible(ts) && Applied(ts, 0) && Applied(ts, j) && SameMeasurement(ts[0].x, ts[j].x)
  {
    var k := CEILING + 1;
    var again := Cycle(Input(Key("t", "a"), "s", 1, 1, MINUTE, 1, Quorum(false, 0), false, true));
    var ts := AheadRun(k) + [again];
    assert ts[..k] == AheadRun(k);
    AheadRunFills(k);
    assert Applied(ts, k);
    AheadRunIsPossible(k);
    forall i: nat | i < |ts| ensures Gated(ts, i) {
      if i < k {
        assert Gated(AheadRun(k), i) && ts[..i] == AheadRun(k)[..i];
      }
    }
    AheadRunStarts(k);
    assert ts[..0] == [] && ts[0] == AheadRun(k)[0];
    assert Applied(ts, 0) && SameMeasurement(ts[0].x, ts[k].x);
  }

  lemma {:induction false} AheadRunStarts(k: nat)
    requires k > 0
    ensures AheadRun(k)[0] == AheadRun(1)[0]
    ensures Clock(AheadRun(k)) == 0
  {
    if k > 1 {
      AheadRunStarts(k - 1);
    }
  }

  lemma {:induction false} AheadRunIsPossible(k: nat)
    ensures Possible(AheadRun(k))
  {
    if k > 0 {
      AheadRunIsPossible(k - 1);
      var ts, before := AheadRun(k), AheadRun(k - 1);
      if k > 1 {
        AheadRunStarts(k - 1);
      }
      forall i | 0 <= i < k ensures Gated(ts, i) {
        if i < k - 1 {
          assert Gated(before, i) && ts[..i] == before[..i];
        } else {
          assert ts[..i] == before;
        }
      }
    }
  }

  /** An aggregate is never pending. */
  lemma {:induction false} AggNeverPending(ts: seq<Turn>, key: Key)
    ensures AggOf(After(ts), key) != Pending
  {
    if ts != [] {
      AggNeverPending(ts[..|ts| - 1], key);
    }
  }

  // ---------------------------------------------------------------- alternation

  /** What an accepted transition tells the operator: firing, resolved, or neither. */
  function Told(t: Transition): seq<bool> {
    if t.next == Firing then [true] else if t.prev == Firing then [false] else []
  }

  /** What one turn tells of a source, or of a whole quorum. */
  function Tells(b: Book, turn: Turn, key: Key, source: Option<string>): seq<bool> {
    match turn
    case Reload(_) => []
    case Cycle(x) =>
      if x.key == key && (source == None || source == Some(x.source)) && x.taken && Offered(b, x).Some?
      then Told(Offered(b, x).value) else []
  }

  /** The accepted firing and resolve events of one source, or of a whole quorum. */
  ghost function Tellings(ts: seq<Turn>, key: Key, source: Option<string>): seq<bool> {
    if ts == [] then []
    else
      var before := ts[..|ts| - 1];
      Tellings(before, key, source) + Tells(After(before), ts[|ts| - 1], key, source)
  }

  /** Firing, resolved, firing, resolved, ... */
  ghost predicate Alternates(bits: seq<bool>) {
    forall i :: 0 <= i < |bits| ==> bits[i] == (i % 2 == 0)
  }

  ghost predicate LastSays(bits: seq<bool>, firing: bool) {
    firing <==> bits != [] && bits[|bits| - 1]
  }

  lemma TellingAlternates(bits: seq<bool>, firing: bool, t: Transition)
    requires Alternates(bits) && LastSays(bits, firing)
    requires t.prev != t.next && (t.prev == Firing <==> firing)
    ensures Alternates(bits + Told(t)) && LastSays(bits + Told(t), t.next == Firing)
  {
  }

  ghost predicate QuorumIs(ts: seq<Turn>, key: Key, enabled: bool) {
    && (forall i :: 0 <= i < |ts| && ts[i].Cycle? && ts[i].x.key == key ==>
          ts[i].x.quorum.Enabled() == enabled)
    && (forall i :: 0 <= i < |ts| && ts[i].Reload? ==> key.alert !in ts[i].changed)
  }

  lemma SourceStepTells(b: Book, x: Input, key: Key, source: string)
    requires !x.quorum.Enabled() && key == x.key
    ensures var was, now := EntryOf(b, key, source).state == Firing, EntryOf(Step(b, x), key, source).state == Firing;
            if source == x.source && Offered(b, x).Some? && x.taken
            then Offered(b, x).value.prev == EntryOf(b, key, source).state
                 && (now <==> Offered(b, x).value.next == Firing)
            else was == now
  {
    JudgedKeepsOwn(b, x);
  }

  lemma SourceTellsOn(b: Book, turn: Turn, key: Key, source: string, bits: seq<bool>)
    requires Alternates(bits) && LastSays(bits, EntryOf(b, key, source).state == Firing)
    requires turn.Cycle? && turn.x.key == key ==> !turn.x.quorum.Enabled()
    ensures var next := bits + Tells(b, turn, key, Some(source));
            Alternates(next) && LastSays(next, EntryOf(Turned(b, turn), key, source).state == Firing)
  {
    assert bits + [] == bits;
    if turn.Cycle? && turn.x.key == key {
      SourceStepTells(b, turn.x, key, source);
      if source == turn.x.source && Offered(b, turn.x).Some? && turn.x.taken {
        TellingAlternates(bits, EntryOf(b, key, source).state == Firing, Offered(b, turn.x).value);
      }
    }
  }

  /** Without a quorum the accepted firing and resolve events of a source strictly
      alternate, firing first, and the stored state always agrees with the last one told,
      although refused transitions are undone and quiet sources are reaped. */
  lemma {:induction false} SourceAlternates(ts: seq<Turn>, key: Key, source: string)
    requires QuorumIs(ts, key, false)
    ensures Alternates(Tellings(ts, key, Some(source)))
    ensures LastSays(Tellings(ts, key, Some(source)), EntryOf(After(ts), key, source).state == Firing)
  {
    if ts != [] {
      var before := ts[..|ts| - 1];
      assert forall i :: 0 <= i < |before| ==> before[i] == ts[i];
      SourceAlternates(before, key, source);
      SourceTellsOn(After(before), ts[|ts| - 1], key, source, Tellings(before, key, Some(source)));
    }
  }

  lemma QuorumStepTells(b: Book, x: Input, key: Key)
    requires x.quorum.Enabled() && key == x.key
    ensures var was, now := AggOf(b, key), AggOf(Step(b, x), key);
            if Offered(b, x).Some? && x.taken
            then Offered(b, x).value.prev == was && Offered(b, x).value.next == now && was != now
            else was == now
  {
  }

  lemma QuorumTellsOn(b: Book, turn: Turn, key: Key, bits: seq<bool>)
    requires Alternates(bits) && LastSays(bits, AggOf(b, key) == Firing)
    requires match turn case Cycle(x) => x.key == key ==> x.quorum.Enabled() case Reload(changed) => key.alert !in changed
    ensures var next := bits + Tells(b, turn, key, None);
            Alternates(next) && LastSays(next, AggOf(Turned(b, turn), key) == Firing)
  {
    assert bits + [] == bits;
    if turn.Cycle? && turn.x.key == key {
      QuorumStepTells(b, turn.x, key);
      if Offered(b, turn.x).Some? && turn.x.taken {
        TellingAlternates(bits, AggOf(b, key) == Firing, Offered(b, turn.x).value);
      }
    }
  }

  /** With a quorum the same holds of the aggregate, whichever source drives it. */
  lemma {:induction false} QuorumAlternates(ts: seq<Turn>, key: Key)
    requires QuorumIs(ts, key, true)
    ensures Alternates(Tellings(ts, key, None))
    ensures LastSays(Tellings(ts, key, None), AggOf(After(ts), key) == Firing)
  {
    if ts != [] {
      var before := ts[..|ts| - 1];
      assert forall i :: 0 <= i < |before| ==> before[i] == ts[i];
      QuorumAlternates(before, key);
      QuorumTellsOn(After(before), ts[|ts| - 1], key, Tellings(before, key, None));
    }
  }
}
