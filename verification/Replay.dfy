/** The alert path's replay guard for one (target, alert, source).

    A high-water mark orders cycles that were not ahead of the master's clock when they
    arrived; stamps accepted while ahead of it are matched exactly until the mark rises
    past them. Times are nanoseconds. */
module Replay {
  const SECOND := 1_000_000_000
  const MINUTE := 60 * SECOND
  // config.MaxFutureSkew and config.MaxProbeInterval.
  const MAX_FUTURE_SKEW := 5 * MINUTE
  const MAX_PROBE_INTERVAL := 4_294_967_295 * 1000
  // aheadCeiling, which is cluster.MaxCyclesPerBatch.
  const CEILING: nat := 1024
  // The zero time.Time: 1 January of year 1.
  const ZERO_TIME := -62_135_596_800 * SECOND

  function StalenessWindow(interval: int): int {
    3 * (if interval <= 0 then MINUTE else interval)
  }

  /** How old a cycle may be and still be evaluated, and how long one keeps its source live. */
  function AlertFreshness(interval: int): int {
    if StalenessWindow(interval) > MAX_FUTURE_SKEW then StalenessWindow(interval) else MAX_FUTURE_SKEW
  }

  /** How long a silent source's identity is kept: the widest freshness any accepted
      interval could adopt. */
  const RETENTION := AlertFreshness(MAX_PROBE_INTERVAL)

  lemma RetentionCoversFreshness(interval: int)
    requires interval <= MAX_PROBE_INTERVAL
    ensures 0 < AlertFreshness(interval) <= RETENTION
  {
  }

  datatype Mark = Mark(seen: bool, last: int, past: int, ahead: seq<int>)

  const UNSEEN := Mark(false, ZERO_TIME, ZERO_TIME, [])

  predicate Admits(m: Mark, t: int, now: int) {
    if !m.seen then true
    else if t > now then t > m.last
    else t > m.past && t !in m.ahead
  }

  /** The stamps above t, in order. */
  function Above(ahead: seq<int>, t: int): (r: seq<int>)
    ensures forall v :: v in r <==> v in ahead && v > t
  {
    if ahead == [] then []
    else if ahead[0] > t then [ahead[0]] + Above(ahead[1..], t)
    else Above(ahead[1..], t)
  }

  function Newest(ahead: seq<int>): seq<int> {
    if |ahead| > CEILING then ahead[|ahead| - CEILING..] else ahead
  }

  function Accept(m: Mark, t: int, now: int): Mark {
    var last := if t > m.last then t else m.last;
    if t > now then Mark(true, last, m.past, Newest(m.ahead + [t]))
    else Mark(true, last, t, Above(m.ahead, t))
  }

  /** Accepting t overflows the list of stamps ahead of the clock. */
  predicate Overflows(m: Mark, t: int, now: int) {
    t > now && |m.ahead| >= CEILING
  }

  /** A stamp the mark will not admit at any later clock. */
  predicate Bars(m: Mark, t: int) {
    m.seen && t <= m.last && (t <= m.past || t in m.ahead)
  }

  /** Every interval a configuration may hold lets a stamp through this gate first. */
  predicate Fresh(t: int, now: int, interval: int) {
    interval <= MAX_PROBE_INTERVAL && now - t <= AlertFreshness(interval)
  }

  /** Accepting t pushes out a stamp that some gate still lets through. */
  predicate EvictsFresh(m: Mark, t: int, now: int) {
    Overflows(m, t, now) && now - m.ahead[0] <= RETENTION
  }

  /** The list holds distinct stamps above the past mark, oldest first, within the ceiling. */
  ghost predicate Kept(m: Mark) {
    && (!m.seen ==> m == UNSEEN)
    && |m.ahead| <= CEILING && m.past <= m.last
    && (forall i :: 0 <= i < |m.ahead| ==> m.past < m.ahead[i] <= m.last)
    && (forall i, j :: 0 <= i < j < |m.ahead| ==> m.ahead[i] < m.ahead[j])
  }

  lemma {:induction false} AboveAscends(ahead: seq<int>, t: int)
    requires forall i, j :: 0 <= i < j < |ahead| ==> ahead[i] < ahead[j]
    ensures var r := Above(ahead, t);
            |r| <= |ahead| && forall i, j :: 0 <= i < j < |r| ==> r[i] < r[j]
  {
    if ahead != [] {
      AboveAscends(ahead[1..], t);
      var r := Above(ahead, t);
      if ahead[0] > t {
        forall j | 1 <= j < |r| ensures r[0] < r[j] {
          assert r[j] == Above(ahead[1..], t)[j - 1] && r[j] in ahead[1..];
        }
      }
    }
  }

  /** Newest drops at most the oldest stamp. */
  lemma NewestDropsFirst(ahead: seq<int>, t: int)
    requires |ahead| <= CEILING
    ensures Newest(ahead + [t]) == (if |ahead| == CEILING then ahead[1..] else ahead) + [t]
  {
  }

  /** Every run keeps the list so, even one that overflows it. */
  lemma AcceptKeeps(m: Mark, t: int, now: int)
    requires Kept(m) && Admits(m, t, now) && now >= ZERO_TIME
    ensures Kept(Accept(m, t, now))
    ensures forall v :: v in Accept(m, t, now).ahead ==> v == t || v in m.ahead
  {
    var next := Accept(m, t, now);
    if t <= now {
      AboveAscends(m.ahead, t);
      forall i | 0 <= i < |next.ahead| ensures next.past < next.ahead[i] <= next.last {
        assert next.ahead[i] in Above(m.ahead, t);
        var j :| 0 <= j < |m.ahead| && m.ahead[j] == next.ahead[i];
      }
    } else {
      NewestDropsFirst(m.ahead, t);
    }
  }

  /** Accepting a stamp bars it, and keeps barred what was, all but a stamp it evicts. */
  lemma AcceptKeepsBarred(m: Mark, t: int, now: int, h: int)
    requires |m.ahead| <= CEILING && Admits(m, t, now)
    requires h == t || Bars(m, h)
    ensures Bars(Accept(m, t, now), h) || (Overflows(m, t, now) && h == m.ahead[0])
  {
    if t > now {
      NewestDropsFirst(m.ahead, t);
      if h in m.ahead {
        assert h == m.ahead[0] || h in m.ahead[1..];
      }
    }
  }

  /** The evicted stamp is admitted again as soon as the clock has reached it. */
  lemma EvictedIsAdmitted(m: Mark, t: int, now: int, later: int)
    requires Kept(m) && Admits(m, t, now) && Overflows(m, t, now) && later >= m.ahead[0]
    ensures Admits(Accept(m, t, now), m.ahead[0], later)
  {
    NewestDropsFirst(m.ahead, t);
  }

  /** Everything applied is barred, and the list holds nothing else. */
  ghost predicate WellKept(m: Mark, applied: set<int>) {
    && Kept(m)
    && (forall v :: v in m.ahead ==> v in applied)
    && (m.seen ==> forall h :: h in applied ==> Bars(m, h))
  }

  /** One of these stamps passes every gate at some clock from now on. */
  ghost predicate Replayable(m: Mark, applied: set<int>, now: int) {
    exists h, later, interval :: h in applied && later >= now && Fresh(h, later, interval) && Admits(m, h, later)
  }

  /** Once a mark has been accepted, some applied stamp can be applied a second time exactly
      when the acceptance pushed out one that no gate refuses yet. */
  lemma ReplayableIffEvicted(m: Mark, applied: set<int>, t: int, now: int)
    requires WellKept(m, applied) && Admits(m, t, now) && (!m.seen ==> applied == {})
    ensures Replayable(Accept(m, t, now), applied + {t}, now) <==> EvictsFresh(m, t, now)
  {
    var next := Accept(m, t, now);
    if EvictsFresh(m, t, now) {
      var h, later := m.ahead[0], if m.ahead[0] > now then m.ahead[0] else now;
      EvictedIsAdmitted(m, t, now, later);
      assert h in applied + {t} && Fresh(h, later, MAX_PROBE_INTERVAL);
    } else {
      forall h, later, interval | h in applied + {t} && later >= now && Fresh(h, later, interval)
        ensures !Admits(next, h, later)
      {
        AcceptKeepsBarred(m, t, now, h);
        RetentionCoversFreshness(interval);
      }
    }
  }

  /** Short of an overflow, the list stays complete. */
  lemma AcceptWellKept(m: Mark, applied: set<int>, t: int, now: int)
    requires WellKept(m, applied) && Admits(m, t, now) && !Overflows(m, t, now) && now >= ZERO_TIME
    requires !m.seen ==> applied == {}
    ensures WellKept(Accept(m, t, now), applied + {t}) && Accept(m, t, now).seen
  {
    AcceptKeeps(m, t, now);
    forall h | h in applied + {t} ensures Bars(Accept(m, t, now), h) {
      AcceptKeepsBarred(m, t, now, h);
    }
  }
}
