/** The ICMP schedule: which configurations leave every echo enough time, and why the echo
    batch keeps to the cycle. Also the sequence numbers the batch and the concurrent TTL
    walk draw from one 16-bit space. Durations are nanoseconds. */
module IcmpSchedule {
  import opened Wrappers

  const MILLISECOND := 1_000_000
  const SPACING := 200 * MILLISECOND
  const MIN_BUDGET := 50 * MILLISECOND
  const TRACE_ROUNDS: nat := 3
  const MTR_ROUNDS: nat := 10
  const MAX_TTL: nat := 30
  const SEQUENCES: nat := 65536
  const MAX_PINGS: nat := SEQUENCES - TRACE_ROUNDS * (MAX_TTL + 1)
  const MAX_INTERVAL := 4_294_967_295 * 1000
  const MAX_INT64 := 0x7fff_ffff_ffff_ffff

  /** Integer division as the program divides: toward zero. */
  function Quotient(a: int, b: int): int
    requires b > 0
  {
    if a >= 0 then a / b else -((-a) / b)
  }

  lemma QuotientBounds(a: int, b: int)
    requires b > 0
    ensures a >= 0 ==> Quotient(a, b) >= 0 && Quotient(a, b) * b <= a < Quotient(a, b) * b + b
    ensures a < 0 ==> Quotient(a, b) <= 0
  {
    var m := if a >= 0 then a else -a;
    assert m == (m / b) * b + m % b;
    if a < 0 {
      assert Quotient(a, b) == -(m / b);
    }
  }

  /** ICMPPingBudget: the per-ping deadline at full loss, or nothing when refused. */
  function PingBudgetOf(interval: int, pings: int): Option<int> {
    if pings <= 0 then None
    else if pings > Quotient(interval, SPACING) + 1 then None
    else if pings > MAX_PINGS then None
    else
      var budget := Quotient(interval - (pings - 1) * SPACING, pings);
      if budget < MIN_BUDGET then None else Some(budget)
  }

  lemma TimesGrows(a: int, b: int, c: int)
    requires a <= b && c >= 0
    ensures a * c <= b * c
  {
    assert (b - a) * c >= 0;
  }

  /** A quotient reaches m exactly when the dividend reaches m times the divisor. */
  lemma QuotientReaches(a: int, b: int, m: int)
    requires b > 0 && m >= 1
    ensures Quotient(a, b) >= m <==> a >= m * b
  {
    var q := Quotient(a, b);
    QuotientBounds(a, b);
    TimesGrows(1, m, b);
    if q >= m {
      TimesGrows(m, q, b);
    } else {
      TimesGrows(q + 1, m, b);
      assert (q + 1) * b == q * b + b;
    }
  }

  /** The schedules accepted are those with room for every echo's least budget and every gap. */
  lemma AcceptedIff(interval: int, pings: int)
    ensures PingBudgetOf(interval, pings).Some?
            <==> 1 <= pings <= MAX_PINGS && pings * MIN_BUDGET + (pings - 1) * SPACING <= interval
  {
    if 1 <= pings <= MAX_PINGS {
      QuotientReaches(interval - (pings - 1) * SPACING, pings, MIN_BUDGET);
      TimesGrows(0, pings, MIN_BUDGET);
      if pings >= 2 {
        QuotientReaches(interval, SPACING, pings - 1);
      } else {
        QuotientBounds(interval, SPACING);
      }
    }
  }

  /** With the bounds checked first, nothing the budget computes leaves 64 bits, and no
      accepted schedule has more than 17180 pings. */
  lemma NothingOverflows(interval: int, pings: int)
    requires 0 < interval <= MAX_INTERVAL && 1 <= pings
    ensures pings <= Quotient(interval, SPACING) + 1 && pings <= MAX_PINGS ==>
              0 <= (pings - 1) * SPACING <= interval <= MAX_INT64
    ensures PingBudgetOf(interval, pings).Some? ==> pings <= 17180
  {
    AcceptedIff(interval, pings);
    QuotientBounds(interval, SPACING);
    if pings <= Quotient(interval, SPACING) + 1 {
      TimesGrows(pings - 1, Quotient(interval, SPACING), SPACING);
    }
    if pings > 17180 {
      TimesGrows(17181, pings, MIN_BUDGET + SPACING);
    }
  }

  // ---------------------------------------------------------------- the batch

  function PingBudget(remaining: int, pings: int, spacingLeft: int, configured: int): int {
    if pings <= 0 then 0
    else
      var budget := remaining - spacingLeft;
      if budget <= 0 then 0
      else if Quotient(budget, pings) < configured then Quotient(budget, pings)
      else configured
  }

  /** echoTimeout, for echo n of count. */
  function EchoTimeout(remaining: int, count: int, n: int, configured: int): int {
    PingBudget(remaining, count - n, (count - 1 - n) * SPACING, configured)
  }

  function Min(a: int, b: int): int { if a < b then a else b }

  /** Echoes n.. still have at least budget each, gaps apart. */
  ghost predicate Roomy(remaining: int, count: int, n: int, budget: int) {
    remaining - (count - 1 - n) * SPACING >= (count - n) * budget
  }

  lemma StartsRoomy(deadline: int, count: int)
    requires PingBudgetOf(deadline, count).Some?
    ensures Roomy(deadline, count, 0, PingBudgetOf(deadline, count).value)
    ensures PingBudgetOf(deadline, count).value >= MIN_BUDGET
  {
    AcceptedIff(deadline, count);
    var left := deadline - (count - 1) * SPACING;
    QuotientBounds(left, count);
    assert count * MIN_BUDGET >= 0;
    assert Quotient(left, count) * count <= left;
  }

  /** Dividing what k echoes share gives each its budget, and what one takes of its share
      leaves the others theirs. */
  lemma SharesAreFair(x: int, k: int, budget: int, took: int)
    requires k >= 1 && budget > 0 && x >= k * budget
    ensures x > 0 && Quotient(x, k) >= budget
    ensures took <= Quotient(x, k) ==> x - took >= (k - 1) * budget
  {
    var q := Quotient(x, k);
    QuotientBounds(x, k);
    TimesGrows(1, k, budget);
    if q < budget {
      TimesGrows(q + 1, budget, k);
    }
    TimesGrows(budget, q, k - 1);
    assert q * k == q * (k - 1) + q;
  }

  lemma GapsAndBudgets(m: int, budget: int)
    requires m >= 0 && budget > 0
    ensures m * (SPACING + budget) == m * SPACING + m * budget
    ensures m >= 1 ==> m * SPACING == (m - 1) * SPACING + SPACING && m * (SPACING + budget) > SPACING
  {
    if m >= 1 {
      TimesGrows(1, m, SPACING + budget);
    }
  }

  /** The timeout an echo gets is the largest, up to the configured one, that leaves the time
      for as much again for every echo still to come, and nothing when their gaps alone
      take it all. */
  lemma ShareIsLargest(remaining: int, count: int, n: int, configured: int)
    requires 0 <= n < count
    ensures var t, x := EchoTimeout(remaining, count, n, configured), remaining - (count - 1 - n) * SPACING;
            if x <= 0 then t == 0
            else t <= configured && t * (count - n) <= x && (t == configured || (t + 1) * (count - n) > x)
  {
    var t, x, k := EchoTimeout(remaining, count, n, configured), remaining - (count - 1 - n) * SPACING, count - n;
    if x > 0 {
      QuotientBounds(x, k);
      TimesGrows(t, Quotient(x, k), k);
    }
  }

  /** With room, the share of the time left is at least the budget. */
  lemma ShareIsGranted(remaining: int, count: int, n: int, budget: int, configured: int)
    requires 0 <= n < count && budget > 0 && configured > 0 && Roomy(remaining, count, n, budget)
    ensures var t, x := EchoTimeout(remaining, count, n, configured), remaining - (count - 1 - n) * SPACING;
            t >= Min(configured, budget) && t <= Quotient(x, count - n) && x > 0
  {
    SharesAreFair(remaining - (count - 1 - n) * SPACING, count - n, budget, 0);
  }

  /** An echo with room gets its budget, and leaves room for the rest whatever it takes. */
  lemma EchoKeepsRoom(remaining: int, count: int, n: int, budget: int, configured: int, took: int)
    requires 0 <= n < count && budget > 0 && configured > 0 && Roomy(remaining, count, n, budget)
    requires 0 <= took && (EchoTimeout(remaining, count, n, configured) > 0 ==> took <= EchoTimeout(remaining, count, n, configured))
    ensures EchoTimeout(remaining, count, n, configured) >= Min(configured, budget)
    ensures took <= remaining
    ensures n + 1 < count ==> Roomy(remaining - took - SPACING, count, n + 1, budget)
  {
    var m := count - 1 - n;
    ShareIsGranted(remaining, count, n, budget, configured);
    SharesAreFair(remaining - m * SPACING, m + 1, budget, took);
    GapsAndBudgets(m, budget);
    TimesGrows(0, m, budget);
  }

  /** When echo n starts, sends having taken what they took and a gap following each. */
  function Started(tooks: seq<int>, n: nat): int
    requires n <= |tooks|
  {
    if n == 0 then 0 else Started(tooks, n - 1) + tooks[n - 1] + SPACING
  }

  /** The timeout echo n gets, if the batch comes to it. */
  function Granted(deadline: int, configured: int, tooks: seq<int>, n: nat): int
    requires n < |tooks|
  {
    EchoTimeout(deadline - Started(tooks, n), |tooks|, n, configured)
  }

  lemma LateGrantsNothing(deadline: int, configured: int, tooks: seq<int>, n: nat)
    requires n < |tooks| && Started(tooks, n) >= deadline
    ensures Granted(deadline, configured, tooks, n) == 0
  {
    assert (|tooks| - 1 - n) * SPACING >= 0;
  }

  function LostAmong(lost: seq<bool>): nat {
    if lost == [] then 0 else LostAmong(lost[..|lost| - 1]) + if lost[|lost| - 1] then 1 else 0
  }

  /** No send takes longer than it was given. */
  ghost predicate Prompt(deadline: int, configured: int, tooks: seq<int>) {
    forall n: nat :: n < |tooks| ==> 0 <= tooks[n] && (Granted(deadline, configured, tooks, n) > 0 ==>
      tooks[n] <= Granted(deadline, configured, tooks, n))
  }

  lemma GrantKeepsRoom(deadline: int, configured: int, tooks: seq<int>, n: nat, budget: int)
    requires n < |tooks| && budget > 0 && configured > 0 && Roomy(deadline - Started(tooks, n), |tooks|, n, budget)
    requires 0 <= tooks[n] && (Granted(deadline, configured, tooks, n) > 0 ==> tooks[n] <= Granted(deadline, configured, tooks, n))
    ensures Granted(deadline, configured, tooks, n) >= Min(configured, budget) && Started(tooks, n) + tooks[n] <= deadline
    ensures n + 1 < |tooks| ==> Roomy(deadline - Started(tooks, n + 1), |tooks|, n + 1, budget)
  {
    EchoKeepsRoom(deadline - Started(tooks, n), |tooks|, n, budget, configured, tooks[n]);
    assert deadline - Started(tooks, n) - tooks[n] - SPACING == deadline - Started(tooks, n + 1);
  }

  lemma {:induction false} RoomAt(deadline: int, configured: int, tooks: seq<int>, n: nat, budget: int)
    requires configured > 0 && budget > 0 && Prompt(deadline, configured, tooks) && n < |tooks|
    requires Roomy(deadline, |tooks|, 0, budget)
    ensures Roomy(deadline - Started(tooks, n), |tooks|, n, budget)
  {
    if n > 0 {
      RoomAt(deadline, configured, tooks, n - 1, budget);
      GrantKeepsRoom(deadline, configured, tooks, n - 1, budget);
    }
  }

  /** With room for every echo's budget, whatever each send takes within its timeout, every
      echo gets the configured timeout or that budget, and is over by the deadline. */
  lemma RoomHolds(deadline: int, configured: int, tooks: seq<int>, n: nat, budget: int)
    requires configured > 0 && budget > 0 && Prompt(deadline, configured, tooks) && n < |tooks|
    requires Roomy(deadline, |tooks|, 0, budget)
    ensures Granted(deadline, configured, tooks, n) >= Min(configured, budget) > 0
    ensures Started(tooks, n) + tooks[n] <= deadline
  {
    RoomAt(deadline, configured, tooks, n, budget);
    GrantKeepsRoom(deadline, configured, tooks, n, budget);
  }

  /** The schedule a batch keeps: prompt sends, and room for the least budget there is. */
  ghost predicate Kept(deadline: int, configured: int, tooks: seq<int>) {
    tooks != [] && configured > 0 && Prompt(deadline, configured, tooks) && Roomy(deadline, |tooks|, 0, 1)
  }

  lemma WholeIfKept(deadline: int, configured: int, tooks: seq<int>)
    ensures Kept(deadline, configured, tooks) ==>
              forall n: nat :: n < |tooks| ==>
                Granted(deadline, configured, tooks, n) > 0 && Started(tooks, n) + tooks[n] <= deadline
  {
    if Kept(deadline, configured, tooks) {
      forall n: nat | n < |tooks|
        ensures Granted(deadline, configured, tooks, n) > 0 && Started(tooks, n) + tooks[n] <= deadline
      {
        RoomHolds(deadline, configured, tooks, n, 1);
      }
    }
  }

  /** The echo loop under a deadline, from time 0: tooks says how long each send takes, lost
      whether nothing answered it. Echoes are sent, each with its share, until one has no
      time left; with room for all of them, all are sent and the batch is over in time. */
  method EchoBatch(deadline: int, configured: int, tooks: seq<int>, lost: seq<bool>)
    returns (sent: nat, losses: nat, timeouts: seq<int>, now: int)
    requires |lost| == |tooks|
    ensures sent == |timeouts| <= |tooks| && losses == LostAmong(lost[..sent])
    ensures forall n: nat :: n < sent ==> 0 < timeouts[n] == Granted(deadline, configured, tooks, n)
    ensures sent < |tooks| ==> Granted(deadline, configured, tooks, sent) <= 0
    ensures sent == |tooks| > 0 ==> now == Started(tooks, sent) - SPACING
    ensures Kept(deadline, configured, tooks) ==> sent == |tooks| && now <= deadline
  {
    WholeIfKept(deadline, configured, tooks);
    var count := |tooks|;
    sent, losses, timeouts, now := 0, 0, [], 0;
    while sent < count
      invariant sent == |timeouts| <= count && losses == LostAmong(lost[..sent])
      invariant forall n: nat :: n < sent ==> 0 < timeouts[n] == Granted(deadline, configured, tooks, n)
      invariant now == Started(tooks, sent) - if sent == count > 0 then SPACING else 0
    {
      if now >= deadline {
        LateGrantsNothing(deadline, configured, tooks, sent);
        return;
      }
      var timeout := EchoTimeout(deadline - now, count, sent, configured);
      if timeout <= 0 {
        return;
      }
      assert lost[..sent + 1][..sent] == lost[..sent];
      now := now + tooks[sent];
      timeouts := timeouts + [timeout];
      if lost[sent] {
        losses := losses + 1;
      }
      sent := sent + 1;
      if now >= deadline && lost[sent - 1] {
        if sent < count {
          LateGrantsNothing(deadline, configured, tooks, sent);
        }
        return;
      }
      if sent < count {
        if now + SPACING >= deadline {
          LateGrantsNothing(deadline, configured, tooks, sent);
          return;
        }
        now := now + SPACING;
      }
    }
  }

  /** What setting up may take of the interval for every echo still to be left this much. */
  lemma SetupLeavesRoom(interval: int, pings: int, setup: int, least: int)
    requires PingBudgetOf(interval, pings).Some? && least > 0
    requires setup <= pings * (PingBudgetOf(interval, pings).value - least)
    ensures Roomy(interval - setup, pings, 0, least)
  {
    StartsRoomy(interval, pings);
    var budget := PingBudgetOf(interval, pings).value;
    assert pings * (budget - least) == pings * budget - pings * least;
  }

  /** An accepted schedule is kept, although resolving and listening spend some of the
      interval first: every echo gets the configured timeout or what is left of its budget,
      so none is skipped, and the batch is over by the end of the cycle. */
  lemma AcceptedScheduleHolds(interval: int, setup: int, least: int, configured: int, tooks: seq<int>, n: nat)
    requires configured > 0 && least > 0 && n < |tooks| && PingBudgetOf(interval, |tooks|).Some?
    requires setup <= |tooks| * (PingBudgetOf(interval, |tooks|).value - least)
    requires Prompt(interval - setup, configured, tooks)
    ensures Kept(interval - setup, configured, tooks)
    ensures Granted(interval - setup, configured, tooks, n) >= Min(configured, least) > 0
    ensures setup + Started(tooks, n) + tooks[n] <= interval
  {
    SetupLeavesRoom(interval, |tooks|, setup, least);
    TimesGrows(1, least, |tooks|);
    RoomHolds(interval - setup, configured, tooks, n, least);
  }

  // ---------------------------------------------------------------- sequence numbers

  function WalkCeil(rounds: nat, maxTTL: nat): nat { rounds * (maxTTL + 1) }

  function WalkSeq(round: nat, ttl: nat, maxTTL: nat): nat { (round * (maxTTL + 1) + ttl) % SEQUENCES }

  function EchoBaseSeq(ceil: nat, count: nat, draw: nat): nat {
    var span := SEQUENCES - ceil - count + 1;
    if span <= 0 then ceil else ceil + draw % span
  }

  function EchoSeq(base: nat, n: nat): nat { (base + n) % SEQUENCES }

  lemma WalkSeqIsBelow(round: nat, ttl: nat, rounds: nat, maxTTL: nat)
    requires round < rounds && 1 <= ttl <= maxTTL && WalkCeil(rounds, maxTTL) <= SEQUENCES
    ensures WalkSeq(round, ttl, maxTTL) == round * (maxTTL + 1) + ttl < WalkCeil(rounds, maxTTL)
  {
    TimesGrows(round + 1, rounds, maxTTL + 1);
  }

  /** No two probes of a walk share a sequence number. */
  lemma WalkSeqIsInjective(r: nat, t: nat, s: nat, u: nat, rounds: nat, maxTTL: nat)
    requires r < rounds && s < rounds && 1 <= t <= maxTTL && 1 <= u <= maxTTL && WalkCeil(rounds, maxTTL) <= SEQUENCES
    requires WalkSeq(r, t, maxTTL) == WalkSeq(s, u, maxTTL)
    ensures r == s && t == u
  {
    WalkSeqIsBelow(r, t, rounds, maxTTL);
    WalkSeqIsBelow(s, u, rounds, maxTTL);
    if r < s {
      TimesGrows(r + 1, s, maxTTL + 1);
    } else if s < r {
      TimesGrows(s + 1, r, maxTTL + 1);
    }
  }

  /** Whatever is drawn, a batch stays above the walk's numbers without wrapping exactly
      when it fits there. */
  lemma EchoesStayClearIff(ceil: nat, count: nat, draw: nat)
    requires count >= 1 && ceil < SEQUENCES
    ensures (forall n: nat :: n < count ==> EchoSeq(EchoBaseSeq(ceil, count, draw), n) == EchoBaseSeq(ceil, count, draw) + n)
            <==> count <= SEQUENCES - ceil
    ensures EchoBaseSeq(ceil, count, draw) >= ceil
  {
    var base := EchoBaseSeq(ceil, count, draw);
    if count <= SEQUENCES - ceil {
      var span := SEQUENCES - ceil - count + 1;
      assert 0 <= draw % span < span;
      forall n: nat | n < count ensures EchoSeq(base, n) == base + n {
        assert base + n < SEQUENCES;
      }
    } else {
      assert base == ceil && EchoSeq(base, count - 1) < SEQUENCES;
    }
  }

  /** The echo batch and the walk beside it never share a number: for an icmp probe with any
      ping count a schedule may have, and for mtr, which sends at most its ten rounds. */
  lemma EchoesAvoidWalk(rounds: nat, count: nat, draw: nat, round: nat, ttl: nat, n: nat)
    requires (rounds == TRACE_ROUNDS && 1 <= count <= MAX_PINGS) || (rounds == MTR_ROUNDS && 1 <= count <= MTR_ROUNDS)
    requires round < rounds && 1 <= ttl <= MAX_TTL && n < count
    ensures var base := EchoBaseSeq(WalkCeil(rounds, MAX_TTL), count, draw);
            EchoSeq(base, n) == base + n && EchoSeq(base, n) != WalkSeq(round, ttl, MAX_TTL)
  {
    EchoesStayClearIff(WalkCeil(rounds, MAX_TTL), count, draw);
    WalkSeqIsBelow(round, ttl, rounds, MAX_TTL);
  }
}
