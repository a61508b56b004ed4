/** The TTL walk: rounds of probes at rising TTLs, aggregated into hop rows and clamped at
    the nearest TTL the target itself answered.

    A walk is a sequence of rounds, each the replies at TTL 1, 2, ... in order. The
    program aggregates as it goes; `Tally` folds one TTL's replies the same way, and the
    theorems say what the emitted rows are in terms of the replies. */
module TtlWalk {
  import opened Wrappers

  datatype Kind = Silent | TimeExceeded | Unreachable | Echo

  datatype Reply = Reply(addr: Option<string>, rtt: int, kind: Kind, unreach: string, failed: bool) {
    predicate Answered() { !failed && addr.Some? }

    predicate Terminal() { kind.Echo? || kind.Unreachable? }
  }

  /** One responder at one TTL; an echo and an error from one address are two rows. */
  datatype Row = Row(addr: string, target: bool, unreach: string, rtts: seq<int>, sent: nat)

  datatype Agg = Agg(rows: seq<Row>, losses: nat)

  datatype Hop = Hop(index: nat, ip: Option<string>, targetReply: bool, unreach: string, rtts: seq<int>, sent: nat, lost: nat)

  datatype Stats = Stats(attempted: nat, reached: nat)

  // ---------------------------------------------------------------- one TTL

  function Find(rows: seq<Row>, addr: string, target: bool): (i: nat)
    ensures i <= |rows|
    ensures i < |rows| ==> rows[i].addr == addr && rows[i].target == target
    ensures forall j :: 0 <= j < i ==> !(rows[j].addr == addr && rows[j].target == target)
  {
    if rows == [] then 0
    else if rows[0].addr == addr && rows[0].target == target then 0
    else 1 + Find(rows[1..], addr, target)
  }

  function AddReply(a: Agg, r: Reply): Agg {
    if !r.Answered() then a.(losses := a.losses + 1)
    else
      var i := Find(a.rows, r.addr.value, r.kind.Echo?);
      var rows := if i == |a.rows| then a.rows + [Row(r.addr.value, r.kind.Echo?, "", [], 0)] else a.rows;
      var row := rows[i];
      a.(rows := rows[i := Row(row.addr, row.target, if row.unreach == "" then r.unreach else row.unreach,
                               row.rtts + [r.rtt], row.sent + 1)])
  }

  function Tally(rs: seq<Reply>): Agg {
    if rs == [] then Agg([], 0) else AddReply(Tally(rs[..|rs| - 1]), rs[|rs| - 1])
  }

  /** The round-trip times of one responder's replies, in order. */
  function RttsOf(rs: seq<Reply>, addr: string, target: bool): seq<int> {
    if rs == [] then []
    else
      var r := rs[|rs| - 1];
      var before := RttsOf(rs[..|rs| - 1], addr, target);
      if !r.failed && r.addr == Some(addr) && r.kind.Echo? == target then before + [r.rtt] else before
  }

  ghost predicate Distinct(rows: seq<Row>) {
    forall i, j :: 0 <= i < j < |rows| ==> !(rows[i].addr == rows[j].addr && rows[i].target == rows[j].target)
  }

  function SentSum(rows: seq<Row>): nat {
    if rows == [] then 0 else rows[0].sent + SentSum(rows[1..])
  }

  lemma {:induction false} SentSumConcat(a: seq<Row>, b: seq<Row>)
    ensures SentSum(a + b) == SentSum(a) + SentSum(b)
  {
    if a == [] {
      assert a + b == b;
    } else {
      assert (a + b)[1..] == a[1..] + b;
      SentSumConcat(a[1..], b);
    }
  }

  lemma SentSumSet(rows: seq<Row>, i: nat, row: Row)
    requires i < |rows|
    ensures SentSum(rows[i := row]) == SentSum(rows) - rows[i].sent + row.sent
  {
    var l, r := rows[..i], rows[i + 1..];
    assert rows == l + ([rows[i]] + r) && rows[i := row] == l + ([row] + r);
    SentSumConcat(l, [rows[i]] + r);
    SentSumConcat(l, [row] + r);
    assert ([rows[i]] + r)[1..] == r && ([row] + r)[1..] == r;
  }

  ghost predicate HasRow(rows: seq<Row>, addr: string, target: bool) {
    exists i :: 0 <= i < |rows| && rows[i].addr == addr && rows[i].target == target
  }

  /** The rows of a TTL are its responders, each once, with every one of its replies'
      times in order; and every probe is either in a row or a loss. */
  ghost predicate Accounts(a: Agg, rs: seq<Reply>) {
    && Distinct(a.rows)
    && (forall i :: 0 <= i < |a.rows| ==>
          a.rows[i].sent == |a.rows[i].rtts| > 0 && a.rows[i].rtts == RttsOf(rs, a.rows[i].addr, a.rows[i].target))
    && SentSum(a.rows) + a.losses == |rs|
    && |a.rows| + a.losses <= |rs|
    && (forall r :: r in rs && r.Answered() ==> HasRow(a.rows, r.addr.value, r.kind.Echo?))
  }

  lemma {:induction false} RttsOfUnanswered(rs: seq<Reply>, addr: string, target: bool)
    requires forall r :: r in rs && r.Answered() ==> !(r.addr.value == addr && r.kind.Echo? == target)
    ensures RttsOf(rs, addr, target) == []
  {
    if rs != [] {
      RttsOfUnanswered(rs[..|rs| - 1], addr, target);
    }
  }

  lemma ExtendRow(a: Agg, rs: seq<Reply>, r: Reply, i: nat)
    requires Accounts(a, rs) && r.Answered()
    requires i == Find(a.rows, r.addr.value, r.kind.Echo?) < |a.rows|
    ensures Accounts(AddReply(a, r), rs + [r])
  {
    var next := AddReply(a, r);
    assert (rs + [r])[..|rs|] == rs;
    SentSumSet(a.rows, i, next.rows[i]);
    assert forall j :: 0 <= j < |a.rows| ==> next.rows[j].addr == a.rows[j].addr && next.rows[j].target == a.rows[j].target;
  }

  lemma OpenRow(a: Agg, rs: seq<Reply>, r: Reply)
    requires Accounts(a, rs) && r.Answered()
    requires Find(a.rows, r.addr.value, r.kind.Echo?) == |a.rows|
    ensures Accounts(AddReply(a, r), rs + [r])
  {
    var next := AddReply(a, r);
    assert (rs + [r])[..|rs|] == rs;
    RttsOfUnanswered(rs, r.addr.value, r.kind.Echo?);
    var row := next.rows[|a.rows|];
    assert row.addr == r.addr.value && row.target == r.kind.Echo? && row.rtts == [r.rtt] && row.sent == 1;
    assert next.rows == a.rows + [row];
    SentSumConcat(a.rows, [row]);
    RowsAppended(a.rows, row, rs, r);
  }

  lemma RowsAppended(rows: seq<Row>, row: Row, rs: seq<Reply>, r: Reply)
    requires forall x :: x in rs && x.Answered() ==> HasRow(rows, x.addr.value, x.kind.Echo?)
    requires r.Answered() && row.addr == r.addr.value && row.target == r.kind.Echo?
    ensures forall x :: x in rs + [r] && x.Answered() ==> HasRow(rows + [row], x.addr.value, x.kind.Echo?)
  {
    forall x | x in rs + [r] && x.Answered() ensures HasRow(rows + [row], x.addr.value, x.kind.Echo?) {
      if x in rs {
        var i :| 0 <= i < |rows| && rows[i].addr == x.addr.value && rows[i].target == x.kind.Echo?;
        assert (rows + [row])[i] == rows[i];
      } else {
        assert (rows + [row])[|rows|] == row;
      }
    }
  }

  /** One reply keeps the account: it extends one row, opens one, or is a loss. */
  lemma AddReplyAccounts(a: Agg, rs: seq<Reply>, r: Reply)
    requires Accounts(a, rs)
    ensures Accounts(AddReply(a, r), rs + [r])
  {
    if !r.Answered() {
      assert (rs + [r])[..|rs|] == rs;
    } else if Find(a.rows, r.addr.value, r.kind.Echo?) < |a.rows| {
      ExtendRow(a, rs, r, Find(a.rows, r.addr.value, r.kind.Echo?));
    } else {
      OpenRow(a, rs, r);
    }
  }

  /** The fold of a TTL's replies accounts for every one of them. */
  lemma {:induction false} TallyAccounts(rs: seq<Reply>)
    ensures Accounts(Tally(rs), rs)
  {
    if rs != [] {
      var before, r := rs[..|rs| - 1], rs[|rs| - 1];
      TallyAccounts(before);
      AddReplyAccounts(Tally(before), before, r);
      assert before + [r] == rs;
    }
  }

  // ---------------------------------------------------------------- the walk

  predicate Ended(round: seq<Reply>) {
    round != [] && round[|round| - 1].Terminal()
  }

  /** A round that has got to cur, run to its end: it stops at a terminal, at maxTTL, or
      when the context is done. alive(round, ttl) is the context check before that probe. */
  function Round(step: (nat, nat) -> Reply, alive: (nat, nat) -> bool, maxTTL: nat, round: nat, cur: seq<Reply>): seq<Reply>
    decreases maxTTL - |cur|
  {
    if Ended(cur) || |cur| >= maxTTL || !alive(round, |cur| + 1) then cur
    else Round(step, alive, maxTTL, round, cur + [step(round, |cur| + 1)])
  }

  /** The first n rounds' replies, up to the first round the context does not start. */
  function Trace(step: (nat, nat) -> Reply, alive: (nat, nat) -> bool, maxTTL: nat, n: nat): seq<seq<Reply>> {
    if n == 0 then []
    else
      var before := Trace(step, alive, maxTTL, n - 1);
      if |before| == n - 1 && alive(n - 1, 0) then before + [Round(step, alive, maxTTL, n - 1, [])] else before
  }

  /** Only a round's last reply is terminal. */
  ghost predicate Shaped(round: seq<Reply>, maxTTL: nat) {
    |round| <= maxTTL && forall i :: 0 <= i < |round| - 1 ==> !round[i].Terminal()
  }

  ghost predicate AllShaped(trace: seq<seq<Reply>>, maxTTL: nat) {
    forall i :: 0 <= i < |trace| ==> Shaped(trace[i], maxTTL)
  }

  lemma {:induction false} RoundIsShaped(step: (nat, nat) -> Reply, alive: (nat, nat) -> bool, maxTTL: nat, round: nat, cur: seq<Reply>)
    requires Shaped(cur, maxTTL)
    ensures Shaped(Round(step, alive, maxTTL, round, cur), maxTTL)
    decreases maxTTL - |cur|
  {
    if !(Ended(cur) || |cur| >= maxTTL || !alive(round, |cur| + 1)) {
      RoundIsShaped(step, alive, maxTTL, round, cur + [step(round, |cur| + 1)]);
    }
  }

  lemma {:induction false} TraceIsShaped(step: (nat, nat) -> Reply, alive: (nat, nat) -> bool, maxTTL: nat, n: nat)
    ensures AllShaped(Trace(step, alive, maxTTL, n), maxTTL) && |Trace(step, alive, maxTTL, n)| <= n
  {
    if n > 0 {
      TraceIsShaped(step, alive, maxTTL, n - 1);
      RoundIsShaped(step, alive, maxTTL, n - 1, []);
    }
  }

  predicate Complete(round: seq<Reply>, maxTTL: nat) {
    Ended(round) || |round| == maxTTL > 0
  }

  predicate Reached(round: seq<Reply>) {
    round != [] && round[|round| - 1].kind.Echo?
  }

  function Counts(trace: seq<seq<Reply>>, maxTTL: nat): Stats {
    if trace == [] then Stats(0, 0)
    else
      var before, round := Counts(trace[..|trace| - 1], maxTTL), trace[|trace| - 1];
      Stats(before.attempted + (if Complete(round, maxTTL) then 1 else 0), before.reached + (if Reached(round) then 1 else 0))
  }

  /** Every reply at TTL t, in round order. */
  function AtTtl(trace: seq<seq<Reply>>, t: nat): seq<Reply>
    requires 1 <= t
  {
    if trace == [] then []
    else
      var before, round := AtTtl(trace[..|trace| - 1], t), trace[|trace| - 1];
      if t <= |round| then before + [round[t - 1]] else before
  }

  function Tallies(trace: seq<seq<Reply>>, maxTTL: nat): (r: seq<Agg>)
    ensures |r| == maxTTL + 1
  {
    seq(maxTTL + 1, t requires t >= 0 => if t == 0 then Agg([], 0) else Tally(AtTtl(trace, t)))
  }

  predicate HasTarget(a: Agg) {
    exists i :: 0 <= i < |a.rows| && a.rows[i].target
  }

  /** The least TTL from t on with a target row, or 0. */
  function TargetTtl(aggs: seq<Agg>, t: nat): (r: nat)
    requires 1 <= t
    ensures r == 0 || (t <= r < |aggs| && HasTarget(aggs[r]))
    ensures forall u :: t <= u < |aggs| && (r == 0 || u < r) ==> !HasTarget(aggs[u])
    decreases |aggs| - t
  {
    if t >= |aggs| then 0 else if HasTarget(aggs[t]) then t else TargetTtl(aggs, t + 1)
  }

  function HopOf(t: nat, a: Agg, i: nat): Hop
    requires i < |a.rows|
  {
    var row := a.rows[i];
    var losses := if i == 0 then a.losses else 0;
    Hop(t, Some(row.addr), row.target, row.unreach, row.rtts, row.sent + losses, losses)
  }

  function HopsAt(t: nat, a: Agg): seq<Hop> {
    if a.rows == [] then (if a.losses > 0 then [Hop(t, None, false, "", [], a.losses, a.losses)] else [])
    else seq(|a.rows|, i requires 0 <= i < |a.rows| => HopOf(t, a, i))
  }

  /** The rows of TTLs 1 to n, in order. */
  function HopsTo(aggs: seq<Agg>, n: nat): seq<Hop>
    requires n < |aggs|
  {
    if n == 0 then [] else HopsTo(aggs, n - 1) + HopsAt(n, aggs[n])
  }

  /** The deepest TTL whose rows are emitted. */
  function Deepest(aggs: seq<Agg>): (r: nat)
    requires |aggs| > 0
    ensures r < |aggs|
  {
    if TargetTtl(aggs, 1) != 0 then TargetTtl(aggs, 1) else |aggs| - 1
  }

  function Emitted(trace: seq<seq<Reply>>, maxTTL: nat): seq<Hop> {
    var aggs := Tallies(trace, maxTTL);
    HopsTo(aggs, Deepest(aggs))
  }

  // ---------------------------------------------------------------- the program

  lemma AtTtlGrows(done: seq<seq<Reply>>, round: seq<Reply>, t: nat)
    requires 1 <= t
    ensures AtTtl(done + [round], t) == if t <= |round| then AtTtl(done, t) + [round[t - 1]] else AtTtl(done, t)
  {
    assert (done + [round])[..|done|] == done;
  }

  lemma RoundStarts(done: seq<seq<Reply>>, maxTTL: nat)
    ensures Tallies(done + [[]], maxTTL) == Tallies(done, maxTTL)
  {
    forall t: nat | 1 <= t <= maxTTL ensures AtTtl(done + [[]], t) == AtTtl(done, t) {
      AtTtlGrows(done, [], t);
    }
  }

  lemma RoundGrows(done: seq<seq<Reply>>, round: seq<Reply>, r: Reply, maxTTL: nat)
    requires |round| < maxTTL
    ensures var aggs, t := Tallies(done + [round], maxTTL), |round| + 1;
            Tallies(done + [round + [r]], maxTTL) == aggs[t := AddReply(aggs[t], r)]
  {
    var aggs, next := Tallies(done + [round], maxTTL), Tallies(done + [round + [r]], maxTTL);
    forall t: nat | 1 <= t <= maxTTL
      ensures next[t] == if t == |round| + 1 then AddReply(aggs[t], r) else aggs[t]
    {
      AtTtlGrows(done, round, t);
      AtTtlGrows(done, round + [r], t);
      if t == |round| + 1 {
        var all := AtTtl(done + [round + [r]], t);
        assert all == AtTtl(done + [round], t) + [r] && all[..|all| - 1] == AtTtl(done + [round], t);
      }
    }
  }

  method Record(agg: array<Agg>, ghost done: seq<seq<Reply>>, ghost cur: seq<Reply>, r: Reply, ghost maxTTL: nat, ttl: nat)
    requires agg[..] == Tallies(done + [cur], maxTTL)
    requires ttl == |cur| + 1 <= maxTTL
    modifies agg
    ensures agg[..] == Tallies(done + [cur + [r]], maxTTL)
  {
    RoundGrows(done, cur, r, maxTTL);
    agg[ttl] := AddReply(agg[ttl], r);
  }

  /** One round: walks 1..maxTTL and stops at its own terminal. */
  method WalkRound(agg: array<Agg>, ghost done: seq<seq<Reply>>, step: (nat, nat) -> Reply, alive: (nat, nat) -> bool,
                   maxTTL: nat, round: nat)
    returns (complete: bool, reached: bool)
    requires agg[..] == Tallies(done, maxTTL)
    modifies agg
    ensures agg[..] == Tallies(done + [Round(step, alive, maxTTL, round, [])], maxTTL)
    ensures complete == Complete(Round(step, alive, maxTTL, round, []), maxTTL)
    ensures reached == Reached(Round(step, alive, maxTTL, round, []))
  {
    complete, reached := false, false;
    ghost var whole := Round(step, alive, maxTTL, round, []);
    ghost var cur: seq<Reply> := [];
    RoundStarts(done, maxTTL);
    var ttl := 1;
    while ttl <= maxTTL && alive(round, ttl)
      invariant ttl == |cur| + 1 && (|cur| < maxTTL || |cur| == maxTTL == 0)
      invariant agg[..] == Tallies(done + [cur], maxTTL)
      invariant whole == Round(step, alive, maxTTL, round, cur)
      invariant !complete && !reached && !Ended(cur)
    {
      var r := step(round, ttl);
      Record(agg, done, cur, r, maxTTL, ttl);
      cur := cur + [r];
      if r.kind.Echo? {
        reached := true;
      }
      if r.kind.Echo? || r.kind.Unreachable? {
        complete := true;
        break;
      }
      if ttl == maxTTL {
        complete := true;
        break;
      }
      ttl := ttl + 1;
    }
  }

  method FindTarget(agg: array<Agg>) returns (target: nat)
    ensures target == TargetTtl(agg[..], 1)
  {
    target := 0;
    var ttl := 1;
    while ttl < agg.Length && target == 0
      invariant 1 <= ttl
      invariant target == 0 ==> TargetTtl(agg[..], 1) == TargetTtl(agg[..], ttl)
      invariant target != 0 ==> TargetTtl(agg[..], 1) == target
    {
      var rows, i := agg[ttl].rows, 0;
      while i < |rows| && !rows[i].target
        invariant i <= |rows| && forall j :: 0 <= j < i ==> !rows[j].target
      {
        i := i + 1;
      }
      if i < |rows| {
        target := ttl;
      }
      ttl := ttl + 1;
    }
  }

  method EmitTtl(ttl: nat, a: Agg, hops: seq<Hop>) returns (more: seq<Hop>)
    ensures more == hops + HopsAt(ttl, a)
  {
    more := hops;
    if |a.rows| == 0 {
      if a.losses > 0 {
        more := more + [Hop(ttl, None, false, "", [], a.losses, a.losses)];
      }
      return;
    }
    var i := 0;
    while i < |a.rows|
      invariant i <= |a.rows| && more == hops + HopsAt(ttl, a)[..i]
    {
      var row := a.rows[i];
      var h := Hop(ttl, Some(row.addr), row.target, row.unreach, row.rtts, row.sent, 0);
      if i == 0 {
        h := h.(sent := h.sent + a.losses, lost := a.losses);
      }
      assert HopsAt(ttl, a)[..i + 1] == HopsAt(ttl, a)[..i] + [h];
      more := more + [h];
      i := i + 1;
    }
    assert HopsAt(ttl, a)[..i] == HopsAt(ttl, a);
  }

  method Emit(agg: array<Agg>) returns (hops: seq<Hop>)
    requires agg.Length > 0
    ensures hops == HopsTo(agg[..], Deepest(agg[..]))
  {
    var target := FindTarget(agg);
    hops := [];
    var ttl := 1;
    while ttl < agg.Length && (target == 0 || ttl <= target)
      invariant 1 <= ttl <= Deepest(agg[..]) + 1
      invariant hops == HopsTo(agg[..], ttl - 1)
    {
      hops := EmitTtl(ttl, agg[ttl], hops);
      ttl := ttl + 1;
    }
  }

  lemma TraceGrows(step: (nat, nat) -> Reply, alive: (nat, nat) -> bool, maxTTL: nat, n: nat)
    requires |Trace(step, alive, maxTTL, n)| == n && alive(n, 0)
    ensures Trace(step, alive, maxTTL, n + 1) == Trace(step, alive, maxTTL, n) + [Round(step, alive, maxTTL, n, [])]
  {
  }

  lemma CountsGrow(done: seq<seq<Reply>>, round: seq<Reply>, maxTTL: nat)
    ensures Counts(done + [round], maxTTL) ==
            Stats(Counts(done, maxTTL).attempted + (if Complete(round, maxTTL) then 1 else 0),
                  Counts(done, maxTTL).reached + (if Reached(round) then 1 else 0))
  {
    assert (done + [round])[..|done|] == done;
  }

  method WalkRounds(rounds: nat, maxTTL: nat, step: (nat, nat) -> Reply, alive: (nat, nat) -> bool)
    returns (hops: seq<Hop>, stats: Stats)
    ensures hops == Emitted(Trace(step, alive, maxTTL, rounds), maxTTL)
    ensures stats == Counts(Trace(step, alive, maxTTL, rounds), maxTTL)
  {
    var agg := new Agg[maxTTL + 1](_ => Agg([], 0));
    stats := Stats(0, 0);
    ghost var done: seq<seq<Reply>> := [];
    assert agg[..] == Tallies(done, maxTTL);
    var round := 0;
    while round < rounds && alive(round, 0)
      invariant round <= rounds && |done| == round && done == Trace(step, alive, maxTTL, round)
      invariant agg[..] == Tallies(done, maxTTL) && stats == Counts(done, maxTTL)
    {
      var complete, reached := WalkRound(agg, done, step, alive, maxTTL, round);
      TraceGrows(step, alive, maxTTL, round);
      CountsGrow(done, Round(step, alive, maxTTL, round, []), maxTTL);
      done := done + [Round(step, alive, maxTTL, round, [])];
      if complete {
        stats := stats.(attempted := stats.attempted + 1);
        if reached {
          stats := stats.(reached := stats.reached + 1);
        }
      }
      round := round + 1;
    }
    TraceStops(step, alive, maxTTL, round, rounds);
    hops := Emit(agg);
  }

  /** A walk stopped before round k has only the rounds before it. */
  lemma {:induction false} TraceStops(step: (nat, nat) -> Reply, alive: (nat, nat) -> bool, maxTTL: nat, k: nat, n: nat)
    requires k <= n && (k == n || !alive(k, 0)) && |Trace(step, alive, maxTTL, k)| == k
    ensures Trace(step, alive, maxTTL, n) == Trace(step, alive, maxTTL, k)
    decreases n
  {
    if k < n {
      TraceStops(step, alive, maxTTL, k, n - 1);
    }
  }

  // ---------------------------------------------------------------- what the rows say

  function Sents(hops: seq<Hop>, t: nat): nat {
    if hops == [] then 0
    else Sents(hops[..|hops| - 1], t) + if hops[|hops| - 1].index == t then hops[|hops| - 1].sent else 0
  }

  /** Every row of one TTL. */
  ghost predicate OfTtl(hops: seq<Hop>, t: nat) {
    forall i :: 0 <= i < |hops| ==> hops[i].index == t
  }

  lemma {:induction false} SentsConcat(a: seq<Hop>, b: seq<Hop>, t: nat)
    ensures Sents(a + b, t) == Sents(a, t) + Sents(b, t)
  {
    if b == [] {
      assert a + b == a;
    } else {
      assert (a + b)[..|a + b| - 1] == a + b[..|b| - 1];
      SentsConcat(a, b[..|b| - 1], t);
    }
  }

  lemma {:induction false} SentsElsewhere(hops: seq<Hop>, t: nat)
    requires forall i :: 0 <= i < |hops| ==> hops[i].index != t
    ensures Sents(hops, t) == 0
  {
    if hops != [] {
      SentsElsewhere(hops[..|hops| - 1], t);
    }
  }

  lemma {:induction false} RowSents(t: nat, a: Agg, i: nat)
    requires i <= |a.rows| && a.rows != []
    ensures Sents(HopsAt(t, a)[..i], t) == SentSum(a.rows[..i]) + if i == 0 then 0 else a.losses
  {
    if i > 0 {
      RowSents(t, a, i - 1);
      var hops := HopsAt(t, a)[..i];
      assert hops[..i - 1] == HopsAt(t, a)[..i - 1];
      assert a.rows[..i] == a.rows[..i - 1] + [a.rows[i - 1]];
      SentSumConcat(a.rows[..i - 1], [a.rows[i - 1]]);
    }
  }

  /** Every probe sent at a TTL is in the Sent of exactly one of its rows, lost or answered. */
  lemma TtlConserves(t: nat, a: Agg, rs: seq<Reply>)
    requires Accounts(a, rs)
    ensures Sents(HopsAt(t, a), t) == |rs| && |HopsAt(t, a)| <= |rs|
  {
    if a.rows == [] {
      assert HopsAt(t, a) != [] ==> HopsAt(t, a)[..0] == [];
    } else {
      RowSents(t, a, |a.rows|);
      assert HopsAt(t, a)[..|a.rows|] == HopsAt(t, a) && a.rows[..|a.rows|] == a.rows;
    }
  }

  /** What one row says: its losses and its responder's times make up its Sent, and the
      times are all that responder's replies at that TTL, in order. */
  ghost predicate Says(h: Hop, trace: seq<seq<Reply>>) {
    && h.index >= 1
    && h.sent == h.lost + |h.rtts| > 0
    && h.rtts == (if h.ip.Some? then RttsOf(AtTtl(trace, h.index), h.ip.value, h.targetReply) else [])
    && (h.ip.None? ==> !h.targetReply)
  }

  predicate SameRow(h: Hop, g: Hop) {
    h.index == g.index && h.ip == g.ip && h.targetReply == g.targetReply
  }

  ghost predicate Lawful(hops: seq<Hop>, trace: seq<seq<Reply>>) {
    && (forall i :: 0 <= i < |hops| ==> Says(hops[i], trace))
    && (forall i, j :: 0 <= i < j < |hops| ==> hops[i].index <= hops[j].index && !SameRow(hops[i], hops[j]))
  }

  lemma TtlIsLawful(t: nat, trace: seq<seq<Reply>>)
    requires 1 <= t
    ensures OfTtl(HopsAt(t, Tally(AtTtl(trace, t))), t)
    ensures Lawful(HopsAt(t, Tally(AtTtl(trace, t))), trace)
  {
    var rs := AtTtl(trace, t);
    var a := Tally(rs);
    TallyAccounts(rs);
    var hops := HopsAt(t, a);
    forall i | 0 <= i < |hops| ensures hops[i].index == t && Says(hops[i], trace) {
      if a.rows != [] {
        RowSays(t, trace, a, i);
      }
    }
    forall i, j | 0 <= i < j < |hops| ensures !SameRow(hops[i], hops[j]) {
      assert hops[i] == HopOf(t, a, i) && hops[j] == HopOf(t, a, j);
    }
  }

  lemma RowSays(t: nat, trace: seq<seq<Reply>>, a: Agg, i: nat)
    requires 1 <= t && i < |a.rows| && Accounts(a, AtTtl(trace, t))
    ensures Says(HopOf(t, a, i), trace)
  {
    assert a.rows[i].sent == |a.rows[i].rtts| > 0;
  }

  lemma LawfulConcat(a: seq<Hop>, b: seq<Hop>, t: nat, trace: seq<seq<Reply>>)
    requires Lawful(a, trace) && Lawful(b, trace) && OfTtl(b, t)
    requires forall i :: 0 <= i < |a| ==> a[i].index < t
    ensures Lawful(a + b, trace)
  {
  }

  lemma {:induction false} AtTtlIsBounded(trace: seq<seq<Reply>>, t: nat)
    requires 1 <= t
    ensures |AtTtl(trace, t)| <= |trace|
  {
    if trace != [] {
      AtTtlIsBounded(trace[..|trace| - 1], t);
    }
  }

  lemma HopsGrow(trace: seq<seq<Reply>>, maxTTL: nat, n: nat)
    requires 1 <= n <= maxTTL
    ensures HopsTo(Tallies(trace, maxTTL), n)
         == HopsTo(Tallies(trace, maxTTL), n - 1) + HopsAt(n, Tally(AtTtl(trace, n)))
  {
  }

  lemma {:induction false} RowsAreLawful(trace: seq<seq<Reply>>, maxTTL: nat, n: nat)
    requires n <= maxTTL
    ensures Lawful(HopsTo(Tallies(trace, maxTTL), n), trace)
    ensures forall h :: h in HopsTo(Tallies(trace, maxTTL), n) ==> h.index <= n
  {
    if n > 0 {
      RowsAreLawful(trace, maxTTL, n - 1);
      TtlIsLawful(n, trace);
      LawfulConcat(HopsTo(Tallies(trace, maxTTL), n - 1), HopsAt(n, Tally(AtTtl(trace, n))), n, trace);
      HopsGrow(trace, maxTTL, n);
    }
  }

  lemma SentsHere(before: seq<Hop>, here: seq<Hop>, t: nat)
    requires forall h :: h in before ==> h.index < t
    ensures Sents(before + here, t) == Sents(here, t)
  {
    SentsConcat(before, here, t);
    SentsElsewhere(before, t);
  }

  lemma SentsBefore(before: seq<Hop>, here: seq<Hop>, n: nat, t: nat)
    requires OfTtl(here, n) && t != n
    ensures Sents(before + here, t) == Sents(before, t)
  {
    SentsConcat(before, here, t);
    SentsElsewhere(here, t);
  }

  lemma TtlSents(trace: seq<seq<Reply>>, t: nat)
    requires 1 <= t
    ensures Sents(HopsAt(t, Tally(AtTtl(trace, t))), t) == |AtTtl(trace, t)|
  {
    TallyAccounts(AtTtl(trace, t));
    TtlConserves(t, Tally(AtTtl(trace, t)), AtTtl(trace, t));
  }

  lemma OnlyDeeper(trace: seq<seq<Reply>>, maxTTL: nat, n: nat)
    requires n <= maxTTL
    ensures forall h :: h in HopsTo(Tallies(trace, maxTTL), n) ==> h.index <= n
  {
    RowsAreLawful(trace, maxTTL, n);
  }

  lemma HereIsOfTtl(trace: seq<seq<Reply>>, t: nat)
    requires 1 <= t
    ensures OfTtl(HopsAt(t, Tally(AtTtl(trace, t))), t)
  {
  }

  /** Probes are conserved at every emitted TTL. */
  lemma {:induction false} RowsConserve(trace: seq<seq<Reply>>, maxTTL: nat, n: nat, t: nat)
    requires 1 <= t <= n <= maxTTL
    ensures Sents(HopsTo(Tallies(trace, maxTTL), n), t) == |AtTtl(trace, t)|
  {
    var before, here := HopsTo(Tallies(trace, maxTTL), n - 1), HopsAt(n, Tally(AtTtl(trace, n)));
    HopsGrow(trace, maxTTL, n);
    if t == n {
      OnlyDeeper(trace, maxTTL, n - 1);
      SentsHere(before, here, t);
      TtlSents(trace, t);
    } else {
      HereIsOfTtl(trace, n);
      SentsBefore(before, here, n, t);
      RowsConserve(trace, maxTTL, n - 1, t);
    }
  }

  lemma {:induction false} RowsAreBounded(trace: seq<seq<Reply>>, maxTTL: nat, n: nat)
    requires n <= maxTTL
    ensures |HopsTo(Tallies(trace, maxTTL), n)| <= |trace| * n
  {
    if n > 0 {
      RowsAreBounded(trace, maxTTL, n - 1);
      TallyAccounts(AtTtl(trace, n));
      TtlConserves(n, Tally(AtTtl(trace, n)), AtTtl(trace, n));
      AtTtlIsBounded(trace, n);
      assert |trace| * n == |trace| * (n - 1) + |trace|;
    }
  }

  lemma {:induction false} EmittedHas(aggs: seq<Agg>, n: nat, t: nat)
    requires 1 <= t <= n < |aggs|
    ensures forall h :: h in HopsAt(t, aggs[t]) ==> h in HopsTo(aggs, n)
  {
    if t < n {
      EmittedHas(aggs, n - 1, t);
    }
  }

  lemma {:induction false} EmittedFrom(aggs: seq<Agg>, n: nat, h: Hop)
    requires n < |aggs| && h in HopsTo(aggs, n)
    ensures 1 <= h.index <= n && h in HopsAt(h.index, aggs[h.index])
  {
    if h !in HopsAt(n, aggs[n]) {
      EmittedFrom(aggs, n - 1, h);
    }
  }

  /** A target row stands at the deepest emitted TTL, the least TTL the target answered. */
  lemma TargetIsDeepest(trace: seq<seq<Reply>>, maxTTL: nat, h: Hop)
    requires h in Emitted(trace, maxTTL) && h.targetReply
    ensures forall g :: g in Emitted(trace, maxTTL) ==> g.index <= h.index
    ensures forall t: nat, r :: 1 <= t < h.index && r in AtTtl(trace, t) && r.Answered() ==> !r.kind.Echo?
  {
    var aggs := Tallies(trace, maxTTL);
    EmittedFrom(aggs, Deepest(aggs), h);
    var i :| 0 <= i < |HopsAt(h.index, aggs[h.index])| && HopsAt(h.index, aggs[h.index])[i] == h;
    assert aggs[h.index].rows[i].target;
    RowsAreLawful(trace, maxTTL, Deepest(aggs));
    forall t: nat, r | 1 <= t < h.index && r in AtTtl(trace, t) && r.Answered() ensures !r.kind.Echo? {
      TallyAccounts(AtTtl(trace, t));
      assert HasRow(aggs[t].rows, r.addr.value, r.kind.Echo?);
      assert !HasTarget(aggs[t]);
    }
  }

  lemma {:induction false} CountsAreBounded(trace: seq<seq<Reply>>, maxTTL: nat)
    ensures Counts(trace, maxTTL).reached <= Counts(trace, maxTTL).attempted <= |trace|
  {
    if trace != [] {
      CountsAreBounded(trace[..|trace| - 1], maxTTL);
    }
  }

  ghost predicate Echoed(rs: seq<Reply>) {
    exists r :: r in rs && r.Answered() && r.kind.Echo?
  }

  ghost predicate EchoedWithin(trace: seq<seq<Reply>>, maxTTL: nat) {
    exists t: nat :: 1 <= t <= maxTTL && Echoed(AtTtl(trace, t))
  }

  lemma {:induction false} SomeRtt(rs: seq<Reply>, addr: string)
    requires RttsOf(rs, addr, true) != []
    ensures Echoed(rs)
  {
    var r := rs[|rs| - 1];
    if !(r.Answered() && r.kind.Echo?) {
      SomeRtt(rs[..|rs| - 1], addr);
      var e :| e in rs[..|rs| - 1] && e.Answered() && e.kind.Echo?;
      assert e in rs;
    }
  }

  /** A TTL has a target row exactly when the target echoed there. */
  lemma TargetRowIffEchoed(rs: seq<Reply>)
    ensures HasTarget(Tally(rs)) <==> Echoed(rs)
  {
    TallyAccounts(rs);
    if HasTarget(Tally(rs)) {
      var i :| 0 <= i < |Tally(rs).rows| && Tally(rs).rows[i].target;
      SomeRtt(rs, Tally(rs).rows[i].addr);
    }
    if Echoed(rs) {
      var r :| r in rs && r.Answered() && r.kind.Echo?;
      assert HasRow(Tally(rs).rows, r.addr.value, r.kind.Echo?);
    }
  }

  ghost predicate Polite(trace: seq<seq<Reply>>) {
    forall i, j :: 0 <= i < |trace| && 0 <= j < |trace[i]| && !trace[i][j].Answered() ==> trace[i][j].kind.Silent?
  }

  lemma EchoedGrows(done: seq<seq<Reply>>, round: seq<Reply>, t: nat)
    requires 1 <= t
    ensures Echoed(AtTtl(done + [round], t))
            <==> Echoed(AtTtl(done, t)) || (t <= |round| && round[t - 1].Answered() && round[t - 1].kind.Echo?)
  {
    AtTtlGrows(done, round, t);
    var before, after := AtTtl(done, t), AtTtl(done + [round], t);
    if Echoed(before) {
      var r :| r in before && r.Answered() && r.kind.Echo?;
      assert r in after;
    }
    if t <= |round| {
      assert round[t - 1] in after;
    }
  }

  /** The target was reached in some round exactly when it echoed at some TTL. */
  lemma {:induction false} ReachedIffEchoed(trace: seq<seq<Reply>>, maxTTL: nat)
    requires AllShaped(trace, maxTTL) && Polite(trace)
    ensures Counts(trace, maxTTL).reached > 0 <==> EchoedWithin(trace, maxTTL)
  {
    if trace != [] {
      var before, round := trace[..|trace| - 1], trace[|trace| - 1];
      assert trace == before + [round] && trace[|trace| - 1] == round;
      ReachedIffEchoed(before, maxTTL);
      if EchoedWithin(before, maxTTL) {
        var t: nat :| 1 <= t <= maxTTL && Echoed(AtTtl(before, t));
        EchoedGrows(before, round, t);
      }
      if Reached(round) {
        EchoedGrows(before, round, |round|);
      }
      if EchoedWithin(trace, maxTTL) {
        var t: nat :| 1 <= t <= maxTTL && Echoed(AtTtl(trace, t));
        EchoedGrows(before, round, t);
      }
    }
  }

  lemma EchoIsShown(trace: seq<seq<Reply>>, maxTTL: nat, t: nat) returns (h: Hop)
    requires 1 <= t <= maxTTL && Echoed(AtTtl(trace, t))
    ensures h in Emitted(trace, maxTTL) && h.targetReply
  {
    var aggs := Tallies(trace, maxTTL);
    var d := Deepest(aggs);
    TargetRowIffEchoed(AtTtl(trace, t));
    assert HasTarget(aggs[t]) && HasTarget(aggs[d]);
    var i :| 0 <= i < |aggs[d].rows| && aggs[d].rows[i].target;
    EmittedHas(aggs, d, d);
    h := HopsAt(d, aggs[d])[i];
  }

  lemma ShownIsEchoed(trace: seq<seq<Reply>>, maxTTL: nat, h: Hop)
    requires h in Emitted(trace, maxTTL) && h.targetReply
    ensures 1 <= h.index <= maxTTL && Echoed(AtTtl(trace, h.index))
  {
    var aggs, t := Tallies(trace, maxTTL), h.index;
    EmittedFrom(aggs, Deepest(aggs), h);
    var i :| 0 <= i < |HopsAt(t, aggs[t])| && HopsAt(t, aggs[t])[i] == h;
    assert aggs[t].rows[i].target;
    TargetRowIffEchoed(AtTtl(trace, t));
  }

  /** The path carries a target row exactly when some complete round reached the target. */
  lemma TargetRowIffReached(trace: seq<seq<Reply>>, maxTTL: nat)
    requires AllShaped(trace, maxTTL) && Polite(trace)
    ensures (exists h :: h in Emitted(trace, maxTTL) && h.targetReply) <==> Counts(trace, maxTTL).reached > 0
  {
    ReachedIffEchoed(trace, maxTTL);
    if EchoedWithin(trace, maxTTL) {
      var t: nat :| 1 <= t <= maxTTL && Echoed(AtTtl(trace, t));
      var h := EchoIsShown(trace, maxTTL, t);
    }
    if h :| h in Emitted(trace, maxTTL) && h.targetReply {
      ShownIsEchoed(trace, maxTTL, h);
    }
  }

  /** The whole walk, for any prober and any context: every row accounts for its own
      probes, no probe of an emitted TTL is missing, and rows and rounds are bounded. */
  lemma WalkConserves(step: (nat, nat) -> Reply, alive: (nat, nat) -> bool, maxTTL: nat, rounds: nat, t: nat)
    ensures var trace := Trace(step, alive, maxTTL, rounds);
            var hops, stats := Emitted(trace, maxTTL), Counts(trace, maxTTL);
            && Lawful(hops, trace)
            && (1 <= t <= Deepest(Tallies(trace, maxTTL)) ==> Sents(hops, t) == |AtTtl(trace, t)|)
            && |hops| <= rounds * maxTTL
            && stats.reached <= stats.attempted <= rounds
  {
    var trace := Trace(step, alive, maxTTL, rounds);
    var n := Deepest(Tallies(trace, maxTTL));
    TraceIsShaped(step, alive, maxTTL, rounds);
    RowsAreLawful(trace, maxTTL, n);
    RowsAreBounded(trace, maxTTL, n);
    CountsAreBounded(trace, maxTTL);
    if 1 <= t <= n {
      RowsConserve(trace, maxTTL, n, t);
    }
    assert |trace| * n <= rounds * maxTTL by {
      TimesGrows(|trace|, rounds, n);
      TimesGrows(n, maxTTL, rounds);
    }
  }

  lemma TimesGrows(a: nat, b: nat, c: nat)
    requires a <= b
    ensures a * c <= b * c
  {
    assert b * c == a * c + (b - a) * c;
  }

  // ---------------------------------------------------------------- where a walk stops

  predicate Final(r: Reply) { r.kind == Echo || r.kind == Unreachable }

  /** The context held before this probe, and this is what came of it. */
  ghost predicate Asked(step: (nat, nat) -> Reply, alive: (nat, nat) -> bool, round: nat, ttl: nat, r: Reply) {
    alive(round, ttl) && r == step(round, ttl)
  }

  /** A round that ran: the prober's replies at TTL 1, 2, ... while the context held, none but
      the last of them an echo or an unreachable. */
  ghost predicate Runs(step: (nat, nat) -> Reply, alive: (nat, nat) -> bool, maxTTL: nat, round: nat, r: seq<Reply>) {
    && |r| <= maxTTL
    && (forall i: nat :: i < |r| ==> Asked(step, alive, round, i + 1, r[i]))
    && forall i: nat :: i + 1 < |r| ==> !Final(r[i])
  }

  lemma {:induction false} RoundRuns(step: (nat, nat) -> Reply, alive: (nat, nat) -> bool, maxTTL: nat, round: nat, cur: seq<Reply>)
    requires Runs(step, alive, maxTTL, round, cur)
    ensures var r := Round(step, alive, maxTTL, round, cur);
            && Runs(step, alive, maxTTL, round, r)
            && (|r| == maxTTL || (r != [] && Final(r[|r| - 1])) || !alive(round, |r| + 1))
    decreases maxTTL - |cur|
  {
    if !(Ended(cur) || |cur| >= maxTTL || !alive(round, |cur| + 1)) {
      var next := cur + [step(round, |cur| + 1)];
      assert Asked(step, alive, round, |cur| + 1, next[|cur|]);
      forall i: nat | i < |next| ensures Asked(step, alive, round, i + 1, next[i]) {
        assert i < |cur| ==> next[i] == cur[i] && Asked(step, alive, round, i + 1, cur[i]);
      }
      forall i: nat | i + 1 < |next| ensures !Final(next[i]) {
        assert next[i] == cur[i] && (i == |cur| - 1 ==> !Ended(cur));
      }
      RoundRuns(step, alive, maxTTL, round, next);
    }
  }

  /** A round goes on until the target or an unreachable answers, the TTLs run out, or the
      context is done; and rounds follow one another until there are enough or it is. */
  lemma {:induction false} TraceRuns(step: (nat, nat) -> Reply, alive: (nat, nat) -> bool, maxTTL: nat, n: nat)
    ensures var trace := Trace(step, alive, maxTTL, n);
            && |trace| <= n && (|trace| < n ==> !alive(|trace|, 0))
            && forall k: nat :: k < |trace| ==>
                 && alive(k, 0) && Runs(step, alive, maxTTL, k, trace[k])
                 && (|trace[k]| == maxTTL || (trace[k] != [] && Final(trace[k][|trace[k]| - 1])) || !alive(k, |trace[k]| + 1))
  {
    if n > 0 {
      TraceRuns(step, alive, maxTTL, n - 1);
      RoundRuns(step, alive, maxTTL, n - 1, []);
    }
  }

  /** The rounds that ran to an end of their own, and those of them that reached the target. */
  ghost function Whole(trace: seq<seq<Reply>>, maxTTL: nat): set<nat> {
    set k: nat | k < |trace| && trace[k] != [] && (Final(trace[k][|trace[k]| - 1]) || |trace[k]| == maxTTL)
  }

  ghost function AtTarget(trace: seq<seq<Reply>>): set<nat> {
    set k: nat | k < |trace| && trace[k] != [] && trace[k][|trace[k]| - 1].kind == Echo
  }

  lemma WholeNext(before: seq<seq<Reply>>, round: seq<Reply>, maxTTL: nat)
    ensures Whole(before + [round], maxTTL) == Whole(before, maxTTL) + (if Complete(round, maxTTL) then {|before|} else {})
    ensures AtTarget(before + [round]) == AtTarget(before) + (if Reached(round) then {|before|} else {})
    ensures |before| !in Whole(before, maxTTL) && |before| !in AtTarget(before)
  {
    var trace := before + [round];
    assert trace[|before|] == round;
    assert forall k: nat :: k < |before| ==> trace[k] == before[k];
  }

  lemma {:induction false} CountsMeaning(trace: seq<seq<Reply>>, maxTTL: nat)
    ensures Counts(trace, maxTTL) == Stats(|Whole(trace, maxTTL)|, |AtTarget(trace)|)
  {
    if trace == [] {
      assert Whole(trace, maxTTL) == {} && AtTarget(trace) == {};
    } else {
      var before, round := trace[..|trace| - 1], trace[|trace| - 1];
      assert before + [round] == trace;
      CountsMeaning(before, maxTTL);
      WholeNext(before, round, maxTTL);
    }
  }

  /** Every TTL up to the first at which the target echoed is shown, whole, and none behind
      it; without an echo that is every TTL there is. */
  lemma ShownToTarget(trace: seq<seq<Reply>>, maxTTL: nat, t: nat)
    requires 1 <= t <= maxTTL
    ensures (forall u: nat :: 1 <= u < t ==> !Echoed(AtTtl(trace, u))) ==> Sents(Emitted(trace, maxTTL), t) == |AtTtl(trace, t)|
    ensures (exists u: nat :: 1 <= u < t && Echoed(AtTtl(trace, u))) ==> Sents(Emitted(trace, maxTTL), t) == 0
  {
    var aggs := Tallies(trace, maxTTL);
    var d := Deepest(aggs);
    TargetRowIffEchoed(AtTtl(trace, t));
    if t <= d {
      RowsConserve(trace, maxTTL, d, t);
      forall u: nat | 1 <= u < t ensures !Echoed(AtTtl(trace, u)) {
        TargetRowIffEchoed(AtTtl(trace, u));
        assert !HasTarget(aggs[u]);
      }
    } else {
      OnlyDeeper(trace, maxTTL, d);
      SentsElsewhere(HopsTo(aggs, d), t);
      TargetRowIffEchoed(AtTtl(trace, d));
      assert HasTarget(aggs[d]) && 1 <= d < t;
    }
  }

  // ---------------------------------------------------------------- labels

  /** The first label among one responder's replies. */
  ghost function LabelOf(rs: seq<Reply>, addr: string, target: bool): string {
    if rs == [] then ""
    else
      var before, r := LabelOf(rs[..|rs| - 1], addr, target), rs[|rs| - 1];
      if before == "" && !r.failed && r.addr == Some(addr) && r.kind.Echo? == target then r.unreach else before
  }

  ghost predicate Labelled(a: Agg, rs: seq<Reply>) {
    && (forall i :: 0 <= i < |a.rows| ==> a.rows[i].unreach == LabelOf(rs, a.rows[i].addr, a.rows[i].target))
    && forall addr, target :: !HasRow(a.rows, addr, target) ==> LabelOf(rs, addr, target) == ""
  }

  lemma LabelNext(rs: seq<Reply>, r: Reply, addr: string, target: bool)
    ensures LabelOf(rs + [r], addr, target) ==
            if LabelOf(rs, addr, target) == "" && !r.failed && r.addr == Some(addr) && r.kind.Echo? == target then r.unreach
            else LabelOf(rs, addr, target)
  {
    assert (rs + [r])[..|rs|] == rs;
  }

  /** The rows once a reply is added: the reply's own, and every other as it was. */
  lemma AddedRow(a: Agg, r: Reply, j: nat)
    requires Distinct(a.rows) && r.Answered() && j < |AddReply(a, r).rows|
    ensures var next, own := AddReply(a, r), Find(a.rows, r.addr.value, r.kind.Echo?);
            && |next.rows| == (if own == |a.rows| then |a.rows| + 1 else |a.rows|)
            && (j == own <==> next.rows[j].addr == r.addr.value && next.rows[j].target == r.kind.Echo?)
            && (j != own ==> next.rows[j] == a.rows[j])
            && next.rows[own].unreach == (if own == |a.rows| || a.rows[own].unreach == "" then r.unreach else a.rows[own].unreach)
            && (own < |a.rows| ==> next.rows[own].addr == a.rows[own].addr && next.rows[own].target == a.rows[own].target)
  {
  }

  lemma AddReplyLabels(a: Agg, rs: seq<Reply>, r: Reply)
    requires Distinct(a.rows) && Labelled(a, rs)
    ensures Labelled(AddReply(a, r), rs + [r])
  {
    var next := AddReply(a, r);
    forall j | 0 <= j < |next.rows| ensures next.rows[j].unreach == LabelOf(rs + [r], next.rows[j].addr, next.rows[j].target) {
      LabelNext(rs, r, next.rows[j].addr, next.rows[j].target);
      if r.Answered() {
        AddedRow(a, r, j);
      }
    }
    forall addr, target | !HasRow(next.rows, addr, target) ensures LabelOf(rs + [r], addr, target) == "" {
      LabelNext(rs, r, addr, target);
      if r.Answered() {
        AddedRow(a, r, Find(a.rows, r.addr.value, r.kind.Echo?));
        RowStays(a, r, addr, target);
      }
    }
  }

  lemma RowStays(a: Agg, r: Reply, addr: string, target: bool)
    requires Distinct(a.rows) && r.Answered()
    ensures HasRow(a.rows, addr, target) ==> HasRow(AddReply(a, r).rows, addr, target)
    ensures HasRow(AddReply(a, r).rows, r.addr.value, r.kind.Echo?)
  {
    var own := Find(a.rows, r.addr.value, r.kind.Echo?);
    AddedRow(a, r, own);
    if HasRow(a.rows, addr, target) {
      var i :| 0 <= i < |a.rows| && a.rows[i].addr == addr && a.rows[i].target == target;
      AddedRow(a, r, i);
      assert AddReply(a, r).rows[i].addr == addr;
    }
  }

  /** A row carries the first label its responder gave. */
  lemma {:induction false} TallyLabels(rs: seq<Reply>)
    ensures Labelled(Tally(rs), rs)
  {
    if rs != [] {
      var before := rs[..|rs| - 1];
      TallyLabels(before);
      TallyAccounts(before);
      AddReplyLabels(Tally(before), before, rs[|rs| - 1]);
      assert before + [rs[|rs| - 1]] == rs;
    }
  }

  lemma HopsAreLabelled(trace: seq<seq<Reply>>, maxTTL: nat, h: Hop)
    requires h in Emitted(trace, maxTTL) && h.ip.Some?
    ensures 1 <= h.index <= maxTTL && h.unreach == LabelOf(AtTtl(trace, h.index), h.ip.value, h.targetReply)
  {
    var aggs, t := Tallies(trace, maxTTL), h.index;
    EmittedFrom(aggs, Deepest(aggs), h);
    var i :| 0 <= i < |HopsAt(t, aggs[t])| && HopsAt(t, aggs[t])[i] == h;
    TallyLabels(AtTtl(trace, t));
  }
}
