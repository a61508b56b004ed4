/** What a slave pushes: the bounds the master checks, the cycle it rebuilds, and the way
    back. Durations and times are nanoseconds. */
module Payload {
  import opened Wrappers
  import Stats
  import TtlWalk

  const MAX_LABEL: nat := 256
  const MAX_COUNTER := 65535
  const MAX_HOP_INDEX := 255
  const MAX_STATUS := 999
  const MAX_HOPS: nat := 2 * 10 * 30
  const MAX_RTTS_PER_HOP: nat := 128
  const MAX_SAMPLES: nat := 64

  /** A cycle as it goes over the wire. */
  datatype CyclePayload = CyclePayload(
    time: int, group: string, name: string, probe: string, source: string, rtts: seq<int>,
    sent: int, loss: int, summary: Stats.Summary, hops: seq<HopDTO>, samples: seq<SampleDTO>)

  datatype HopDTO = HopDTO(index: int, ip: string, unreach: string, target: bool, rtts: seq<int>, sent: int, lost: int)

  datatype SampleDTO = SampleDTO(time: int, rtt: int, status: int, err: string)

  /** A cycle as the scheduler and the sinks hold it. Its target is the configuration's. */
  datatype Cycle = Cycle(
    time: int, target: TargetRef, probe: string, source: string, rtts: seq<int>,
    sent: int, loss: int, summary: Stats.Summary, hops: seq<Hop>, samples: seq<Sample>)

  datatype TargetRef = TargetRef(group: string, name: string, host: string, url: string, alerts: seq<string>)

  datatype Hop = Hop(index: int, ip: string, target: bool, unreach: string, rtts: seq<int>, sent: int, lost: int)

  datatype Sample = Sample(time: int, rtt: int, status: int, err: string)

  /** The readings of text the master does: an address's canonical form if it is one it
      admits, the closed set of unreachable labels, and a bounded error text. */
  datatype Reader = Reader(addr: string -> Option<string>, unreach: string -> string, err: string -> string)

  // ---------------------------------------------------------------- the bounds

  predicate GoodRtts(rtts: seq<int>) { forall i :: 0 <= i < |rtts| ==> 0 <= rtts[i] <= Stats.MAX_SAMPLE }

  predicate GoodCounters(sent: int, lost: int) { 0 <= lost <= sent <= MAX_COUNTER }

  predicate GoodHop(h: HopDTO, rd: Reader) {
    && 0 <= h.index <= MAX_HOP_INDEX && (h.ip == "" || rd.addr(h.ip).Some?)
    && GoodCounters(h.sent, h.lost) && |h.rtts| <= MAX_RTTS_PER_HOP && GoodRtts(h.rtts)
  }

  predicate GoodSample(s: SampleDTO, oldest: int, newest: int) {
    oldest <= s.time <= newest && 0 <= s.status <= MAX_STATUS && 0 <= s.rtt <= Stats.MAX_SAMPLE
  }

  predicate GoodSummary(m: Stats.Summary) { GoodRtts([m.min, m.max, m.mean, m.median] + m.bands) }

  predicate Acceptable(p: CyclePayload, oldest: int, newest: int, rd: Reader) {
    && oldest <= p.time <= newest
    && |p.group| <= MAX_LABEL && |p.name| <= MAX_LABEL && |p.probe| <= MAX_LABEL && |p.source| <= MAX_LABEL
    && GoodCounters(p.sent, p.loss) && |p.rtts| <= Stats.MAX_PINGS && GoodRtts(p.rtts) && |p.rtts| <= p.sent - p.loss
    && GoodSummary(p.summary)
    && |p.samples| <= MAX_SAMPLES && (forall i :: 0 <= i < |p.samples| ==> GoodSample(p.samples[i], oldest, newest))
    && |p.hops| <= MAX_HOPS && (forall i :: 0 <= i < |p.hops| ==> GoodHop(p.hops[i], rd))
  }

  method BoundRtts(rtts: seq<int>) returns (ok: bool)
    ensures ok == GoodRtts(rtts)
  {
    var i := 0;
    while i < |rtts|
      invariant i <= |rtts| && GoodRtts(rtts[..i])
    {
      if rtts[i] < 0 || rtts[i] > Stats.MAX_SAMPLE {
        return false;
      }
      assert rtts[..i + 1] == rtts[..i] + [rtts[i]];
      i := i + 1;
    }
    assert rtts[..i] == rtts;
    return true;
  }

  method BoundCounters(sent: int, lost: int) returns (ok: bool)
    ensures ok == GoodCounters(sent, lost)
  {
    if sent < 0 || sent > MAX_COUNTER {
      return false;
    }
    if lost < 0 || lost > MAX_COUNTER {
      return false;
    }
    return lost <= sent;
  }

  method ValidateHop(h: HopDTO, rd: Reader) returns (ok: bool)
    ensures ok == GoodHop(h, rd)
  {
    if h.index < 0 || h.index > MAX_HOP_INDEX {
      return false;
    }
    if h.ip != "" && rd.addr(h.ip) == None {
      return false;
    }
    ok := BoundCounters(h.sent, h.lost);
    if !ok || |h.rtts| > MAX_RTTS_PER_HOP {
      return false;
    }
    ok := BoundRtts(h.rtts);
  }

  method ValidateLists(p: CyclePayload, oldest: int, newest: int, rd: Reader) returns (ok: bool)
    ensures ok == (&& |p.samples| <= MAX_SAMPLES && (forall i :: 0 <= i < |p.samples| ==> GoodSample(p.samples[i], oldest, newest))
                   && |p.hops| <= MAX_HOPS && forall i :: 0 <= i < |p.hops| ==> GoodHop(p.hops[i], rd))
  {
    if |p.samples| > MAX_SAMPLES {
      return false;
    }
    var i := 0;
    while i < |p.samples|
      invariant i <= |p.samples| && forall j :: 0 <= j < i ==> GoodSample(p.samples[j], oldest, newest)
    {
      var s := p.samples[i];
      if s.time < oldest || s.time > newest || s.status < 0 || s.status > MAX_STATUS || s.rtt < 0 || s.rtt > Stats.MAX_SAMPLE {
        return false;
      }
      i := i + 1;
    }
    if |p.hops| > MAX_HOPS {
      return false;
    }
    i := 0;
    while i < |p.hops|
      invariant i <= |p.hops| && forall j :: 0 <= j < i ==> GoodHop(p.hops[j], rd)
    {
      ok := ValidateHop(p.hops[i], rd);
      if !ok {
        return false;
      }
      i := i + 1;
    }
    return true;
  }

  /** CyclePayload.validate. */
  method Validate(p: CyclePayload, oldest: int, newest: int, rd: Reader) returns (ok: bool)
    ensures ok == Acceptable(p, oldest, newest, rd)
  {
    if p.time < oldest || p.time > newest {
      return false;
    }
    if |p.group| > MAX_LABEL || |p.name| > MAX_LABEL || |p.probe| > MAX_LABEL || |p.source| > MAX_LABEL {
      return false;
    }
    ok := BoundCounters(p.sent, p.loss);
    if !ok || |p.rtts| > Stats.MAX_PINGS {
      return false;
    }
    ok := BoundRtts(p.rtts);
    if !ok || |p.rtts| > p.sent - p.loss {
      return false;
    }
    ok := BoundRtts([p.summary.min, p.summary.max, p.summary.mean, p.summary.median] + p.summary.bands);
    if !ok {
      return false;
    }
    ok := ValidateLists(p, oldest, newest, rd);
  }

  // ---------------------------------------------------------------- rebuilding the cycle

  function CanonicalAddr(ip: string, rd: Reader): string {
    if rd.addr(ip).Some? then rd.addr(ip).value else ""
  }

  function ReadHop(h: HopDTO, rd: Reader): Hop {
    Hop(h.index, CanonicalAddr(h.ip, rd), h.target, rd.unreach(h.unreach), h.rtts, h.sent, h.lost)
  }

  function ReadSample(s: SampleDTO, rd: Reader): Sample { Sample(s.time, s.rtt, s.status, rd.err(s.err)) }

  /** c is what the master makes of p for the target it resolved p to: p's measurements,
      with counters and summary recomputed from them. */
  ghost predicate Rebuilds(c: Cycle, p: CyclePayload, target: TargetRef, rd: Reader) {
    && c.time == p.time && c.target == target && c.probe == p.probe && c.source == p.source
    && c.rtts == p.rtts && c.loss == p.loss && c.sent == p.loss + |p.rtts|
    && Stats.Summarizes(c.summary, p.rtts)
    && |c.hops| == |p.hops| && (forall i :: 0 <= i < |p.hops| ==> c.hops[i] == ReadHop(p.hops[i], rd))
    && |c.samples| == |p.samples| && (forall i :: 0 <= i < |p.samples| ==> c.samples[i] == ReadSample(p.samples[i], rd))
  }

  const NO_HOP := Hop(0, "", false, "", [], 0, 0)
  const NO_SAMPLE := Sample(0, 0, 0, "")

  method ToCycle(p: CyclePayload, target: TargetRef, rd: Reader) returns (c: Cycle)
    ensures Rebuilds(c, p, target, rd)
  {
    var hops := new Hop[|p.hops|](_ => NO_HOP);
    var i := 0;
    while i < |p.hops|
      invariant i <= |p.hops| && forall j :: 0 <= j < i ==> hops[j] == ReadHop(p.hops[j], rd)
    {
      hops[i] := ReadHop(p.hops[i], rd);
      i := i + 1;
    }
    var read := hops[..];
    var samples := new Sample[|p.samples|](_ => NO_SAMPLE);
    i := 0;
    while i < |p.samples|
      invariant i <= |p.samples| && forall j :: 0 <= j < i ==> samples[j] == ReadSample(p.samples[j], rd)
    {
      samples[i] := ReadSample(p.samples[i], rd);
      i := i + 1;
    }
    var summary := Stats.Compute(p.rtts);
    c := Cycle(p.time, target, p.probe, p.source, p.rtts, p.loss + |p.rtts|, p.loss, summary, read, samples[..]);
  }

  /** What the columns of the store hold of a cycle: nothing wraps, and no time is further
      from the master's clock than it allows. */
  ghost predicate Storable(c: Cycle, oldest: int, newest: int) {
    && oldest <= c.time <= newest && 0 <= c.loss <= c.sent <= 65535
    && (forall x :: x in c.rtts ==> 0 <= x <= Stats.MAX_SAMPLE)
    && |c.samples| <= 64 && |c.hops| <= 600
    && (forall i :: 0 <= i < |c.samples| ==>
          oldest <= c.samples[i].time <= newest && 0 <= c.samples[i].status <= 999 && 0 <= c.samples[i].rtt <= Stats.MAX_SAMPLE)
    && (forall i :: 0 <= i < |c.hops| ==>
          && 0 <= c.hops[i].index <= 255 && 0 <= c.hops[i].lost <= c.hops[i].sent <= 65535
          && |c.hops[i].rtts| <= 128 && forall x :: x in c.hops[i].rtts ==> 0 <= x <= Stats.MAX_SAMPLE)
  }

  /** Whatever the master accepts fits the store, and no hop loses its address. */
  lemma AcceptedIsStorable(p: CyclePayload, c: Cycle, oldest: int, newest: int, target: TargetRef, rd: Reader)
    requires Acceptable(p, oldest, newest, rd) && Rebuilds(c, p, target, rd)
    ensures Storable(c, oldest, newest) && |c.rtts| <= Stats.MAX_PINGS
    ensures |p.group| <= 256 && |p.name| <= 256 && |c.probe| <= 256 && |c.source| <= 256
    ensures forall i :: 0 <= i < |c.hops| && p.hops[i].ip != "" ==> Some(c.hops[i].ip) == rd.addr(p.hops[i].ip)
  {
    forall i | 0 <= i < |c.hops|
      ensures 0 <= c.hops[i].index <= 255 && 0 <= c.hops[i].lost <= c.hops[i].sent <= 65535
      ensures |c.hops[i].rtts| <= 128 && forall x :: x in c.hops[i].rtts ==> 0 <= x <= Stats.MAX_SAMPLE
      ensures p.hops[i].ip != "" ==> Some(c.hops[i].ip) == rd.addr(p.hops[i].ip)
    {
      assert c.hops[i] == ReadHop(p.hops[i], rd) && GoodHop(p.hops[i], rd);
    }
    forall i | 0 <= i < |c.samples|
      ensures oldest <= c.samples[i].time <= newest && 0 <= c.samples[i].status <= 999 && 0 <= c.samples[i].rtt <= Stats.MAX_SAMPLE
    {
      assert c.samples[i] == ReadSample(p.samples[i], rd) && GoodSample(p.samples[i], oldest, newest);
    }
  }

  /** Every payload the master accepts becomes a cycle whose counters agree with its
      samples and never exceed the claim, and whose summary is an ordered one. */
  lemma AcceptedCycle(p: CyclePayload, c: Cycle, oldest: int, newest: int, target: TargetRef, rd: Reader)
    requires Acceptable(p, oldest, newest, rd) && Rebuilds(c, p, target, rd)
    ensures c.sent == c.loss + |c.rtts| <= p.sent <= MAX_COUNTER
    ensures Stats.Ladder(c.summary) && c.summary.max <= Stats.MAX_SAMPLE
    ensures forall s :: Stats.SortedFrom(s, p.rtts) ==> 0 <= Stats.Sum(s) <= Stats.MAX_INT64
  {
    var s :| Stats.SortedFrom(s, p.rtts) && c.summary == Stats.SummaryOf(s);
    SortedIsGood(s, p.rtts);
    Stats.SummaryIsLadder(s, Stats.MAX_SAMPLE);
    forall t | Stats.SortedFrom(t, p.rtts) ensures 0 <= Stats.Sum(t) <= Stats.MAX_INT64 {
      SortedIsGood(t, p.rtts);
      Stats.SumFits(t);
    }
  }

  lemma SortedIsGood(s: seq<int>, rtts: seq<int>)
    requires Stats.SortedFrom(s, rtts) && GoodRtts(rtts)
    ensures GoodRtts(s) && |s| == |rtts|
  {
    assert |s| == |multiset(s)| == |multiset(rtts)| == |rtts|;
    forall i | 0 <= i < |s| ensures 0 <= s[i] <= Stats.MAX_SAMPLE {
      Stats.SameElements(s, rtts, s[i]);
    }
  }

  // ---------------------------------------------------------------- there and back

  function SpellHop(h: Hop): HopDTO { HopDTO(h.index, h.ip, h.unreach, h.target, h.rtts, h.sent, h.lost) }

  function SpellSample(s: Sample): SampleDTO { SampleDTO(s.time, s.rtt, s.status, s.err) }

  /** p is c as the slave spells it: all of it but what only the configuration holds. */
  ghost predicate Spells(p: CyclePayload, c: Cycle) {
    && p.time == c.time && p.group == c.target.group && p.name == c.target.name && p.probe == c.probe
    && p.source == c.source && p.rtts == c.rtts && p.sent == c.sent && p.loss == c.loss && p.summary == c.summary
    && |p.hops| == |c.hops| && (forall i :: 0 <= i < |c.hops| ==> p.hops[i] == SpellHop(c.hops[i]))
    && |p.samples| == |c.samples| && (forall i :: 0 <= i < |c.samples| ==> p.samples[i] == SpellSample(c.samples[i]))
  }

  method FromCycle(c: Cycle) returns (p: CyclePayload)
    ensures Spells(p, c)
  {
    var hops: seq<HopDTO> := [];
    var i := 0;
    while i < |c.hops|
      invariant i == |hops| <= |c.hops| && forall j :: 0 <= j < i ==> hops[j] == SpellHop(c.hops[j])
    {
      var h := c.hops[i];
      hops := hops + [HopDTO(h.index, h.ip, h.unreach, h.target, h.rtts, h.sent, h.lost)];
      i := i + 1;
    }
    var samples: seq<SampleDTO> := [];
    i := 0;
    while i < |c.samples|
      invariant i == |samples| <= |c.samples| && forall j :: 0 <= j < i ==> samples[j] == SpellSample(c.samples[j])
    {
      var s := c.samples[i];
      samples := samples + [SampleDTO(s.time, s.rtt, s.status, s.err)];
      i := i + 1;
    }
    p := CyclePayload(c.time, c.target.group, c.target.name, c.probe, c.source, c.rtts, c.sent, c.loss, c.summary, hops, samples);
  }

  /** The master reads every text of the cycle as the slave has it. */
  ghost predicate Canonical(c: Cycle, rd: Reader) {
    && (forall i :: 0 <= i < |c.hops| ==>
          CanonicalAddr(c.hops[i].ip, rd) == c.hops[i].ip && rd.unreach(c.hops[i].unreach) == c.hops[i].unreach)
    && (forall i :: 0 <= i < |c.samples| ==> rd.err(c.samples[i].err) == c.samples[i].err)
  }

  lemma CanonicalIff(c: Cycle, p: CyclePayload, d: Cycle, target: TargetRef, rd: Reader)
    requires Spells(p, c) && Rebuilds(d, p, target, rd)
    ensures d.hops == c.hops && d.samples == c.samples <==> Canonical(c, rd)
  {
    if d.hops == c.hops && d.samples == c.samples {
      forall i | 0 <= i < |c.hops|
        ensures CanonicalAddr(c.hops[i].ip, rd) == c.hops[i].ip && rd.unreach(c.hops[i].unreach) == c.hops[i].unreach
      {
        assert d.hops[i] == ReadHop(p.hops[i], rd) && p.hops[i] == SpellHop(c.hops[i]);
      }
      forall i | 0 <= i < |c.samples| ensures rd.err(c.samples[i].err) == c.samples[i].err {
        assert d.samples[i] == ReadSample(p.samples[i], rd) && p.samples[i] == SpellSample(c.samples[i]);
      }
    }
  }

  /** A cycle comes back from the wire as it was exactly when the master resolved it to its
      own target, its counters and summary are the ones its samples give, and its text is
      canonical. */
  lemma RoundTripIff(c: Cycle, p: CyclePayload, d: Cycle, target: TargetRef, rd: Reader)
    requires Spells(p, c) && Rebuilds(d, p, target, rd)
    ensures d == c <==>
            target == c.target && c.sent == c.loss + |c.rtts| && Stats.Summarizes(c.summary, c.rtts) && Canonical(c, rd)
  {
    CanonicalIff(c, p, d, target, rd);
    if Stats.Summarizes(c.summary, c.rtts) {
      Stats.SummaryIsUnique(c.summary, d.summary, c.rtts, c.rtts);
    }
  }

  // ---------------------------------------------------------------- a walk's rows are accepted

  function Wire(h: TtlWalk.Hop): HopDTO {
    HopDTO(h.index, if h.ip.Some? then h.ip.value else "", h.unreach, h.targetReply, h.rtts, h.sent, h.lost)
  }

  lemma {:induction false} RttsAreReplies(rs: seq<TtlWalk.Reply>, addr: string, target: bool)
    requires forall r :: r in rs ==> 0 <= r.rtt <= Stats.MAX_SAMPLE
    ensures GoodRtts(TtlWalk.RttsOf(rs, addr, target)) && |TtlWalk.RttsOf(rs, addr, target)| <= |rs|
  {
    if rs != [] {
      RttsAreReplies(rs[..|rs| - 1], addr, target);
    }
  }

  lemma {:induction false} SentIsPart(hops: seq<TtlWalk.Hop>, i: nat)
    requires i < |hops|
    ensures hops[i].sent <= TtlWalk.Sents(hops, hops[i].index)
  {
    if i < |hops| - 1 {
      SentIsPart(hops[..|hops| - 1], i);
    }
  }

  lemma {:induction false} RepliesAtTtl(trace: seq<seq<TtlWalk.Reply>>, t: nat)
    requires 1 <= t && forall i, j :: 0 <= i < |trace| && 0 <= j < |trace[i]| ==> 0 <= trace[i][j].rtt <= Stats.MAX_SAMPLE
    ensures forall r :: r in TtlWalk.AtTtl(trace, t) ==> 0 <= r.rtt <= Stats.MAX_SAMPLE
  {
    if trace != [] {
      RepliesAtTtl(trace[..|trace| - 1], t);
    }
  }

  /** Whatever a walk of the program's own depth sees, the master's hop bounds admit it. */
  lemma WalkIsAccepted(trace: seq<seq<TtlWalk.Reply>>, maxTTL: nat, i: nat, rd: Reader)
    requires |trace| <= 10 && maxTTL <= 30
    requires forall j, k :: 0 <= j < |trace| && 0 <= k < |trace[j]| ==> 0 <= trace[j][k].rtt <= Stats.MAX_SAMPLE
    requires i < |TtlWalk.Emitted(trace, maxTTL)|
    requires var ip := TtlWalk.Emitted(trace, maxTTL)[i].ip; ip.Some? ==> rd.addr(ip.value).Some?
    ensures |TtlWalk.Emitted(trace, maxTTL)| <= MAX_HOPS
    ensures GoodHop(Wire(TtlWalk.Emitted(trace, maxTTL)[i]), rd)
  {
    var hops := TtlWalk.Emitted(trace, maxTTL);
    var n := TtlWalk.Deepest(TtlWalk.Tallies(trace, maxTTL));
    var h := hops[i];
    TtlWalk.RowsAreLawful(trace, maxTTL, n);
    TtlWalk.RowsAreBounded(trace, maxTTL, n);
    TtlWalk.TimesGrows(|trace|, 10, n);
    assert TtlWalk.Says(h, trace);
    TtlWalk.RowsConserve(trace, maxTTL, n, h.index);
    TtlWalk.AtTtlIsBounded(trace, h.index);
    SentIsPart(hops, i);
    RepliesAtTtl(trace, h.index);
    if h.ip.Some? {
      RttsAreReplies(TtlWalk.AtTtl(trace, h.index), h.ip.value, h.targetReply);
    }
  }

  /** hops are the wire's rows of a walk of the program's own depth, whose times are ones a
      slave measures and whose addresses the master can read. */
  ghost predicate Walked(hops: seq<HopDTO>, trace: seq<seq<TtlWalk.Reply>>, maxTTL: nat, rd: Reader) {
    && |trace| <= 10 && maxTTL <= 30
    && (forall j, k :: 0 <= j < |trace| && 0 <= k < |trace[j]| ==> 0 <= trace[j][k].rtt <= Stats.MAX_SAMPLE)
    && var rows := TtlWalk.Emitted(trace, maxTTL);
       |rows| == |hops| && forall i :: 0 <= i < |rows| ==>
         hops[i] == Wire(rows[i]) && (rows[i].ip.Some? ==> rd.addr(rows[i].ip.value).Some?)
  }

  lemma WalkedIsAccepted(hops: seq<HopDTO>, trace: seq<seq<TtlWalk.Reply>>, maxTTL: nat, rd: Reader)
    requires Walked(hops, trace, maxTTL, rd)
    ensures |hops| <= MAX_HOPS && forall i :: 0 <= i < |hops| ==> GoodHop(hops[i], rd)
  {
    forall i | 0 <= i < |hops| ensures GoodHop(hops[i], rd) && |hops| <= MAX_HOPS {
      assert hops[i] == Wire(TtlWalk.Emitted(trace, maxTTL)[i]);
      WalkIsAccepted(trace, maxTTL, i, rd);
    }
    assert |hops| > 0 ==> GoodHop(hops[0], rd);
  }

  /** A cycle as a slave's probes make one, at a time the master's clock allows. */
  ghost predicate Honest(c: Cycle, oldest: int, newest: int) {
    && oldest <= c.time <= newest
    && |c.target.group| <= 256 && |c.target.name| <= 256 && |c.probe| <= 256 && |c.source| <= 256
    && 0 <= c.loss && c.sent == c.loss + |c.rtts| <= 65535 && |c.rtts| <= Stats.MAX_PINGS
    && (forall i :: 0 <= i < |c.rtts| ==> 0 <= c.rtts[i] <= Stats.MAX_SAMPLE) && Stats.Summarizes(c.summary, c.rtts)
    && |c.samples| <= 64
    && forall i :: 0 <= i < |c.samples| ==>
         oldest <= c.samples[i].time <= newest && 0 <= c.samples[i].status <= 999 && 0 <= c.samples[i].rtt <= Stats.MAX_SAMPLE
  }

  /** What a slave's own probes make is never refused: samples, a summary and counters that
      belong together, and the rows of a walk. */
  lemma HonestIsAccepted(c: Cycle, p: CyclePayload, trace: seq<seq<TtlWalk.Reply>>, maxTTL: nat, oldest: int, newest: int, rd: Reader)
    requires Spells(p, c) && Honest(c, oldest, newest) && Walked(p.hops, trace, maxTTL, rd)
    ensures Acceptable(p, oldest, newest, rd)
  {
    SummaryIsGood(c.summary, c.rtts);
    WalkedIsAccepted(p.hops, trace, maxTTL, rd);
    forall i | 0 <= i < |p.samples| ensures GoodSample(p.samples[i], oldest, newest) {
      assert p.samples[i] == SpellSample(c.samples[i]);
    }
  }

  lemma SummaryIsGood(m: Stats.Summary, rtts: seq<int>)
    requires Stats.Summarizes(m, rtts) && GoodRtts(rtts)
    ensures GoodSummary(m)
  {
    var s :| Stats.SortedFrom(s, rtts) && m == Stats.SummaryOf(s);
    SortedIsGood(s, rtts);
    Stats.SummaryIsLadder(s, Stats.MAX_SAMPLE);
  }
}
