/** The slave's push buffer: a byte-bounded ring that grows, shrinks, sheds hop rows from
    its oldest cycles and only then drops cycles.

    `Sink` is the specification: a plain sequence of measurements and the array length the
    accounting charges for. It has no head and no strip cursor: `Shed` looks for the
    oldest hop-bearing entry from the front every time. `PushSink` is the program's
    ring, whose cursor must never pass an entry it could still have shed. */
module PushSink {
  // unsafe.Sizeof of the wire structs on a 64-bit platform.
  const PAYLOAD_STRUCT_BYTES := 360
  const HOP_STRUCT_BYTES := 88
  const HTTP_STRUCT_BYTES := 56
  const DURATION_BYTES := 8
  const INITIAL_RING_ENTRIES: nat := 64
  const DEFAULT_BUFFER_BYTES := 268435456
  const HEALTH_GROUP := "_cluster"

  // ---------------------------------------------------------------- payloads

  /** A Go slice: its elements and the capacity it holds beyond them. */
  datatype Slice<T> = Slice(items: seq<T>, spare: nat) {
    function Cap(): nat { |items| + spare }
  }

  datatype Hop = Hop(index: int, ip: string, unreach: string, targetReply: bool, rtts: Slice<int>, sent: int, lost: int)

  datatype HttpSample = HttpSample(time: int, rtt: int, status: int, err: string)

  datatype Payload = Payload(
    time: int, group: string, name: string, probeName: string, source: string,
    rtts: Slice<int>, sent: int, lossCount: int, hops: Slice<Hop>, http: Slice<HttpSample>)
  {
    predicate HasHops() { hops.items != [] }

    function Stripped(): Payload { this.(hops := Slice([], 0)) }

    /** What leaves for a master that cannot redact a health target's hops. */
    function Withheld(markers: bool): (r: Payload)
      ensures r == if group == "_cluster" && !markers then this.(hops := Slice([], 0)) else this
    {
      if group == HEALTH_GROUP && !markers then Stripped() else this
    }
  }

  const NOTHING := Payload(0, "", "", "", "", Slice([], 0), 0, 0, Slice([], 0), Slice([], 0))

  function HopRowBytes(hops: seq<Hop>): nat {
    if hops == [] then 0
    else |hops[0].ip| + |hops[0].unreach| + hops[0].rtts.Cap() * DURATION_BYTES + HopRowBytes(hops[1..])
  }

  function HopBytes(hops: Slice<Hop>): nat {
    hops.Cap() * HOP_STRUCT_BYTES + HopRowBytes(hops.items)
  }

  function HttpErrBytes(samples: seq<HttpSample>): nat {
    if samples == [] then 0 else |samples[0].err| + HttpErrBytes(samples[1..])
  }

  function HeapBytes(p: Payload): nat {
    |p.group| + |p.name| + |p.probeName| + |p.source|
    + p.rtts.Cap() * DURATION_BYTES + HopBytes(p.hops)
    + p.http.Cap() * HTTP_STRUCT_BYTES + HttpErrBytes(p.http.items)
  }

  function HeapSum(entries: seq<Payload>): nat {
    if entries == [] then 0 else HeapBytes(entries[0]) + HeapSum(entries[1..])
  }

  lemma {:induction false} HeapSumConcat(a: seq<Payload>, b: seq<Payload>)
    ensures HeapSum(a + b) == HeapSum(a) + HeapSum(b)
  {
    if a == [] {
      assert a + b == b;
    } else {
      assert (a + b)[1..] == a[1..] + b;
      HeapSumConcat(a[1..], b);
    }
  }

  lemma HeapSumOne(p: Payload)
    ensures HeapSum([p]) == HeapBytes(p)
  {
    assert [p][1..] == [];
  }

  lemma HeapSumSet(entries: seq<Payload>, i: nat, p: Payload)
    requires i < |entries|
    ensures HeapSum(entries[i := p]) == HeapSum(entries) - HeapBytes(entries[i]) + HeapBytes(p)
  {
    var l, r := entries[..i], entries[i + 1..];
    assert entries == l + [entries[i]] + r && entries[i := p] == l + [p] + r;
    HeapSumConcat(l + [entries[i]], r);
    HeapSumConcat(l, [entries[i]]);
    HeapSumConcat(l + [p], r);
    HeapSumConcat(l, [p]);
    HeapSumOne(entries[i]);
    HeapSumOne(p);
  }

  lemma HeapSumDropLast(entries: seq<Payload>)
    requires entries != []
    ensures HeapSum(entries[..|entries| - 1]) == HeapSum(entries) - HeapBytes(entries[|entries| - 1])
  {
    var l, e := entries[..|entries| - 1], entries[|entries| - 1];
    assert entries == l + [e];
    HeapSumConcat(l, [e]);
    HeapSumOne(e);
  }

  lemma {:induction false} HopRowsConcat(a: seq<Hop>, b: seq<Hop>)
    ensures HopRowBytes(a + b) == HopRowBytes(a) + HopRowBytes(b)
  {
    if a == [] {
      assert a + b == b;
    } else {
      assert (a + b)[1..] == a[1..] + b;
      HopRowsConcat(a[1..], b);
    }
  }

  lemma {:induction false} HttpErrsConcat(a: seq<HttpSample>, b: seq<HttpSample>)
    ensures HttpErrBytes(a + b) == HttpErrBytes(a) + HttpErrBytes(b)
  {
    if a == [] {
      assert a + b == b;
    } else {
      assert (a + b)[1..] == a[1..] + b;
      HttpErrsConcat(a[1..], b);
    }
  }

  /** Every row is charged: its struct, the bytes of its text and the room of its times, spare
      capacity included. */
  lemma RowsAreCharged(p: Payload, h: Hop, t: HttpSample)
    ensures HeapBytes(p.(hops := Slice(p.hops.items + [h], p.hops.spare)))
         == HeapBytes(p) + 88 + |h.ip| + |h.unreach| + 8 * (|h.rtts.items| + h.rtts.spare)
    ensures HeapBytes(p.(http := Slice(p.http.items + [t], p.http.spare))) == HeapBytes(p) + 56 + |t.err|
    ensures HeapBytes(p.(hops := Slice([], p.hops.spare), http := Slice([], p.http.spare)))
         == |p.group| + |p.name| + |p.probeName| + |p.source|
            + 8 * (|p.rtts.items| + p.rtts.spare) + 88 * p.hops.spare + 56 * p.http.spare
  {
    HopRowsConcat(p.hops.items, [h]);
    HttpErrsConcat(p.http.items, [t]);
    assert [h][1..] == [] && [t][1..] == [];
  }

  // ---------------------------------------------------------------- ring sizes

  /** The ring length that holds size + n entries, doubling from have. */
  function EntriesFor(have: nat, size: nat, n: nat): (r: nat)
    requires have > 0
    ensures r >= have && r >= size + n
    ensures r == have || r < 2 * (size + n)
    decreases size + n - have
  {
    if size + n > have then EntriesFor(have * 2, size, n) else have
  }

  /** The ring length shrinkIfIdle settles on. */
  function Doubled(entries: nat, least: nat): (r: nat)
    requires entries > 0
    ensures r >= entries && r >= least
    ensures r == entries || r < 2 * least
    decreases least - entries
  {
    if entries < least then Doubled(entries * 2, least) else entries
  }

  function ShrunkTo(have: nat, size: nat): (r: nat)
    requires have > 0 && size <= have
    ensures r > 0 && size <= r <= have
    ensures have <= 64 || 4 * size >= have ==> r == have
    ensures r <= 64 || r <= 4 * size
  {
    if have <= INITIAL_RING_ENTRIES || size * 4 >= have then have
    else
      var entries := Doubled(INITIAL_RING_ENTRIES, size * 2);
      if entries < have then entries else have
  }

  // ---------------------------------------------------------------- specification

  datatype Side = Oldest | Newest

  datatype Sink = Sink(entries: seq<Payload>, ringLen: nat, budget: int, dropped: nat, stripped: nat) {
    predicate Fits(heap: nat, n: nat)
      requires ringLen > 0
    {
      EntriesFor(ringLen, |entries|, n) * PAYLOAD_STRUCT_BYTES + HeapSum(entries) + heap <= budget
    }

    /** What the program calls total: the array it holds and the heap behind it. */
    function Accounted(): nat {
      ringLen * PAYLOAD_STRUCT_BYTES + HeapSum(entries)
    }

    function StripAt(i: nat): Sink
      requires i < |entries|
    {
      this.(entries := entries[i := entries[i].Stripped()], stripped := stripped + 1)
    }

    function DropOne(side: Side): Sink
      requires entries != []
    {
      this.(entries := if side == Oldest then entries[1..] else entries[..|entries| - 1], dropped := dropped + 1)
    }
  }

  /** Offset of the oldest entry that carries hops, or the length if none does. */
  function FirstWithHops(entries: seq<Payload>): (i: nat)
    ensures i <= |entries|
    ensures forall j :: 0 <= j < i ==> !entries[j].HasHops()
    ensures i < |entries| ==> entries[i].HasHops()
  {
    if entries == [] then 0
    else if entries[0].HasHops() then 0
    else 1 + FirstWithHops(entries[1..])
  }

  function HopCount(entries: seq<Payload>): nat {
    if entries == [] then 0 else (if entries[0].HasHops() then 1 else 0) + HopCount(entries[1..])
  }

  lemma {:induction false} StripLowersHopCount(entries: seq<Payload>, i: nat)
    requires i < |entries| && entries[i].HasHops()
    ensures HopCount(entries[i := entries[i].Stripped()]) == HopCount(entries) - 1
  {
    var after := entries[i := entries[i].Stripped()];
    if i == 0 {
      assert after[1..] == entries[1..];
    } else {
      assert after[1..] == entries[1..][i - 1 := entries[1..][i - 1].Stripped()];
      StripLowersHopCount(entries[1..], i - 1);
    }
  }

  lemma {:induction false} HopCountConcat(a: seq<Payload>, b: seq<Payload>)
    ensures HopCount(a + b) == HopCount(a) + HopCount(b)
  {
    if a == [] {
      assert a + b == b;
    } else {
      assert (a + b)[1..] == a[1..] + b;
      HopCountConcat(a[1..], b);
    }
  }

  lemma DropKeepsHopCount(s: Sink, side: Side)
    requires s.entries != []
    ensures HopCount(s.DropOne(side).entries) <= HopCount(s.entries)
  {
    var e := s.entries;
    if side == Newest {
      assert e == e[..|e| - 1] + [e[|e| - 1]];
      HopCountConcat(e[..|e| - 1], [e[|e| - 1]]);
    }
  }

  /** One rung of the ladder: strip the oldest entry that carries hops, else drop one. */
  function Rung(s: Sink, side: Side): (r: Sink)
    requires s.entries != []
    ensures HopCount(r.entries) + |r.entries| < HopCount(s.entries) + |s.entries|
    ensures r.ringLen == s.ringLen && r.budget == s.budget
  {
    var i := FirstWithHops(s.entries);
    if i < |s.entries| then
      StripLowersHopCount(s.entries, i);
      s.StripAt(i)
    else
      DropKeepsHopCount(s, side);
      s.DropOne(side)
  }

  /** makeRoom: take rungs until n payloads of heap bytes fit or nothing is left. */
  function Shed(s: Sink, heap: nat, n: nat, side: Side): (r: Sink)
    requires s.ringLen > 0
    ensures r.ringLen == s.ringLen && r.budget == s.budget
    ensures r.entries == [] || r.Fits(heap, n)
    decreases HopCount(s.entries) + |s.entries|
  {
    if s.entries == [] || s.Fits(heap, n) then s else Shed(Rung(s, side), heap, n, side)
  }

  function AfterOnCycle(s: Sink, p: Payload): Sink
    requires s.ringLen > 0
  {
    var room := Shed(s, HeapBytes(p), 1, Oldest);
    room.(entries := room.entries + [p], ringLen := EntriesFor(room.ringLen, |room.entries|, 1))
  }

  function AfterRequeue(s: Sink, batch: seq<Payload>): Sink
    requires s.ringLen > 0
  {
    if batch == [] then s
    else
      var room := Shed(s, HeapSum(batch), |batch|, Newest);
      room.(entries := batch + room.entries, ringLen := EntriesFor(room.ringLen, |room.entries|, |batch|))
  }

  function DrainCount(s: Sink, limit: int): (n: nat)
    ensures n <= |s.entries|
  {
    if 0 < limit < |s.entries| then limit else |s.entries|
  }

  function AfterDrain(s: Sink, limit: int): Sink
    requires s.ringLen > 0 && |s.entries| <= s.ringLen
  {
    var rest := s.entries[DrainCount(s, limit)..];
    if s.entries == [] then s else s.(entries := rest, ringLen := ShrunkTo(s.ringLen, |rest|))
  }

  // ---------------------------------------------------------------- what shedding means

  /** The entries with the hops gone from the first k that carry any. */
  function StripFirst(entries: seq<Payload>, k: nat): (r: seq<Payload>)
    ensures |r| == |entries|
  {
    if entries == [] then []
    else if k > 0 && entries[0].HasHops() then [entries[0].Stripped()] + StripFirst(entries[1..], k - 1)
    else [entries[0]] + StripFirst(entries[1..], k)
  }

  function Keep(entries: seq<Payload>, d: nat, side: Side): seq<Payload>
    requires d <= |entries|
  {
    if side == Oldest then entries[d..] else entries[..|entries| - d]
  }

  lemma {:induction false} StripNone(entries: seq<Payload>)
    ensures StripFirst(entries, 0) == entries
  {
    if entries != [] {
      StripNone(entries[1..]);
    }
  }

  /** Nothing but hops is ever touched. */
  lemma {:induction false} StripOnlyHops(entries: seq<Payload>, k: nat, i: nat)
    requires i < |entries|
    ensures StripFirst(entries, k)[i] == entries[i] || StripFirst(entries, k)[i] == entries[i].Stripped()
  {
    if i > 0 {
      StripOnlyHops(entries[1..], if k > 0 && entries[0].HasHops() then k - 1 else k, i - 1);
    }
  }

  lemma StripCons(p: Payload, rest: seq<Payload>, k: nat)
    ensures StripFirst([p] + rest, k) == if k > 0 && p.HasHops() then [p.Stripped()] + StripFirst(rest, k - 1) else [p] + StripFirst(rest, k)
    ensures HopCount([p] + rest) == HopCount(rest) + if p.HasHops() then 1 else 0
  {
    assert ([p] + rest)[1..] == rest;
  }

  /** The buffer with its oldest hop-bearing entry stripped. */
  function StripOldest(e: seq<Payload>): seq<Payload>
    requires FirstWithHops(e) < |e|
  {
    var i := FirstWithHops(e); e[i := e[i].Stripped()]
  }

  lemma OldestAtHead(p: Payload, e: seq<Payload>)
    requires p.HasHops()
    ensures FirstWithHops([p] + e) == 0 && StripOldest([p] + e) == [p.Stripped()] + e
  {
    assert ([p] + e)[0] == p;
  }

  lemma FirstBehind(p: Payload, e: seq<Payload>)
    requires !p.HasHops()
    ensures FirstWithHops([p] + e) == FirstWithHops(e) + 1
  {
    assert ([p] + e)[1..] == e;
  }

  lemma SetBehind(p: Payload, e: seq<Payload>, i: nat, q: Payload)
    requires i < |e|
    ensures ([p] + e)[i + 1] == e[i] && ([p] + e)[i + 1 := q] == [p] + e[i := q]
  {
  }

  lemma OldestBehind(p: Payload, e: seq<Payload>)
    requires !p.HasHops() && FirstWithHops(e) < |e|
    ensures FirstWithHops([p] + e) < |[p] + e| && StripOldest([p] + e) == [p] + StripOldest(e)
  {
    FirstBehind(p, e);
    SetBehind(p, e, FirstWithHops(e), e[FirstWithHops(e)].Stripped());
  }

  /** Stripping the oldest hop-bearing entry of a k-stripped buffer strips k + 1. */
  lemma {:induction false} StripOneMore(entries: seq<Payload>, k: nat)
    requires k < HopCount(entries)
    ensures var e := StripFirst(entries, k);
            FirstWithHops(e) < |e| && StripOldest(e) == StripFirst(entries, k + 1)
  {
    var p, rest := entries[0], entries[1..];
    assert entries == [p] + rest;
    StripCons(p, rest, k);
    StripCons(p, rest, k + 1);
    if !p.HasHops() {
      StripOneMore(rest, k);
      OldestBehind(p, StripFirst(rest, k));
    } else if k == 0 {
      OldestAtHead(p, StripFirst(rest, 0));
    } else {
      StripOneMore(rest, k - 1);
      OldestBehind(p.Stripped(), StripFirst(rest, k - 1));
    }
  }

  lemma {:induction false} AllStripped(entries: seq<Payload>)
    ensures var e := StripFirst(entries, HopCount(entries));
            FirstWithHops(e) == |e|
  {
    if entries != [] {
      AllStripped(entries[1..]);
      var e := StripFirst(entries, HopCount(entries));
      assert e[1..] == StripFirst(entries[1..], HopCount(entries[1..]));
    }
  }

  /** Where the ladder stands after k strips and d drops. */
  ghost predicate At(s: Sink, r: Sink, side: Side, k: nat, d: nat) {
    && k <= HopCount(s.entries) && d <= |s.entries|
    && (d > 0 ==> k == HopCount(s.entries))
    && r == Sink(Keep(StripFirst(s.entries, k), d, side), s.ringLen, s.budget, s.dropped + d, s.stripped + k)
  }

  lemma NextRung(s: Sink, r: Sink, side: Side, k: nat, d: nat)
    requires At(s, r, side, k, d) && r.entries != []
    ensures k < HopCount(s.entries) ==> At(s, Rung(r, side), side, k + 1, 0)
    ensures k == HopCount(s.entries) ==> At(s, Rung(r, side), side, k, d + 1)
  {
    var e := StripFirst(s.entries, k);
    if k < HopCount(s.entries) {
      StripOneMore(s.entries, k);
      assert Keep(e, 0, side) == e;
      assert Keep(StripFirst(s.entries, k + 1), 0, side) == StripFirst(s.entries, k + 1);
    } else {
      AllStripped(s.entries);
      assert forall i :: 0 <= i < |e| ==> !e[i].HasHops();
      assert FirstWithHops(r.entries) == |r.entries|;
      assert Rung(r, side).entries == Keep(e, d + 1, side);
    }
  }

  /** These entries and n payloads of heap bytes more, with the ring they take, pass the budget. */
  ghost predicate Exceeds(s: Sink, entries: seq<Payload>, heap: nat, n: nat)
    requires s.ringLen > 0
  {
    EntriesFor(s.ringLen, |entries|, n) * 360 + HeapSum(entries) + heap > s.budget
  }

  /** The last rung taken was needed: one fewer would not have fitted. */
  ghost predicate Needed(s: Sink, heap: nat, n: nat, side: Side, k: nat, d: nat)
    requires s.ringLen > 0 && k <= HopCount(s.entries) && d <= |s.entries|
  {
    if d > 0 then Exceeds(s, Keep(StripFirst(s.entries, k), d - 1, side), heap, n)
    else k > 0 ==> Exceeds(s, StripFirst(s.entries, k - 1), heap, n)
  }

  lemma {:induction false} ShedFrom(s: Sink, now: Sink, heap: nat, n: nat, side: Side, k: nat, d: nat) returns (k': nat, d': nat)
    requires s.ringLen > 0 && At(s, now, side, k, d) && Needed(s, heap, n, side, k, d)
    ensures At(s, Shed(now, heap, n, side), side, k', d') && Needed(s, heap, n, side, k', d')
    decreases HopCount(now.entries) + |now.entries|
  {
    if now.entries == [] || now.Fits(heap, n) {
      return k, d;
    }
    NextRung(s, now, side, k, d);
    var next := Rung(now, side);
    if k < HopCount(s.entries) {
      assert now.entries == StripFirst(s.entries, k);
      k', d' := ShedFrom(s, next, heap, n, side, k + 1, 0);
    } else {
      k', d' := ShedFrom(s, next, heap, n, side, k, d + 1);
    }
  }

  /** Shedding costs exactly this: the hops of the k oldest cycles that carry any, then
      the d oldest (or newest) cycles, and no cycle while any cycle still carries hops.
      It stops as soon as the newcomer fits. */
  lemma ShedMeaning(s: Sink, heap: nat, n: nat, side: Side) returns (k: nat, d: nat)
    requires s.ringLen > 0
    ensures At(s, Shed(s, heap, n, side), side, k, d) && Needed(s, heap, n, side, k, d)
  {
    StripNone(s.entries);
    assert Keep(StripFirst(s.entries, 0), 0, side) == s.entries;
    k, d := ShedFrom(s, s, heap, n, side, 0, 0);
  }

  /** What a new cycle costs: it goes to the end, behind what shedding from the front
      leaves; and the accounted bytes are within budget unless it is alone. */
  lemma OnCycleMeaning(s: Sink, p: Payload) returns (k: nat, d: nat)
    requires s.ringLen > 0
    ensures k <= HopCount(s.entries) && d <= |s.entries| && (d > 0 ==> k == HopCount(s.entries))
    ensures Needed(s, HeapBytes(p), 1, Oldest, k, d)
    ensures var r := AfterOnCycle(s, p);
            && r.entries == StripFirst(s.entries, k)[d..] + [p]
            && r.dropped == s.dropped + d && r.stripped == s.stripped + k
            && (r.Accounted() <= r.budget || r.entries == [p])
  {
    k, d := ShedMeaning(s, HeapBytes(p), 1, Oldest);
    var room := Shed(s, HeapBytes(p), 1, Oldest);
    HeapSumConcat(room.entries, [p]);
    HeapSumOne(p);
    if room.entries == [] {
      assert room.entries + [p] == [p];
    }
  }

  /** What a failed batch costs: it goes back whole to the front, ahead of what shedding
      leaves; cycles are lost from the newest end only, and the accounted bytes are
      within budget unless the batch is alone. */
  lemma RequeueMeaning(s: Sink, batch: seq<Payload>) returns (k: nat, d: nat)
    requires s.ringLen > 0 && batch != []
    ensures k <= HopCount(s.entries) && d <= |s.entries| && (d > 0 ==> k == HopCount(s.entries))
    ensures Needed(s, HeapSum(batch), |batch|, Newest, k, d)
    ensures var r := AfterRequeue(s, batch);
            && r.entries == batch + StripFirst(s.entries, k)[..|s.entries| - d]
            && r.dropped == s.dropped + d && r.stripped == s.stripped + k
            && (r.Accounted() <= r.budget || r.entries == batch)
  {
    k, d := ShedMeaning(s, HeapSum(batch), |batch|, Newest);
    var room := Shed(s, HeapSum(batch), |batch|, Newest);
    HeapSumConcat(batch, room.entries);
    if room.entries == [] {
      assert batch + room.entries == batch;
    }
  }

  /** A cycle is dropped only from a buffer that no longer carries any hops: whatever is
      dropped or kept by the call, apart from what the caller brought, is hopless. */
  lemma DropsLeaveNoHops(s: Sink, heap: nat, n: nat, side: Side, i: nat)
    requires s.ringLen > 0
    requires var r := Shed(s, heap, n, side);
             r.dropped > s.dropped && i < |r.entries|
    ensures !Shed(s, heap, n, side).entries[i].HasHops()
  {
    var k, d := ShedMeaning(s, heap, n, side);
    AllStripped(s.entries);
    var e := StripFirst(s.entries, k);
    assert forall j :: 0 <= j < |e| ==> !e[j].HasHops();
  }

  // ---------------------------------------------------------------- the ring

  /** (head + i) % n for an offset inside the ring. */
  function Wrap(x: nat, n: nat): (r: nat)
    requires x < 2 * n
    ensures r < n
  {
    if x < n then x else x - n
  }

  lemma WrapIsModulo(x: nat, n: nat)
    requires x < 2 * n
    ensures Wrap(x, n) == x % n
  {
    var q, r := x / n, x % n;
    assert x == q * n + r;
    assert q < 2 by {
      if q >= 2 {
        AtLeastTwice(q, n);
      }
    }
    assert q == 0 ==> q * n == 0;
    assert q == 1 ==> q * n == n;
  }

  lemma AtLeastTwice(q: nat, n: nat)
    requires q >= 2
    ensures q * n >= 2 * n
  {
    assert q * n - 2 * n == (q - 2) * n;
  }

  ghost predicate RingHolds(cells: seq<Payload>, head: nat, entries: seq<Payload>) {
    && head < |cells| && |entries| <= |cells|
    && forall i :: 0 <= i < |entries| ==> cells[Wrap(head + i, |cells|)] == entries[i]
  }

  lemma RingSet(cells: seq<Payload>, head: nat, entries: seq<Payload>, i: nat, p: Payload)
    requires RingHolds(cells, head, entries) && i < |entries|
    ensures RingHolds(cells[Wrap(head + i, |cells|) := p], head, entries[i := p])
  {
  }

  lemma RingAppend(cells: seq<Payload>, head: nat, entries: seq<Payload>, p: Payload)
    requires RingHolds(cells, head, entries) && |entries| < |cells|
    ensures RingHolds(cells[Wrap(head + |entries|, |cells|) := p], head, entries + [p])
  {
  }

  lemma RingPrepend(cells: seq<Payload>, head: nat, entries: seq<Payload>, p: Payload)
    requires RingHolds(cells, head, entries) && |entries| < |cells|
    ensures var h := Wrap(head + |cells| - 1, |cells|);
            RingHolds(cells[h := p], h, [p] + entries)
  {
    var h := Wrap(head + |cells| - 1, |cells|);
    forall i | 0 <= i < |entries| + 1 ensures cells[h := p][Wrap(h + i, |cells|)] == ([p] + entries)[i] {
      if i > 0 {
        assert Wrap(h + i, |cells|) == Wrap(head + (i - 1), |cells|);
      }
    }
  }

  lemma RingDropFirst(cells: seq<Payload>, head: nat, entries: seq<Payload>, p: Payload)
    requires RingHolds(cells, head, entries) && entries != []
    ensures RingHolds(cells[head := p], Wrap(head + 1, |cells|), entries[1..])
  {
    var h := Wrap(head + 1, |cells|);
    forall i | 0 <= i < |entries| - 1 ensures cells[head := p][Wrap(h + i, |cells|)] == entries[1..][i] {
      assert Wrap(h + i, |cells|) == Wrap(head + (i + 1), |cells|);
    }
  }

  lemma RingDropLast(cells: seq<Payload>, head: nat, entries: seq<Payload>, p: Payload)
    requires RingHolds(cells, head, entries) && entries != []
    ensures RingHolds(cells[Wrap(head + (|entries| - 1), |cells|) := p], head, entries[..|entries| - 1])
  {
  }

  ghost predicate NoHopsBelow(entries: seq<Payload>, i: nat) {
    forall j :: 0 <= j < i && j < |entries| ==> !entries[j].HasHops()
  }

  /** The ring holds the entries, the accounting matches them, and nothing below the strip
      cursor carries hops. */
  ghost predicate Good(cells: seq<Payload>, head: nat, size: nat, heap: int, stripIdx: nat, entries: seq<Payload>) {
    && RingHolds(cells, head, entries)
    && size == |entries| && heap == HeapSum(entries)
    && NoHopsBelow(entries, stripIdx)
  }

  /** The entry the cursor stops at is the oldest that carries hops. */
  lemma GoodStrip(cells: seq<Payload>, head: nat, size: nat, heap: int, i: nat, entries: seq<Payload>)
    requires Good(cells, head, size, heap, i, entries) && i < size
    ensures var slot := Wrap(head + i, |cells|);
            var e := cells[slot];
            && e == entries[i]
            && (e.HasHops() ==> i == FirstWithHops(entries))
            && (e.HasHops() ==> Good(cells[slot := e.Stripped()], head, size, heap - HopBytes(e.hops), i + 1, entries[i := e.Stripped()]))
            && (!e.HasHops() ==> Good(cells, head, size, heap, i + 1, entries))
  {
    RingSet(cells, head, entries, i, entries[i].Stripped());
    HeapSumSet(entries, i, entries[i].Stripped());
  }

  lemma GoodDropFirst(cells: seq<Payload>, head: nat, size: nat, heap: int, i: nat, entries: seq<Payload>)
    requires Good(cells, head, size, heap, i, entries) && size > 0
    ensures cells[head] == entries[0]
    ensures Good(cells[head := NOTHING], Wrap(head + 1, |cells|), size - 1, heap - HeapBytes(cells[head]),
                 if i > 0 then i - 1 else 0, entries[1..])
  {
    assert cells[Wrap(head + 0, |cells|)] == entries[0];
    RingDropFirst(cells, head, entries, NOTHING);
  }

  lemma GoodDropLast(cells: seq<Payload>, head: nat, size: nat, heap: int, i: nat, entries: seq<Payload>)
    requires Good(cells, head, size, heap, i, entries) && size > 0
    ensures var slot := Wrap(head + (size - 1), |cells|);
            Good(cells[slot := NOTHING], head, size - 1, heap - HeapBytes(cells[slot]), i, entries[..size - 1])
  {
    RingDropLast(cells, head, entries, NOTHING);
    HeapSumDropLast(entries);
  }

  lemma GoodAppend(cells: seq<Payload>, head: nat, size: nat, heap: int, i: nat, entries: seq<Payload>, p: Payload)
    requires Good(cells, head, size, heap, i, entries) && i <= size < |cells|
    ensures Good(cells[Wrap(head + size, |cells|) := p], head, size + 1, heap + HeapBytes(p), i, entries + [p])
  {
    RingAppend(cells, head, entries, p);
    HeapSumConcat(entries, [p]);
    HeapSumOne(p);
  }

  lemma PrefixGrows(batch: seq<Payload>, i: nat, rest: seq<Payload>)
    requires i < |batch|
    ensures [batch[i]] + (batch[i + 1..] + rest) == batch[i..] + rest
  {
  }

  class PushSink {
    var buf: array<Payload>
    var head: nat
    var size: nat
    var budget: int
    var heap: int
    var stripIdx: nat
    var dropped: nat
    var stripped: nat
    var hopMarkers: bool
    ghost var entries: seq<Payload>

    ghost predicate Holds()
      reads this, buf
    {
      Good(buf[..], head, size, heap, stripIdx, entries)
    }

    /** Between calls the strip cursor is also inside the ring. */
    ghost predicate Valid()
      reads this, buf
    {
      Holds() && stripIdx <= size
    }

    ghost function View(): Sink
      reads this, buf
    {
      Sink(entries, buf.Length, budget, dropped, stripped)
    }

    constructor (budget: int)
      ensures Valid() && fresh(buf)
      ensures View() == Sink([], INITIAL_RING_ENTRIES, if budget <= 0 then DEFAULT_BUFFER_BYTES else budget, 0, 0)
    {
      this.budget := if budget <= 0 then DEFAULT_BUFFER_BYTES else budget;
      buf := new Payload[INITIAL_RING_ENTRIES](_ => NOTHING);
      head, size, heap, stripIdx, dropped, stripped := 0, 0, 0, 0, 0, 0;
      hopMarkers, entries := false, [];
    }

    method SetHopMarkers(ok: bool)
      requires Valid()
      modifies this`hopMarkers
      ensures Valid() && View() == old(View()) && hopMarkers == ok
    {
      hopMarkers := ok;
    }

    method EntriesNeeded(n: nat) returns (have: nat)
      requires buf.Length > 0
      ensures have == EntriesFor(buf.Length, size, n)
    {
      have := buf.Length;
      while size + n > have
        invariant have > 0 && EntriesFor(have, size, n) == EntriesFor(buf.Length, size, n)
        decreases size + n - have
      {
        have := have * 2;
      }
    }

    method Fits(more: nat, n: nat) returns (ok: bool)
      requires Holds()
      ensures ok == View().Fits(more, n)
    {
      var ring := EntriesNeeded(n);
      ok := ring * PAYLOAD_STRUCT_BYTES + heap + more <= budget;
    }

    /** Walks the cursor past every hopless entry. */
    method SkipHopless()
      requires Holds()
      modifies this`stripIdx
      ensures Holds() && (old(stripIdx) <= size ==> stripIdx <= size)
      ensures stripIdx < size ==> FirstWithHops(entries) == stripIdx
      ensures stripIdx >= size ==> FirstWithHops(entries) == size
    {
      while stripIdx < size
        invariant Holds() && (old(stripIdx) <= size ==> stripIdx <= size)
        decreases size - stripIdx
      {
        GoodStrip(buf[..], head, size, heap, stripIdx, entries);
        if buf[Wrap(head + stripIdx, buf.Length)].HasHops() {
          return;
        }
        stripIdx := stripIdx + 1;
      }
    }

    method StripAtCursor()
      requires Holds() && stripIdx < size && FirstWithHops(entries) == stripIdx
      modifies this`heap, this`stripIdx, this`stripped, this`entries, buf
      ensures Holds() && stripIdx <= size && View() == old(View()).StripAt(FirstWithHops(old(entries)))
    {
      GoodStrip(buf[..], head, size, heap, stripIdx, entries);
      var slot := Wrap(head + stripIdx, buf.Length);
      var e := buf[slot];
      heap := heap - HopBytes(e.hops);
      buf[slot] := e.Stripped();
      assert buf[..] == old(buf[..])[slot := e.Stripped()];
      entries := entries[stripIdx := e.Stripped()];
      stripIdx := stripIdx + 1;
      stripped := stripped + 1;
    }

    /** Strips the oldest entry that still carries hops. */
    method StripOldestHops() returns (shed: bool)
      requires Holds()
      modifies this`heap, this`stripIdx, this`stripped, this`entries, buf
      ensures Holds() && (old(stripIdx) <= size ==> stripIdx <= size)
      ensures shed <==> FirstWithHops(old(entries)) < size
      ensures View() == if shed then old(View()).StripAt(FirstWithHops(old(entries))) else old(View())
    {
      SkipHopless();
      shed := stripIdx < size;
      if shed {
        StripAtCursor();
      }
    }

    method DropOldest()
      requires Holds() && size > 0
      modifies this`heap, this`stripIdx, this`dropped, this`head, this`size, this`entries, buf
      ensures Holds() && View() == old(View()).DropOne(Oldest)
      ensures stripIdx == (if old(stripIdx) > 0 then old(stripIdx) - 1 else 0)
    {
      GoodDropFirst(buf[..], head, size, heap, stripIdx, entries);
      heap := heap - HeapBytes(buf[head]);
      buf[head] := NOTHING;
      assert buf[..] == old(buf[..])[head := NOTHING];
      head := Wrap(head + 1, buf.Length);
      size := size - 1;
      if stripIdx > 0 {
        stripIdx := stripIdx - 1;
      }
      dropped := dropped + 1;
      entries := entries[1..];
    }

    /** Leaves the cursor where it is, which may be past the new end. */
    method DropNewest()
      requires Holds() && size > 0
      modifies this`heap, this`dropped, this`size, this`entries, buf
      ensures Holds() && View() == old(View()).DropOne(Newest)
    {
      GoodDropLast(buf[..], head, size, heap, stripIdx, entries);
      var slot := Wrap(head + (size - 1), buf.Length);
      heap := heap - HeapBytes(buf[slot]);
      buf[slot] := NOTHING;
      assert buf[..] == old(buf[..])[slot := NOTHING];
      size := size - 1;
      dropped := dropped + 1;
      entries := entries[..size];
    }

    /** The cursor never costs a measurement: the outcome is the specification's, which
        has no cursor. */
    method MakeRoom(more: nat, n: nat, side: Side)
      requires Holds() && (side == Oldest ==> stripIdx <= size)
      modifies this`heap, this`stripIdx, this`stripped, this`dropped, this`head, this`size, this`entries, buf
      ensures Holds() && (side == Oldest ==> stripIdx <= size)
      ensures View() == Shed(old(View()), more, n, side)
    {
      var ok := Fits(more, n);
      while size > 0 && !ok
        invariant Holds() && (side == Oldest ==> stripIdx <= size)
        invariant Shed(View(), more, n, side) == Shed(old(View()), more, n, side)
        invariant ok == View().Fits(more, n)
        decreases HopCount(entries) + |entries|
      {
        ghost var before := View();
        var shed := StripOldestHops();
        if !shed {
          if side == Oldest {
            DropOldest();
          } else {
            DropNewest();
          }
        }
        assert View() == Rung(before, side);
        ok := Fits(more, n);
      }
    }

    /** Re-linearises the ring; logical offsets, and so the cursor, survive. */
    method Resize(n: nat)
      requires Holds() && size <= n && n > 0
      modifies this`buf, this`head
      ensures Holds() && fresh(buf) && buf.Length == n
    {
      var next := new Payload[n](_ => NOTHING);
      var i := 0;
      while i < size
        invariant 0 <= i <= size && next.Length == n && fresh(next)
        invariant buf == old(buf) && Holds()
        invariant forall j :: 0 <= j < i ==> next[j] == entries[j]
      {
        assert buf[..][Wrap(head + i, buf.Length)] == entries[i];
        next[i] := buf[Wrap(head + i, buf.Length)];
        i := i + 1;
      }
      buf := next;
      head := 0;
    }

    method GrowFor(n: nat)
      requires Holds()
      modifies this`buf, this`head
      ensures Holds() && (buf == old(buf) || fresh(buf))
      ensures buf.Length == EntriesFor(old(buf.Length), size, n)
    {
      var have := EntriesNeeded(n);
      if have != buf.Length {
        Resize(have);
      }
    }

    method ShrinkIfIdle()
      requires Holds()
      modifies this`buf, this`head
      ensures Holds() && (buf == old(buf) || fresh(buf))
      ensures buf.Length == ShrunkTo(old(buf.Length), size)
    {
      if buf.Length <= INITIAL_RING_ENTRIES || size * 4 >= buf.Length {
        return;
      }
      var have := INITIAL_RING_ENTRIES;
      while have < size * 2
        invariant have > 0 && Doubled(have, size * 2) == Doubled(INITIAL_RING_ENTRIES, size * 2)
        decreases size * 2 - have
      {
        have := have * 2;
      }
      if have < buf.Length {
        Resize(have);
      }
    }

    method Append(p: Payload)
      requires Holds() && stripIdx <= size < buf.Length
      modifies this`size, this`heap, this`entries, buf
      ensures Valid() && entries == old(entries) + [p]
    {
      GoodAppend(buf[..], head, size, heap, stripIdx, entries, p);
      var slot := Wrap(head + size, buf.Length);
      buf[slot] := p;
      assert buf[..] == old(buf[..])[slot := p];
      size := size + 1;
      heap := heap + HeapBytes(p);
      entries := entries + [p];
    }

    /** Makes room for a payload and appends it. */
    method Admit(payload: Payload)
      requires Valid()
      modifies this, buf
      ensures Valid() && (buf == old(buf) || fresh(buf)) && hopMarkers == old(hopMarkers)
      ensures View() == AfterOnCycle(old(View()), payload)
    {
      MakeRoom(HeapBytes(payload), 1, Oldest);
      ghost var room := View();
      GrowFor(1);
      Append(payload);
      assert View() == room.(entries := room.entries + [payload], ringLen := EntriesFor(room.ringLen, |room.entries|, 1));
    }

    method OnCycle(c: Payload)
      requires Valid()
      modifies this, buf
      ensures Valid() && (buf == old(buf) || fresh(buf)) && hopMarkers == old(hopMarkers)
      ensures View() == AfterOnCycle(old(View()), if c.group == "_cluster" && !hopMarkers then c.(hops := Slice([], 0)) else c)
    {
      var payload := c.Withheld(hopMarkers);
      Admit(payload);
    }

    method TakeFirst() returns (p: Payload)
      requires Holds() && size > 0
      modifies this`heap, this`stripIdx, this`head, this`size, this`entries, buf
      ensures Holds() && p == old(entries)[0] && entries == old(entries)[1..]
      ensures stripIdx == (if old(stripIdx) > 0 then old(stripIdx) - 1 else 0)
    {
      GoodDropFirst(buf[..], head, size, heap, stripIdx, entries);
      p := buf[head];
      heap := heap - HeapBytes(p);
      buf[head] := NOTHING;
      assert buf[..] == old(buf[..])[head := NOTHING];
      head := Wrap(head + 1, buf.Length);
      size := size - 1;
      stripIdx := if stripIdx > 0 then stripIdx - 1 else 0;
      entries := entries[1..];
    }

    /** Takes the first n entries, withholding the hops a master could not redact. */
    method TakeMany(n: nat) returns (out: seq<Payload>)
      requires Valid() && n <= size
      modifies this`heap, this`stripIdx, this`head, this`size, this`entries, buf
      ensures Valid() && |out| == n && entries == old(entries)[n..]
      ensures forall i :: 0 <= i < n ==> out[i] == old(entries)[i].Withheld(hopMarkers)
    {
      out := [];
      while |out| < n
        invariant |out| <= n <= |old(entries)| && Valid()
        invariant entries == old(entries)[|out|..]
        invariant forall i :: 0 <= i < |out| ==> out[i] == old(entries)[i].Withheld(hopMarkers)
      {
        var e := TakeFirst();
        out := out + [e.Withheld(hopMarkers)];
      }
    }

    method Drain(limit: int) returns (out: seq<Payload>)
      requires Valid()
      modifies this, buf
      ensures Valid() && (buf == old(buf) || fresh(buf)) && hopMarkers == old(hopMarkers)
      ensures var was, n := old(entries), if 0 < limit < |old(entries)| then limit else |old(entries)|;
              && |out| == n && entries == was[n..] && dropped == old(dropped) && stripped == old(stripped)
              && forall i :: 0 <= i < n ==>
                   out[i] == if was[i].group == "_cluster" && !hopMarkers then was[i].(hops := Slice([], 0)) else was[i]
      ensures old(entries) != [] ==> buf.Length <= 64 || buf.Length <= 4 * |entries|
      ensures View() == AfterDrain(old(View()), limit)
    {
      if size == 0 {
        return [];
      }
      out := TakeMany(if 0 < limit < size then limit else size);
      ShrinkIfIdle();
    }

    method PushFront(p: Payload)
      requires RingHolds(buf[..], head, entries) && size == |entries| < buf.Length
      modifies this`head, this`size, this`entries, buf
      ensures RingHolds(buf[..], head, entries) && size == |entries| && entries == [p] + old(entries)
    {
      RingPrepend(buf[..], head, entries, p);
      var slot := Wrap(head + buf.Length - 1, buf.Length);
      buf[slot] := p;
      assert buf[..] == old(buf[..])[slot := p];
      head := slot;
      size := size + 1;
      entries := [p] + entries;
    }

    method PrependAll(payloads: seq<Payload>)
      requires RingHolds(buf[..], head, entries) && size == |entries| && |payloads| + size <= buf.Length
      modifies this`head, this`size, this`entries, buf
      ensures RingHolds(buf[..], head, entries) && size == |entries| && entries == payloads + old(entries)
    {
      var i := |payloads|;
      assert payloads[i..] + entries == entries;
      while i > 0
        invariant 0 <= i <= |payloads|
        invariant RingHolds(buf[..], head, entries) && size == |entries| && i + size <= buf.Length
        invariant entries == payloads[i..] + old(entries)
      {
        i := i - 1;
        PrefixGrows(payloads, i, old(entries));
        PushFront(payloads[i]);
      }
    }

    /** Puts payloads back in front, and the strip cursor with them. */
    method Reinstate(payloads: seq<Payload>, more: nat)
      requires Holds() && |payloads| + size <= buf.Length && more == HeapSum(payloads)
      modifies this`head, this`size, this`heap, this`stripIdx, this`entries, buf
      ensures Valid() && entries == payloads + old(entries)
    {
      HeapSumConcat(payloads, entries);
      PrependAll(payloads);
      heap := heap + more;
      stripIdx := 0;
    }

    method Requeue(payloads: seq<Payload>)
      requires Valid()
      modifies this, buf
      ensures Valid() && (buf == old(buf) || fresh(buf)) && hopMarkers == old(hopMarkers)
      ensures View() == AfterRequeue(old(View()), payloads)
    {
      if |payloads| == 0 {
        return;
      }
      var more := HeapSum(payloads);
      MakeRoom(more, |payloads|, Newest);
      GrowFor(|payloads|);
      Reinstate(payloads, more);
    }
  }
}
