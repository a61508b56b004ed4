/** The master's redelivery guard: one window of recent cycle identities per source.

    `History` is the specification. It keeps every identity ever inserted and the
    positions whose delivery was released, and has neither a ring nor a map.
    `SourceWindow` is the program's ring plus map, which must behave like the
    history although `Forget` leaves superseded slots behind. */
module Dedup {
  import opened Wrappers

  // dedupWindowPerSource, which is cluster.MaxCyclesPerBatch.
  const WINDOW: nat := 1024
  // dedupMaxSources, which is maxRegisteredSlaves.
  const MAX_SOURCES: nat := 512

  datatype CycleID = CycleID(target: string, nano: int)

  // ---------------------------------------------------------------- specification

  datatype History = History(ids: seq<CycleID>, released: set<nat>) {
    /** Position p was inserted, is among the last WINDOW insertions and was not released. */
    predicate Live(p: nat) {
      p < |ids| && |ids| <= p + WINDOW && p !in released
    }

    ghost predicate Remembers(id: CycleID) {
      exists p: nat :: Live(p) && ids[p] == id
    }

    function Insert(id: CycleID): History {
      History(ids + [id], released)
    }

    function Release(id: CycleID): History {
      History(ids, released + set p: nat | p < |ids| && ids[p] == id)
    }

    /** No identity is live twice, and only inserted positions are released. */
    ghost predicate Sound() {
      && (forall p: nat, q: nat :: Live(p) && Live(q) && ids[p] == ids[q] ==> p == q)
      && (forall p :: p in released ==> p < |ids|)
    }
  }

  const EMPTY := History([], {})

  datatype Op = Admit(id: CycleID) | Forget(id: CycleID)

  ghost function Apply(h: History, op: Op): History {
    match op
    case Admit(id) => if h.Remembers(id) then h else h.Insert(id)
    case Forget(id) => h.Release(id)
  }

  /** The history after a whole run of calls. */
  ghost function Run(ops: seq<Op>): History {
    if ops == [] then EMPTY else Apply(Run(ops[..|ops| - 1]), ops[|ops| - 1])
  }

  /** Call i of the run took a window slot. */
  ghost predicate Inserts(ops: seq<Op>, i: nat) {
    i < |ops| && ops[i].Admit? && !Run(ops[..i]).Remembers(ops[i].id)
  }

  lemma {:induction false} RunPrefix(ops: seq<Op>, i: nat)
    requires i < |ops|
    ensures Run(ops[..i + 1]) == Apply(Run(ops[..i]), ops[i])
  {
    assert ops[..i + 1][..i] == ops[..i];
  }

  lemma {:induction false} RunIsSound(ops: seq<Op>)
    ensures Run(ops).Sound()
  {
    if ops != [] {
      RunIsSound(ops[..|ops| - 1]);
    }
  }

  /** Histories only grow, and a released position stays released. */
  lemma {:induction false} RunExtends(ops: seq<Op>, i: nat, j: nat)
    requires i <= j <= |ops|
    ensures Run(ops[..i]).ids <= Run(ops[..j]).ids
    ensures Run(ops[..i]).released <= Run(ops[..j]).released
    decreases j - i
  {
    if i < j {
      RunExtends(ops, i, j - 1);
      RunPrefix(ops, j - 1);
    }
  }

  /** Without a Forget of its identity in between, a position that was not released at
      i is not released at j either. */
  lemma {:induction false} StaysUnreleased(ops: seq<Op>, i: nat, j: nat, p: nat)
    requires i <= j <= |ops|
    requires p < |Run(ops[..i]).ids| && p !in Run(ops[..i]).released
    requires forall k :: i <= k < j ==> ops[k] != Forget(Run(ops[..i]).ids[p])
    ensures p !in Run(ops[..j]).released
    decreases j - i
  {
    if i < j {
      StaysUnreleased(ops, i, j - 1, p);
      RunPrefix(ops, j - 1);
      RunExtends(ops, i, j - 1);
    }
  }

  /** A Forget of the identity at p releases p. */
  lemma ForgetReleases(ops: seq<Op>, k: nat, j: nat, p: nat)
    requires k < j <= |ops| && p < |Run(ops[..k]).ids|
    requires ops[k] == Forget(Run(ops[..k]).ids[p])
    ensures p in Run(ops[..j]).released
  {
    RunPrefix(ops, k);
    RunExtends(ops, k + 1, j);
  }

  /** Every position of the history was put there by one call of the run. */
  lemma {:induction false} PositionHasCall(ops: seq<Op>, p: nat) returns (i: nat)
    requires p < |Run(ops).ids|
    ensures Inserts(ops, i) && |Run(ops[..i]).ids| == p
    ensures ops[i].id == Run(ops).ids[p]
  {
    var n := |ops| - 1;
    if p < |Run(ops[..n]).ids| {
      i := PositionHasCall(ops[..n], p);
      assert ops[..n][..i] == ops[..i];
    } else {
      i := n;
    }
  }

  /** The insertion that still protects an identity: call i took the slot, at most
      WINDOW insertions (its own included) have happened since, and no Forget of the
      identity came after it. */
  ghost predicate Protects(ops: seq<Op>, i: nat, j: nat) {
    && i < j <= |ops| && Inserts(ops, i)
    && |Run(ops[..j]).ids| - |Run(ops[..i]).ids| <= WINDOW
    && forall k :: i < k < j ==> ops[k] != Forget(ops[i].id)
  }

  lemma ProtectedIsRemembered(ops: seq<Op>, i: nat, j: nat)
    requires Protects(ops, i, j)
    ensures Run(ops[..j]).Remembers(ops[i].id)
  {
    var p := |Run(ops[..i]).ids|;
    RunPrefix(ops, i);
    RunIsSound(ops[..i]);
    RunExtends(ops, i + 1, j);
    StaysUnreleased(ops, i + 1, j, p);
    assert Run(ops[..j]).Live(p);
  }

  lemma RememberedIsProtected(ops: seq<Op>, id: CycleID, j: nat) returns (i: nat)
    requires j <= |ops| && Run(ops[..j]).Remembers(id)
    ensures Protects(ops, i, j) && ops[i].id == id
  {
    var h := Run(ops[..j]);
    var p: nat :| h.Live(p) && h.ids[p] == id;
    i := PositionHasCall(ops[..j], p);
    assert ops[..j][..i] == ops[..i];
    RunPrefix(ops, i);
    forall k | i < k < j ensures ops[k] != Forget(id) {
      if ops[k] == Forget(id) {
        RunExtends(ops, i + 1, k);
        RunExtends(ops, k, j);
        ForgetReleases(ops, k, j, p);
      }
    }
  }

  /** A call is refused exactly when the identity's insertion is among the last WINDOW
      insertions and has not been forgotten since. */
  lemma RefusedIffProtected(ops: seq<Op>, j: nat)
    requires j < |ops| && ops[j].Admit?
    ensures !Inserts(ops, j) <==> exists i: nat :: Protects(ops, i, j) && ops[i].id == ops[j].id
  {
    if !Inserts(ops, j) {
      var i := RememberedIsProtected(ops, ops[j].id, j);
    }
    forall i: nat | Protects(ops, i, j) && ops[i].id == ops[j].id ensures !Inserts(ops, j) {
      ProtectedIsRemembered(ops, i, j);
    }
  }

  // ---------------------------------------------------------------- one source's window

  /** Slot p % WINDOW holds position p until p + WINDOW overwrites it. */
  ghost predicate RingHolds(ring: seq<CycleID>, ids: seq<CycleID>) {
    && |ring| == (if |ids| < WINDOW then |ids| else WINDOW)
    && forall p: nat :: p < |ids| <= p + WINDOW ==> ring[p % WINDOW] == ids[p]
  }

  /** The map holds the live positions and nothing else. */
  ghost predicate SeenMatches(seen: map<CycleID, nat>, h: History) {
    && (forall id :: id in seen ==> h.Live(seen[id]) && h.ids[seen[id]] == id)
    && (forall p: nat :: h.Live(p) ==> h.ids[p] in seen && seen[h.ids[p]] == p)
  }

  /** The program's two structures, and what one call makes of them. */
  datatype Slots = Slots(seen: map<CycleID, nat>, ring: seq<CycleID>, inserted: nat)

  function NextRing(ring: seq<CycleID>, n: nat, id: CycleID): seq<CycleID> {
    if |ring| < WINDOW then ring + [id] else ring[n % |ring| := id]
  }

  function NextSeen(seen: map<CycleID, nat>, ring: seq<CycleID>, n: nat, id: CycleID): map<CycleID, nat> {
    var slid :=
      if |ring| >= WINDOW && ring[n % |ring|] in seen && seen[ring[n % |ring|]] == n - WINDOW
      then seen - {ring[n % |ring|]} else seen;
    slid[id := n]
  }

  function SlotStep(s: Slots, op: Op): Slots {
    match op
    case Admit(id) =>
      if id in s.seen then s
      else Slots(NextSeen(s.seen, s.ring, s.inserted, id), NextRing(s.ring, s.inserted, id), s.inserted + 1)
    case Forget(id) => s.(seen := s.seen - {id})
  }

  ghost function Replay(ops: seq<Op>): Slots {
    if ops == [] then Slots(map[], [], 0) else SlotStep(Replay(ops[..|ops| - 1]), ops[|ops| - 1])
  }

  lemma ReplayNext(ops: seq<Op>, op: Op)
    ensures Replay(ops + [op]) == SlotStep(Replay(ops), op)
  {
    assert (ops + [op])[..|ops|] == ops;
  }

  lemma RingStep(ring: seq<CycleID>, ids: seq<CycleID>, id: CycleID)
    requires RingHolds(ring, ids)
    ensures RingHolds(NextRing(ring, |ids|, id), ids + [id])
  {
    var next := NextRing(ring, |ids|, id);
    forall p: nat | p < |ids| + 1 <= p + WINDOW ensures next[p % WINDOW] == (ids + [id])[p] {
      if p < |ids| {
        assert ring[p % WINDOW] == ids[p];
        assert p % WINDOW != |ids| % WINDOW || |ids| < WINDOW;
      }
    }
  }

  /** Sliding the window past a position drops that position from the map and no other,
      even when the slot's identity has since been taken again at a newer position. */
  lemma SeenStep(seen: map<CycleID, nat>, ring: seq<CycleID>, h: History, id: CycleID)
    requires RingHolds(ring, h.ids) && SeenMatches(seen, h) && id !in seen
    requires forall p :: p in h.released ==> p < |h.ids|
    ensures SeenMatches(NextSeen(seen, ring, |h.ids|, id), h.Insert(id))
  {
    var h', n := h.Insert(id), |h.ids|;
    var next := NextSeen(seen, ring, n, id);
    if n >= WINDOW {
      assert (n - WINDOW) % WINDOW == n % WINDOW && |ring| == WINDOW;
      assert ring[n % WINDOW] == h.ids[n - WINDOW];
    }
    forall x | x in next ensures h'.Live(next[x]) && h'.ids[next[x]] == x {
      if x != id {
        assert h.Live(seen[x]) && h.ids[seen[x]] == x;
      }
    }
    forall p: nat | h'.Live(p) ensures h'.ids[p] in next && next[h'.ids[p]] == p {
      if p != n {
        assert h.Live(p);
      }
    }
  }

  lemma SeenForget(seen: map<CycleID, nat>, h: History, id: CycleID)
    requires SeenMatches(seen, h)
    ensures SeenMatches(seen - {id}, h.Release(id))
  {
    forall p: nat | h.Release(id).Live(p) ensures h.ids[p] in seen - {id} && seen[h.ids[p]] == p {
      assert h.Live(p);
    }
  }

  /** Ring and map refine the history over every run of calls, although a Forget leaves
      its ring slot behind. */
  lemma {:induction false} ReplayRefines(ops: seq<Op>)
    ensures RingHolds(Replay(ops).ring, Run(ops).ids)
    ensures SeenMatches(Replay(ops).seen, Run(ops))
    ensures Replay(ops).inserted == |Run(ops).ids|
    decreases |ops|, 0
  {
    if ops != [] {
      var before, op := ops[..|ops| - 1], ops[|ops| - 1];
      ReplayRefines(before);
      RunIsSound(before);
      SeenAnswers(before, op.id);
      match op
      case Admit(id) =>
        if id !in Replay(before).seen {
          RingStep(Replay(before).ring, Run(before).ids, id);
          SeenStep(Replay(before).seen, Replay(before).ring, Run(before), id);
        }
      case Forget(id) =>
        SeenForget(Replay(before).seen, Run(before), id);
    }
  }

  /** The map answers for the whole insertion log. */
  lemma {:induction false} SeenAnswers(ops: seq<Op>, id: CycleID)
    ensures id in Replay(ops).seen <==> Run(ops).Remembers(id)
    decreases |ops|, 1
  {
    ReplayRefines(ops);
    var seen := Replay(ops).seen;
    if id in seen {
      assert Run(ops).Live(seen[id]);
    }
  }

  lemma RingIsFull(ops: seq<Op>)
    ensures |Replay(ops).ring| == (if Replay(ops).inserted < WINDOW then Replay(ops).inserted else WINDOW)
  {
    ReplayRefines(ops);
  }

  /** However the ring and the map drift apart, the map never outgrows the window. */
  lemma SeenIsBounded(ops: seq<Op>)
    ensures |Replay(ops).seen| <= WINDOW
  {
    ReplayRefines(ops);
    var seen, h := Replay(ops).seen, Run(ops);
    var lo := if |h.ids| < WINDOW then 0 else |h.ids| - WINDOW;
    forall id | id in seen ensures lo <= seen[id] < |h.ids| {
      assert h.Live(seen[id]);
    }
    forall a, b | a in seen && b in seen && seen[a] == seen[b] ensures a == b {
      assert h.ids[seen[a]] == a && h.ids[seen[b]] == b;
    }
    InjectionIsBounded(seen, lo, |h.ids|);
  }

  class SourceWindow {
    var seen: map<CycleID, nat>
    var names: map<string, string>
    var ring: seq<CycleID>
    var inserted: nat
    var used: nat
    // every call the window has answered
    ghost var calls: seq<Op>

    ghost predicate Valid()
      reads this
    {
      && Slots(seen, ring, inserted) == Replay(calls)
      && (forall t :: t in names ==> names[t] == t)
      && |names| <= WINDOW + 1
    }

    constructor ()
      ensures Valid() && calls == [] && used == 0
    {
      seen, names, ring, inserted, used, calls := map[], map[], [], 0, 0, [];
    }

    /** Interning never changes which identity a call names. */
    method Intern(target: string) returns (canonical: string)
      requires Valid()
      modifies this`names
      ensures Valid() && canonical == target
    {
      if |names| > WINDOW {
        names := map[];
      }
      if target in names {
        canonical := names[target];
      } else {
        canonical := target;
        names := names[target := target];
      }
    }

    method Admit(target: string, nano: int) returns (admitted: bool)
      requires Valid()
      modifies this
      ensures Valid() && used == old(used)
      ensures calls == old(calls) + [Op.Admit(CycleID(target, nano))]
      ensures admitted <==> !Run(old(calls)).Remembers(CycleID(target, nano))
    {
      var canonical := Intern(target);
      var id := CycleID(canonical, nano);
      SeenAnswers(calls, id);
      RingIsFull(calls);
      ReplayNext(calls, Op.Admit(id));
      calls := calls + [Op.Admit(id)];
      if id in seen {
        return false;
      }
      var pos := inserted;
      if |ring| < WINDOW {
        ring := ring + [id];
      } else {
        assert |ring| == WINDOW;
        var idx := pos % WINDOW;
        var evicted := ring[idx];
        if evicted in seen && seen[evicted] == pos - WINDOW {
          seen := seen - {evicted};
        }
        ring := ring[idx := id];
      }
      seen := seen[id := pos];
      inserted := pos + 1;
      return true;
    }

    method Forget(target: string, nano: int)
      requires Valid()
      modifies this
      ensures Valid() && used == old(used)
      ensures calls == old(calls) + [Op.Forget(CycleID(target, nano))]
    {
      ReplayNext(calls, Op.Forget(CycleID(target, nano)));
      seen := seen - {CycleID(target, nano)};
      calls := calls + [Op.Forget(CycleID(target, nano))];
    }
  }

  // ---------------------------------------------------------------- all sources

  /** One source's window held by value, beside the clock reading of its last use. */
  datatype Window = Window(used: nat, slots: Slots)

  predicate Dead(registered: Option<set<string>>, source: string) {
    registered.Some? && source !in registered.value
  }

  /** The window a newcomer displaces: a source the registry no longer holds before one
      it does, and the least recently used among those. */
  ghost predicate IsVictimAmong(ws: map<string, Window>, among: set<string>, registered: Option<set<string>>, v: string)
    requires among <= ws.Keys
  {
    && v in among
    && (Dead(registered, v) || forall s :: s in among ==> !Dead(registered, s))
    && forall s :: s in among && Dead(registered, s) == Dead(registered, v) ==> ws[v].used <= ws[s].used
  }

  ghost predicate IsVictim(ws: map<string, Window>, registered: Option<set<string>>, v: string) {
    IsVictimAmong(ws, ws.Keys, registered, v)
  }

  ghost predicate DistinctUses(ws: map<string, Window>) {
    forall s, t :: s in ws && t in ws && ws[s].used == ws[t].used ==> s == t
  }

  /** The victim does not depend on the order the map is walked in. */
  lemma VictimIsUnique(ws: map<string, Window>, registered: Option<set<string>>, v: string, w: string)
    requires DistinctUses(ws) && IsVictim(ws, registered, v) && IsVictim(ws, registered, w)
    ensures v == w
  {
    assert Dead(registered, v) == Dead(registered, w);
    assert ws[v].used == ws[w].used;
  }

  /** A registered source is displaced only when every window's is; and of those that may go
      it is the one unused for longest. */
  lemma VictimIff(ws: map<string, Window>, registered: Option<set<string>>, v: string)
    ensures IsVictim(ws, registered, v) <==>
            && v in ws
            && (registered == None ==> forall s :: s in ws ==> ws[v].used <= ws[s].used)
            && (registered.Some? && v !in registered.value ==>
                  forall s :: s in ws && s !in registered.value ==> ws[v].used <= ws[s].used)
            && (registered.Some? && v in registered.value ==>
                  forall s :: s in ws ==> s in registered.value && ws[v].used <= ws[s].used)
  {
  }

  /** Every window mirrors the calls it answered; no two were last used at one reading. */
  ghost predicate Mirrors(ws: map<string, Window>, calls: map<string, seq<Op>>) {
    && calls.Keys == ws.Keys
    && forall s :: s in ws ==> ws[s].slots == Replay(calls[s])
  }

  ghost predicate UsedBy(ws: map<string, Window>, clock: nat) {
    forall s :: s in ws ==> ws[s].used <= clock
  }

  function Answer(w: Window, clock: nat, op: Op): Window {
    Window(clock, SlotStep(w.slots, op))
  }

  lemma AnswerMirrors(ws: map<string, Window>, calls: map<string, seq<Op>>, s: string, clock: nat, op: Op)
    requires Mirrors(ws, calls) && s in ws
    ensures Mirrors(ws[s := Answer(ws[s], clock, op)], calls[s := calls[s] + [op]])
  {
    ReplayNext(calls[s], op);
  }

  lemma AnswerKeepsUses(ws: map<string, Window>, s: string, clock: nat, op: Op)
    requires s in ws && DistinctUses(ws) && UsedBy(ws, clock)
    ensures var next := ws[s := Answer(ws[s], ws[s].used, op)];
            DistinctUses(next) && UsedBy(next, clock) && next.Keys == ws.Keys && |next| == |ws|
  {
    var next := ws[s := Answer(ws[s], ws[s].used, op)];
    assert next.Keys == ws.Keys;
  }

  lemma NewestIsDistinct(ws: map<string, Window>, s: string, w: Window, clock: nat)
    requires DistinctUses(ws) && UsedBy(ws, clock) && w.used == clock + 1
    ensures DistinctUses(ws[s := w]) && UsedBy(ws[s := w], clock + 1)
  {
  }

  class CycleDedup {
    var clock: nat
    var bySource: map<string, Window>
    // the calls each live window has answered since it was opened
    ghost var calls: map<string, seq<Op>>

    ghost predicate Valid()
      reads this
    {
      && Mirrors(bySource, calls)
      && UsedBy(bySource, clock)
      && DistinctUses(bySource)
      && |bySource| <= MAX_SOURCES
    }

    constructor ()
      ensures Valid() && bySource == map[]
    {
      clock, bySource, calls := 0, map[], map[];
    }

    /** The window evictLRU drops, whatever order the map hands the names out in. */
    method Victim(registered: Option<set<string>>) returns (victim: Option<string>)
      ensures victim == None <==> bySource == map[]
      ensures victim.Some? ==> IsVictim(bySource, registered, victim.value)
    {
      victim := None;
      var oldest, victimDead := 0, false;
      var rest := bySource.Keys;
      while rest != {}
        invariant rest <= bySource.Keys
        invariant victim == None <==> rest == bySource.Keys
        invariant victim.Some? ==>
                    && IsVictimAmong(bySource, bySource.Keys - rest, registered, victim.value)
                    && oldest == bySource[victim.value].used && victimDead == Dead(registered, victim.value)
        decreases |rest|
      {
        var name :| name in rest;
        rest := rest - {name};
        var w, dead := bySource[name], Dead(registered, name);
        if victim == None || (dead && !victimDead) || (dead == victimDead && w.used < oldest) {
          victim, oldest, victimDead := Some(name), w.used, dead;
        }
      }
      if victim == None {
        assert bySource.Keys == {};
      } else {
        assert bySource.Keys - rest == bySource.Keys;
      }
    }

    method EvictLRU(registered: Option<set<string>>) returns (victim: Option<string>)
      requires Valid()
      modifies this`bySource, this`calls
      ensures Valid()
      ensures victim == None ==> old(bySource) == map[] && bySource == old(bySource)
      ensures victim.Some? ==>
                && IsVictim(old(bySource), registered, victim.value)
                && bySource == old(bySource) - {victim.value} && calls == old(calls) - {victim.value}
                && |bySource| == |old(bySource)| - 1
    {
      victim := Victim(registered);
      if victim.Some? {
        FewerKeys(bySource, victim.value);
        bySource := bySource - {victim.value};
        calls := calls - {victim.value};
      }
    }

    /** A source's window, opened if it has none: the newcomer displaces the victim once
        the table is full. */
    method WindowFor(registered: Option<set<string>>, source: string) returns (w: Window)
      requires Valid()
      modifies this`bySource, this`calls
      ensures Valid() && w.slots == Replay(if source in old(calls) then old(calls)[source] else [])
      ensures source in old(bySource) ==> bySource == old(bySource) && calls == old(calls)
      ensures source !in old(bySource) ==> source !in bySource && |bySource| < MAX_SOURCES
      ensures source !in old(bySource) && |old(bySource)| < MAX_SOURCES ==> bySource == old(bySource)
      ensures source !in old(bySource) && |old(bySource)| >= MAX_SOURCES ==>
                exists v :: IsVictim(old(bySource), registered, v) && bySource == old(bySource) - {v}
    {
      if source in bySource {
        return bySource[source];
      }
      if |bySource| >= MAX_SOURCES {
        var victim := EvictLRU(registered);
      }
      return Window(0, Slots(map[], [], 0));
    }

    /** One call reaches one source's window. No other window is touched, except that a
        source without one displaces the victim once the table is full. */
    method Admit(registered: Option<set<string>>, source: string, target: string, nano: int) returns (admitted: bool)
      requires Valid()
      modifies this
      ensures Valid() && clock == old(clock) + 1 && source in bySource && bySource[source].used == clock
      ensures var before := if source in old(calls) then old(calls)[source] else [];
              && (admitted <==> !Run(before).Remembers(CycleID(target, nano)))
              && calls[source] == before + [Op.Admit(CycleID(target, nano))]
      ensures if source in old(bySource) || |old(bySource)| < MAX_SOURCES
              then bySource == old(bySource)[source := bySource[source]]
              else exists v :: IsVictim(old(bySource), registered, v)
                               && bySource == (old(bySource) - {v})[source := bySource[source]]
    {
      ghost var before := if source in calls then calls[source] else [];
      var w := WindowFor(registered, source);
      var id := CycleID(target, nano);
      SeenAnswers(before, id);
      admitted := id !in w.slots.seen;
      Record(source, w, before, Op.Admit(id));
    }

    method Record(source: string, w: Window, ghost before: seq<Op>, op: Op)
      requires Valid() && w.slots == Replay(before)
      requires source !in bySource ==> |bySource| < MAX_SOURCES
      modifies this
      ensures Valid() && clock == old(clock) + 1
      ensures bySource == old(bySource)[source := Answer(w, clock, op)]
      ensures calls == old(calls)[source := before + [op]]
    {
      ghost var with, withCalls := bySource[source := w], calls[source := before];
      clock := clock + 1;
      ghost var next := Answer(w, clock, op);
      AnswerMirrors(with, withCalls, source, clock, op);
      NewestIsDistinct(bySource, source, next, clock - 1);
      assert with[source := next] == bySource[source := next];
      assert withCalls[source := before + [op]] == calls[source := before + [op]];
      bySource := bySource[source := Answer(w, clock, op)];
      calls := calls[source := before + [op]];
    }

    method Forget(source: string, target: string, nano: int)
      requires Valid()
      modifies this`bySource, this`calls
      ensures Valid() && bySource.Keys == old(bySource.Keys)
      ensures source !in old(bySource) ==> bySource == old(bySource)
      ensures source in old(bySource) ==>
                bySource == old(bySource)[source := bySource[source]] && bySource[source].used == old(bySource)[source].used
      ensures calls == if source !in old(calls) then old(calls)
                       else old(calls)[source := old(calls)[source] + [Op.Forget(CycleID(target, nano))]]
    {
      if source in bySource {
        var w, op := bySource[source], Op.Forget(CycleID(target, nano));
        AnswerMirrors(bySource, calls, source, w.used, op);
        AnswerKeepsUses(bySource, source, clock, op);
        bySource := bySource[source := Answer(w, w.used, op)];
        calls := calls[source := calls[source] + [op]];
      }
    }

    /** A window goes with its source, unless the name registered again in the gap. */
    method ForgetSource(registered: Option<set<string>>, source: string)
      requires Valid()
      modifies this`bySource, this`calls
      ensures Valid()
      ensures bySource == if registered.Some? && source in registered.value then old(bySource) else old(bySource) - {source}
    {
      if registered.Some? && source in registered.value {
        return;
      }
      FewerKeys(bySource, source);
      bySource := bySource - {source};
      calls := calls - {source};
    }
  }

  lemma FewerKeys<K, V>(m: map<K, V>, k: K)
    ensures k in m ==> |m - {k}| == |m| - 1
    ensures k !in m ==> m - {k} == m
  {
    if k in m {
      assert m.Keys == (m - {k}).Keys + {k};
    }
  }

  lemma {:induction false} InjectionIsBounded<K>(m: map<K, nat>, lo: nat, hi: nat)
    requires lo <= hi
    requires forall k :: k in m ==> lo <= m[k] < hi
    requires forall a, b :: a in m && b in m && m[a] == m[b] ==> a == b
    ensures |m| <= hi - lo
    decreases hi
  {
    if lo < hi {
      if k :| k in m && m[k] == hi - 1 {
        var rest := m - {k};
        assert m.Keys == rest.Keys + {k};
        InjectionIsBounded(rest, lo, hi - 1);
      } else {
        InjectionIsBounded(m, lo, hi - 1);
      }
    } else {
      assert m.Keys == {};
    }
  }
}
