/** The master's slave registry: two maps that must stay one bijection under claims, live
    pins, steals and sweeps, and the health mesh read out of them. */
module Registry {
  import opened Wrappers
  import opened Names

  const MAX_SLAVES: nat := 512
  const MAX_FIELD: nat := 256

  // An address, compared as a value.
  type Addr = string

  datatype Info = Info(version: string, addr: string, lastSeen: int, advertise: Option<Addr>)

  type Pins = map<string, Addr>

  datatype Refusal = Accepted | EmptyName | FieldTooLong | Full

  /** The (name, address) pairs peers probe. */
  function Mesh(slaves: map<string, Info>): map<string, Addr> {
    map n | n in slaves && slaves[n].advertise.Some? :: slaves[n].advertise.value
  }

  /** byAddr and the valid advertise fields are one bijection. */
  ghost predicate Bijection(slaves: map<string, Info>, byAddr: map<Addr, string>) {
    && (forall a :: a in byAddr ==> byAddr[a] in slaves && slaves[byAddr[a]].advertise == Some(a))
    && (forall n :: n in slaves && slaves[n].advertise.Some? ==>
          slaves[n].advertise.value in byAddr && byAddr[slaves[n].advertise.value] == n)
  }

  /** No two slaves of the mesh share an address. */
  lemma MeshIsInjective(slaves: map<string, Info>, byAddr: map<Addr, string>, m: string, n: string)
    requires Bijection(slaves, byAddr)
    requires m in Mesh(slaves) && n in Mesh(slaves) && m != n
    ensures Mesh(slaves)[m] != Mesh(slaves)[n]
  {
  }

  predicate PinAdmits(pins: Pins, name: string, addr: Addr) {
    name !in pins || pins[name] == addr
  }

  /** Whether a claimant takes an address its owner holds: the owner's own pin excludes
      it, or the claimant is pinned to it and the owner is not. */
  predicate Unseats(pins: Pins, name: string, owner: string, addr: Addr) {
    !PinAdmits(pins, owner, addr) || (name in pins && owner !in pins)
  }

  /** What a claim comes to: the address, or nothing. */
  function Granted(pins: Pins, byAddr: map<Addr, string>, name: string, claim: Option<Addr>): Option<Addr> {
    match claim
    case None => None
    case Some(a) =>
      if !PinAdmits(pins, name, a) then None
      else if a in byAddr && byAddr[a] != name && !Unseats(pins, name, byAddr[a], a) then None
      else Some(a)
  }

  /** A pin is the remedy for a squatter: the pinned slave gets its address, whoever holds
      it, exactly when no other slave is pinned to it and holds it. */
  lemma PinBeatsSquatter(pins: Pins, byAddr: map<Addr, string>, name: string, a: Addr)
    requires name in pins && pins[name] == a
    ensures Granted(pins, byAddr, name, Some(a)) == Some(a)
            <==> !(a in byAddr && byAddr[a] != name && byAddr[a] in pins && pins[byAddr[a]] == a)
    ensures (forall m, n :: m in pins && n in pins && pins[m] == pins[n] ==> m == n) ==>
              Granted(pins, byAddr, name, Some(a)) == Some(a)
  {
  }

  /** The mesh after name's claim came to next: an unseated owner leaves it. */
  function MeshAfter(mesh: map<string, Addr>, byAddr: map<Addr, string>, name: string, next: Option<Addr>): map<string, Addr> {
    match next
    case None => mesh - {name}
    case Some(a) => (if a in byAddr then mesh - {byAddr[a]} else mesh)[name := a]
  }

  // ---------------------------------------------------------------- whole runs

  /** What reaches the registry: a kept check-in, with the pins live at that moment, or a
      sweep of everything silent since before a cutoff. */
  datatype Event =
    | Touched(name: string, claim: Option<Addr>, pins: Pins, now: int)
    | Swept(cutoff: int)

  /** The mesh and when each slave was last heard of. */
  datatype World = World(mesh: map<string, Addr>, seen: map<string, int>)

  function Seen(slaves: map<string, Info>): map<string, int> {
    map n | n in slaves :: slaves[n].lastSeen
  }

  /** No two names of a mesh share an address. */
  ghost predicate Injective(mesh: map<string, Addr>) {
    forall m, n :: m in mesh && n in mesh && mesh[m] == mesh[n] ==> m == n
  }

  /** A claim in terms of the mesh alone: nobody with a better right holds the address. */
  ghost predicate Gets(mesh: map<string, Addr>, pins: Pins, name: string, a: Addr) {
    && (name in pins ==> pins[name] == a)
    && forall h :: h in mesh && mesh[h] == a && h != name ==>
         (h in pins && pins[h] != a) || (name in pins && h !in pins)
  }

  ghost function Next(w: World, e: Event): World {
    match e
    case Touched(name, claim, pins, now) =>
      World(if claim.Some? && Gets(w.mesh, pins, name, claim.value)
            then (map h | h in w.mesh && w.mesh[h] != claim.value :: w.mesh[h])[name := claim.value]
            else w.mesh - {name},
            w.seen[name := now])
    case Swept(cutoff) =>
      var silent := set n | n in w.seen && w.seen[n] < cutoff;
      World(w.mesh - silent, w.seen - silent)
  }

  ghost function After(es: seq<Event>): World {
    if es == [] then World(map[], map[]) else Next(After(es[..|es| - 1]), es[|es| - 1])
  }

  ghost predicate HoldsAddr(w: World, h: string, a: Addr) { h in w.mesh && w.mesh[h] == a }

  /** The ways an address is lost: its holder claims something else, or is pinned to something
      else; it falls silent; or another claims the address while the holder's own pin excludes
      it, or with a pin to it against a holder without one. Claiming it first is enough
      against everyone else. */
  ghost predicate Loses(w: World, e: Event, h: string, a: Addr) {
    match e
    case Touched(name, claim, pins, _) =>
      if name == h then claim != Some(a) || (h in pins && pins[h] != a)
      else
        && claim == Some(a) && (name in pins ==> pins[name] == a)
        && ((h in pins && pins[h] != a) || (name in pins && h !in pins))
    case Swept(cutoff) => h in w.seen && w.seen[h] < cutoff
  }

  /** A holder loses its address in one of these ways and no other. */
  lemma LosesIff(w: World, e: Event, h: string, a: Addr)
    requires Injective(w.mesh) && HoldsAddr(w, h, a)
    ensures !HoldsAddr(Next(w, e), h, a) <==> Loses(w, e, h, a)
  {
  }

  /** And a claimant gets an address if and only if it is free to it. */
  lemma GetsIff(w: World, name: string, claim: Option<Addr>, pins: Pins, now: int, a: Addr)
    ensures HoldsAddr(Next(w, Touched(name, claim, pins, now)), name, a)
            <==> claim == Some(a) && (name in pins ==> pins[name] == a)
                 && forall h :: h != name && HoldsAddr(w, h, a) ==> (h in pins && pins[h] != a) || (name in pins && h !in pins)
  {
  }

  lemma NextIsInjective(w: World, e: Event)
    requires Injective(w.mesh)
    ensures Injective(Next(w, e).mesh)
  {
  }

  lemma {:induction false} RunIsInjective(es: seq<Event>)
    ensures Injective(After(es).mesh)
  {
    if es != [] {
      RunIsInjective(es[..|es| - 1]);
      NextIsInjective(After(es[..|es| - 1]), es[|es| - 1]);
    }
  }

  /** Over any run, a holder that no longer has its address lost it at some event k. */
  lemma {:induction false} LostOnlySo(es: seq<Event>, i: nat, h: string, a: Addr) returns (k: nat)
    requires i <= |es| && HoldsAddr(After(es[..i]), h, a) && !HoldsAddr(After(es), h, a)
    ensures i <= k < |es| && HoldsAddr(After(es[..k]), h, a) && Loses(After(es[..k]), es[k], h, a)
    decreases |es|
  {
    assert es[..|es|] == es;
    k := |es| - 1;
    var before := es[..k];
    assert before[..i] == es[..i];
    RunIsInjective(before);
    if HoldsAddr(After(before), h, a) {
      LosesIff(After(before), es[k], h, a);
    } else {
      k := LostOnlySo(before, i, h, a);
      assert before[..k] == es[..k];
    }
  }

  /** Without pins an address changes hands only after its holder claimed something else, or
      nothing, or was swept: no heartbeat of another slave ever takes it. */
  lemma FirstComeKeeps(es: seq<Event>, i: nat, h: string, g: string, a: Addr) returns (k: nat)
    requires forall j :: 0 <= j < |es| && es[j].Touched? ==> es[j].pins == map[]
    requires i <= |es| && h != g && HoldsAddr(After(es[..i]), h, a) && HoldsAddr(After(es), g, a)
    ensures i <= k < |es|
    ensures (es[k].Touched? && es[k].name == h && es[k].claim != Some(a))
            || (es[k].Swept? && h in After(es[..k]).seen && After(es[..k]).seen[h] < es[k].cutoff)
  {
    RunIsInjective(es);
    k := LostOnlySo(es, i, h, a);
  }

  /** What the two maps decide is what the mesh decides. */
  lemma ClaimIsNext(slaves: map<string, Info>, byAddr: map<Addr, string>, name: string, claim: Option<Addr>, pins: Pins, now: int)
    requires Bijection(slaves, byAddr)
    ensures MeshAfter(Mesh(slaves), byAddr, name, Granted(pins, byAddr, name, claim))
            == Next(World(Mesh(slaves), Seen(slaves)), Touched(name, claim, pins, now)).mesh
  {
    var mesh := Mesh(slaves);
    forall h | h in mesh ensures mesh[h] in byAddr && byAddr[mesh[h]] == h {
    }
    if claim.Some? {
      var a := claim.value;
      assert a in byAddr ==> byAddr[a] in mesh && mesh[byAddr[a]] == a;
      assert Granted(pins, byAddr, name, claim) == Some(a) <==> Gets(mesh, pins, name, a);
    }
  }

  class Registry {
    var slaves: map<string, Info>
    var byAddr: map<Addr, string>
    // every kept check-in and every sweep
    ghost var log: seq<Event>

    /** The maps are one bijection, of a registry within its size. */
    ghost predicate Linked()
      reads this`slaves, this`byAddr
    {
      Bijection(slaves, byAddr) && |slaves| <= MAX_SLAVES && "" !in slaves
    }

    ghost predicate Valid()
      reads this
    {
      Linked() && After(log) == World(Mesh(slaves), Seen(slaves))
    }

    constructor ()
      ensures Valid() && slaves == map[] && byAddr == map[] && log == []
    {
      slaves, byAddr, log := map[], map[], [];
    }

    /** resolveAdvertise: validates a claim, unseating an owner the live pins now exclude. */
    method ResolveAdvertise(name: string, claim: Option<Addr>, pins: Pins) returns (next: Option<Addr>)
      requires Linked() && name in slaves
      modifies this`slaves, this`byAddr
      ensures Linked() && slaves.Keys == old(slaves.Keys)
      ensures next == Granted(pins, old(byAddr), name, claim)
      ensures slaves[name] == old(slaves)[name] && Seen(slaves) == Seen(old(slaves))
      ensures Mesh(slaves) == (if next.Some? && next.value in old(byAddr) && old(byAddr)[next.value] != name
                               then Mesh(old(slaves)) - {old(byAddr)[next.value]} else Mesh(old(slaves)))
      ensures next.Some? ==> next.value !in byAddr || byAddr[next.value] == name
    {
      if claim == None {
        return None;
      }
      var addr := claim.value;
      if name in pins && pins[name] != addr {
        return None;
      }
      if addr in byAddr && byAddr[addr] != name {
        var owner := byAddr[addr];
        if !PinAdmits(pins, owner, addr) || (name in pins && owner !in pins) {
          byAddr := byAddr - {addr};
          if owner in slaves && slaves[owner].advertise == Some(addr) {
            slaves := slaves[owner := slaves[owner].(advertise := None)];
          }
          assert Mesh(slaves) == Mesh(old(slaves)) - {owner};
        }
      }
      if addr in byAddr && byAddr[addr] != name {
        return None;
      }
      return Some(addr);
    }

    /** Moves name's own claim from whatever it was to next, in both maps. */
    method Settle(name: string, next: Option<Addr>)
      requires Linked() && name in slaves
      requires next.Some? ==> next.value !in byAddr || byAddr[next.value] == name
      modifies this`slaves, this`byAddr
      ensures Linked() && slaves == old(slaves)[name := old(slaves)[name].(advertise := next)]
    {
      var prev := slaves[name].advertise;
      if next != prev {
        if prev.Some? && prev.value in byAddr && byAddr[prev.value] == name {
          byAddr := byAddr - {prev.value};
        }
        if next.Some? {
          byAddr := byAddr[next.value := name];
        }
        slaves := slaves[name := slaves[name].(advertise := next)];
      }
    }

    /** Validates a claim and moves it; changed says whether the mesh did. */
    method Claim(name: string, claim: Option<Addr>, pins: Pins) returns (changed: bool)
      requires Linked() && name in slaves
      modifies this`slaves, this`byAddr
      ensures Linked() && slaves.Keys == old(slaves.Keys) && Seen(slaves) == Seen(old(slaves))
      ensures Mesh(slaves) == MeshAfter(Mesh(old(slaves)), old(byAddr), name, Granted(pins, old(byAddr), name, claim))
      ensures changed <==> Mesh(slaves) != Mesh(old(slaves))
    {
      var prev := slaves[name].advertise;
      var next := ResolveAdvertise(name, claim, pins);
      SetMesh(slaves, name, next);
      SetSeen(slaves, name, next);
      ClaimMoves(old(slaves), old(byAddr), name, next);
      Settle(name, next);
      changed := next != prev;
    }

    /** A new name gets an entry and a known one is refreshed; neither moves the mesh. */
    method CheckIn(name: string, version: string, addr: string, now: int)
      requires Linked() && name != "" && (name in slaves || |slaves| < MAX_SLAVES)
      modifies this`slaves
      ensures Linked() && slaves.Keys == old(slaves.Keys) + {name} && slaves[name].lastSeen == now
      ensures Mesh(slaves) == Mesh(old(slaves)) && Seen(slaves) == Seen(old(slaves))[name := now]
      ensures slaves[name].addr == addr
      ensures slaves[name].version == if |version| <= 256 then version else if name in old(slaves) then old(slaves)[name].version else ""
    {
      var info := if name in slaves then slaves[name] else Info("", "", 0, None);
      info := info.(addr := addr, lastSeen := now);
      if |version| <= MAX_FIELD {
        info := info.(version := version);
      }
      EntryKeeps(slaves, byAddr, name, info);
      slaves := slaves[name := info];
    }

    /** Touch. changed says whether onChange fires. */
    method Touch(name: string, version: string, addr: string, advertise: string,
                 parse: string -> Option<Addr>, pins: Pins, now: int)
      returns (refusal: Refusal, changed: bool)
      requires Valid()
      modifies this
      ensures Valid()
      ensures var long, full := |version| > 256 || |advertise| > 256, name !in old(slaves) && |old(slaves)| >= 512;
              refusal == if name == "" then EmptyName else if long then FieldTooLong else if full then Full else Accepted
      ensures changed <==> Mesh(slaves) != Mesh(old(slaves))
      ensures var kept := name in old(slaves) || refusal == Accepted;
              if name == "" || !kept then slaves == old(slaves) && byAddr == old(byAddr) && log == old(log)
              else slaves.Keys == old(slaves.Keys) + {name}
                   && log == old(log) + [Touched(name, if advertise == "" || |advertise| > 256 then None else parse(advertise), pins, now)]
    {
      if name == "" {
        return EmptyName, false;
      }
      var long := |version| > MAX_FIELD || |advertise| > MAX_FIELD;
      if name !in slaves {
        if long {
          return FieldTooLong, false;
        }
        if |slaves| >= MAX_SLAVES {
          return Full, false;
        }
      }
      changed := CheckInAndClaim(name, version, addr, Claimed(advertise, parse), pins, now);
      refusal := if long then FieldTooLong else Accepted;
    }

    /** A kept check-in: the entry, then the claim. */
    method CheckInAndClaim(name: string, version: string, addr: string, claim: Option<Addr>, pins: Pins, now: int)
      returns (changed: bool)
      requires Valid() && name != "" && (name in slaves || |slaves| < MAX_SLAVES)
      modifies this
      ensures Valid() && slaves.Keys == old(slaves.Keys) + {name}
      ensures changed <==> Mesh(slaves) != Mesh(old(slaves))
      ensures log == old(log) + [Touched(name, claim, pins, now)]
    {
      TouchIsNext(log, slaves, byAddr, name, claim, pins, now);
      CheckIn(name, version, addr, now);
      changed := Claim(name, claim, pins);
      log := log + [Touched(name, claim, pins, now)];
    }

    /** Walks the slaves, dropping the silent; changed says whether one was in the mesh. */
    method DropSilent(cutoff: int) returns (removed: set<string>, changed: bool)
      requires Linked()
      modifies this`slaves, this`byAddr
      ensures Linked() && removed == Silent(old(slaves), {}, cutoff) && slaves == old(slaves) - removed
      ensures changed <==> AnyInMesh(old(slaves), removed)
    {
      removed, changed := {}, false;
      var rest := slaves.Keys;
      while rest != {}
        invariant Linked() && rest <= old(slaves).Keys
        invariant removed == Silent(old(slaves), rest, cutoff) && slaves == old(slaves) - removed
        invariant changed <==> AnyInMesh(old(slaves), removed)
        decreases |rest|
      {
        var name :| name in rest;
        SilentNext(old(slaves), rest, cutoff, name);
        rest := rest - {name};
        if slaves[name].lastSeen >= cutoff {
          continue;
        }
        changed := changed || slaves[name].advertise.Some?;
        Drop(name);
        removed := removed + {name};
      }
    }

    /** Sweep. Returns the names dropped, each reported once, and whether onChange fires. */
    method Sweep(cutoff: int) returns (removed: set<string>, changed: bool)
      requires Valid()
      modifies this
      ensures Valid()
      ensures removed == set n | n in old(slaves) && old(slaves)[n].lastSeen < cutoff
      ensures slaves == old(slaves) - removed && log == old(log) + [Swept(cutoff)]
      ensures changed <==> Mesh(slaves) != Mesh(old(slaves))
    {
      removed, changed := DropSilent(cutoff);
      SweptMesh(old(slaves), removed);
      SweepIsNext(log, old(slaves), removed, cutoff);
      log := log + [Swept(cutoff)];
    }

    /** Drops one entry and the address it owns. */
    method Drop(name: string)
      requires Linked() && name in slaves
      modifies this`slaves, this`byAddr
      ensures Linked() && slaves == old(slaves) - {name}
    {
      assert slaves.Keys == (slaves - {name}).Keys + {name};
      var info := slaves[name];
      if info.advertise.Some? && info.advertise.value in byAddr && byAddr[info.advertise.value] == name {
        byAddr := byAddr - {info.advertise.value};
      }
      slaves := slaves - {name};
    }

    /** Peers: the pairs eligible for probing under the live pins, in name order. */
    method Peers(pins: Pins) returns (peers: seq<(string, Addr)>)
      requires Linked()
      ensures forall i, j :: 0 <= i < j < |peers| ==> Less(peers[i].0, peers[j].0) && peers[i].1 != peers[j].1
      ensures forall n, a :: (n, a) in peers <==> Peer(slaves, pins, n, a)
      ensures OnePinEach(pins) ==>
                forall n, a :: (n, a) in peers
                  <==> n in slaves && slaves[n].advertise == Some(a) && (if n in pins then pins[n] == a else a !in pins.Values)
    {
      var pinnedTo := Invert(pins);
      var names := Sort(slaves.Keys);
      peers := [];
      for i := 0 to |names|
        invariant ListsPeers(peers, names[..i], slaves, pins)
      {
        var name := names[i];
        assert names[..i + 1] == names[..i] + [name];
        var advertise := slaves[name].advertise;
        if advertise == None {
          SkipPeer(peers, names[..i], slaves, pins, name);
          continue;
        }
        var a := advertise.value;
        InverseDecides(pins, pinnedTo, name, a);
        if name in pins && pins[name] != a {
          SkipPeer(peers, names[..i], slaves, pins, name);
          continue;
        }
        if a in pinnedTo && pinnedTo[a] != name {
          SkipPeer(peers, names[..i], slaves, pins, name);
          continue;
        }
        TakePeer(peers, names[..i], slaves, pins, name);
        peers := peers + [(name, a)];
      }
      assert names[..|names|] == names;
      PeersAreDistinct(peers, names, slaves, byAddr, pins);
      PeerIff(slaves, pins);
    }
  }

  /** The pair is in the mesh and passes both halves of the pin rule. */
  ghost predicate Peer(slaves: map<string, Info>, pins: Pins, n: string, a: Addr) {
    n in Mesh(slaves) && Mesh(slaves)[n] == a && Eligible(pins, n, a)
  }

  /** No address is pinned to two names, as in any configuration that loads. */
  ghost predicate OnePinEach(pins: Pins) {
    forall m, n :: m in pins && n in pins && pins[m] == pins[n] ==> m == n
  }

  /** Then a pinned slave is probed where its pin says, and an unpinned one where nobody's does. */
  lemma PeerIff(slaves: map<string, Info>, pins: Pins)
    ensures OnePinEach(pins) ==>
              forall n, a :: Peer(slaves, pins, n, a)
                <==> n in slaves && slaves[n].advertise == Some(a) && (if n in pins then pins[n] == a else a !in pins.Values)
  {
    if OnePinEach(pins) {
      forall n, a
        ensures Peer(slaves, pins, n, a)
          <==> n in slaves && slaves[n].advertise == Some(a) && (if n in pins then pins[n] == a else a !in pins.Values)
      {
        if n !in pins && a in pins.Values {
          var m :| m in pins && pins[m] == a;
          assert !Eligible(pins, n, a);
        }
      }
    }
  }

  /** The peers among some names, in the order of those names. */
  ghost predicate ListsPeers(peers: seq<(string, Addr)>, names: seq<string>, slaves: map<string, Info>, pins: Pins) {
    && (forall k :: 0 <= k < |peers| ==> peers[k].0 in names && Peer(slaves, pins, peers[k].0, peers[k].1))
    && (forall n, a :: n in names && Peer(slaves, pins, n, a) ==> (n, a) in peers)
    && (Ascending(names) ==> forall k, l :: 0 <= k < l < |peers| ==> Less(peers[k].0, peers[l].0))
  }

  lemma SkipPeer(peers: seq<(string, Addr)>, names: seq<string>, slaves: map<string, Info>, pins: Pins, name: string)
    requires ListsPeers(peers, names, slaves, pins) && name in slaves
    requires forall a :: !Peer(slaves, pins, name, a)
    ensures ListsPeers(peers, names + [name], slaves, pins)
  {
    assert Ascending(names + [name]) ==> Ascending(names) by {
      assert forall i :: 0 <= i < |names| ==> names[i] == (names + [name])[i];
    }
  }

  lemma TakePeer(peers: seq<(string, Addr)>, names: seq<string>, slaves: map<string, Info>, pins: Pins, name: string)
    requires ListsPeers(peers, names, slaves, pins)
    requires name in Mesh(slaves) && Peer(slaves, pins, name, Mesh(slaves)[name])
    ensures ListsPeers(peers + [(name, Mesh(slaves)[name])], names + [name], slaves, pins)
  {
    var next, more := peers + [(name, Mesh(slaves)[name])], names + [name];
    if Ascending(more) {
      assert forall i :: 0 <= i < |names| ==> names[i] == more[i];
      forall k, l | 0 <= k < l < |next| ensures Less(next[k].0, next[l].0) {
        if l == |peers| {
          var i :| 0 <= i < |names| && names[i] == peers[k].0;
          assert Less(more[i], more[|names|]);
        }
      }
    }
    forall n, a | n in more && Peer(slaves, pins, n, a) ensures (n, a) in next {
      if n == name {
        assert next[|peers|] == (n, a);
      } else {
        assert (n, a) in peers;
      }
    }
  }

  lemma PeersAreDistinct(peers: seq<(string, Addr)>, names: seq<string>, slaves: map<string, Info>, byAddr: map<Addr, string>, pins: Pins)
    requires ListsPeers(peers, names, slaves, pins) && Bijection(slaves, byAddr) && Lists(names, slaves.Keys)
    ensures forall i, j :: 0 <= i < j < |peers| ==> peers[i].1 != peers[j].1
    ensures forall n, a :: (n, a) in peers <==> Peer(slaves, pins, n, a)
  {
    forall i, j | 0 <= i < j < |peers| ensures peers[i].1 != peers[j].1 {
      LessIsIrreflexive(peers[i].0);
      MeshIsInjective(slaves, byAddr, peers[i].0, peers[j].0);
    }
  }

  /** The sorted inversion decides eligibility whichever way the pins were walked. */
  lemma InverseDecides(pins: Pins, inverse: map<Addr, string>, n: string, a: Addr)
    requires IsInverse(pins, inverse)
    ensures Eligible(pins, n, a) <==> PinAdmits(pins, n, a) && !(a in inverse && inverse[a] != n)
  {
    if a in inverse && Eligible(pins, n, a) && inverse[a] != n {
      LessIsTotal(n, inverse[a]);
    }
  }

  /** Which name each pinned address is for: the first in name order. */
  ghost predicate IsInverse(pins: Pins, inverse: map<Addr, string>) {
    && (forall n :: n in pins ==> pins[n] in inverse)
    && (forall a :: a in inverse ==> inverse[a] in pins && pins[inverse[a]] == a
                                     && forall n :: n in pins && pins[n] == a && n != inverse[a] ==> Less(inverse[a], n))
  }

  method Invert(pins: Pins) returns (inverse: map<Addr, string>)
    ensures IsInverse(pins, inverse)
  {
    var names := Sort(pins.Keys);
    inverse := map[];
    for i := 0 to |names|
      invariant forall j :: 0 <= j < i ==> pins[names[j]] in inverse
      invariant forall a :: a in inverse ==> inverse[a] in names[..i] && pins[inverse[a]] == a
      invariant forall a, j :: a in inverse && 0 <= j < i && pins[names[j]] == a && names[j] != inverse[a] ==> Less(inverse[a], names[j])
    {
      if pins[names[i]] !in inverse {
        inverse := inverse[pins[names[i]] := names[i]];
      }
    }
  }

  /** A pair passes both halves of the pin rule: the name may hold the address, and no pin
      names someone else its rightful holder. */
  ghost predicate Eligible(pins: Pins, n: string, a: Addr) {
    PinAdmits(pins, n, a) && forall m :: m in pins && pins[m] == a ==> m == n || (n in pins && pins[n] == a && Less(n, m))
  }

  /** The slaves a sweep drops once it has visited all but rest. */
  ghost function Silent(slaves: map<string, Info>, rest: set<string>, cutoff: int): set<string> {
    set n | n in slaves && n !in rest && slaves[n].lastSeen < cutoff
  }

  ghost predicate AnyInMesh(slaves: map<string, Info>, removed: set<string>) {
    exists n :: n in removed && n in Mesh(slaves)
  }

  lemma SilentNext(slaves: map<string, Info>, rest: set<string>, cutoff: int, name: string)
    requires name in rest && name in slaves
    ensures Silent(slaves, rest - {name}, cutoff) ==
            if slaves[name].lastSeen < cutoff then Silent(slaves, rest, cutoff) + {name} else Silent(slaves, rest, cutoff)
    ensures name !in Silent(slaves, rest, cutoff)
    ensures AnyInMesh(slaves, Silent(slaves, rest, cutoff) + {name})
            <==> AnyInMesh(slaves, Silent(slaves, rest, cutoff)) || slaves[name].advertise.Some?
  {
    var removed := Silent(slaves, rest, cutoff);
    if AnyInMesh(slaves, removed) {
      var n :| n in removed && n in Mesh(slaves);
      assert n in removed + {name};
    }
    if slaves[name].advertise.Some? {
      assert name in removed + {name} && name in Mesh(slaves);
    }
  }

  lemma SweptMesh(slaves: map<string, Info>, removed: set<string>)
    ensures Mesh(slaves - removed) == Mesh(slaves) - removed
    ensures AnyInMesh(slaves, removed) <==> Mesh(slaves - removed) != Mesh(slaves)
  {
    if n :| n in removed && n in Mesh(slaves) {
      assert n !in Mesh(slaves - removed);
    }
  }

  lemma EntryKeeps(slaves: map<string, Info>, byAddr: map<Addr, string>, name: string, info: Info)
    requires Bijection(slaves, byAddr)
    requires info.advertise == if name in slaves then slaves[name].advertise else None
    ensures Bijection(slaves[name := info], byAddr) && Mesh(slaves[name := info]) == Mesh(slaves)
    ensures |slaves[name := info]| == |slaves| + (if name in slaves then 0 else 1)
  {
    assert slaves[name := info].Keys == slaves.Keys + {name};
  }

  lemma SetMesh(slaves: map<string, Info>, name: string, next: Option<Addr>)
    requires name in slaves
    ensures Mesh(slaves[name := slaves[name].(advertise := next)]) ==
            if next == None then Mesh(slaves) - {name} else Mesh(slaves)[name := next.value]
  {
  }

  lemma SetSeen(slaves: map<string, Info>, name: string, next: Option<Addr>)
    requires name in slaves
    ensures Seen(slaves[name := slaves[name].(advertise := next)]) == Seen(slaves)
  {
  }

  /** A claim moves the mesh exactly when it moves the claimant's own address: an owner is
      unseated only by a claimant that did not have the address. */
  lemma ClaimMoves(slaves: map<string, Info>, byAddr: map<Addr, string>, name: string, next: Option<Addr>)
    requires Bijection(slaves, byAddr) && name in slaves
    ensures var m := Mesh(slaves);
            var unseated := if next.Some? && next.value in byAddr && byAddr[next.value] != name then m - {byAddr[next.value]} else m;
            && (if next == None then unseated - {name} else unseated[name := next.value]) == MeshAfter(m, byAddr, name, next)
            && (next == slaves[name].advertise <==> MeshAfter(m, byAddr, name, next) == m)
  {
    var m, m' := Mesh(slaves), MeshAfter(Mesh(slaves), byAddr, name, next);
    if next != slaves[name].advertise {
      if next == None {
        assert name in m && name !in m';
      } else {
        assert m'[name] == next.value && (name in m ==> m[name] != next.value);
      }
    }
  }

  function Claimed(advertise: string, parse: string -> Option<Addr>): Option<Addr> {
    if advertise == "" || |advertise| > MAX_FIELD then None else parse(advertise)
  }

  lemma LogNext(es: seq<Event>, e: Event)
    ensures After(es + [e]) == Next(After(es), e)
  {
    assert (es + [e])[..|es|] == es;
  }

  lemma TouchIsNext(es: seq<Event>, slaves: map<string, Info>, byAddr: map<Addr, string>, name: string, claim: Option<Addr>,
                    pins: Pins, now: int)
    requires Bijection(slaves, byAddr) && After(es) == World(Mesh(slaves), Seen(slaves))
    ensures After(es + [Touched(name, claim, pins, now)])
            == World(MeshAfter(Mesh(slaves), byAddr, name, Granted(pins, byAddr, name, claim)), Seen(slaves)[name := now])
  {
    LogNext(es, Touched(name, claim, pins, now));
    ClaimIsNext(slaves, byAddr, name, claim, pins, now);
  }

  lemma SweepIsNext(es: seq<Event>, slaves: map<string, Info>, removed: set<string>, cutoff: int)
    requires removed == Silent(slaves, {}, cutoff) && After(es) == World(Mesh(slaves), Seen(slaves))
    ensures After(es + [Swept(cutoff)]) == World(Mesh(slaves - removed), Seen(slaves - removed))
    ensures removed == set n | n in slaves && slaves[n].lastSeen < cutoff
  {
    LogNext(es, Swept(cutoff));
    assert removed == set n | n in Seen(slaves) && Seen(slaves)[n] < cutoff;
  }
}
