/** The health mesh's half of the rebuild key, and the whole key: a configuration's
    fingerprint, a block byte, and the mesh's. */
module HealthSet {
  import opened Wrappers
  import opened Names
  import opened Fingerprint

  // An address, by the text it prints as.
  datatype Peer = Peer(name: string, addr: string)

  /** A snapshot of the peers, sorted, and of the alerts every health target carries. */
  datatype Set = Set(peers: seq<Peer>, alerts: seq<string>)

  predicate NotAfter(p: Peer, q: Peer) {
    Less(p.name, q.name) || (p.name == q.name && (p.addr == q.addr || Less(p.addr, q.addr)))
  }

  ghost predicate InOrder(ps: seq<Peer>) {
    forall i, j :: 0 <= i < j < |ps| ==> NotAfter(ps[i], ps[j])
  }

  lemma NotAfterIsAnOrder(p: Peer, q: Peer)
    ensures NotAfter(p, q) || NotAfter(q, p)
    ensures NotAfter(p, q) && NotAfter(q, p) ==> p == q
  {
    LessIsTotal(p.name, q.name);
    LessIsTotal(p.addr, q.addr);
  }

  lemma NotAfterIsTransitive(p: Peer, q: Peer, r: Peer)
    requires NotAfter(p, q) && NotAfter(q, r)
    ensures NotAfter(p, r)
  {
    if Less(p.name, q.name) && Less(q.name, r.name) {
      LessIsTransitive(p.name, q.name, r.name);
    }
    if Less(p.addr, q.addr) && Less(q.addr, r.addr) {
      LessIsTransitive(p.addr, q.addr, r.addr);
    }
  }

  lemma HeadIsFirst(s: seq<Peer>, p: Peer)
    requires InOrder(s) && p in multiset(s)
    ensures s != [] && NotAfter(s[0], p)
  {
    NotAfterIsAnOrder(p, p);
    var i :| 0 <= i < |s| && s[i] == p;
  }

  /** A collection of peers has one sorted list, so the order a set was built in is lost. */
  lemma {:induction false} OrderIsUnique(s: seq<Peer>, t: seq<Peer>)
    requires InOrder(s) && InOrder(t) && multiset(s) == multiset(t)
    ensures s == t
  {
    assert |s| == |multiset(s)| == |multiset(t)| == |t|;
    if s != [] {
      assert s[0] in multiset(s) && t[0] in multiset(t);
      HeadIsFirst(s, t[0]);
      HeadIsFirst(t, s[0]);
      NotAfterIsAnOrder(s[0], t[0]);
      assert s == [s[0]] + s[1..] && t == [t[0]] + t[1..];
      assert multiset(s[1..]) == multiset(s) - multiset{s[0]};
      assert multiset(t[1..]) == multiset(t) - multiset{t[0]};
      OrderIsUnique(s[1..], t[1..]);
    }
  }

  lemma InsertKeepsOrder(ps: seq<Peer>, i: nat, p: Peer)
    requires InOrder(ps) && i <= |ps|
    requires i > 0 ==> NotAfter(ps[i - 1], p)
    requires i < |ps| ==> NotAfter(p, ps[i])
    ensures InOrder(ps[..i] + [p] + ps[i..])
  {
    forall j | 0 <= j < i ensures NotAfter(ps[j], p) {
      if j < i - 1 {
        NotAfterIsTransitive(ps[j], ps[i - 1], p);
      }
    }
    forall j | i <= j < |ps| ensures NotAfter(p, ps[j]) {
      if j > i {
        NotAfterIsTransitive(p, ps[i], ps[j]);
      }
    }
  }

  /** Puts p after the last peer not after it. */
  method Insert(ps: seq<Peer>, p: Peer) returns (out: seq<Peer>)
    requires InOrder(ps)
    ensures InOrder(out) && multiset(out) == multiset(ps) + multiset{p}
  {
    var i: nat := |ps|;
    while i > 0 && !NotAfter(ps[i - 1], p)
      invariant i <= |ps| && (i < |ps| ==> NotAfter(p, ps[i]))
    {
      NotAfterIsAnOrder(ps[i - 1], p);
      i := i - 1;
    }
    InsertKeepsOrder(ps, i, p);
    out := ps[..i] + [p] + ps[i..];
    assert ps == ps[..i] + ps[i..];
  }

  method NewSet(peers: seq<Peer>, alerts: seq<string>) returns (s: Set)
    ensures InOrder(s.peers) && multiset(s.peers) == multiset(peers) && s.alerts == alerts
  {
    var out: seq<Peer> := [];
    var i := 0;
    while i < |peers|
      invariant i <= |peers| && InOrder(out) && multiset(out) == multiset(peers[..i])
    {
      assert peers[..i + 1] == peers[..i] + [peers[i]];
      out := Insert(out, peers[i]);
      i := i + 1;
    }
    assert peers[..i] == peers;
    s := Set(out, alerts);
  }

  // ---------------------------------------------------------------- the text

  function PutPeers(ps: seq<Peer>, k: string): string {
    if ps == [] then k else Put(ps[0].name, ps[0].addr + [ENTRY] + PutPeers(ps[1..], k))
  }

  function PutAlerts(xs: seq<string>): string {
    if xs == [] then [] else EscapeSeparators(xs[0]) + [ENTRY] + PutAlerts(xs[1..])
  }

  function SetText(s: Option<Set>): string {
    if s.None? then [] else PutPeers(s.value.peers, [BLOCK] + PutAlerts(s.value.alerts))
  }

  /** No address prints both the byte that ends an entry and the byte that ends a field. */
  ghost predicate Plain(ps: seq<Peer>) {
    forall i :: 0 <= i < |ps| ==> !(ENTRY in ps[i].addr && FIELD in ps[i].addr)
  }

  lemma {:induction false} PutAlertsHasNoBlock(xs: seq<string>)
    ensures BLOCK !in PutAlerts(xs)
  {
    if xs != [] {
      EscapedHasNoStructure(xs[0]);
      PutAlertsHasNoBlock(xs[1..]);
    }
  }

  lemma {:induction false} PutPeersHasBlock(ps: seq<Peer>, p: string)
    ensures BLOCK in PutPeers(ps, [BLOCK] + p)
  {
    if ps == [] {
      assert ([BLOCK] + p)[0] == BLOCK;
    } else {
      PutPeersHasBlock(ps[1..], p);
    }
  }

  /** Where two texts agree and one's address is the longer, the longer runs over the byte
      that ended the shorter, and into what followed it. */
  lemma LongerRunsOn(a: string, b: string, x: string, y: string) returns (z: string)
    requires |a| < |b| && a + [ENTRY] + x == b + [ENTRY] + y
    ensures ENTRY in b && x == z + [ENTRY] + y && forall c :: c in z ==> c in b
  {
    var long, other := a + [ENTRY] + x, b + [ENTRY] + y;
    z := b[|a| + 1..];
    assert other[|a|] == b[|a|] && long[|a|] == ENTRY;
    assert long[|a| + 1..] == x && other[|a| + 1..] == z + [ENTRY] + y;
  }

  /** Into the alerts it cannot run, for they hold no block byte. */
  lemma RunsIntoAlerts(z: string, y: string, p: string)
    requires [BLOCK] + p == z + [ENTRY] + y && BLOCK in y
    ensures BLOCK in p
  {
    var i :| 0 <= i < |y| && y[i] == BLOCK;
    assert (z + [ENTRY] + y)[|z| + 1 + i] == BLOCK;
    assert ([BLOCK] + p)[|z| + 1 + i] == p[|z| + i];
  }

  /** Running into the next peer, it takes in the byte that ends that peer's name. */
  lemma RunsIntoPeer(z: string, y: string, name: string, k: string)
    requires Put(name, k) == z + [ENTRY] + y
    ensures FIELD in z
  {
    var e, x := EscapeSeparators(name), Put(name, k);
    EscapedHasNoStructure(name);
    assert forall i :: 0 <= i < |e| ==> x[i] == e[i] && e[i] in e;
    assert x[|e|] == FIELD && (z + [ENTRY] + y)[|z|] == ENTRY;
    assert |e| < |z| && z[|e|] == FIELD;
  }

  /** So where the longer address is plain, neither is the longer. */
  lemma AddrIsWhole(a: string, b: string, xs: seq<Peer>, ys: seq<Peer>, p: string, q: string)
    requires BLOCK !in p && !(ENTRY in b && FIELD in b)
    requires a + [ENTRY] + PutPeers(xs, [BLOCK] + p) == b + [ENTRY] + PutPeers(ys, [BLOCK] + q)
    ensures |a| >= |b|
  {
    if |a| < |b| {
      var y := PutPeers(ys, [BLOCK] + q);
      var z := LongerRunsOn(a, b, PutPeers(xs, [BLOCK] + p), y);
      PutPeersHasBlock(ys, q);
      if xs == [] {
        RunsIntoAlerts(z, y, p);
      } else {
        RunsIntoPeer(z, y, xs[0].name, xs[0].addr + [ENTRY] + PutPeers(xs[1..], [BLOCK] + p));
      }
    }
  }

  lemma {:induction false} PutPeersSplit(xs: seq<Peer>, ys: seq<Peer>, p: string, q: string)
    requires Plain(xs) && Plain(ys) && BLOCK !in p && BLOCK !in q
    requires PutPeers(xs, [BLOCK] + p) == PutPeers(ys, [BLOCK] + q)
    ensures xs == ys && p == q
  {
    if xs == [] && ys == [] {
      assert ([BLOCK] + p)[1..] == p && ([BLOCK] + q)[1..] == q;
    } else if xs == [] {
      PutStarts(ys[0].name, ys[0].addr + [ENTRY] + PutPeers(ys[1..], [BLOCK] + q));
    } else if ys == [] {
      PutStarts(xs[0].name, xs[0].addr + [ENTRY] + PutPeers(xs[1..], [BLOCK] + p));
    } else {
      var a, b := xs[0].addr, ys[0].addr;
      var x, y := PutPeers(xs[1..], [BLOCK] + p), PutPeers(ys[1..], [BLOCK] + q);
      PutSplits(xs[0].name, ys[0].name, a + [ENTRY] + x, b + [ENTRY] + y);
      AddrIsWhole(a, b, xs[1..], ys[1..], p, q);
      AddrIsWhole(b, a, ys[1..], xs[1..], q, p);
      SameLengthSplits(a, b, x, y);
      PutPeersSplit(xs[1..], ys[1..], p, q);
      assert xs == [xs[0]] + xs[1..] && ys == [ys[0]] + ys[1..];
    }
  }

  lemma SameLengthSplits(a: string, b: string, x: string, y: string)
    requires |a| == |b| && a + [ENTRY] + x == b + [ENTRY] + y
    ensures a == b && x == y
  {
    assert a == (a + [ENTRY] + x)[..|a|] && b == (b + [ENTRY] + y)[..|b|];
    assert x == (a + [ENTRY] + x)[|a| + 1..] && y == (b + [ENTRY] + y)[|b| + 1..];
  }

  lemma {:induction false} PutAlertsSplit(xs: seq<string>, ys: seq<string>)
    requires PutAlerts(xs) == PutAlerts(ys)
    ensures xs == ys
  {
    if xs != [] && ys != [] {
      EscapedHasNoStructure(xs[0]);
      EscapedHasNoStructure(ys[0]);
      RawSplits(EscapeSeparators(xs[0]), EscapeSeparators(ys[0]), ENTRY, PutAlerts(xs[1..]), PutAlerts(ys[1..]));
      PutSplits(xs[0], ys[0], [], []);
      PutAlertsSplit(xs[1..], ys[1..]);
      assert xs == [xs[0]] + xs[1..] && ys == [ys[0]] + ys[1..];
    }
  }

  lemma PutPeersIsNotEmpty(ps: seq<Peer>, k: string)
    requires k != []
    ensures PutPeers(ps, k) != []
  {
    if ps != [] {
      PutStarts(ps[0].name, ps[0].addr + [ENTRY] + PutPeers(ps[1..], k));
    }
  }

  lemma SetTextSplits(s: Option<Set>, t: Option<Set>)
    requires s.Some? ==> Plain(s.value.peers)
    requires t.Some? ==> Plain(t.value.peers)
    requires SetText(s) == SetText(t)
    ensures s == t
  {
    if s.Some? {
      PutPeersIsNotEmpty(s.value.peers, [BLOCK] + PutAlerts(s.value.alerts));
    }
    if t.Some? {
      PutPeersIsNotEmpty(t.value.peers, [BLOCK] + PutAlerts(t.value.alerts));
    }
    if s.Some? && t.Some? {
      PutAlertsHasNoBlock(s.value.alerts);
      PutAlertsHasNoBlock(t.value.alerts);
      PutPeersSplit(s.value.peers, t.value.peers, PutAlerts(s.value.alerts), PutAlerts(t.value.alerts));
      PutAlertsSplit(s.value.alerts, t.value.alerts);
    }
  }

  method AppendPeer(out: string, p: Peer, ghost rest: string) returns (r: string)
    ensures r + rest == out + Put(p.name, p.addr + [ENTRY] + rest)
  {
    r := AppendField(out, p.name, p.addr + [ENTRY] + rest);
    assert r + (p.addr + [ENTRY] + rest) == r + p.addr + [ENTRY] + rest;
    r := r + p.addr + [ENTRY];
  }

  method AppendAlert(out: string, a: string, ghost rest: string) returns (r: string)
    ensures r + rest == out + (EscapeSeparators(a) + [ENTRY] + rest)
  {
    r := out + EscapeSeparators(a) + [ENTRY];
  }

  /** Set.Fingerprint; a nil set prints nothing. */
  method SetFingerprint(s: Option<Set>) returns (out: string)
    ensures out == SetText(s)
  {
    out := "";
    if s == None {
      return;
    }
    var ps, alerts := s.value.peers, s.value.alerts;
    ghost var k := [BLOCK] + PutAlerts(alerts);
    var i := 0;
    while i < |ps|
      invariant i <= |ps| && out + PutPeers(ps[i..], k) == PutPeers(ps, k)
    {
      out := AppendPeer(out, ps[i], PutPeers(ps[i + 1..], k));
      i := i + 1;
    }
    out := AppendByte(out, BLOCK, PutAlerts(alerts));
    var j := 0;
    while j < |alerts|
      invariant j <= |alerts| && out + PutAlerts(alerts[j..]) == SetText(s)
    {
      out := AppendAlert(out, alerts[j], PutAlerts(alerts[j + 1..]));
      j := j + 1;
    }
    assert out + [] == out;
  }

  // ---------------------------------------------------------------- the key

  /** LifecycleOptions.fingerprint, with the mesh as its extra contribution. */
  ghost function Key(cfg: Config, pr: Printer, mesh: Option<Set>): string {
    PutConfig(cfg, pr, [BLOCK] + SetText(mesh))
  }

  method RebuildKey(cfg: Config, pr: Printer, mesh: Option<Set>) returns (key: string)
    ensures key == Key(cfg, pr, mesh)
  {
    ghost var k := [BLOCK] + SetText(mesh);
    key := ConfigFingerprint(cfg, pr, k);
    var extra := SetFingerprint(mesh);
    assert key + [BLOCK] + extra == key + k;
    key := key + [BLOCK] + extra;
  }

  /** A mesh as NewSet makes it, of addresses that read back. */
  ghost predicate WellMade(mesh: Option<Set>) {
    mesh.Some? ==> InOrder(mesh.value.peers) && Plain(mesh.value.peers)
  }

  /** No two configurations and meshes have one key; no mesh at all is told from an empty one. */
  lemma KeyIsInjective(c: Config, d: Config, pr: Printer, s: Option<Set>, t: Option<Set>)
    requires Sound(pr) && WellMade(s) && WellMade(t) && Key(c, pr, s) == Key(d, pr, t)
    ensures c == d && s == t
  {
    PutConfigSplits(c, d, pr, [BLOCK] + SetText(s), [BLOCK] + SetText(t));
    assert ([BLOCK] + SetText(s))[1..] == SetText(s) && ([BLOCK] + SetText(t))[1..] == SetText(t);
    SetTextSplits(s, t);
  }

  /** The key changes exactly when something the scheduler is built from does: the
      configuration's fields, the peers as a collection, or the health alerts. */
  lemma KeysAgreeIff(c: Config, d: Config, pr: Printer, s: Set, t: Set)
    requires Sound(pr) && WellMade(Some(s)) && WellMade(Some(t))
    ensures Key(c, pr, Some(s)) == Key(d, pr, Some(t))
            <==> c == d && multiset(s.peers) == multiset(t.peers) && s.alerts == t.alerts
  {
    if multiset(s.peers) == multiset(t.peers) {
      OrderIsUnique(s.peers, t.peers);
    }
    if Key(c, pr, Some(s)) == Key(d, pr, Some(t)) {
      KeyIsInjective(c, d, pr, Some(s), Some(t));
    }
  }

  lemma Regroup(a: string, e: string, b: string, t: string)
    ensures a + [ENTRY] + (e + [FIELD] + b) + [ENTRY] + t == a + [ENTRY] + (e + [FIELD] + (b + [ENTRY] + t))
  {
    assert e + [FIELD] + b + ([ENTRY] + t) == e + [FIELD] + (b + [ENTRY] + t);
  }

  /** Addresses are written as they are: one that printed an entry byte and then a field
      byte reads back as two peers, whatever names and addresses stand around it. */
  lemma RawAddressForgesPeer(name: string, addr: string, forged: string, behind: string, rest: seq<Peer>, alerts: seq<string>)
    ensures var one := Set([Peer(name, addr + [ENTRY] + Put(forged, behind))] + rest, alerts);
            var two := Set([Peer(name, addr), Peer(forged, behind)] + rest, alerts);
            SetText(Some(one)) == SetText(Some(two)) && one != two
  {
    var k := [BLOCK] + PutAlerts(alerts);
    PutPeersCons(Peer(name, addr + [ENTRY] + Put(forged, behind)), rest, k);
    PutPeersCons(Peer(forged, behind), rest, k);
    PutPeersCons(Peer(name, addr), [Peer(forged, behind)] + rest, k);
    Regroup(addr, EscapeSeparators(forged), behind, PutPeers(rest, k));
    assert [Peer(name, addr)] + ([Peer(forged, behind)] + rest) == [Peer(name, addr), Peer(forged, behind)] + rest;
    assert |[Peer(name, addr + [ENTRY] + Put(forged, behind))] + rest| != |[Peer(name, addr), Peer(forged, behind)] + rest|;
  }

  /** A sorted mesh whose addresses are made of the bytes allowed. */
  ghost predicate MadeOf(mesh: Set, allowed: iset<char>) {
    InOrder(mesh.peers) && forall i, c :: 0 <= i < |mesh.peers| && c in mesh.peers[i].addr ==> c in allowed
  }

  ghost predicate Distinguishes(allowed: iset<char>) {
    forall s: Set, t: Set ::
      MadeOf(s, allowed) && MadeOf(t, allowed) && SetText(Some(s)) == SetText(Some(t)) ==> s == t
  }

  /** The key tells all meshes apart exactly when address text cannot hold both an entry
      byte and a field byte. */
  lemma DistinguishesIff(allowed: iset<char>)
    ensures Distinguishes(allowed) <==> !(ENTRY in allowed && FIELD in allowed)
  {
    if ENTRY in allowed && FIELD in allowed {
      var one := Set([Peer("", [] + [ENTRY] + Put("", []))] + [], []);
      var two := Set([Peer("", []), Peer("", [])] + [], []);
      RawAddressForgesPeer("", [], "", [], [], []);
      assert one.peers[0].addr == [ENTRY, FIELD];
      NotAfterIsAnOrder(Peer("", []), Peer("", []));
      assert MadeOf(one, allowed) && MadeOf(two, allowed);
    } else {
      forall s: Set, t: Set | MadeOf(s, allowed) && MadeOf(t, allowed) && SetText(Some(s)) == SetText(Some(t))
        ensures s == t
      {
        assert Plain(s.peers) && Plain(t.peers);
        SetTextSplits(Some(s), Some(t));
      }
    }
  }

  lemma PutPeersCons(p: Peer, rest: seq<Peer>, k: string)
    ensures PutPeers([p] + rest, k) == Put(p.name, p.addr + [ENTRY] + PutPeers(rest, k))
  {
    assert ([p] + rest)[1..] == rest;
  }
}
