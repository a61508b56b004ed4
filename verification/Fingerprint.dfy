/** The rebuild key: the text a configuration and a health mesh are reduced to, whose
    changes decide whether the scheduler is rebuilt.

    The format has a printer and no reader, so what makes it correct is that no two
    different configurations print alike. A char stands for one byte of a Go string.

    Every `Put...` function prints one construct in front of the text k that follows it,
    so that its splitting lemma can say: from the whole text, both the construct and what
    follows it can be recovered. */
module Fingerprint {
  import opened Wrappers
  import opened Names

  const FIELD := '\U{1f}'
  const LIST := '\U{1c}'
  const ENTRY := '\U{1e}'
  const BLOCK := '\U{1d}'

  // ---------------------------------------------------------------- escaping

  predicate Structural(c: char) { c == FIELD || c == LIST || c == ENTRY || c == BLOCK }

  predicate Special(c: char) { Structural(c) || c == '\\' }

  function EscapeChar(c: char): (r: string)
    ensures r != [] && !Structural(r[0])
  {
    if c == '\\' then ['\\', '\\']
    else if c == FIELD then ['\\', 'u']
    else if c == LIST then ['\\', 'f']
    else if c == ENTRY then ['\\', 'r']
    else if c == BLOCK then ['\\', 'g']
    else [c]
  }

  function Replaced(s: string): string {
    if s == [] then [] else EscapeChar(s[0]) + Replaced(s[1..])
  }

  function EscapeSeparators(s: string): string {
    if forall c :: c in s ==> !Special(c) then s else Replaced(s)
  }

  /** Skipping the replacer when nothing needs it changes nothing. */
  lemma {:induction false} EscapeIsReplace(s: string)
    ensures EscapeSeparators(s) == Replaced(s)
  {
    if s != [] {
      EscapeIsReplace(s[1..]);
      if forall c :: c in s ==> !Special(c) {
        assert s[0] in s && forall c :: c in s[1..] ==> c in s;
        assert s == [s[0]] + s[1..];
      }
    }
  }

  /** An escaped name holds no byte that could end a field, an entry, a list or a block. */
  lemma {:induction false} EscapedHasNoStructure(s: string)
    ensures forall c :: c in EscapeSeparators(s) ==> !Structural(c)
  {
    EscapeIsReplace(s);
    if s != [] {
      EscapedHasNoStructure(s[1..]);
      EscapeIsReplace(s[1..]);
    }
  }

  // ---------------------------------------------------------------- fields

  function Put(s: string, k: string): string { EscapeSeparators(s) + [FIELD] + k }

  lemma {:induction false} ReplacedSplits(a: string, b: string, p: string, q: string)
    requires Replaced(a) + [FIELD] + p == Replaced(b) + [FIELD] + q
    ensures a == b && p == q
  {
    var x, y := Replaced(a) + [FIELD] + p, Replaced(b) + [FIELD] + q;
    if a == [] || b == [] {
      assert x[0] == y[0];
      if a == [] && b == [] {
        assert x[1..] == p && y[1..] == q;
      }
    } else {
      var ea, eb := EscapeChar(a[0]), EscapeChar(b[0]);
      var ra, rb := Replaced(a[1..]) + [FIELD] + p, Replaced(b[1..]) + [FIELD] + q;
      assert x == ea + ra && y == eb + rb;
      assert ea == eb by {
        assert x[0] == ea[0] == eb[0];
        if ea[0] == '\\' {
          assert x[1] == ea[1] && y[1] == eb[1];
        }
      }
      assert x[|ea|..] == ra && y[|eb|..] == rb;
      ReplacedSplits(a[1..], b[1..], p, q);
      assert a == [a[0]] + a[1..] && b == [b[0]] + b[1..];
    }
  }

  /** Whatever bytes a name holds, it can be read back from the text it was put in. */
  lemma PutSplits(a: string, b: string, p: string, q: string)
    requires Put(a, p) == Put(b, q)
    ensures a == b && p == q
  {
    EscapeIsReplace(a);
    EscapeIsReplace(b);
    ReplacedSplits(a, b, p, q);
  }

  /** A field starts with no byte that ends an entry, a list or a block. */
  lemma PutStarts(s: string, k: string)
    ensures Put(s, k) != [] && (Put(s, k)[0] == FIELD || !Structural(Put(s, k)[0]))
  {
    EscapeIsReplace(s);
    if s != [] {
      assert Put(s, k)[0] == EscapeChar(s[0])[0];
    }
  }

  /** The text starts with c. */
  predicate StartsWith(k: string, c: char) { k != [] && k[0] == c }

  function PutAll(xs: seq<string>, k: string): string {
    if xs == [] then k else Put(xs[0], PutAll(xs[1..], k))
  }

  predicate Ends(c: char) { c == LIST || c == ENTRY || c == BLOCK }

  lemma {:induction false} PutAllSplits(xs: seq<string>, ys: seq<string>, c: char, p: string, q: string)
    requires Ends(c) && PutAll(xs, [c] + p) == PutAll(ys, [c] + q)
    ensures xs == ys && p == q
  {
    if xs == [] && ys == [] {
      assert ([c] + p)[1..] == p && ([c] + q)[1..] == q;
    } else if xs == [] {
      PutStarts(ys[0], PutAll(ys[1..], [c] + q));
    } else if ys == [] {
      PutStarts(xs[0], PutAll(xs[1..], [c] + p));
    } else {
      PutSplits(xs[0], ys[0], PutAll(xs[1..], [c] + p), PutAll(ys[1..], [c] + q));
      PutAllSplits(xs[1..], ys[1..], c, p, q);
      assert xs == [xs[0]] + xs[1..] && ys == [ys[0]] + ys[1..];
    }
  }

  lemma FirstAt(a: string, c: char, p: string)
    requires c !in a
    ensures (a + [c] + p)[|a|] == c && forall i :: 0 <= i < |a| ==> (a + [c] + p)[i] != c
    ensures (a + [c] + p)[..|a|] == a && (a + [c] + p)[|a| + 1..] == p
  {
    assert forall i :: 0 <= i < |a| ==> (a + [c] + p)[i] == a[i] && a[i] in a;
  }

  /** A text written raw is recovered when the byte that ends it is not in it. */
  lemma RawSplits(a: string, b: string, c: char, p: string, q: string)
    requires c !in a && c !in b && a + [c] + p == b + [c] + q
    ensures a == b && p == q
  {
    FirstAt(a, c, p);
    FirstAt(b, c, q);
  }

  // ---------------------------------------------------------------- configurations

  datatype Probe = Probe(kind: string, timeout: int, insecure: bool, noTrace: bool)

  datatype Target = Target(name: string, probe: string, host: string, url: string, family: string,
                           slaves: seq<string>, alerts: seq<string>)

  datatype Group = Group(group: string, targets: seq<Target>)

  /** What of a configuration the scheduler is built from; source is absent standalone. */
  datatype Config = Config(interval: int, pings: int, source: Option<string>, probes: map<string, Probe>, targets: seq<Group>)

  /** The runtime's printing of durations and integers. */
  datatype Printer = Printer(duration: int -> string, decimal: int -> string)

  ghost predicate Sound(pr: Printer) {
    && (forall a: int, b: int :: pr.duration(a) == pr.duration(b) ==> a == b)
    && (forall a: int, b: int :: pr.decimal(a) == pr.decimal(b) ==> a == b)
    && (forall a: int :: FIELD !in pr.duration(a))
    && (forall a: int :: BLOCK !in pr.decimal(a))
  }

  function BoolText(b: bool): string { if b then "true" else "false" }

  function PutProbe(name: string, p: Probe, pr: Printer, k: string): string {
    Put(name, Put(p.kind, Put(pr.duration(p.timeout), Put(BoolText(p.insecure), Put(BoolText(p.noTrace), [ENTRY] + k)))))
  }

  function PutProbes(names: seq<string>, probes: map<string, Probe>, pr: Printer, k: string): string
    requires forall n :: n in names ==> n in probes
  {
    if names == [] then k else PutProbe(names[0], probes[names[0]], pr, PutProbes(names[1..], probes, pr, k))
  }

  function PutTarget(t: Target, k: string): string {
    Put(t.name, Put(t.probe, Put(t.host, Put(t.url, Put(t.family, PutAll(t.slaves, [LIST] + PutAll(t.alerts, [ENTRY] + k)))))))
  }

  function PutTargets(ts: seq<Target>, k: string): string {
    if ts == [] then k else PutTarget(ts[0], PutTargets(ts[1..], k))
  }

  function PutGroups(gs: seq<Group>, k: string): string {
    if gs == [] then k else Put(gs[0].group, PutTargets(gs[0].targets, [BLOCK] + PutGroups(gs[1..], k)))
  }

  function PutSource(source: Option<string>, k: string): string {
    if source.Some? then Put(source.value, k) else k
  }

  ghost function PutConfig(cfg: Config, pr: Printer, k: string): string {
    pr.duration(cfg.interval) + [FIELD] + (pr.decimal(cfg.pings) + [BLOCK]
      + PutSource(cfg.source, [BLOCK] + PutProbes(Sorted(cfg.probes.Keys), cfg.probes, pr, [BLOCK] + PutGroups(cfg.targets, k))))
  }

  lemma PutProbeSplits(m: string, n: string, x: Probe, y: Probe, pr: Printer, p: string, q: string)
    requires Sound(pr) && PutProbe(m, x, pr, p) == PutProbe(n, y, pr, q)
    ensures m == n && x == y && p == q
  {
    var x4, y4 := Put(BoolText(x.noTrace), [ENTRY] + p), Put(BoolText(y.noTrace), [ENTRY] + q);
    var x3, y3 := Put(BoolText(x.insecure), x4), Put(BoolText(y.insecure), y4);
    var x2, y2 := Put(pr.duration(x.timeout), x3), Put(pr.duration(y.timeout), y3);
    PutSplits(m, n, Put(x.kind, x2), Put(y.kind, y2));
    PutSplits(x.kind, y.kind, x2, y2);
    PutSplits(pr.duration(x.timeout), pr.duration(y.timeout), x3, y3);
    PutSplits(BoolText(x.insecure), BoolText(y.insecure), x4, y4);
    PutSplits(BoolText(x.noTrace), BoolText(y.noTrace), [ENTRY] + p, [ENTRY] + q);
    assert ([ENTRY] + p)[1..] == p && ([ENTRY] + q)[1..] == q;
    assert "true" != "false" by {
      assert |"true"| != |"false"|;
    }
  }

  ghost predicate Within(names: seq<string>, probes: map<string, Probe>) { forall n :: n in names ==> n in probes }

  lemma {:induction false} PutProbesSplit(xs: seq<string>, ys: seq<string>, px: map<string, Probe>, py: map<string, Probe>,
                                          pr: Printer, p: string, q: string)
    requires Sound(pr) && Within(xs, px) && Within(ys, py)
    requires PutProbes(xs, px, pr, [BLOCK] + p) == PutProbes(ys, py, pr, [BLOCK] + q)
    ensures xs == ys && p == q && forall n :: n in xs ==> n in py && px[n] == py[n]
  {
    if xs == [] && ys == [] {
      assert ([BLOCK] + p)[1..] == p && ([BLOCK] + q)[1..] == q;
    } else if xs == [] {
      PutStarts(ys[0], PutProbes(ys, py, pr, [BLOCK] + q)[|EscapeSeparators(ys[0])| + 1..]);
    } else if ys == [] {
      PutStarts(xs[0], PutProbes(xs, px, pr, [BLOCK] + p)[|EscapeSeparators(xs[0])| + 1..]);
    } else {
      PutProbeSplits(xs[0], ys[0], px[xs[0]], py[ys[0]], pr,
                     PutProbes(xs[1..], px, pr, [BLOCK] + p), PutProbes(ys[1..], py, pr, [BLOCK] + q));
      PutProbesSplit(xs[1..], ys[1..], px, py, pr, p, q);
      assert xs == [xs[0]] + xs[1..] && ys == [ys[0]] + ys[1..];
    }
  }

  lemma PutTargetSplits(x: Target, y: Target, p: string, q: string)
    requires PutTarget(x, p) == PutTarget(y, q)
    ensures x == y && p == q
  {
    var x6, y6 := PutAll(x.alerts, [ENTRY] + p), PutAll(y.alerts, [ENTRY] + q);
    var x5, y5 := PutAll(x.slaves, [LIST] + x6), PutAll(y.slaves, [LIST] + y6);
    var x4, y4 := Put(x.family, x5), Put(y.family, y5);
    var x3, y3 := Put(x.url, x4), Put(y.url, y4);
    var x2, y2 := Put(x.host, x3), Put(y.host, y3);
    PutSplits(x.name, y.name, Put(x.probe, x2), Put(y.probe, y2));
    PutSplits(x.probe, y.probe, x2, y2);
    PutSplits(x.host, y.host, x3, y3);
    PutSplits(x.url, y.url, x4, y4);
    PutSplits(x.family, y.family, x5, y5);
    PutAllSplits(x.slaves, y.slaves, LIST, x6, y6);
    PutAllSplits(x.alerts, y.alerts, ENTRY, p, q);
  }

  lemma PutTargetStarts(t: Target, k: string)
    ensures PutTarget(t, k) != [] && !Ends(PutTarget(t, k)[0])
  {
    PutStarts(t.name, Put(t.probe, Put(t.host, Put(t.url, Put(t.family, PutAll(t.slaves, [LIST] + PutAll(t.alerts, [ENTRY] + k)))))));
  }

  lemma {:induction false} PutTargetsSplit(xs: seq<Target>, ys: seq<Target>, p: string, q: string)
    requires PutTargets(xs, [BLOCK] + p) == PutTargets(ys, [BLOCK] + q)
    ensures xs == ys && p == q
  {
    if xs == [] && ys == [] {
      assert ([BLOCK] + p)[1..] == p && ([BLOCK] + q)[1..] == q;
    } else if xs == [] {
      PutTargetStarts(ys[0], PutTargets(ys[1..], [BLOCK] + q));
    } else if ys == [] {
      PutTargetStarts(xs[0], PutTargets(xs[1..], [BLOCK] + p));
    } else {
      PutTargetSplits(xs[0], ys[0], PutTargets(xs[1..], [BLOCK] + p), PutTargets(ys[1..], [BLOCK] + q));
      PutTargetsSplit(xs[1..], ys[1..], p, q);
      assert xs == [xs[0]] + xs[1..] && ys == [ys[0]] + ys[1..];
    }
  }

  /** Nothing follows the groups but the end of the text or another block. */
  predicate Closes(k: string) { k == [] || k[0] == BLOCK }

  lemma {:induction false} PutGroupsSplit(xs: seq<Group>, ys: seq<Group>, p: string, q: string)
    requires Closes(p) && Closes(q) && PutGroups(xs, p) == PutGroups(ys, q)
    ensures xs == ys && p == q
  {
    if xs == [] && ys == [] {
    } else if xs == [] {
      PutStarts(ys[0].group, PutTargets(ys[0].targets, [BLOCK] + PutGroups(ys[1..], q)));
    } else if ys == [] {
      PutStarts(xs[0].group, PutTargets(xs[0].targets, [BLOCK] + PutGroups(xs[1..], p)));
    } else {
      var x, y := [BLOCK] + PutGroups(xs[1..], p), [BLOCK] + PutGroups(ys[1..], q);
      PutSplits(xs[0].group, ys[0].group, PutTargets(xs[0].targets, x), PutTargets(ys[0].targets, y));
      PutTargetsSplit(xs[0].targets, ys[0].targets, PutGroups(xs[1..], p), PutGroups(ys[1..], q));
      PutGroupsSplit(xs[1..], ys[1..], p, q);
      assert xs == [xs[0]] + xs[1..] && ys == [ys[0]] + ys[1..];
    }
  }

  lemma PutSourceSplits(a: Option<string>, b: Option<string>, p: string, q: string)
    requires PutSource(a, [BLOCK] + p) == PutSource(b, [BLOCK] + q)
    ensures a == b && p == q
  {
    PutAllSplits(if a.Some? then [a.value] else [], if b.Some? then [b.value] else [], BLOCK, p, q);
  }

  /** Two configurations that print alike are the same to the scheduler, field for field. */
  lemma PutConfigSplits(a: Config, b: Config, pr: Printer, p: string, q: string)
    requires Sound(pr) && Closes(p) && Closes(q) && PutConfig(a, pr, p) == PutConfig(b, pr, q)
    ensures a == b && p == q
  {
    var pa, pb := PutProbes(Sorted(a.probes.Keys), a.probes, pr, [BLOCK] + PutGroups(a.targets, p)),
                  PutProbes(Sorted(b.probes.Keys), b.probes, pr, [BLOCK] + PutGroups(b.targets, q));
    var sa, sb := PutSource(a.source, [BLOCK] + pa), PutSource(b.source, [BLOCK] + pb);
    RawSplits(pr.duration(a.interval), pr.duration(b.interval), FIELD,
              pr.decimal(a.pings) + [BLOCK] + sa, pr.decimal(b.pings) + [BLOCK] + sb);
    RawSplits(pr.decimal(a.pings), pr.decimal(b.pings), BLOCK, sa, sb);
    PutSourceSplits(a.source, b.source, pa, pb);
    PutProbesSplit(Sorted(a.probes.Keys), Sorted(b.probes.Keys), a.probes, b.probes, pr,
                   PutGroups(a.targets, p), PutGroups(b.targets, q));
    PutGroupsSplit(a.targets, b.targets, p, q);
    assert a.probes == b.probes by {
      forall n ensures n in a.probes <==> n in b.probes {
        assert n in Sorted(a.probes.Keys) <==> n in Sorted(b.probes.Keys);
      }
    }
  }

  // ---------------------------------------------------------------- printing configurations

  /** Each append leaves the text such that whatever follows it completes what it began. */
  method AppendField(out: string, s: string, ghost k: string) returns (r: string)
    ensures r + k == out + Put(s, k)
  {
    r := out + EscapeSeparators(s) + [FIELD];
    assert r + k == out + (EscapeSeparators(s) + [FIELD] + k);
  }

  method AppendByte(out: string, c: char, ghost k: string) returns (r: string)
    ensures r + k == out + ([c] + k)
  {
    r := out + [c];
  }

  method AppendAll(out: string, xs: seq<string>, ghost k: string) returns (r: string)
    ensures r + k == out + PutAll(xs, k)
  {
    r := out;
    var i := 0;
    while i < |xs|
      invariant i <= |xs| && r + PutAll(xs[i..], k) == out + PutAll(xs, k)
    {
      r := AppendField(r, xs[i], PutAll(xs[i + 1..], k));
      i := i + 1;
    }
  }

  method AppendTarget(out: string, t: Target, ghost k: string) returns (r: string)
    ensures r + k == out + PutTarget(t, k)
  {
    ghost var k6 := PutAll(t.alerts, [ENTRY] + k);
    ghost var k5 := PutAll(t.slaves, [LIST] + k6);
    ghost var k4 := Put(t.family, k5);
    ghost var k3 := Put(t.url, k4);
    ghost var k2 := Put(t.host, k3);
    r := AppendField(out, t.name, Put(t.probe, k2));
    r := AppendField(r, t.probe, k2);
    r := AppendField(r, t.host, k3);
    r := AppendField(r, t.url, k4);
    r := AppendField(r, t.family, k5);
    r := AppendAll(r, t.slaves, [LIST] + k6);
    r := AppendByte(r, LIST, k6);
    r := AppendAll(r, t.alerts, [ENTRY] + k);
    r := AppendByte(r, ENTRY, k);
  }

  method AppendGroups(out: string, gs: seq<Group>, ghost k: string) returns (r: string)
    ensures r + k == out + PutGroups(gs, k)
  {
    r := out;
    var i := 0;
    while i < |gs|
      invariant i <= |gs| && r + PutGroups(gs[i..], k) == out + PutGroups(gs, k)
    {
      var g := gs[i];
      ghost var k1 := [BLOCK] + PutGroups(gs[i + 1..], k);
      r := AppendField(r, g.group, PutTargets(g.targets, k1));
      var j := 0;
      while j < |g.targets|
        invariant j <= |g.targets| && r + PutTargets(g.targets[j..], k1) == out + PutGroups(gs, k)
      {
        r := AppendTarget(r, g.targets[j], PutTargets(g.targets[j + 1..], k1));
        j := j + 1;
      }
      r := AppendByte(r, BLOCK, PutGroups(gs[i + 1..], k));
      i := i + 1;
    }
  }

  method AppendProbe(out: string, name: string, p: Probe, pr: Printer, ghost k: string) returns (r: string)
    ensures r + k == out + PutProbe(name, p, pr, k)
  {
    ghost var k4 := Put(BoolText(p.noTrace), [ENTRY] + k);
    ghost var k3 := Put(BoolText(p.insecure), k4);
    ghost var k2 := Put(pr.duration(p.timeout), k3);
    r := AppendField(out, name, Put(p.kind, k2));
    r := AppendField(r, p.kind, k2);
    r := AppendField(r, pr.duration(p.timeout), k3);
    r := AppendField(r, BoolText(p.insecure), k4);
    r := AppendField(r, BoolText(p.noTrace), [ENTRY] + k);
    r := AppendByte(r, ENTRY, k);
  }

  method AppendProbes(out: string, probes: map<string, Probe>, pr: Printer, ghost k: string) returns (r: string)
    ensures r + k == out + PutProbes(Sorted(probes.Keys), probes, pr, k)
  {
    var names := Sort(probes.Keys);
    ListIsUnique(names, Sorted(probes.Keys), probes.Keys);
    r := out;
    var i := 0;
    while i < |names|
      invariant i <= |names| && r + PutProbes(names[i..], probes, pr, k) == out + PutProbes(names, probes, pr, k)
    {
      r := AppendProbe(r, names[i], probes[names[i]], pr, PutProbes(names[i + 1..], probes, pr, k));
      i := i + 1;
    }
  }

  /** scheduler.Fingerprint: followed by any k, the text is the one that splits. */
  method ConfigFingerprint(cfg: Config, pr: Printer, ghost k: string) returns (out: string)
    ensures out + k == PutConfig(cfg, pr, k)
  {
    ghost var k3 := PutGroups(cfg.targets, k);
    ghost var k2 := PutProbes(Sorted(cfg.probes.Keys), cfg.probes, pr, [BLOCK] + k3);
    out := pr.duration(cfg.interval) + [FIELD];
    out := out + pr.decimal(cfg.pings) + [BLOCK];
    assert out + PutSource(cfg.source, [BLOCK] + k2) == PutConfig(cfg, pr, k);
    if cfg.source.Some? {
      out := AppendField(out, cfg.source.value, [BLOCK] + k2);
    }
    out := AppendByte(out, BLOCK, k2);
    out := AppendProbes(out, cfg.probes, pr, [BLOCK] + k3);
    out := AppendByte(out, BLOCK, k3);
    out := AppendGroups(out, cfg.targets, k);
  }
}
