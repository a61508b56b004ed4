/** Folding a SmokePing configuration's depth-tagged lines into the target tree.

    Nodes live in a store and point at their children by index, as the program's do by
    address: the new child is appended to the parent the stack still holds, and the tree is
    whatever is then reachable from the root. The theorem reads the lines back out of it. */
module TargetTree {
  datatype Kind = Blank | Comment | Section | NodeLine | Assign

  datatype Line = Line(kind: Kind, section: string, depth: nat, name: string, value: string)

  datatype Node = Node(name: string, params: map<string, string>, keys: seq<string>, children: seq<nat>)

  // Each node's children, by index.
  type Kids = seq<seq<nat>>

  function Shape(nodes: seq<Node>): (kids: Kids)
    ensures |kids| == |nodes| && forall x :: 0 <= x < |nodes| ==> kids[x] == nodes[x].children
  {
    seq(|nodes|, x requires 0 <= x < |nodes| => nodes[x].children)
  }

  // ---------------------------------------------------------------- the tree in a store

  /** Children are younger than their parents, so every walk ends. */
  ghost predicate Formed(kids: Kids) {
    forall x, k :: 0 <= x < |kids| && 0 <= k < |kids[x]| ==> x < kids[x][k] < |kids|
  }

  /** The subtree of x, itself first, each node with its depth. */
  ghost function Walk(kids: Kids, x: nat, depth: nat): seq<(nat, nat)>
    requires Formed(kids) && x < |kids|
    decreases |kids| - x, |kids[x]| + 1
  {
    [(depth, x)] + WalkAll(kids, x, |kids[x]|, depth + 1)
  }

  /** The subtrees of x's first n children. */
  ghost function WalkAll(kids: Kids, x: nat, n: nat, depth: nat): seq<(nat, nat)>
    requires Formed(kids) && x < |kids| && n <= |kids[x]|
    decreases |kids| - x, n
  {
    if n == 0 then [] else WalkAll(kids, x, n - 1, depth) + Walk(kids, kids[x][n - 1], depth)
  }

  /** p is not in the subtree of x. */
  ghost predicate Avoids(kids: Kids, x: nat, p: nat)
    requires Formed(kids) && x < |kids|
    decreases |kids| - x
  {
    x != p && forall k :: 0 <= k < |kids[x]| ==> Avoids(kids, kids[x][k], p)
  }

  /** The store after p gains a new leaf. */
  function Grown(kids: Kids, p: nat): Kids
    requires p < |kids|
  {
    kids[p := kids[p] + [|kids|]] + [[]]
  }

  lemma GrownIsFormed(kids: Kids, p: nat)
    requires Formed(kids) && p < |kids|
    ensures Formed(Grown(kids, p))
  {
  }

  lemma {:induction false} YoungerAvoids(kids: Kids, x: nat, p: nat)
    requires Formed(kids) && p < x < |kids|
    ensures Avoids(kids, x, p)
    decreases |kids| - x
  {
    forall k | 0 <= k < |kids[x]| ensures Avoids(kids, kids[x][k], p) {
      YoungerAvoids(kids, kids[x][k], p);
    }
  }

  /** A subtree the parent is not in walks the same after it grows. */
  lemma {:induction false} GrownWalk(kids: Kids, p: nat, x: nat, depth: nat)
    requires Formed(kids) && p < |kids| && x < |kids| && Avoids(kids, x, p)
    ensures Formed(Grown(kids, p)) && Walk(Grown(kids, p), x, depth) == Walk(kids, x, depth)
    decreases |kids| - x, |kids[x]| + 1
  {
    GrownIsFormed(kids, p);
    GrownWalkAll(kids, p, x, |kids[x]|, depth + 1);
  }

  lemma {:induction false} GrownWalkAll(kids: Kids, p: nat, x: nat, n: nat, depth: nat)
    requires Formed(kids) && p < |kids| && x < |kids| && n <= |kids[x]|
    requires forall k :: 0 <= k < n ==> Avoids(kids, kids[x][k], p)
    ensures Formed(Grown(kids, p)) && n <= |Grown(kids, p)[x]|
    ensures WalkAll(Grown(kids, p), x, n, depth) == WalkAll(kids, x, n, depth)
    decreases |kids| - x, n
  {
    GrownIsFormed(kids, p);
    if n > 0 {
      GrownWalkAll(kids, p, x, n - 1, depth);
      GrownWalk(kids, p, kids[x][n - 1], depth);
    }
  }

  // ---------------------------------------------------------------- the stack

  /** The stack is the path to the newest node: each entry's last child is the next, and
      the rest of its subtrees are over before the next began. */
  ghost predicate Path(kids: Kids, stack: seq<nat>) {
    && stack != [] && stack[0] == 0
    && (forall i :: 0 <= i < |stack| ==> stack[i] < |kids|)
    && (forall i :: 0 <= i < |stack| - 1 ==> Links(kids, stack[i], stack[i + 1]))
  }

  /** y is x's last child. */
  ghost predicate Links(kids: Kids, x: nat, y: nat) {
    x < |kids| && kids[x] != [] && kids[x][|kids[x]| - 1] == y
  }

  /** From any node on the path, all but the last subtree keep clear of what lies deeper. */
  ghost predicate Clear(kids: Kids, stack: seq<nat>)
    requires Formed(kids) && Path(kids, stack)
  {
    forall i, j, k :: 0 <= i < j < |stack| && 0 <= k < |kids[stack[i]]| - 1 ==>
      Avoids(kids, kids[stack[i]][k], stack[j])
  }

  lemma {:induction false} PathGrows(kids: Kids, stack: seq<nat>, i: nat)
    requires Formed(kids) && Path(kids, stack) && Clear(kids, stack) && i < |stack|
    ensures var p := stack[|stack| - 1];
            && Formed(Grown(kids, p))
            && Walk(Grown(kids, p), stack[i], i) == Walk(kids, stack[i], i) + [(|stack|, |kids|)]
    decreases |stack| - i
  {
    var p, x := stack[|stack| - 1], stack[i];
    var cs := kids[x];
    var next := Grown(kids, p);
    GrownIsFormed(kids, p);
    if i == |stack| - 1 {
      forall k | 0 <= k < |cs| ensures Avoids(kids, cs[k], p) {
        YoungerAvoids(kids, cs[k], p);
      }
      GrownWalkAll(kids, p, x, |cs|, i + 1);
      assert next[x] == cs + [|kids|];
      assert Walk(next, |kids|, i + 1) == [(i + 1, |kids|)];
      assert WalkAll(next, x, |cs| + 1, i + 1) == WalkAll(kids, x, |cs|, i + 1) + [(i + 1, |kids|)];
    } else {
      PathAscends(kids, stack, i, |stack| - 1);
      assert Links(kids, x, stack[i + 1]);
      GrownWalkAll(kids, p, x, |cs| - 1, i + 1);
      PathGrows(kids, stack, i + 1);
      assert next[x] == cs;
    }
  }

  lemma {:induction false} PathAscends(kids: Kids, stack: seq<nat>, i: nat, j: nat)
    requires Formed(kids) && Path(kids, stack) && i < j < |stack|
    ensures stack[i] < stack[j]
    decreases j - i
  {
    assert Links(kids, stack[i], stack[i + 1]);
    assert stack[i] < stack[i + 1];
    if i + 1 < j {
      PathAscends(kids, stack, i + 1, j);
    }
  }

  lemma {:induction false} GrownAvoids(kids: Kids, p: nat, x: nat, q: nat)
    requires Formed(kids) && p < |kids| && x < |kids| && Avoids(kids, x, p)
    requires q == |kids| || Avoids(kids, x, q)
    ensures Formed(Grown(kids, p)) && Avoids(Grown(kids, p), x, q)
    decreases |kids| - x
  {
    GrownIsFormed(kids, p);
    forall k | 0 <= k < |kids[x]| ensures Avoids(Grown(kids, p), kids[x][k], q) {
      GrownAvoids(kids, p, kids[x][k], q);
    }
  }

  /** The whole invariant of the stack. */
  ghost predicate OnPath(kids: Kids, stack: seq<nat>) {
    Formed(kids) && Path(kids, stack) && Clear(kids, stack)
  }

  lemma PopKeepsPath(kids: Kids, stack: seq<nat>, d: nat)
    requires OnPath(kids, stack) && 1 <= d <= |stack|
    ensures OnPath(kids, stack[..d])
  {
    forall i | 0 <= i < |stack[..d]| - 1 ensures Links(kids, stack[..d][i], stack[..d][i + 1]) {
      assert Links(kids, stack[i], stack[i + 1]);
    }
  }

  lemma PushKeepsLinks(kids: Kids, stack: seq<nat>)
    requires OnPath(kids, stack)
    ensures Formed(Grown(kids, stack[|stack| - 1])) && Path(Grown(kids, stack[|stack| - 1]), stack + [|kids|])
  {
    var p, longer := stack[|stack| - 1], stack + [|kids|];
    GrownIsFormed(kids, p);
    forall i | 0 <= i < |longer| - 1 ensures Links(Grown(kids, p), longer[i], longer[i + 1]) {
      if i < |stack| - 1 {
        assert Links(kids, stack[i], stack[i + 1]);
        PathAscends(kids, stack, i, |stack| - 1);
      }
    }
  }

  lemma PushKeepsPath(kids: Kids, stack: seq<nat>)
    requires OnPath(kids, stack)
    ensures OnPath(Grown(kids, stack[|stack| - 1]), stack + [|kids|])
  {
    var p, longer := stack[|stack| - 1], stack + [|kids|];
    var next := Grown(kids, p);
    PushKeepsLinks(kids, stack);
    forall i, j, k | 0 <= i < j < |longer| && 0 <= k < |next[longer[i]]| - 1
      ensures Avoids(next, next[longer[i]][k], longer[j])
    {
      var x := longer[i];
      if i == |stack| - 1 {
        YoungerAvoids(kids, kids[p][k], p);
      } else {
        PathAscends(kids, stack, i, |stack| - 1);
        assert Avoids(kids, kids[x][k], stack[|stack| - 1]);
        if j < |stack| {
          assert Avoids(kids, kids[x][k], stack[j]);
        }
      }
      GrownAvoids(kids, p, kids[x][k], longer[j]);
    }
  }

  // ---------------------------------------------------------------- the lines

  predicate Known(section: string) {
    section in {"General", "Database", "Probes", "Alerts", "Targets"}
  }

  /** The last section header names no known section. */
  function InUnknown(lines: seq<Line>): bool {
    if lines == [] then false
    else var l := lines[|lines| - 1]; if l.kind.Section? then !Known(l.section) else InUnknown(lines[..|lines| - 1])
  }

  predicate Content(l: Line) { l.kind.NodeLine? || l.kind.Assign? }

  /** A content line of the Targets section, or of a fragment with no section header yet. */
  predicate IsTargetLine(l: Line, unknown: bool) {
    !unknown && Content(l) && (l.section == "" || l.section == "Targets")
  }

  function TargetLines(lines: seq<Line>): seq<Line> {
    if lines == [] then []
    else
      var before, l := lines[..|lines| - 1], lines[|lines| - 1];
      if IsTargetLine(l, InUnknown(before)) then TargetLines(before) + [l] else TargetLines(before)
  }

  function NodeLines(ts: seq<Line>): seq<Line> {
    if ts == [] then []
    else
      var before, l := NodeLines(ts[..|ts| - 1]), ts[|ts| - 1];
      if l.kind.NodeLine? then before + [l] else before
  }

  /** The assigns after the id'th node line and before the next; the root's come first. */
  function AssignsTo(ts: seq<Line>, id: nat): seq<Line> {
    if ts == [] then []
    else
      var before, l := ts[..|ts| - 1], ts[|ts| - 1];
      if !l.kind.NodeLine? && |NodeLines(before)| == id then AssignsTo(before, id) + [l] else AssignsTo(before, id)
  }

  /** The last write to each name. */
  function ParamsOf(assigns: seq<Line>): map<string, string> {
    if assigns == [] then map[]
    else var l := assigns[|assigns| - 1]; ParamsOf(assigns[..|assigns| - 1])[l.name := l.value]
  }

  /** The names written, in the order of their first writes. */
  function KeysOf(assigns: seq<Line>): seq<string> {
    if assigns == [] then []
    else
      var before, l := KeysOf(assigns[..|assigns| - 1]), assigns[|assigns| - 1];
      if l.name in before then before else before + [l.name]
  }

  /** The names a node lists are the names it has values for. */
  lemma {:induction false} KeysAreParams(assigns: seq<Line>)
    ensures forall k :: k in KeysOf(assigns) <==> k in ParamsOf(assigns)
    ensures forall i, j :: 0 <= i < j < |KeysOf(assigns)| ==> KeysOf(assigns)[i] != KeysOf(assigns)[j]
  {
    if assigns != [] {
      KeysAreParams(assigns[..|assigns| - 1]);
    }
  }

  /** The depth of the last node line. */
  function Level(ts: seq<Line>): nat {
    var ns := NodeLines(ts); if ns == [] then 0 else ns[|ns| - 1].depth
  }

  /** No node line is more than one deeper than the one before it. */
  predicate Stepped(ts: seq<Line>) {
    ts == [] ||
    (Stepped(ts[..|ts| - 1]) && (ts[|ts| - 1].kind.NodeLine? ==> ts[|ts| - 1].depth <= Level(ts[..|ts| - 1]) + 1))
  }

  /** As the tokenizer makes them: a node line has at least one plus. */
  predicate Tokenized(lines: seq<Line>) {
    forall i :: 0 <= i < |lines| && lines[i].kind.NodeLine? ==> lines[i].depth >= 1
  }

  datatype ProbeState = ProbeState(ok: bool, depth: nat)

  /** The probes section's own stack: a subprobe needs a parent, an assign a probe. */
  function ProbeStep(p: ProbeState, l: Line, unknown: bool): ProbeState {
    if !p.ok then p
    else if l.kind.Section? then ProbeState(true, 0)
    else if unknown || l.section != "Probes" then p
    else if l.kind.NodeLine? then
      var kept := if p.depth < l.depth then p.depth else if l.depth == 0 then 0 else l.depth - 1;
      if l.depth != 1 && kept == 0 then ProbeState(false, 0) else ProbeState(true, kept + 1)
    else if l.kind.Assign? && p.depth == 0 then ProbeState(false, 0)
    else p
  }

  function Probes(lines: seq<Line>): ProbeState {
    if lines == [] then ProbeState(true, 0)
    else ProbeStep(Probes(lines[..|lines| - 1]), lines[|lines| - 1], InUnknown(lines[..|lines| - 1]))
  }

  predicate Buildable(lines: seq<Line>) {
    Stepped(TargetLines(lines)) && Probes(lines).ok
  }

  /** Line i is one of a known Probes section. */
  ghost predicate InProbes(lines: seq<Line>, i: nat)
    requires i < |lines|
  {
    Content(lines[i]) && lines[i].section == "Probes" && !InUnknown(lines[..i])
  }

  /** Line j names a probe, and no section header stands between it and line i. */
  ghost predicate Heads(lines: seq<Line>, j: nat, i: nat)
    requires j < i <= |lines|
  {
    lines[j].kind.NodeLine? && InProbes(lines, j) && forall x :: x in lines[j + 1..i] ==> !x.kind.Section?
  }

  ghost predicate AfterProbe(lines: seq<Line>, i: nat)
    requires i <= |lines|
  {
    exists j :: 0 <= j < i && Heads(lines, j, i)
  }

  /** Line i of the Probes section needs a probe before it: a subprobe, or an assign. */
  ghost predicate NeedsProbe(lines: seq<Line>, i: nat)
    requires i < |lines|
  {
    InProbes(lines, i) && (lines[i].kind.NodeLine? ==> lines[i].depth > 1)
  }

  ghost predicate NoOrphan(lines: seq<Line>) {
    forall i :: 0 <= i < |lines| && NeedsProbe(lines, i) ==> AfterProbe(lines, i)
  }

  lemma PrefixSees(lines: seq<Line>, l: Line, i: nat)
    requires i <= |lines|
    ensures i < |lines| ==> InProbes(lines + [l], i) == InProbes(lines, i) && NeedsProbe(lines + [l], i) == NeedsProbe(lines, i)
    ensures AfterProbe(lines + [l], i) == AfterProbe(lines, i)
  {
    forall j: nat | j <= |lines|
      ensures (lines + [l])[..j] == lines[..j] && (j < i ==> Heads(lines + [l], j, i) == Heads(lines, j, i))
    {
      assert (lines + [l])[..j] == lines[..j];
      assert j < i ==> (lines + [l])[j + 1..i] == lines[j + 1..i];
    }
  }

  lemma AfterProbeNext(lines: seq<Line>, l: Line)
    ensures var all, n := lines + [l], |lines|;
            AfterProbe(all, n + 1) <==> (l.kind.NodeLine? && InProbes(all, n)) || (!l.kind.Section? && AfterProbe(lines, n))
  {
    var all, n := lines + [l], |lines|;
    PrefixSees(lines, l, n);
    assert Heads(all, n, n + 1) <==> l.kind.NodeLine? && InProbes(all, n);
    forall j: nat | j < n ensures Heads(all, j, n + 1) <==> !l.kind.Section? && Heads(all, j, n) {
      assert all[j + 1..n + 1] == all[j + 1..n] + [l];
    }
    if AfterProbe(all, n + 1) {
      var j: nat :| j < n + 1 && Heads(all, j, n + 1);
      if j < n {
        assert Heads(all, j, n);
      }
    }
    if !l.kind.Section? && AfterProbe(all, n) {
      var j: nat :| j < n && Heads(all, j, n);
      assert Heads(all, j, n + 1);
    }
  }

  /** The probes section passes exactly when every subprobe and every assign in it comes
      after a probe, with no section header between. */
  lemma {:induction false} ProbesIff(lines: seq<Line>)
    requires Tokenized(lines)
    ensures Probes(lines).ok <==> NoOrphan(lines)
    ensures Probes(lines).ok ==> (Probes(lines).depth > 0 <==> AfterProbe(lines, |lines|))
  {
    if lines != [] {
      var n := |lines| - 1;
      var before, l := lines[..n], lines[n];
      assert lines == before + [l];
      ProbesIff(before);
      AfterProbeNext(before, l);
      OrphanNext(before, l);
    }
  }

  lemma OrphanNext(lines: seq<Line>, l: Line)
    ensures NoOrphan(lines + [l])
            <==> NoOrphan(lines) && (NeedsProbe(lines + [l], |lines|) ==> AfterProbe(lines, |lines|))
    ensures InProbes(lines + [l], |lines|) <==> Content(l) && l.section == "Probes" && !InUnknown(lines)
  {
    var all, n := lines + [l], |lines|;
    assert all[..n] == lines;
    forall i: nat | i <= n
      ensures i < n ==> NeedsProbe(all, i) == NeedsProbe(lines, i)
      ensures AfterProbe(all, i) == AfterProbe(lines, i)
    {
      PrefixSees(lines, l, i);
    }
  }

  /** The root at depth 0, then each node line at its own. */
  function OutlineOf(ns: seq<Line>): seq<(nat, nat)> {
    if ns == [] then [(0, 0)] else OutlineOf(ns[..|ns| - 1]) + [(ns[|ns| - 1].depth, |ns|)]
  }

  function Outline(ts: seq<Line>): seq<(nat, nat)> { OutlineOf(NodeLines(ts)) }

  lemma {:induction false} OutlineCounts(ns: seq<Line>)
    ensures |OutlineOf(ns)| == |ns| + 1
    ensures OutlineOf(ns)[|ns|].0 == if ns == [] then 0 else ns[|ns| - 1].depth
  {
    if ns != [] {
      OutlineCounts(ns[..|ns| - 1]);
    }
  }

  ghost predicate Holds(n: Node, assigns: seq<Line>) {
    n.params == ParamsOf(assigns) && n.keys == KeysOf(assigns)
  }

  /** Each node is its line: its name, and its assigns' last values in first-write order. */
  ghost predicate Labelled(nodes: seq<Node>, ts: seq<Line>) {
    && |nodes| == |NodeLines(ts)| + 1
    && (forall i :: 0 <= i < |NodeLines(ts)| ==> nodes[i + 1].name == NodeLines(ts)[i].name)
    && (forall x: nat :: x < |nodes| ==> Holds(nodes[x], AssignsTo(ts, x)))
  }

  /** The tree read in preorder is the lines. */
  ghost predicate Mirrors(nodes: seq<Node>, ts: seq<Line>) {
    Labelled(nodes, ts) && Formed(Shape(nodes)) && Walk(Shape(nodes), 0, 0) == Outline(ts)
  }

  /** The program's state after the lines ts of the Targets section. */
  ghost predicate Stands(nodes: seq<Node>, stack: seq<nat>, ts: seq<Line>) {
    && Mirrors(nodes, ts) && OnPath(Shape(nodes), stack)
    && |stack| == Level(ts) + 1 && stack[|stack| - 1] == |nodes| - 1
  }

  // ---------------------------------------------------------------- the program

  function WithParam(n: Node, k: string, v: string): Node {
    n.(keys := if k in n.keys then n.keys else n.keys + [k], params := n.params[k := v])
  }

  function WithChild(nodes: seq<Node>, p: nat, name: string): seq<Node>
    requires p < |nodes|
  {
    nodes[p := nodes[p].(children := nodes[p].children + [|nodes|])] + [Node(name, map[], [], [])]
  }

  lemma LineAppends(ts: seq<Line>, l: Line)
    ensures (ts + [l])[..|ts + [l]| - 1] == ts && (ts + [l])[|ts + [l]| - 1] == l
  {
  }

  lemma {:induction false} NoAssignsYet(ts: seq<Line>, id: nat)
    requires |NodeLines(ts)| < id
    ensures AssignsTo(ts, id) == []
  {
    if ts != [] {
      NoAssignsYet(ts[..|ts| - 1], id);
    }
  }

  lemma NodeLabels(nodes: seq<Node>, ts: seq<Line>, p: nat, l: Line)
    requires Labelled(nodes, ts) && p < |nodes| && l.kind.NodeLine?
    ensures Labelled(WithChild(nodes, p, l.name), ts + [l])
  {
    LineAppends(ts, l);
    NoAssignsYet(ts, |nodes|);
  }

  lemma AssignGrows(ts: seq<Line>, l: Line, x: nat)
    requires l.kind.Assign?
    ensures NodeLines(ts + [l]) == NodeLines(ts)
    ensures AssignsTo(ts + [l], x) == if x == |NodeLines(ts)| then AssignsTo(ts, x) + [l] else AssignsTo(ts, x)
  {
    LineAppends(ts, l);
  }

  lemma WriteHolds(n: Node, assigns: seq<Line>, l: Line)
    requires Holds(n, assigns)
    ensures Holds(WithParam(n, l.name, l.value), assigns + [l])
  {
    LineAppends(assigns, l);
  }

  lemma AssignLabels(nodes: seq<Node>, last: nat, ts: seq<Line>, l: Line)
    requires Labelled(nodes, ts) && l.kind.Assign? && last == |nodes| - 1
    ensures Labelled(nodes[last := WithParam(nodes[last], l.name, l.value)], ts + [l])
  {
    var written := WithParam(nodes[last], l.name, l.value);
    assert Holds(nodes[last], AssignsTo(ts, last));
    WriteHolds(nodes[last], AssignsTo(ts, last), l);
    AssignGrows(ts, l, last);
    forall x: nat | x < |nodes| ensures Holds(nodes[last := written][x], AssignsTo(ts + [l], x)) {
      AssignGrows(ts, l, x);
      assert Holds(nodes[x], AssignsTo(ts, x));
    }
    assert NodeLines(ts + [l]) == NodeLines(ts);
    assert forall x :: 0 <= x < |nodes| ==> nodes[last := written][x].name == nodes[x].name;
  }

  lemma NodeWalks(nodes: seq<Node>, stack: seq<nat>, name: string, d: nat)
    requires OnPath(Shape(nodes), stack) && 1 <= d <= |stack|
    ensures var next := Shape(WithChild(nodes, stack[d - 1], name));
            OnPath(next, stack[..d] + [|nodes|]) && Walk(next, 0, 0) == Walk(Shape(nodes), 0, 0) + [(d, |nodes|)]
  {
    var kids := Shape(nodes);
    PopKeepsPath(kids, stack, d);
    PushKeepsPath(kids, stack[..d]);
    PathGrows(kids, stack[..d], 0);
    assert Shape(WithChild(nodes, stack[d - 1], name)) == Grown(kids, stack[d - 1]);
  }

  lemma OutlineGrows(ts: seq<Line>, l: Line)
    ensures Outline(ts + [l]) == if l.kind.NodeLine? then Outline(ts) + [(l.depth, |NodeLines(ts)| + 1)] else Outline(ts)
    ensures Level(ts + [l]) == if l.kind.NodeLine? then l.depth else Level(ts)
  {
    LineAppends(ts, l);
    LineAppends(NodeLines(ts), l);
  }

  lemma NodeStands(nodes: seq<Node>, stack: seq<nat>, ts: seq<Line>, l: Line)
    requires Stands(nodes, stack, ts) && l.kind.NodeLine? && 1 <= l.depth <= |stack|
    ensures Stands(WithChild(nodes, stack[l.depth - 1], l.name), stack[..l.depth] + [|nodes|], ts + [l])
  {
    NodeWalks(nodes, stack, l.name, l.depth);
    NodeLabels(nodes, ts, stack[l.depth - 1], l);
    OutlineGrows(ts, l);
  }

  lemma AssignStands(nodes: seq<Node>, stack: seq<nat>, ts: seq<Line>, l: Line)
    requires Stands(nodes, stack, ts) && l.kind.Assign?
    ensures var last := |nodes| - 1;
            Stands(nodes[last := WithParam(nodes[last], l.name, l.value)], stack, ts + [l])
  {
    var last := |nodes| - 1;
    AssignLabels(nodes, last, ts, l);
    OutlineGrows(ts, l);
    assert Shape(nodes[last := WithParam(nodes[last], l.name, l.value)]) == Shape(nodes);
  }

  /** The program's state after some lines. */
  ghost predicate Reads(lines: seq<Line>, unknown: bool, probes: nat, nodes: seq<Node>, stack: seq<nat>) {
    && unknown == InUnknown(lines) && Probes(lines) == ProbeState(true, probes)
    && Stepped(TargetLines(lines)) && Stands(nodes, stack, TargetLines(lines))
  }

  /** A line outside the Targets section leaves the tree alone. */
  lemma OtherLine(lines: seq<Line>, l: Line, unknown: bool, probes: nat, nodes: seq<Node>, stack: seq<nat>)
    requires Reads(lines, unknown, probes, nodes, stack) && !IsTargetLine(l, unknown)
    requires ProbeStep(ProbeState(true, probes), l, unknown).ok
    ensures Reads(lines + [l], if l.kind.Section? then !Known(l.section) else unknown,
                  ProbeStep(ProbeState(true, probes), l, unknown).depth, nodes, stack)
  {
    LineAppends(lines, l);
  }

  lemma TargetLine(lines: seq<Line>, l: Line, unknown: bool, probes: nat, nodes: seq<Node>, stack: seq<nat>, next: seq<Node>, path: seq<nat>)
    requires Reads(lines, unknown, probes, nodes, stack) && IsTargetLine(l, unknown)
    requires Stands(next, path, TargetLines(lines) + [l]) && (l.kind.NodeLine? ==> l.depth <= |stack|)
    ensures Reads(lines + [l], unknown, probes, next, path)
  {
    LineAppends(lines, l);
    LineAppends(TargetLines(lines), l);
  }

  /** A line the program stops at. */
  predicate Fails(l: Line, unknown: bool, probes: nat, stack: seq<nat>) {
    || !ProbeStep(ProbeState(true, probes), l, unknown).ok
    || (IsTargetLine(l, unknown) && l.kind.NodeLine? && l.depth > |stack|)
  }

  lemma BadLine(lines: seq<Line>, n: nat, unknown: bool, probes: nat, nodes: seq<Node>, stack: seq<nat>)
    requires n < |lines| && Reads(lines[..n], unknown, probes, nodes, stack) && Fails(lines[n], unknown, probes, stack)
    ensures !Buildable(lines)
  {
    assert lines[..n + 1] == lines[..n] + [lines[n]];
    LineAppends(lines[..n], lines[n]);
    LineAppends(TargetLines(lines[..n]), lines[n]);
    PrefixFails(lines, n + 1);
  }

  /** The probe section's stack after one of its lines, or nothing when it has no parent. */
  method ProbeLine(probes: nat, l: Line) returns (ok: bool, next: nat)
    requires Content(l) && (l.kind.NodeLine? ==> l.depth >= 1) && l.section == "Probes"
    ensures ProbeStep(ProbeState(true, probes), l, false) == ProbeState(ok, next)
  {
    next := probes;
    if l.kind.NodeLine? {
      while next >= l.depth
        invariant next == probes || l.depth - 1 <= next < probes
      {
        next := next - 1;
      }
      if l.depth != 1 && next == 0 {
        return false, 0;
      }
      return true, next + 1;
    }
    if probes == 0 {
      return false, 0;
    }
    ok := true;
  }

  /** One line of the Targets section: a node under the parent the stack keeps for its
      depth, or an assign to the newest node. */
  method TargetsLine(ghost lines: seq<Line>, ghost probes: nat, l: Line, nodes: seq<Node>, stack: seq<nat>, current: nat)
    returns (next: seq<Node>, path: seq<nat>, newest: nat)
    requires Reads(lines, false, probes, nodes, stack) && current == |nodes| - 1
    requires IsTargetLine(l, false) && (l.kind.NodeLine? ==> 1 <= l.depth <= |stack|)
    ensures Reads(lines + [l], false, probes, next, path) && newest == |next| - 1
  {
    if l.kind.NodeLine? {
      NodeStands(nodes, stack, TargetLines(lines), l);
      path := stack[..l.depth];
      next := WithChild(nodes, path[|path| - 1], l.name);
      newest := |next| - 1;
      path := path + [newest];
    } else {
      AssignStands(nodes, stack, TargetLines(lines), l);
      next, path, newest := nodes[current := WithParam(nodes[current], l.name, l.value)], stack, current;
    }
    TargetLine(lines, l, false, probes, nodes, stack, next, path);
  }

  /** One line of any other section. */
  method OtherSection(ghost lines: seq<Line>, unknown: bool, probes: nat, l: Line, ghost nodes: seq<Node>, ghost stack: seq<nat>)
    returns (ok: bool, after: bool, kept: nat)
    requires Reads(lines, unknown, probes, nodes, stack)
    requires !IsTargetLine(l, unknown) && (l.kind.NodeLine? ==> l.depth >= 1)
    ensures ok == ProbeStep(ProbeState(true, probes), l, unknown).ok
    ensures ok ==> Reads(lines + [l], after, kept, nodes, stack)
  {
    ok, after, kept := true, unknown, probes;
    if l.kind.Section? {
      kept := 0;
      after := !Known(l.section);
    } else if Content(l) && !unknown && l.section == "Probes" {
      ok, kept := ProbeLine(probes, l);
    }
    if ok {
      OtherLine(lines, l, unknown, probes, nodes, stack);
    }
  }

  /** One line. */
  method Feed(ghost done: seq<Line>, l: Line, unknown: bool, probes: nat, nodes: seq<Node>, stack: seq<nat>, current: nat)
    returns (ok: bool, after: bool, kept: nat, next: seq<Node>, path: seq<nat>, newest: nat)
    requires Reads(done, unknown, probes, nodes, stack) && current == |nodes| - 1 && Tokenized([l])
    ensures ok ==> Reads(done + [l], after, kept, next, path) && newest == |next| - 1
    ensures !ok ==> Fails(l, unknown, probes, stack)
  {
    assert [l][0].kind.NodeLine? ==> l.depth >= 1;
    ok, after, kept, next, path, newest := true, unknown, probes, nodes, stack, current;
    if unknown || !Content(l) || (l.section != "" && l.section != "Targets") {
      ok, after, kept := OtherSection(done, unknown, probes, l, nodes, stack);
    } else if l.kind.NodeLine? && l.depth > |stack| {
      ok := false;
    } else {
      next, path, newest := TargetsLine(done, probes, l, nodes, stack, current);
    }
  }

  /** Folds the lines; fails on a target that jumps depth and on a probe line with no probe. */
  method Build(lines: seq<Line>) returns (ok: bool, nodes: seq<Node>)
    requires Tokenized(lines)
    ensures ok == Buildable(lines)
    ensures ok ==> Mirrors(nodes, TargetLines(lines))
  {
    nodes := [Node("", map[], [], [])];
    var stack: seq<nat> := [0];
    var current: nat, probes: nat, unknown := 0, 0, false;
    ghost var done: seq<Line> := [];
    var i := 0;
    while i < |lines|
      invariant i <= |lines| && done == lines[..i]
      invariant Reads(done, unknown, probes, nodes, stack) && current == |nodes| - 1
    {
      var fine, after, kept, next, path, newest := Feed(done, lines[i], unknown, probes, nodes, stack, current);
      if !fine {
        BadLine(lines, i, unknown, probes, nodes, stack);
        return false, nodes;
      }
      unknown, probes, nodes, stack, current := after, kept, next, path, newest;
      done := done + [lines[i]];
      i := i + 1;
    }
    assert done == lines;
    ok := true;
  }

  /** A line that fails fails every longer input. */
  lemma {:induction false} PrefixFails(lines: seq<Line>, n: nat)
    requires n <= |lines| && !Buildable(lines[..n])
    ensures !Buildable(lines)
    decreases |lines| - n
  {
    if n < |lines| {
      var l := lines[n];
      assert lines[..n + 1] == lines[..n] + [l];
      LineAppends(lines[..n], l);
      LineAppends(TargetLines(lines[..n]), l);
      PrefixFails(lines, n + 1);
    } else {
      assert lines[..n] == lines;
    }
  }

  // ---------------------------------------------------------------- the tree and its preorder

  datatype Tree = Tree(id: nat, children: seq<Tree>)

  /** A forest's preorder, its roots at depth d. */
  function Flat(ts: seq<Tree>, d: nat): seq<(nat, nat)> {
    if ts == [] then [] else [(d, ts[0].id)] + (Flat(ts[0].children, d + 1) + Flat(ts[1..], d))
  }

  predicate Shallower(p: seq<(nat, nat)>, d: nat) { p == [] || p[0].0 < d }

  lemma FlatHead(f: seq<Tree>, d: nat, p: seq<(nat, nat)>)
    requires f != []
    ensures Flat(f, d) + p != [] && (Flat(f, d) + p)[0] == (d, f[0].id)
    ensures (Flat(f, d) + p)[1..] == Flat(f[0].children, d + 1) + (Flat(f[1..], d) + p)
  {
    var rest := Flat(f[0].children, d + 1) + (Flat(f[1..], d) + p);
    assert Flat(f, d) + p == [(d, f[0].id)] + rest;
  }

  /** A forest can be read back from its preorder and whatever shallower follows it. */
  lemma {:induction false} FlatSplits(f: seq<Tree>, g: seq<Tree>, d: nat, p: seq<(nat, nat)>, q: seq<(nat, nat)>)
    requires Shallower(p, d) && Shallower(q, d) && Flat(f, d) + p == Flat(g, d) + q
    ensures f == g && p == q
    decreases f
  {
    if f == [] && g == [] {
      assert Flat(f, d) + p == p && Flat(g, d) + q == q;
    } else if f == [] {
      assert Flat(f, d) + p == p;
      FlatHead(g, d, q);
    } else if g == [] {
      assert Flat(g, d) + q == q;
      FlatHead(f, d, p);
    } else {
      FlatHead(f, d, p);
      FlatHead(g, d, q);
      ShallowerFollows(f[1..], d, p);
      ShallowerFollows(g[1..], d, q);
      FlatSplits(f[0].children, g[0].children, d + 1, Flat(f[1..], d) + p, Flat(g[1..], d) + q);
      FlatSplits(f[1..], g[1..], d, p, q);
      assert f == [f[0]] + f[1..] && g == [g[0]] + g[1..];
    }
  }

  lemma ShallowerFollows(f: seq<Tree>, d: nat, p: seq<(nat, nat)>)
    requires Shallower(p, d)
    ensures Shallower(Flat(f, d) + p, d + 1)
  {
    if f != [] {
      FlatHead(f, d, p);
    } else {
      assert Flat(f, d) + p == p;
    }
  }

  /** The subtree of x, and the subtrees of its first n children, as values. */
  ghost function Under(kids: Kids, x: nat): Tree
    requires Formed(kids) && x < |kids|
    decreases |kids| - x, |kids[x]| + 1
  {
    Tree(x, UnderAll(kids, x, |kids[x]|))
  }

  ghost function UnderAll(kids: Kids, x: nat, n: nat): seq<Tree>
    requires Formed(kids) && x < |kids| && n <= |kids[x]|
    decreases |kids| - x, n
  {
    if n == 0 then [] else UnderAll(kids, x, n - 1) + [Under(kids, kids[x][n - 1])]
  }

  lemma {:induction false} FlatConcat(f: seq<Tree>, g: seq<Tree>, d: nat)
    ensures Flat(f + g, d) == Flat(f, d) + Flat(g, d)
  {
    if f == [] {
      assert f + g == g;
    } else {
      assert (f + g)[1..] == f[1..] + g;
      FlatConcat(f[1..], g, d);
    }
  }

  lemma {:induction false} FlatIsWalk(kids: Kids, x: nat, d: nat)
    requires Formed(kids) && x < |kids|
    ensures Flat([Under(kids, x)], d) == Walk(kids, x, d)
    decreases |kids| - x, |kids[x]| + 1
  {
    FlatIsWalkAll(kids, x, |kids[x]|, d + 1);
  }

  lemma {:induction false} FlatIsWalkAll(kids: Kids, x: nat, n: nat, d: nat)
    requires Formed(kids) && x < |kids| && n <= |kids[x]|
    ensures Flat(UnderAll(kids, x, n), d) == WalkAll(kids, x, n, d)
    decreases |kids| - x, n
  {
    if n > 0 {
      FlatIsWalkAll(kids, x, n - 1, d);
      FlatIsWalk(kids, kids[x][n - 1], d);
      FlatConcat(UnderAll(kids, x, n - 1), [Under(kids, kids[x][n - 1])], d);
    }
  }

  /** Whatever tree the lines are the preorder of, that is the tree built. */
  lemma BuildInvertsFlattening(nodes: seq<Node>, ts: seq<Line>, t: Tree)
    requires Mirrors(nodes, ts) && Flat([t], 0) == Outline(ts)
    ensures Under(Shape(nodes), 0) == t
  {
    FlatIsWalk(Shape(nodes), 0, 0);
    assert Flat([Under(Shape(nodes), 0)], 0) + [] == Flat([t], 0) + [];
    FlatSplits([Under(Shape(nodes), 0)], [t], 0, [], []);
  }

  ghost predicate NoJump(s: seq<(nat, nat)>) {
    forall i :: 0 <= i < |s| - 1 ==> s[i + 1].0 <= s[i].0 + 1
  }

  lemma {:induction false} FlatNeverJumps(f: seq<Tree>, d: nat)
    ensures NoJump(Flat(f, d)) && forall i :: 0 <= i < |Flat(f, d)| ==> Flat(f, d)[i].0 >= d
    ensures f != [] ==> Flat(f, d)[0].0 == d
    decreases f
  {
    if f != [] {
      FlatNeverJumps(f[0].children, d + 1);
      FlatNeverJumps(f[1..], d);
      var inner, rest := Flat(f[0].children, d + 1), Flat(f[1..], d);
      assert f[1..] == [] ==> rest == [];
      assert f[0].children == [] ==> inner == [];
    }
  }

  lemma {:induction false} NoJumpIsStepped(ts: seq<Line>)
    requires NoJump(Outline(ts))
    ensures Stepped(ts)
  {
    if ts != [] {
      var before, l := ts[..|ts| - 1], ts[|ts| - 1];
      assert ts == before + [l];
      OutlineGrows(before, l);
      var short, long := Outline(before), Outline(ts);
      OutlineCounts(NodeLines(before));
      assert forall i :: 0 <= i < |short| ==> long[i] == short[i];
      NoJumpIsStepped(before);
      if l.kind.NodeLine? {
        assert long[|short| - 1].0 == Level(before) && long[|short|].0 == l.depth;
        assert long[|short| - 1 + 1].0 <= long[|short| - 1].0 + 1;
      }
    }
  }

  /** The preorder of any tree is accepted. */
  lemma FlatIsStepped(ts: seq<Line>, t: Tree)
    requires Flat([t], 0) == Outline(ts)
    ensures Stepped(ts)
  {
    FlatNeverJumps([t], 0);
    NoJumpIsStepped(ts);
  }
}
