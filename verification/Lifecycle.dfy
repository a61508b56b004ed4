/** The scheduler's lifecycle: a loop that compares rebuild keys, builds, and swaps.

    The world (the stored configuration and the registry's mesh) changes at any point
    between the loop's own steps, and each change leaves a signal pending. The loop reads
    the configuration, then the mesh for the key, then the mesh again inside Build, so
    what it records and what it runs can come from different worlds; the theorems say
    when they agree. */
module Lifecycle {
  import opened Wrappers
  import opened Fingerprint
  import opened HealthSet

  type Mesh = Option<Set>

  /** What a scheduler was built from. */
  datatype Built = Built(cfg: Config, mesh: Mesh)

  datatype Run = Run(of: Built, cancelled: bool)

  datatype Notice = Reloaded(cfg: Config) | Rebuilt(cfg: Config)

  /** Where the loop stands; printed is the mesh its key was read from. */
  datatype Phase =
    | Initial(cfg: Config)
    | InitialPrinted(cfg: Config, printed: Mesh)
    | Idle
    | Received
    | Read(cfg: Config)
    | Printed(cfg: Config, printed: Mesh)
    | Ready(cfg: Config, printed: Mesh, built: Built)
    | Waiting(cfg: Config, printed: Mesh, built: Built)
    | Closing
    | Returned

  /** down says the context is cancelled; runs holds every scheduler whose Run has not
      returned. recorded is the mesh the recorded key was read from, past the meshes the
      world has left, failed whether the last changed key's build failed. */
  datatype State = State(cfg: Config, mesh: Mesh, pending: bool, down: bool, phase: Phase, key: string, runs: seq<Run>,
                         log: seq<Notice>, recorded: Mesh, past: set<Mesh>, failed: bool)

  datatype Event =
    | Change(newCfg: Config, newMesh: Mesh)  // the world moves, leaving a signal
    | Signal                                 // a signal without a change
    | Receive
    | ReadConfig
    | Print
    | Build(ok: bool)
    | Cancel
    | Exit                                   // a cancelled scheduler's Run returns
    | Swap
    | Shutdown                               // the context is cancelled, wherever the loop stands
    | Leave                                  // the loop's select sees that it is

  function Cancelled(runs: seq<Run>): seq<Run> {
    if runs == [] then [] else [runs[0].(cancelled := true)] + Cancelled(runs[1..])
  }

  function Live(runs: seq<Run>): seq<Run> {
    if runs == [] then [] else (if runs[0].cancelled then [] else [runs[0]]) + Live(runs[1..])
  }

  ghost function Step(s: State, e: Event, pr: Printer): State {
    match e
    case Change(cfg, mesh) =>
      s.(cfg := cfg, mesh := mesh, pending := true, past := if mesh == s.mesh then s.past else s.past + {s.mesh})
    case Signal => s.(pending := true)
    case Receive =>
      if s.phase.Idle? && s.pending then s.(pending := false, phase := Received) else s
    case ReadConfig =>
      if s.phase.Received? then s.(phase := Read(s.cfg), log := s.log + [Reloaded(s.cfg)]) else s
    case Print =>
      if s.phase.Initial? then s.(phase := InitialPrinted(s.phase.cfg, s.mesh))
      else if !s.phase.Read? then s
      else if Key(s.phase.cfg, pr, s.mesh) == s.key then s.(phase := Idle, failed := false)
      else s.(phase := Printed(s.phase.cfg, s.mesh))
    case Build(ok) =>
      if s.phase.InitialPrinted? then
        if !ok then s.(phase := Returned)
        else s.(phase := Idle, key := Key(s.phase.cfg, pr, s.phase.printed), recorded := s.phase.printed,
                runs := s.runs + [Run(Built(s.phase.cfg, s.mesh), s.down)])
      else if !s.phase.Printed? then s
      else if !ok then s.(phase := Idle, failed := true)
      else s.(phase := Ready(s.phase.cfg, s.phase.printed, Built(s.phase.cfg, s.mesh)))
    case Cancel =>
      if s.phase.Ready? then s.(phase := Waiting(s.phase.cfg, s.phase.printed, s.phase.built), runs := Cancelled(s.runs)) else s
    case Exit => s.(runs := Live(s.runs), phase := if s.phase.Closing? then Returned else s.phase)
    case Swap =>
      // schedDone is closed once the old Run has returned.
      if s.phase.Waiting? && s.runs == [] then
        s.(phase := Idle, key := Key(s.phase.cfg, pr, s.phase.printed), recorded := s.phase.printed, failed := false,
           runs := s.runs + [Run(s.phase.built, s.down)], log := s.log + [Rebuilt(s.phase.cfg)])
      else s
    case Shutdown => s.(down := true, runs := Cancelled(s.runs))
    case Leave => if s.phase.Idle? && s.down then s.(phase := Closing, runs := Cancelled(s.runs)) else s
  }

  ghost function After(s: State, es: seq<Event>, pr: Printer): State {
    if es == [] then s else Step(After(s, es[..|es| - 1], pr), es[|es| - 1], pr)
  }

  function Start(cfg: Config, mesh: Mesh): State {
    State(cfg, mesh, false, false, Initial(cfg), "", [], [], mesh, {}, false)
  }

  // ---------------------------------------------------------------- what every step keeps

  /** The one running scheduler, and the key recorded for it. A scheduler that outlives its
      context is cancelled, and may have returned already. */
  ghost predicate Running(s: State, pr: Printer) {
    if s.down then |s.runs| <= 1 && Live(s.runs) == []
    else |s.runs| == 1 && !s.runs[0].cancelled && s.key == Key(s.runs[0].of.cfg, pr, s.recorded)
  }

  ghost predicate Placed(s: State, pr: Printer) {
    match s.phase
    case Initial(_) => s.runs == []
    case InitialPrinted(_, _) => s.runs == []
    case Printed(cfg, printed) => Running(s, pr) && Key(cfg, pr, printed) != s.key
    case Ready(cfg, _, built) => Running(s, pr) && built.cfg == cfg
    case Waiting(cfg, _, built) => |s.runs| <= 1 && Live(s.runs) == [] && built.cfg == cfg
    case Closing => s.down && |s.runs| <= 1 && Live(s.runs) == []
    case Returned => s.runs == []
    case _ => Running(s, pr)
  }

  /** With no signal pending, what the loop has read is the world as it is. */
  ghost predicate Current(s: State, pr: Printer) {
    !s.pending ==>
      match s.phase
      case Initial(cfg) => cfg == s.cfg
      case InitialPrinted(cfg, printed) => cfg == s.cfg && printed == s.mesh
      case Idle => s.failed || s.key == Key(s.cfg, pr, s.mesh)
      case Read(cfg) => cfg == s.cfg
      case Printed(cfg, printed) => cfg == s.cfg && printed == s.mesh
      case Ready(cfg, printed, _) => cfg == s.cfg && printed == s.mesh
      case Waiting(cfg, printed, _) => cfg == s.cfg && printed == s.mesh
      case _ => true
  }

  ghost predicate Sane(s: State, pr: Printer) {
    Placed(s, pr) && Current(s, pr)
  }

  lemma StepKeepsCurrent(s: State, e: Event, pr: Printer)
    requires Current(s, pr)
    ensures Current(Step(s, e, pr), pr)
  {
  }

  lemma CancelledIsNotLive(runs: seq<Run>)
    requires |runs| <= 1
    ensures |Cancelled(runs)| == |runs| && Live(Cancelled(runs)) == [] && |Live(runs)| <= |runs|
    ensures |runs| == 1 && !runs[0].cancelled ==> Live(runs) == runs
  {
    if runs != [] {
      assert runs == [runs[0]] && runs[1..] == [];
      assert Cancelled(runs) == [runs[0].(cancelled := true)];
    }
  }

  lemma StopKeepsPlaced(s: State, e: Event, pr: Printer)
    requires Placed(s, pr) && (e.Cancel? || e.Exit? || e.Shutdown? || e.Leave?)
    ensures Placed(Step(s, e, pr), pr)
  {
    CancelledIsNotLive(s.runs);
  }

  lemma ReadKeepsPlaced(s: State, e: Event, pr: Printer)
    requires Placed(s, pr) && (e.ReadConfig? || e.Print?)
    ensures Placed(Step(s, e, pr), pr)
  {
  }

  lemma BuildKeepsPlaced(s: State, e: Event, pr: Printer)
    requires Placed(s, pr) && (e.Build? || e.Swap?)
    ensures Placed(Step(s, e, pr), pr)
  {
  }

  lemma StepKeepsPlaced(s: State, e: Event, pr: Printer)
    requires Placed(s, pr)
    ensures Placed(Step(s, e, pr), pr)
  {
    if e.Cancel? || e.Exit? || e.Shutdown? || e.Leave? {
      StopKeepsPlaced(s, e, pr);
    } else if e.ReadConfig? || e.Print? {
      ReadKeepsPlaced(s, e, pr);
    } else if e.Build? || e.Swap? {
      BuildKeepsPlaced(s, e, pr);
    }
  }

  lemma {:induction false} RunKeepsSane(cfg: Config, mesh: Mesh, es: seq<Event>, pr: Printer)
    ensures Sane(After(Start(cfg, mesh), es, pr), pr)
  {
    if es != [] {
      RunKeepsSane(cfg, mesh, es[..|es| - 1], pr);
      StepKeepsPlaced(After(Start(cfg, mesh), es[..|es| - 1], pr), es[|es| - 1], pr);
      StepKeepsCurrent(After(Start(cfg, mesh), es[..|es| - 1], pr), es[|es| - 1], pr);
    }
  }

  /** At most one scheduler's Run has not returned, whatever the world does meanwhile. */
  lemma AtMostOne(cfg: Config, mesh: Mesh, es: seq<Event>, pr: Printer)
    ensures |After(Start(cfg, mesh), es, pr).runs| <= 1
  {
    RunKeepsSane(cfg, mesh, es, pr);
  }

  lemma AfterMore(s: State, es: seq<Event>, e: Event, pr: Printer)
    ensures After(s, es + [e], pr) == Step(After(s, es, pr), e, pr)
  {
    assert (es + [e])[..|es|] == es;
  }

  /** When the loop has returned, so has every scheduler. */
  lemma ReturnedIsQuiet(cfg: Config, mesh: Mesh, es: seq<Event>, pr: Printer)
    requires After(Start(cfg, mesh), es, pr).phase.Returned?
    ensures After(Start(cfg, mesh), es, pr).runs == []
  {
    RunKeepsSane(cfg, mesh, es, pr);
  }

  /** OnRebuilt speaks only of the configuration now running, and only once it runs alone;
      past a cancelled context what runs is cancelled too. */
  lemma RebuiltIsRunning(s: State, e: Event, pr: Printer, cfg: Config)
    requires Placed(s, pr) && Step(s, e, pr).log == s.log + [Rebuilt(cfg)]
    ensures exists mesh :: Step(s, e, pr).runs == [Run(Built(cfg, mesh), s.down)]
  {
    var t := Step(s, e, pr);
    assert t.log[|s.log|] == Rebuilt(cfg);
    assert e.Swap? && t.runs == [Run(Built(cfg, s.phase.built.mesh), s.down)];
  }

  // ---------------------------------------------------------------- running the present world

  ghost predicate Settled(s: State) { s.phase.Idle? && !s.pending && !s.failed && !s.down }

  /** Every mesh the loop has read is one NewSet made. */
  ghost predicate Made(s: State) {
    && WellMade(s.mesh) && WellMade(s.recorded)
    && match s.phase
       case InitialPrinted(_, printed) => WellMade(printed)
       case Printed(_, printed) => WellMade(printed)
       case Ready(_, printed, _) => WellMade(printed)
       case Waiting(_, printed, _) => WellMade(printed)
       case _ => true
  }

  /** A mesh read for a key is the one its build read, unless the world has left it. */
  ghost predicate Kept(s: State, printed: Mesh, built: Mesh) { printed == built || printed in s.past }

  ghost predicate Paired(s: State) {
    && s.mesh !in s.past
    && (s.runs != [] && !s.runs[0].cancelled ==> Kept(s, s.recorded, s.runs[0].of.mesh))
    && match s.phase
       case InitialPrinted(_, printed) => Kept(s, printed, s.mesh)
       case Printed(_, printed) => Kept(s, printed, s.mesh)
       case Ready(_, printed, built) => Kept(s, printed, built.mesh)
       case Waiting(_, printed, built) => Kept(s, printed, built.mesh)
       case _ => true
  }

  /** The world never returns to a mesh it has left. */
  ghost predicate Calm(s: State, e: Event) { e.Change? ==> e.newMesh == s.mesh || e.newMesh !in s.past }

  lemma StepKeepsMade(s: State, e: Event, pr: Printer)
    requires Made(s) && (e.Change? ==> WellMade(e.newMesh))
    ensures Made(Step(s, e, pr))
  {
  }

  lemma StopKeepsPaired(s: State, e: Event, pr: Printer)
    requires Placed(s, pr) && Paired(s) && (e.Cancel? || e.Exit? || e.Shutdown? || e.Leave?)
    ensures Paired(Step(s, e, pr))
  {
    CancelledIsNotLive(s.runs);
  }

  lemma BuildKeepsPaired(s: State, ok: bool, pr: Printer)
    requires Placed(s, pr) && Paired(s)
    ensures Paired(Step(s, Build(ok), pr))
  {
  }

  lemma StepKeepsPaired(s: State, e: Event, pr: Printer)
    requires Placed(s, pr) && Paired(s) && Calm(s, e)
    ensures Paired(Step(s, e, pr))
  {
    if e.Cancel? || e.Exit? || e.Shutdown? || e.Leave? {
      StopKeepsPaired(s, e, pr);
    } else if e.Build? {
      BuildKeepsPaired(s, e.ok, pr);
    }
  }

  /** A run whose changes bring only well-made meshes, and, when calm, only new ones. */
  ghost predicate Possible(s: State, es: seq<Event>, pr: Printer, calm: bool) {
    forall i :: 0 <= i < |es| ==> (es[i].Change? ==> WellMade(es[i].newMesh)) && (calm ==> Calm(After(s, es[..i], pr), es[i]))
  }

  lemma {:induction false} RunKeeps(cfg: Config, mesh: Mesh, es: seq<Event>, pr: Printer, calm: bool)
    requires WellMade(mesh) && Possible(Start(cfg, mesh), es, pr, calm)
    ensures var s := After(Start(cfg, mesh), es, pr);
            Made(s) && (calm ==> Paired(s))
  {
    if es != [] {
      var before, e := es[..|es| - 1], es[|es| - 1];
      var s := After(Start(cfg, mesh), before, pr);
      forall i | 0 <= i < |before|
        ensures (before[i].Change? ==> WellMade(before[i].newMesh)) && (calm ==> Calm(After(Start(cfg, mesh), before[..i], pr), before[i]))
      {
        assert before[..i] == es[..i] && before[i] == es[i];
      }
      RunKeeps(cfg, mesh, before, pr, calm);
      RunKeepsSane(cfg, mesh, before, pr);
      StepKeepsMade(s, e, pr);
      if calm {
        StepKeepsPaired(s, e, pr);
      }
    }
  }

  // ---------------------------------------------------------------- which read, which build

  /** The mesh a run of events leaves the world with. */
  function MeshAfter(mesh: Mesh, es: seq<Event>): Mesh {
    if es == [] then mesh
    else if es[|es| - 1].Change? then es[|es| - 1].newMesh
    else MeshAfter(mesh, es[..|es| - 1])
  }

  /** Where in the run the key last read for a build was read, and where the last build
      was done; and the same of the scheduler now running. */
  datatype Marks = Marks(keyed: nat, built: nat, runKeyed: nat, runBuilt: nat)

  ghost function NextMarks(m: Marks, k: nat, before: State, e: Event, after: State): Marks {
    if before.phase == after.phase then m
    else if e.Print? && (after.phase.InitialPrinted? || after.phase.Printed?) then m.(keyed := k)
    else if e.Build? && after.phase.Ready? then m.(built := k)
    else if e.Build? && before.phase.InitialPrinted? then Marks(m.keyed, k, m.keyed, k)
    else if e.Swap? then m.(runKeyed := m.keyed, runBuilt := m.built)
    else m
  }

  ghost function MarksAfter(s: State, es: seq<Event>, pr: Printer): Marks {
    if es == [] then Marks(0, 0, 0, 0)
    else
      var k, e := |es| - 1, es[|es| - 1];
      var before := After(s, es[..k], pr);
      NextMarks(MarksAfter(s, es[..k], pr), k, before, e, Step(before, e, pr))
  }

  /** The meshes a state remembers are the world's at the marked events. */
  ghost predicate Marked(mesh: Mesh, s: State, es: seq<Event>, m: Marks) {
    && s.mesh == MeshAfter(mesh, es)
    && m.keyed <= |es| && m.built <= |es| && m.runKeyed <= |es| && m.runBuilt <= |es|
    && (s.runs != [] && !s.runs[0].cancelled ==>
          MeshAfter(mesh, es[..m.runKeyed]) == s.recorded && MeshAfter(mesh, es[..m.runBuilt]) == s.runs[0].of.mesh)
    && match s.phase
       case InitialPrinted(_, printed) => MeshAfter(mesh, es[..m.keyed]) == printed
       case Printed(_, printed) => MeshAfter(mesh, es[..m.keyed]) == printed
       case Ready(_, printed, built) =>
         MeshAfter(mesh, es[..m.keyed]) == printed && MeshAfter(mesh, es[..m.built]) == built.mesh
       case Waiting(_, printed, built) =>
         MeshAfter(mesh, es[..m.keyed]) == printed && MeshAfter(mesh, es[..m.built]) == built.mesh
       case _ => true
  }

  /** One event more moves no mark, and leaves the world's mesh as the event says. */
  lemma MarkedNext(mesh: Mesh, s: State, es: seq<Event>, m: Marks, e: Event)
    requires Marked(mesh, s, es, m)
    ensures Marked(mesh, s.(mesh := if e.Change? then e.newMesh else s.mesh), es + [e], m)
    ensures MeshAfter(mesh, (es + [e])[..|es|]) == s.mesh
  {
    var next := es + [e];
    assert next[..|es|] == es;
    assert next[..m.keyed] == es[..m.keyed] && next[..m.built] == es[..m.built];
    assert next[..m.runKeyed] == es[..m.runKeyed] && next[..m.runBuilt] == es[..m.runBuilt];
  }

  lemma CancelIsMarked(mesh: Mesh, s: State, es: seq<Event>, m: Marks, e: Event, pr: Printer)
    requires Marked(mesh, s, es, m) && |s.runs| <= 1 && (e.Cancel? || e.Shutdown? || e.Leave?)
    ensures Marked(mesh, Step(s, e, pr), es + [e], NextMarks(m, |es|, s, e, Step(s, e, pr)))
  {
    MarkedNext(mesh, s, es, m, e);
    CancelledIsNotLive(s.runs);
  }

  lemma ExitIsMarked(mesh: Mesh, s: State, es: seq<Event>, m: Marks, pr: Printer)
    requires Marked(mesh, s, es, m) && |s.runs| <= 1
    ensures Marked(mesh, Step(s, Exit, pr), es + [Exit], NextMarks(m, |es|, s, Exit, Step(s, Exit, pr)))
  {
    MarkedNext(mesh, s, es, m, Exit);
    CancelledIsNotLive(s.runs);
  }

  lemma PrintIsMarked(mesh: Mesh, s: State, es: seq<Event>, m: Marks, pr: Printer)
    requires Marked(mesh, s, es, m)
    ensures Marked(mesh, Step(s, Print, pr), es + [Print], NextMarks(m, |es|, s, Print, Step(s, Print, pr)))
  {
    MarkedNext(mesh, s, es, m, Print);
  }

  lemma BuildIsMarked(mesh: Mesh, s: State, es: seq<Event>, m: Marks, ok: bool, pr: Printer)
    requires Marked(mesh, s, es, m) && Placed(s, pr)
    ensures Marked(mesh, Step(s, Build(ok), pr), es + [Build(ok)], NextMarks(m, |es|, s, Build(ok), Step(s, Build(ok), pr)))
  {
    MarkedNext(mesh, s, es, m, Build(ok));
  }

  lemma SwapIsMarked(mesh: Mesh, s: State, es: seq<Event>, m: Marks, pr: Printer)
    requires Marked(mesh, s, es, m)
    ensures Marked(mesh, Step(s, Swap, pr), es + [Swap], NextMarks(m, |es|, s, Swap, Step(s, Swap, pr)))
  {
    MarkedNext(mesh, s, es, m, Swap);
  }

  lemma StepIsMarked(mesh: Mesh, s: State, es: seq<Event>, m: Marks, e: Event, pr: Printer)
    requires Marked(mesh, s, es, m) && Placed(s, pr)
    ensures Marked(mesh, Step(s, e, pr), es + [e], NextMarks(m, |es|, s, e, Step(s, e, pr)))
  {
    match e
    case Exit => ExitIsMarked(mesh, s, es, m, pr);
    case Print => PrintIsMarked(mesh, s, es, m, pr);
    case Build(ok) => BuildIsMarked(mesh, s, es, m, ok, pr);
    case Swap => SwapIsMarked(mesh, s, es, m, pr);
    case _ =>
      if e.Cancel? || e.Shutdown? || e.Leave? {
        CancelIsMarked(mesh, s, es, m, e, pr);
      } else {
        MarkedNext(mesh, s, es, m, e);
      }
  }

  lemma {:induction false} RunIsMarked(cfg: Config, mesh: Mesh, es: seq<Event>, pr: Printer)
    ensures Marked(mesh, After(Start(cfg, mesh), es, pr), es, MarksAfter(Start(cfg, mesh), es, pr))
  {
    if es != [] {
      var before, e := es[..|es| - 1], es[|es| - 1];
      assert before + [e] == es;
      RunIsMarked(cfg, mesh, before, pr);
      RunKeepsSane(cfg, mesh, before, pr);
      StepIsMarked(mesh, After(Start(cfg, mesh), before, pr), before, MarksAfter(Start(cfg, mesh), before, pr), e, pr);
    }
  }

  /** Once the loop has settled, its scheduler was built from the present configuration;
      and from the present mesh exactly when the mesh its build met was the one its key was
      read from, that is, when the world made no net move between those two events. */
  lemma SettledRuns(cfg: Config, mesh: Mesh, es: seq<Event>, pr: Printer)
    requires Sound(pr) && WellMade(mesh) && Possible(Start(cfg, mesh), es, pr, false)
    requires Settled(After(Start(cfg, mesh), es, pr))
    ensures var s, m := After(Start(cfg, mesh), es, pr), MarksAfter(Start(cfg, mesh), es, pr);
            && |s.runs| == 1 && s.runs[0].of.cfg == s.cfg && !s.runs[0].cancelled && s.recorded == s.mesh
            && m.runKeyed <= |es| && m.runBuilt <= |es|
            && (s.runs[0].of == Built(s.cfg, s.mesh)
                <==> MeshAfter(mesh, es[..m.runKeyed]) == MeshAfter(mesh, es[..m.runBuilt]))
  {
    var s := After(Start(cfg, mesh), es, pr);
    RunKeepsSane(cfg, mesh, es, pr);
    RunKeeps(cfg, mesh, es, pr, false);
    RunIsMarked(cfg, mesh, es, pr);
    KeyIsInjective(s.runs[0].of.cfg, s.cfg, pr, s.recorded, s.mesh);
  }

  /** When no mesh recurs, a settled loop runs the present world. */
  lemma SettledIsCurrent(cfg: Config, mesh: Mesh, es: seq<Event>, pr: Printer)
    requires Sound(pr) && WellMade(mesh) && Possible(Start(cfg, mesh), es, pr, true)
    requires Settled(After(Start(cfg, mesh), es, pr))
    ensures var s := After(Start(cfg, mesh), es, pr);
            s.runs == [Run(Built(s.cfg, s.mesh), false)]
  {
    SettledRuns(cfg, mesh, es, pr);
    RunKeeps(cfg, mesh, es, pr, true);
  }

  lemma AfterThree(s: State, a: Event, b: Event, c: Event, pr: Printer)
    ensures After(s, [a, b, c], pr) == Step(Step(Step(s, a, pr), b, pr), c, pr)
  {
    assert After(s, [a], pr) == Step(s, a, pr);
    assert [a, b][..1] == [a] && After(s, [a, b], pr) == Step(After(s, [a], pr), b, pr);
    assert [a, b, c][..2] == [a, b] && After(s, [a, b, c], pr) == Step(After(s, [a, b], pr), c, pr);
  }

  lemma {:induction false} AfterConcat(s: State, xs: seq<Event>, ys: seq<Event>, pr: Printer)
    ensures After(s, xs + ys, pr) == After(After(s, xs, pr), ys, pr)
  {
    if ys == [] {
      assert xs + ys == xs;
    } else {
      AfterConcat(s, xs, ys[..|ys| - 1], pr);
      assert (xs + ys)[..|xs + ys| - 1] == xs + ys[..|ys| - 1];
    }
  }

  lemma BuildsInBetween(cfg: Config, mesh: Mesh, passing: Mesh, pr: Printer)
    ensures var s := After(Start(cfg, mesh), [Print, Change(cfg, passing), Build(true)], pr);
            && s.phase.Idle? && !s.failed && !s.down && s.cfg == cfg && s.key == Key(cfg, pr, mesh)
            && s.runs == [Run(Built(cfg, passing), false)]
  {
    AfterThree(Start(cfg, mesh), Print, Change(cfg, passing), Build(true), pr);
  }

  lemma KeepsWhatRuns(s: State, mesh: Mesh, pr: Printer)
    requires s.phase.Idle? && !s.failed && !s.down && s.key == Key(s.cfg, pr, mesh)
    ensures var t := After(Step(s, Change(s.cfg, mesh), pr), [Receive, ReadConfig, Print], pr);
            Settled(t) && t.mesh == mesh && t.runs == s.runs
  {
    AfterThree(Step(s, Change(s.cfg, mesh), pr), Receive, ReadConfig, Print, pr);
  }

  /** A mesh that recurs can go unseen: it changes between the key and the build and back
      again, so the next key is the recorded one and the scheduler built from the mesh in
      between is kept. */
  lemma RecurrenceGoesUnseen(cfg: Config, mesh: Mesh, passing: Mesh, pr: Printer)
    requires mesh != passing
    ensures var s := After(Start(cfg, mesh), [Print, Change(cfg, passing), Build(true)] + ([Change(cfg, mesh)] + [Receive, ReadConfig, Print]), pr);
            && Settled(s) && s.mesh == mesh && s.runs == [Run(Built(cfg, passing), false)]
            && s.runs[0].of != Built(s.cfg, s.mesh)
  {
    var s := After(Start(cfg, mesh), [Print, Change(cfg, passing), Build(true)], pr);
    AfterConcat(Start(cfg, mesh), [Print, Change(cfg, passing), Build(true)], [Change(cfg, mesh)] + [Receive, ReadConfig, Print], pr);
    AfterConcat(s, [Change(cfg, mesh)], [Receive, ReadConfig, Print], pr);
    assert After(s, [Change(cfg, mesh)], pr) == Step(s, Change(cfg, mesh), pr);
    BuildsInBetween(cfg, mesh, passing, pr);
    KeepsWhatRuns(s, mesh, pr);
  }

  // ---------------------------------------------------------------- the program

  /** RunLifecycle's variables, and one turn of its loop. */
  class Loop {
    var key: string
    var runs: seq<Run>
    var log: seq<Notice>

    ghost predicate At(s: State)
      reads this
    {
      key == s.key && runs == s.runs && log == s.log
    }

    /** The run up to the first select: mesh is what the key's read found, built what
        Build's did. A failed first build is returned to the caller. */
    constructor (cfg: Config, mesh: Mesh, built: Mesh, ok: bool, pr: Printer)
      ensures At(Step(Step(Step(Start(cfg, mesh), Print, pr), Change(cfg, built), pr), Build(ok), pr))
    {
      var k := RebuildKey(cfg, pr, mesh);
      key, runs, log := "", [], [];
      if ok {
        key, runs := k, [Run(Built(cfg, built), false)];
      }
    }

    /** One signal: cfg is what Current returned, mesh what the key's read found, built
        what Build's read found. Returns when the loop is back at its select. */
    method Reload(ghost s: State, built: Mesh, ok: bool, cfg: Config, mesh: Mesh, pr: Printer)
      requires At(s) && !s.down && Running(s, pr) && s.phase.Received? && s.cfg == cfg && s.mesh == mesh
      modifies this
      ensures At(Turn(s, built, ok, pr))
    {
      log := log + [Reloaded(cfg)];
      var newKey := RebuildKey(cfg, pr, mesh);
      if newKey == key {
        TurnKeeps(s, built, ok, pr);
        return;
      }
      if !ok {
        TurnKeeps(s, built, ok, pr);
        return;
      }
      CancelledIsNotLive(runs);
      runs := Cancelled(runs);
      runs := Live(runs);
      TurnRebuilds(s, built, pr);
      key := newKey;
      runs := runs + [Run(Built(cfg, built), false)];
      log := log + [Rebuilt(cfg)];
    }
  }

  /** The turn's reads: the configuration, then the mesh for the key. */
  ghost function Opening(s: State, pr: Printer): State { Step(Step(s, ReadConfig, pr), Print, pr) }

  ghost function Building(s: State, built: Mesh, ok: bool, pr: Printer): State {
    Step(Step(s, Change(s.cfg, built), pr), Build(ok), pr)
  }

  ghost function Swapping(s: State, pr: Printer): State { Step(Step(Step(s, Cancel, pr), Exit, pr), Swap, pr) }

  /** The steps of one turn, with the world moving to built between the key and the build. */
  ghost function Turn(s: State, built: Mesh, ok: bool, pr: Printer): State {
    Swapping(Building(Opening(s, pr), built, ok, pr), pr)
  }

  lemma OpeningReads(s: State, pr: Printer)
    requires s.phase.Received?
    ensures var t := Opening(s, pr);
            && t.cfg == s.cfg && t.down == s.down && t.runs == s.runs && t.key == s.key && t.log == s.log + [Reloaded(s.cfg)]
            && t.phase == if Key(s.cfg, pr, s.mesh) == s.key then Idle else Printed(s.cfg, s.mesh)
  {
  }

  /** A build that fails changes neither what runs nor the key recorded for it, so the next
      signal finds the same world still unbuilt and builds it again. */
  lemma FailedBuildIsRetried(s: State, pr: Printer)
    requires Placed(s, pr) && s.phase == Printed(s.cfg, s.mesh)
    ensures var t := Opening(Step(Step(Step(s, Build(false), pr), Signal, pr), Receive, pr), pr);
            t.phase == s.phase && t.runs == s.runs && t.key == s.key && t.log == s.log + [Reloaded(s.cfg)]
  {
    var failed := Step(s, Build(false), pr);
    assert failed.phase == Idle && failed.key == s.key && failed.runs == s.runs && failed.log == s.log;
    var received := Step(Step(failed, Signal, pr), Receive, pr);
    assert received == failed.(pending := false, phase := Received);
    OpeningReads(received, pr);
  }

  lemma BuildingReads(s: State, built: Mesh, ok: bool, pr: Printer)
    requires s.phase.Idle? || s.phase.Printed?
    ensures var t := Building(s, built, ok, pr);
            && t.down == s.down && t.runs == s.runs && t.key == s.key && t.log == s.log
            && t.phase == if s.phase.Printed? && ok then Ready(s.phase.cfg, s.phase.printed, Built(s.phase.cfg, built)) else Idle
  {
  }

  lemma SwappingIdle(s: State, pr: Printer)
    requires s.phase.Idle? && |s.runs| == 1 && !s.runs[0].cancelled
    ensures var t := Swapping(s, pr);
            t.phase.Idle? && t.runs == s.runs && t.key == s.key && t.log == s.log
  {
    CancelledIsNotLive(s.runs);
  }

  lemma SwappingReady(s: State, pr: Printer)
    requires s.phase.Ready? && |s.runs| == 1 && !s.down
    ensures var t := Swapping(s, pr);
            && t.phase.Idle? && t.runs == [Run(s.phase.built, false)]
            && t.key == Key(s.phase.cfg, pr, s.phase.printed) && t.log == s.log + [Rebuilt(s.phase.cfg)]
  {
    CancelledIsNotLive(s.runs);
  }

  /** A turn that finds its key unchanged, or whose build fails, only reports the reload. */
  lemma TurnKeeps(s: State, built: Mesh, ok: bool, pr: Printer)
    requires !s.down && Running(s, pr) && s.phase.Received? && (Key(s.cfg, pr, s.mesh) == s.key || !ok)
    ensures var t := Turn(s, built, ok, pr);
            t.phase.Idle? && t.runs == s.runs && t.key == s.key && t.log == s.log + [Reloaded(s.cfg)]
  {
    OpeningReads(s, pr);
    BuildingReads(Opening(s, pr), built, ok, pr);
    SwappingIdle(Building(Opening(s, pr), built, ok, pr), pr);
  }

  /** A turn that can rebuild leaves one scheduler, built from what its build read, and a
      key equal to the world its key was read in. */
  lemma TurnRebuilds(s: State, built: Mesh, pr: Printer)
    requires !s.down && Running(s, pr) && s.phase.Received? && Key(s.cfg, pr, s.mesh) != s.key
    ensures var t := Turn(s, built, true, pr);
            && t.phase.Idle? && t.runs == [Run(Built(s.cfg, built), false)]
            && t.key == Key(s.cfg, pr, s.mesh) && t.log == s.log + [Reloaded(s.cfg), Rebuilt(s.cfg)]
  {
    OpeningReads(s, pr);
    BuildingReads(Opening(s, pr), built, true, pr);
    SwappingReady(Building(Opening(s, pr), built, true, pr), pr);
  }
}
