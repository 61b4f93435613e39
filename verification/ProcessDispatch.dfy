/** kernel/process.c as a step machine. */
module ProcessDispatch {
  import opened Words
  import opened Wrappers

  // The process table, and the stack of dispatch passes that a context switch can leave
  // and re-enter.  A pass is one activation of `run_ready_kind`; a process may start one
  // while it runs, to any depth.

  const CAPACITY := 8

  datatype Kind = Kernel | System
  datatype Phase = Empty | Ready | Running | Finished
  datatype Process = Process(pid: u32, kind: Kind, phase: Phase, runCount: nat)

  type Slot = i: nat | i < 8
  type Table = s: seq<Process> | |s| == 8 witness seq(8, _ => Process(0, Kernel, Empty, 0))

  /** One activation of `run_ready_kind`: where its scan is, what it must restore, the
      process it has switched to, and the slots it has run so far. */
  datatype Pass = Pass(
    kind: Kind, index: nat, previousCurrent: Option<Slot>, previousScheduler: Option<nat>,
    waiting: Option<Slot>, count: nat, served: seq<Slot>)

  /** Who executes: the code of the innermost process (or the boot code), or the scan of
      the innermost pass.  `Lost` is a switch to a context that is not there. */
  datatype Control = Code | Scan | Lost

  /** `scheduler` is the depth of the pass whose context a yield switches to. */
  datatype Machine = Machine(
    table: Table, current: Option<Slot>, scheduler: Option<nat>, nextPid: u32,
    passes: seq<Pass>, control: Control)

  // ----- steps

  datatype Step =
    | Call(kind: Kind)
    | Advance
    | Yield(pid: u32)
    | Finish
    | Spawn(kind: Kind, initialised: bool)

  predicate Eligible(p: Process, kind: Kind) {
    p.phase == Ready && p.kind == kind
  }

  function AfterCall(m: Machine, kind: Kind): Machine {
    m.(passes := m.passes + [Pass(kind, 0, m.current, m.scheduler, None, 0, [])], control := Scan)
  }

  function SetTop(m: Machine, p: Pass): Machine
    requires m.passes != []
  {
    m.(passes := m.passes[|m.passes| - 1 := p])
  }

  function Top(m: Machine): Pass
    requires m.passes != []
  {
    m.passes[|m.passes| - 1]
  }

  /** One round of the scan: skip, switch to a process, or return. */
  function AfterAdvance(m: Machine): Machine
    requires m.passes != []
  {
    var p := Top(m);
    if p.index >= CAPACITY then m.(passes := m.passes[..|m.passes| - 1], control := Code)
    else if !Eligible(m.table[p.index], p.kind) then SetTop(m, p.(index := p.index + 1))
    else
      var i := p.index;
      SetTop(m, p.(waiting := Some(i)))
      .(table := m.table[i := m.table[i].(phase := Running, runCount := m.table[i].runCount + 1)],
        current := Some(i), scheduler := Some(|m.passes| - 1), control := Code)
  }

  /** `switch_context` to the scheduler: the pass that owns the context goes on after
      its own switch. */
  function SwitchToScheduler(m: Machine): Machine {
    if m.scheduler.None? || m.scheduler.value != |m.passes| - 1 || m.passes == [] || Top(m).waiting.None?
    then m.(control := Lost)
    else
      var p := Top(m);
      SetTop(m, p.(waiting := None, index := p.index + 1, count := p.count + 1, served := p.served + [p.waiting.value]))
      .(current := p.previousCurrent, scheduler := p.previousScheduler, control := Scan)
  }

  /** `arwill_process_yield`, called with the runtime of process `pid`. */
  function AfterYield(m: Machine, pid: u32): Machine {
    if m.current.None? || m.table[m.current.value].pid != pid || m.scheduler.None? then m
    else
      var i := m.current.value;
      SwitchToScheduler(m.(table := m.table[i := m.table[i].(phase := Ready)], current := None))
  }

  /** The end of `process_trampoline`, for the process whose code is executing. */
  function AfterFinish(m: Machine): Machine {
    if m.passes == [] || Top(m).waiting.None? then m
    else
      var i := Top(m).waiting.value;
      SwitchToScheduler(m.(table := m.table[i := m.table[i].(phase := Finished)], current := None))
  }

  function FirstWith(t: Table, phase: Phase, from: nat): Option<Slot>
    requires from <= CAPACITY
    decreases CAPACITY - from
  {
    if from == CAPACITY then None
    else if t[from].phase == phase then Some(from)
    else FirstWith(t, phase, from + 1)
  }

  /** `find_spawn_slot`: an empty slot, else a finished one. */
  function SpawnSlot(t: Table): Option<Slot> {
    if FirstWith(t, Empty, 0).Some? then FirstWith(t, Empty, 0) else FirstWith(t, Finished, 0)
  }

  function NextPid(pid: u32): u32 {
    if U32(pid + 1) == 0 then 1 else U32(pid + 1)
  }

  function AfterSpawn(m: Machine, kind: Kind, initialised: bool): Machine {
    match SpawnSlot(m.table)
    case None => m
    case Some(i) =>
      m.(nextPid := NextPid(m.nextPid),
         table := m.table[i := if initialised then Process(m.nextPid, kind, Ready, 0) else Process(0, Kernel, Empty, 0)])
  }

  /** Calls, yields, finishes and spawns come from code; only the scan advances. */
  predicate Enabled(m: Machine, s: Step) {
    if s.Advance? then m.control == Scan && m.passes != []
    else m.control == Code && (s.Finish? ==> m.passes != [])
  }

  function Do(m: Machine, s: Step): Machine
    requires Enabled(m, s)
  {
    match s
    case Call(kind) => AfterCall(m, kind)
    case Advance => AfterAdvance(m)
    case Yield(pid) => AfterYield(m, pid)
    case Finish => AfterFinish(m)
    case Spawn(kind, initialised) => AfterSpawn(m, kind, initialised)
  }

  predicate Legal(m: Machine, ss: seq<Step>)
    decreases |ss|
  {
    ss == [] || (Enabled(m, ss[0]) && Legal(Do(m, ss[0]), ss[1..]))
  }

  function Run(m: Machine, ss: seq<Step>): Machine
    requires Legal(m, ss)
    decreases |ss|
  {
    if ss == [] then m else Run(Do(m, ss[0]), ss[1..])
  }

  // ----- the invariant

  /** What `current` was when pass `k` was entered: the process pass `k - 1` runs. */
  function Below(passes: seq<Pass>, k: nat): Option<Slot>
    requires k <= |passes|
  {
    if k == 0 then None else passes[k - 1].waiting
  }

  function ContextBelow(k: nat): Option<nat> {
    if k == 0 then None else Some(k - 1)
  }

  predicate PassOk(passes: seq<Pass>, k: nat)
    requires k < |passes|
  {
    var p := passes[k];
    && p.previousCurrent == Below(passes, k) && p.previousScheduler == ContextBelow(k)
    && p.count == |p.served| && p.index <= CAPACITY
    && (p.waiting.Some? ==> p.waiting.value == p.index)
    && (forall j :: 0 <= j < |p.served| ==> p.served[j] < p.index)
    && (forall i, j :: 0 <= i < j < |p.served| ==> p.served[i] < p.served[j])
  }

  predicate AllOk(passes: seq<Pass>) {
    forall k: nat :: k < |passes| ==> PassOk(passes, k)
  }

  /** Pass `k` is inside the process in slot `i`. */
  predicate Holds(passes: seq<Pass>, k: nat, i: Slot) {
    k < |passes| && passes[k].waiting == Some(i)
  }

  ghost predicate MachineOk(m: Machine) {
    var n := |m.passes|;
    && m.control != Lost && (m.control == Scan ==> n > 0)
    && AllOk(m.passes)
    && (forall k: nat :: k < n ==> (m.passes[k].waiting.Some? <==> k < n - 1 || m.control == Code))
    && (forall i: Slot :: m.table[i].phase == Running <==> exists k: nat :: Holds(m.passes, k, i))
    && (forall k: nat, l: nat, i: Slot :: Holds(m.passes, k, i) && Holds(m.passes, l, i) ==> k == l)
    && m.current == Below(m.passes, if m.control == Scan then n - 1 else n)
    && m.scheduler == ContextBelow(if m.control == Scan then n - 1 else n)
  }

  // ----- every step keeps it

  lemma CallKeeps(m: Machine, kind: Kind)
    requires MachineOk(m) && m.control == Code
    ensures MachineOk(AfterCall(m, kind))
  {
    var n := |m.passes|;
    var r := AfterCall(m, kind);
    forall k: nat | k < n + 1 ensures PassOk(r.passes, k) {
      if k < n { assert PassOk(m.passes, k); }
    }
    forall k: nat, i: Slot ensures Holds(r.passes, k, i) == Holds(m.passes, k, i) {
    }
    PhasesFollow(m, r);
  }

  /** The running processes are those the passes are inside of. */
  lemma PhasesFollow(m: Machine, r: Machine)
    requires MachineOk(m) && forall k: nat, i: Slot :: Holds(r.passes, k, i) == Holds(m.passes, k, i)
    requires forall i: Slot :: r.table[i].phase == Running <==> m.table[i].phase == Running
    ensures forall i: Slot :: r.table[i].phase == Running <==> exists k: nat :: Holds(r.passes, k, i)
    ensures forall k: nat, l: nat, i: Slot :: Holds(r.passes, k, i) && Holds(r.passes, l, i) ==> k == l
  {
    forall i: Slot ensures r.table[i].phase == Running <==> exists k: nat :: Holds(r.passes, k, i) {
      if r.table[i].phase == Running {
        var k: nat :| Holds(m.passes, k, i);
        assert Holds(r.passes, k, i);
      }
      if k: nat :| Holds(r.passes, k, i) { assert Holds(m.passes, k, i); }
    }
  }

  lemma AdvanceKeeps(m: Machine)
    requires MachineOk(m) && m.control == Scan
    ensures MachineOk(AfterAdvance(m))
  {
    var n := |m.passes|;
    var p := Top(m);
    assert PassOk(m.passes, n - 1);
    if p.index >= CAPACITY {
      ReturnKeeps(m);
    } else if Eligible(m.table[p.index], p.kind) {
      DispatchKeeps(m);
    } else {
      var r := AfterAdvance(m);
      forall k: nat | k < n ensures PassOk(r.passes, k) { assert PassOk(m.passes, k); }
      forall k: nat, i: Slot ensures Holds(r.passes, k, i) == Holds(m.passes, k, i) {
      }
      PhasesFollow(m, r);
    }
  }

  lemma ReturnKeeps(m: Machine)
    requires MachineOk(m) && m.control == Scan && Top(m).index >= CAPACITY
    ensures MachineOk(AfterAdvance(m))
  {
    var n := |m.passes|;
    var r := AfterAdvance(m);
    assert PassOk(m.passes, n - 1) && Top(m).waiting.None?;
    forall k: nat | k < n - 1 ensures PassOk(r.passes, k) { assert PassOk(m.passes, k); }
    forall k: nat, i: Slot ensures Holds(r.passes, k, i) == Holds(m.passes, k, i) {
    }
    PhasesFollow(m, r);
  }

  lemma DispatchKeeps(m: Machine)
    requires MachineOk(m) && m.control == Scan && Top(m).index < CAPACITY
    requires Eligible(m.table[Top(m).index], Top(m).kind)
    ensures MachineOk(AfterAdvance(m))
  {
    var n := |m.passes|;
    var r := AfterAdvance(m);
    var i: Slot := Top(m).index;
    assert PassOk(m.passes, n - 1) && Top(m).waiting.None?;
    forall k: nat | k < n ensures PassOk(r.passes, k) { assert PassOk(m.passes, k); }
    forall k: nat, j: Slot ensures Holds(r.passes, k, j) == (Holds(m.passes, k, j) || (k == n - 1 && j == i)) {
    }
    assert forall k: nat :: !Holds(m.passes, k, i) by {
      assert m.table[i].phase != Running;
    }
    forall j: Slot ensures r.table[j].phase == Running <==> exists k: nat :: Holds(r.passes, k, j) {
      if j == i {
        assert Holds(r.passes, n - 1, i);
      } else if r.table[j].phase == Running {
        var k: nat :| Holds(m.passes, k, j);
        assert Holds(r.passes, k, j);
      }
    }
  }

  /** The passes after the innermost one has counted the process it comes back from. */
  function Counted(passes: seq<Pass>): seq<Pass>
    requires passes != [] && passes[|passes| - 1].waiting.Some?
  {
    var n := |passes| - 1;
    var p := passes[n];
    passes[n := p.(waiting := None, index := p.index + 1, count := p.count + 1, served := p.served + [p.waiting.value])]
  }

  lemma CountedOk(passes: seq<Pass>)
    requires passes != [] && AllOk(passes) && passes[|passes| - 1].waiting.Some?
    ensures AllOk(Counted(passes))
  {
    var r := Counted(passes);
    assert PassOk(passes, |passes| - 1);
    forall k: nat | k < |passes| ensures PassOk(r, k) { assert PassOk(passes, k); }
  }

  /** Whoever yields or finishes, control goes to the innermost pass. */
  lemma SwitchKeeps(m: Machine, phase: Phase)
    requires MachineOk(m) && m.control == Code && m.passes != [] && phase != Running
    ensures m.current == Top(m).waiting && m.current.Some? && m.scheduler == Some(|m.passes| - 1)
    ensures var i := m.current.value;
            var r := SwitchToScheduler(m.(table := m.table[i := m.table[i].(phase := phase)], current := None));
            MachineOk(r) && r.control == Scan && |r.passes| == |m.passes|
  {
    var n := |m.passes|;
    assert PassOk(m.passes, n - 1);
    var i := m.current.value;
    var r := SwitchToScheduler(m.(table := m.table[i := m.table[i].(phase := phase)], current := None));
    assert Holds(m.passes, n - 1, i);
    CountedOk(m.passes);
    assert r.passes == Counted(m.passes);
    hide AllOk;
    forall k: nat, j: Slot ensures Holds(r.passes, k, j) == (Holds(m.passes, k, j) && k != n - 1) {
    }
    forall j: Slot ensures r.table[j].phase == Running <==> exists k: nat :: Holds(r.passes, k, j) {
      if j != i && r.table[j].phase == Running {
        var k: nat :| Holds(m.passes, k, j);
        assert Holds(r.passes, k, j);
      }
    }
  }

  lemma {:induction false} FirstWithIs(t: Table, phase: Phase, from: nat)
    requires from <= CAPACITY
    ensures var o := FirstWith(t, phase, from);
            && (o.Some? ==> o.value >= from && t[o.value].phase == phase
                            && forall i: Slot :: from <= i < o.value ==> t[i].phase != phase)
            && (o.None? ==> forall i: Slot :: i >= from ==> t[i].phase != phase)
    decreases CAPACITY - from
  {
    if from < CAPACITY && t[from].phase != phase { FirstWithIs(t, phase, from + 1); }
  }

  lemma SpawnKeeps(m: Machine, kind: Kind, initialised: bool)
    requires MachineOk(m)
    ensures MachineOk(AfterSpawn(m, kind, initialised))
  {
    hide AllOk, FirstWith, Below;
    FirstWithIs(m.table, Empty, 0);
    FirstWithIs(m.table, Finished, 0);
    var r := AfterSpawn(m, kind, initialised);
    assert r.passes == m.passes;
    PhasesFollow(m, r);
  }

  lemma StepKeeps(m: Machine, s: Step)
    requires MachineOk(m) && Enabled(m, s)
    ensures MachineOk(Do(m, s))
  {
    hide MachineOk, SwitchToScheduler, AfterAdvance, AfterCall, AfterSpawn;
    match s
    case Call(kind) => CallKeeps(m, kind);
    case Advance => AdvanceKeeps(m);
    case Yield(pid) =>
      if m.passes != [] { SwitchKeeps(m, Ready); } else { NobodyYields(m); }
    case Finish => SwitchKeeps(m, Finished);
    case Spawn(kind, initialised) => SpawnKeeps(m, kind, initialised);
  }

  lemma NobodyYields(m: Machine)
    requires MachineOk(m) && m.passes == []
    ensures m.current == None
  {
  }

  /** At any nesting depth, over every run: no switch is ever lost, and `current` and
      `scheduler_context` name the innermost process and pass. */
  lemma {:induction false} RunKeeps(m: Machine, ss: seq<Step>)
    requires MachineOk(m) && Legal(m, ss)
    ensures MachineOk(Run(m, ss))
    decreases |ss|
  {
    hide MachineOk, Do, Enabled;
    if ss != [] {
      StepKeeps(m, ss[0]);
      RunKeeps(Do(m, ss[0]), ss[1..]);
    }
  }

  /** `arwill_process_manager_init` */
  function Initial(): Machine {
    Machine(seq(CAPACITY, _ => Process(0, Kernel, Empty, 0)), None, None, 1, [], Code)
  }

  lemma EveryRunIsOk(ss: seq<Step>)
    requires Legal(Initial(), ss)
    ensures MachineOk(Run(Initial(), ss))
  {
    hide Run, Legal;
    assert MachineOk(Initial()) by {
      assert forall k: nat, i: Slot :: !Holds([], k, i);
    }
    RunKeeps(Initial(), ss);
  }

  // ----- a pass from its call to its return

  /** Every state of the run, up to but not including its last, is deeper than `d`. */
  predicate Inside(m: Machine, ss: seq<Step>, d: nat)
    requires Legal(m, ss)
    decreases |ss|
  {
    ss == [] || (|m.passes| > d && Inside(Do(m, ss[0]), ss[1..], d))
  }

  /** A step taken inside deeper passes leaves the outer ones alone. */
  lemma StepKeepsOuter(m: Machine, s: Step, d: nat)
    requires MachineOk(m) && Enabled(m, s) && |m.passes| > d
    ensures |Do(m, s).passes| >= d && Do(m, s).passes[..d] == m.passes[..d]
  {
    hide MachineOk;
    if (s.Yield? || s.Finish?) && m.control == Code { SwitchKeeps(m, Ready); SwitchKeeps(m, Finished); }
  }

  lemma {:induction false} RunKeepsOuter(m: Machine, ss: seq<Step>, d: nat)
    requires MachineOk(m) && Legal(m, ss) && |m.passes| >= d && Inside(m, ss, d)
    ensures |Run(m, ss).passes| >= d && Run(m, ss).passes[..d] == m.passes[..d]
    decreases |ss|
  {
    hide MachineOk, Do, Enabled;
    if ss != [] {
      StepKeeps(m, ss[0]);
      StepKeepsOuter(m, ss[0], d);
      RunKeepsOuter(Do(m, ss[0]), ss[1..], d);
    }
  }

  /** Whatever runs in between, when the pass returns to its caller `current` and
      `scheduler_context` are what they were at the call. */
  lemma PassRestores(m: Machine, kind: Kind, ss: seq<Step>)
    requires MachineOk(m) && m.control == Code && Legal(AfterCall(m, kind), ss)
    requires Inside(AfterCall(m, kind), ss, |m.passes|)
    requires |Run(AfterCall(m, kind), ss).passes| == |m.passes|
    ensures var r := Run(AfterCall(m, kind), ss);
            r.control == Code && r.current == m.current && r.scheduler == m.scheduler && r.passes == m.passes
  {
    hide Run, Inside, Legal;
    var c := AfterCall(m, kind);
    CallKeeps(m, kind);
    RunKeeps(c, ss);
    RunKeepsOuter(c, ss, |m.passes|);
    var r := Run(c, ss);
    assert c.passes[..|m.passes|] == m.passes && r.passes[..|m.passes|] == r.passes;
    ReturnIsCode(c, ss, |m.passes|);
  }

  /** The only way back up is a return, which leaves code executing. */
  lemma {:induction false} ReturnIsCode(m: Machine, ss: seq<Step>, d: nat)
    requires MachineOk(m) && Legal(m, ss) && Inside(m, ss, d) && |m.passes| > d && |Run(m, ss).passes| == d
    ensures Run(m, ss).control == Code
    decreases |ss|
  {
    hide MachineOk, Do, Enabled;
    if ss != [] {
      StepKeeps(m, ss[0]);
      var next := Do(m, ss[0]);
      StepKeepsOuter(m, ss[0], d);
      if |next.passes| > d {
        ReturnIsCode(next, ss[1..], d);
      } else {
        LeavingIsReturn(m, ss[0]);
        StuckOutside(next, ss[1..], d);
      }
    }
  }

  lemma LeavingIsReturn(m: Machine, s: Step)
    requires MachineOk(m) && Enabled(m, s) && |Do(m, s).passes| < |m.passes|
    ensures Do(m, s).control == Code && s == Advance && Top(m).index >= CAPACITY
  {
    hide MachineOk;
    if s.Yield? || s.Finish? { SwitchKeeps(m, Ready); SwitchKeeps(m, Finished); }
  }

  // ----- whom a pass runs

  /** Read off the run: the slots that were ready and of the pass's kind when the pass
      at depth `d` came to them. */
  function Turns(m: Machine, ss: seq<Step>, d: nat): seq<Slot>
    requires Legal(m, ss)
    decreases |ss|
  {
    if ss == [] then []
    else
      var here := if ss[0] == Advance && |m.passes| == d + 1 && Top(m).index < CAPACITY
                     && Eligible(m.table[Top(m).index], Top(m).kind)
                  then [Top(m).index] else [];
      here + Turns(Do(m, ss[0]), ss[1..], d)
  }

  /** The slots pass `d` has run, with the one it is inside of. */
  function Begun(m: Machine, d: nat): seq<Slot>
    requires d < |m.passes|
  {
    m.passes[d].served + if m.passes[d].waiting.Some? then [m.passes[d].waiting.value] else []
  }

  lemma StepBegins(m: Machine, s: Step, d: nat)
    requires MachineOk(m) && Enabled(m, s) && |m.passes| > d && |Do(m, s).passes| > d
    ensures Begun(Do(m, s), d) == Begun(m, d) +
              if s == Advance && |m.passes| == d + 1 && Top(m).index < CAPACITY
                 && Eligible(m.table[Top(m).index], Top(m).kind)
              then [Top(m).index] else []
  {
    if s.Yield? || s.Finish? { SwitchKeeps(m, Ready); SwitchKeeps(m, Finished); }
  }

  lemma {:induction false} RunBegins(m: Machine, ss: seq<Step>, d: nat)
    requires MachineOk(m) && Legal(m, ss) && Inside(m, ss, d) && |m.passes| > d && |Run(m, ss).passes| > d
    ensures Begun(Run(m, ss), d) == Begun(m, d) + Turns(m, ss, d)
    decreases |ss|
  {
    hide MachineOk, Do, Enabled, Begun;
    if ss != [] {
      StepKeeps(m, ss[0]);
      var next := Do(m, ss[0]);
      StepKeepsOuter(m, ss[0], d);
      if |next.passes| > d {
        StepBegins(m, ss[0], d);
        RunBegins(next, ss[1..], d);
      } else {
        StuckOutside(next, ss[1..], d);
      }
    }
  }

  lemma StuckOutside(m: Machine, ss: seq<Step>, d: nat)
    requires Legal(m, ss) && Inside(m, ss, d) && |m.passes| <= d
    ensures Run(m, ss) == m
  {
  }

  /** When a pass is about to return, it has looked at every slot in order; it has run
      exactly the slots that were eligible at their turn, each once, and reports how many. */
  lemma PassServes(m: Machine, kind: Kind, ss: seq<Step>)
    requires MachineOk(m) && m.control == Code && Legal(AfterCall(m, kind), ss)
    requires Inside(AfterCall(m, kind), ss, |m.passes|)
    requires var r := Run(AfterCall(m, kind), ss);
             |r.passes| == |m.passes| + 1 && r.control == Scan && Top(r).index == CAPACITY
    ensures var r := Run(AfterCall(m, kind), ss);
            && Top(r).served == Turns(AfterCall(m, kind), ss, |m.passes|) && Top(r).count == |Top(r).served|
            && forall i, j :: 0 <= i < j < |Top(r).served| ==> Top(r).served[i] < Top(r).served[j]
  {
    hide Run, Inside, Legal, Turns;
    var c := AfterCall(m, kind);
    CallKeeps(m, kind);
    RunKeeps(c, ss);
    RunBegins(c, ss, |m.passes|);
    var r := Run(c, ss);
    assert PassOk(r.passes, |m.passes|);
    assert [] + Turns(c, ss, |m.passes|) == Turns(c, ss, |m.passes|);
  }

  // ----- spawning and counting

  /** A new process takes the first empty slot, else the first finished one, and is
      refused only when every slot holds a ready or running process. */
  lemma SpawnSlotExact(t: Table)
    ensures var o := SpawnSlot(t);
            && (o.Some? ==> t[o.value].phase == Empty || t[o.value].phase == Finished)
            && (o.Some? && t[o.value].phase == Finished ==> forall i: Slot :: t[i].phase != Empty)
            && (o.Some? ==> forall i: Slot :: i < o.value ==> t[i].phase != t[o.value].phase)
            && (o.None? <==> forall i: Slot :: t[i].phase == Ready || t[i].phase == Running)
  {
    FirstWithIs(t, Empty, 0);
    FirstWithIs(t, Finished, 0);
  }

  /** Slot `i` is not given to a new process during the run. */
  predicate NotReused(m: Machine, ss: seq<Step>, i: Slot)
    requires Legal(m, ss)
    decreases |ss|
  {
    ss == [] || ((ss[0].Spawn? ==> SpawnSlot(m.table) != Some(i)) && NotReused(Do(m, ss[0]), ss[1..], i))
  }

  predicate Resumes(m: Machine, s: Step, i: Slot)
    requires Enabled(m, s)
  {
    s == Advance && Top(m).index == i && Eligible(m.table[i], Top(m).kind)
  }

  /** How often the run switches to the process in slot `i`, from whatever pass. */
  function Resumptions(m: Machine, ss: seq<Step>, i: Slot): nat
    requires Legal(m, ss)
    decreases |ss|
  {
    if ss == [] then 0 else (if Resumes(m, ss[0], i) then 1 else 0) + Resumptions(Do(m, ss[0]), ss[1..], i)
  }

  lemma StepCounts(m: Machine, s: Step, i: Slot)
    requires Enabled(m, s) && (s.Spawn? ==> SpawnSlot(m.table) != Some(i))
    ensures var p, q := m.table[i], Do(m, s).table[i];
            q.pid == p.pid && q.kind == p.kind && q.runCount == p.runCount + if Resumes(m, s, i) then 1 else 0
  {
  }

  /** `run_count` is the number of times the process was resumed, over all passes of all
      depths, and nothing but a new process changes identity or kind of a slot. */
  lemma {:induction false} RunCountIsExact(m: Machine, ss: seq<Step>, i: Slot)
    requires Legal(m, ss) && NotReused(m, ss, i)
    ensures var p, q := m.table[i], Run(m, ss).table[i];
            q.pid == p.pid && q.kind == p.kind && q.runCount == p.runCount + Resumptions(m, ss, i)
    decreases |ss|
  {
    hide Do, Enabled, Resumes, SpawnSlot;
    if ss != [] {
      StepCounts(m, ss[0], i);
      RunCountIsExact(Do(m, ss[0]), ss[1..], i);
    }
  }
}
