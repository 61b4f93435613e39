/** What becomes of a process that was spawned, that yielded, that finished. */
module ProcessFates {
  import opened Words
  import opened Wrappers
  import opened ProcessDispatch

  // ----- one step

  /** A process that yields is ready again, and no other process is touched. */
  lemma YieldLeavesReady(m: Machine, pid: u32)
    requires MachineOk(m) && m.control == Code && m.current.Some? && m.table[m.current.value].pid == pid
    ensures var i := m.current.value;
            var r := Do(m, Yield(pid));
            && r.table[i] == m.table[i].(phase := Ready) && m.table[i].phase == Running
            && forall j: Slot :: j != i ==> r.table[j] == m.table[j]
  {
    hide AllOk;
    SwitchKeeps(m, Ready);
    assert Holds(m.passes, |m.passes| - 1, m.current.value);
  }

  /** Nobody yields for another process. */
  lemma StrangerYieldsNothing(m: Machine, pid: u32)
    requires m.control == Code && (m.current.None? || m.table[m.current.value].pid != pid)
    ensures Do(m, Yield(pid)) == m
  {
  }

  /** A process whose code ends is finished, and no other process is touched. */
  lemma FinishLeavesFinished(m: Machine)
    requires MachineOk(m) && m.control == Code && m.passes != []
    ensures m.current.Some?
    ensures var i := m.current.value;
            var r := Do(m, Finish);
            && r.table[i] == m.table[i].(phase := Finished)
            && forall j: Slot :: j != i ==> r.table[j] == m.table[j]
  {
    hide AllOk;
    SwitchKeeps(m, Finished);
  }

  /** A process that could be initialised is ready, under a new pid, in the slot it was given. */
  lemma SpawnLeavesReady(m: Machine, kind: Kind)
    requires m.control == Code && SpawnSlot(m.table).Some?
    ensures var i := SpawnSlot(m.table).value;
            var r := Do(m, Spawn(kind, true));
            && r.table[i] == Process(m.nextPid, kind, Ready, 0) && r.nextPid != m.nextPid && r.nextPid != 0
            && forall j: Slot :: j != i ==> r.table[j] == m.table[j]
  {
    U32Near(m.nextPid + 1);
  }

  /** One that could not be initialised leaves its slot empty; without a slot nothing happens. */
  lemma SpawnFails(m: Machine, kind: Kind)
    requires m.control == Code
    ensures SpawnSlot(m.table).None? ==> Do(m, Spawn(kind, true)) == m && Do(m, Spawn(kind, false)) == m
    ensures SpawnSlot(m.table).Some? ==>
              var i := SpawnSlot(m.table).value;
              var r := Do(m, Spawn(kind, false));
              && r.table[i].phase == Empty && r.table[i].pid == 0
              && forall j: Slot :: j != i ==> r.table[j] == m.table[j]
  {
    hide FirstWith;
  }

  /** A ready or finished process stays what it is until a pass resumes it or a spawn takes
      its slot. */
  lemma PhaseStays(m: Machine, s: Step, i: Slot)
    requires MachineOk(m) && Enabled(m, s) && (s.Spawn? ==> SpawnSlot(m.table) != Some(i))
    requires m.table[i].phase != Running && !Resumes(m, s, i)
    ensures Do(m, s).table[i] == m.table[i]
  {
    hide AllOk;
    if (s.Yield? || s.Finish?) && m.passes != [] {
      SwitchKeeps(m, Ready);
      assert Holds(m.passes, |m.passes| - 1, m.current.value);
    } else if s.Yield? {
      NobodyYields(m);
    }
  }

  // ----- finished processes

  /** A finished process is never resumed, in no pass at any depth, and keeps its pid, its
      kind and its count until a spawn takes its slot. */
  lemma {:induction false} FinishedRests(m: Machine, ss: seq<Step>, i: Slot)
    requires MachineOk(m) && Legal(m, ss) && NotReused(m, ss, i) && m.table[i].phase == Finished
    ensures Run(m, ss).table[i] == m.table[i] && Resumptions(m, ss, i) == 0
    decreases |ss|
  {
    hide MachineOk, Do, SpawnSlot;
    if ss != [] {
      PhaseStays(m, ss[0], i);
      StepKeeps(m, ss[0]);
      FinishedRests(Do(m, ss[0]), ss[1..], i);
    }
  }

  /** From the end of its code on. */
  lemma FinishIsFinal(m: Machine, ss: seq<Step>)
    requires MachineOk(m) && m.control == Code && m.passes != [] && m.current.Some? && Legal(Do(m, Finish), ss)
    requires NotReused(Do(m, Finish), ss, m.current.value)
    ensures var i := m.current.value;
            && Resumptions(Do(m, Finish), ss, i) == 0
            && Run(Do(m, Finish), ss).table[i] == m.table[i].(phase := Finished)
  {
    hide MachineOk, Do, NotReused, Run, Resumptions;
    FinishLeavesFinished(m);
    StepKeeps(m, Finish);
    FinishedRests(Do(m, Finish), ss, m.current.value);
  }

  // ----- ready processes

  /** Pass `d` has not come to slot `i` yet, and the process in it is ready and of the kind
      of the pass. */
  predicate Awaits(m: Machine, d: nat, i: Slot) {
    |m.passes| > d && m.passes[d].index <= i && Eligible(m.table[i], m.passes[d].kind)
  }

  lemma StepAwaits(m: Machine, s: Step, d: nat, i: Slot)
    requires MachineOk(m) && Enabled(m, s) && Awaits(m, d, i) && !Resumes(m, s, i)
    ensures Awaits(Do(m, s), d, i)
  {
    hide MachineOk, AfterAdvance, SwitchToScheduler, SpawnSlot, Resumes;
    SpawnSlotExact(m.table);
    PhaseStays(m, s, i);
    if s.Advance? {
      AdvanceAwaits(m, d, i);
    } else if s.Yield? || s.Finish? {
      SwitchKeeps(m, Ready);
      SwitchAwaits(m, if s.Yield? then Ready else Finished, d, i);
    }
  }

  /** The scan goes on to the next slot, but not past one that it has to run. */
  lemma AdvanceAwaits(m: Machine, d: nat, i: Slot)
    requires m.control == Scan && m.passes != [] && Awaits(m, d, i) && !Resumes(m, Advance, i)
    ensures var r := AfterAdvance(m);
            |r.passes| > d && r.passes[d].index <= i && r.passes[d].kind == m.passes[d].kind
  {
  }

  /** The pass that a process comes back to was inside another slot. */
  lemma SwitchAwaits(m: Machine, phase: Phase, d: nat, i: Slot)
    requires MachineOk(m) && Awaits(m, d, i) && m.control == Code
    requires m.current == Top(m).waiting && m.current.Some? && m.scheduler == Some(|m.passes| - 1)
    ensures var c := m.current.value;
            var r := SwitchToScheduler(m.(table := m.table[c := m.table[c].(phase := phase)], current := None));
            |r.passes| > d && r.passes[d].index <= i && r.passes[d].kind == m.passes[d].kind
  {
    WaitsAtIndex(m);
  }

  lemma WaitsAtIndex(m: Machine)
    requires MachineOk(m) && m.passes != [] && Top(m).waiting.Some?
    ensures Top(m).waiting.value == Top(m).index && m.table[Top(m).waiting.value].phase == Running
  {
    assert PassOk(m.passes, |m.passes| - 1);
    assert Holds(m.passes, |m.passes| - 1, Top(m).waiting.value);
  }

  lemma {:induction false} RunAwaits(m: Machine, ss: seq<Step>, d: nat, i: Slot)
    requires MachineOk(m) && Legal(m, ss) && Awaits(m, d, i)
    ensures Resumptions(m, ss, i) > 0 || Awaits(Run(m, ss), d, i)
    decreases |ss|
  {
    hide MachineOk, Do, Awaits, Resumes;
    if ss != [] && !Resumes(m, ss[0], i) {
      StepAwaits(m, ss[0], d, i);
      StepKeeps(m, ss[0]);
      RunAwaits(Do(m, ss[0]), ss[1..], d, i);
    }
  }

  /** A process that is ready when a pass of its kind is called is resumed before that pass
      returns, by the pass itself or by one that is started inside it. */
  lemma ReadyIsResumed(m: Machine, kind: Kind, ss: seq<Step>, i: Slot)
    requires MachineOk(m) && m.control == Code && Eligible(m.table[i], kind)
    requires Legal(AfterCall(m, kind), ss)
    requires var r := Run(AfterCall(m, kind), ss); |r.passes| == |m.passes| + 1 && Top(r).index == CAPACITY
    ensures Resumptions(AfterCall(m, kind), ss, i) > 0
  {
    hide MachineOk, Run, Resumptions, Legal;
    CallKeeps(m, kind);
    RunAwaits(AfterCall(m, kind), ss, |m.passes|, i);
  }

  /** The pass itself resumes it, unless one inside it did. */
  lemma {:induction false} TurnsOrDeeper(m: Machine, ss: seq<Step>, d: nat, i: Slot)
    requires Legal(m, ss) && Inside(m, ss, d) && Resumptions(m, ss, i) > 0
    ensures i in Turns(m, ss, d) || ResumedDeeper(m, ss, d, i)
    decreases |ss|
  {
    hide Do;
    if ss != [] && !Resumes(m, ss[0], i) { TurnsOrDeeper(Do(m, ss[0]), ss[1..], d, i); }
  }

  /** Some pass below depth `d` resumed the process in slot `i`. */
  predicate ResumedDeeper(m: Machine, ss: seq<Step>, d: nat, i: Slot)
    requires Legal(m, ss)
    decreases |ss|
  {
    ss != [] &&
    ((Resumes(m, ss[0], i) && |m.passes| > d + 1) || ResumedDeeper(Do(m, ss[0]), ss[1..], d, i))
  }

  /** While nobody resumes it, a process is what it was. */
  lemma {:induction false} ReadyWaits(m: Machine, ss: seq<Step>, i: Slot)
    requires MachineOk(m) && Legal(m, ss) && m.table[i].phase == Ready && Resumptions(m, ss, i) == 0
    ensures Run(m, ss).table[i] == m.table[i] && MachineOk(Run(m, ss))
    decreases |ss|
  {
    hide MachineOk, Do;
    if ss != [] {
      SpawnSlotExact(m.table);
      PhaseStays(m, ss[0], i);
      StepKeeps(m, ss[0]);
      ReadyWaits(Do(m, ss[0]), ss[1..], i);
    }
  }

  /** A pass of `kind` that has looked at every slot. */
  predicate FullPass(m: Machine, kind: Kind, ss: seq<Step>) {
    && m.control == Code && Legal(AfterCall(m, kind), ss) && Inside(AfterCall(m, kind), ss, |m.passes|)
    && var r := Run(AfterCall(m, kind), ss); |r.passes| == |m.passes| + 1 && Top(r).index == CAPACITY
  }

  /** A process that yielded runs again: whatever happens in between, the next pass of its
      kind has it among its turns, unless a pass started inside that one resumed it. */
  lemma YieldedRunsAgain(m: Machine, pid: u32, wait: seq<Step>, ss: seq<Step>)
    requires MachineOk(m) && m.control == Code && m.current.Some? && m.table[m.current.value].pid == pid
    requires Legal(Do(m, Yield(pid)), wait) && Resumptions(Do(m, Yield(pid)), wait, m.current.value) == 0
    requires FullPass(Run(Do(m, Yield(pid)), wait), m.table[m.current.value].kind, ss)
    ensures var i := m.current.value;
            var r := Run(Do(m, Yield(pid)), wait);
            var c := AfterCall(r, m.table[i].kind);
            i in Turns(c, ss, |r.passes|) || ResumedDeeper(c, ss, |r.passes|, i)
  {
    hide MachineOk, Do, Run, Legal, Inside, Turns, ResumedDeeper, Resumptions;
    YieldLeavesReady(m, pid);
    StepKeeps(m, Yield(pid));
    NextPassServes(Do(m, Yield(pid)), m.current.value, wait, ss);
  }

  /** So does a process that was spawned. */
  lemma SpawnedRuns(m: Machine, kind: Kind, wait: seq<Step>, ss: seq<Step>)
    requires MachineOk(m) && m.control == Code && SpawnSlot(m.table).Some?
    requires Legal(Do(m, Spawn(kind, true)), wait)
    requires Resumptions(Do(m, Spawn(kind, true)), wait, SpawnSlot(m.table).value) == 0
    requires FullPass(Run(Do(m, Spawn(kind, true)), wait), kind, ss)
    ensures var i := SpawnSlot(m.table).value;
            var r := Run(Do(m, Spawn(kind, true)), wait);
            var c := AfterCall(r, kind);
            i in Turns(c, ss, |r.passes|) || ResumedDeeper(c, ss, |r.passes|, i)
  {
    hide MachineOk, Do, Run, Legal, Inside, Turns, ResumedDeeper, Resumptions, SpawnSlot;
    SpawnLeavesReady(m, kind);
    StepKeeps(m, Spawn(kind, true));
    NextPassServes(Do(m, Spawn(kind, true)), SpawnSlot(m.table).value, wait, ss);
  }

  lemma NextPassServes(m: Machine, i: Slot, wait: seq<Step>, ss: seq<Step>)
    requires MachineOk(m) && m.table[i].phase == Ready
    requires Legal(m, wait) && Resumptions(m, wait, i) == 0 && FullPass(Run(m, wait), m.table[i].kind, ss)
    ensures var r := Run(m, wait);
            var c := AfterCall(r, m.table[i].kind);
            i in Turns(c, ss, |r.passes|) || ResumedDeeper(c, ss, |r.passes|, i)
  {
    hide MachineOk, Run, Legal, Inside, Turns, ResumedDeeper, Resumptions;
    ReadyWaits(m, wait, i);
    var r := Run(m, wait);
    ReadyIsResumed(r, m.table[i].kind, ss, i);
    TurnsOrDeeper(AfterCall(r, m.table[i].kind), ss, |r.passes|, i);
  }
}
