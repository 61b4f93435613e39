/** What becomes of a program that was spawned, that exited, faulted or was cancelled. */
module AwpFates {
  import opened Words
  import opened Wrappers
  import opened AwpTasks

  // ----- how a program ends

  /** The phase and the code that a trap leaves when it ends the program. */
  function Ending(trap: Trap): Option<(Phase, u32)> {
    match trap
    case Exit(code) => Some((Finished, code))
    case BadSyscall => Some((Finished, 127))
    case BadPointer => Some((Faulted, 127))
    case Fault(vector) => Some((Faulted, 128 + vector as int))
    case _ => None
  }

  /** A trap that ends the program leaves it over, with its code, and no task active; a tick
      and a retry leave it ready. */
  lemma TrapEnds(r: Runtime, trap: Trap)
    requires r.active.Some?
    ensures var i := r.active.value;
            var q := Step(r, Enter(trap));
            && (Ending(trap).Some? ==>
                  q.tasks[i] == r.tasks[i].(phase := Ending(trap).value.0, exitCode := Ending(trap).value.1) && q.active == None)
            && (trap == NetworkRetry || (trap == Tick && r.ticks + 1 >= 2) ==>
                  q.tasks[i] == r.tasks[i].(phase := Ready) && q.active == None)
            && (trap == Tick && r.ticks + 1 < 2 ==> q.tasks == r.tasks && q.active == r.active)
            && forall j: Slot :: j != i ==> q.tasks[j] == r.tasks[j]
  {
    hide Complete;
  }

  /** A program that reads without input at hand is blocked on its buffer; a bad buffer
      ends it. */
  lemma ReadBlocks(r: Runtime, pointer: u64, raw: u64)
    requires r.active.Some?
    ensures var i := r.active.value;
            var q := Step(r, Enter(Read(pointer, raw)));
            var length := Min(raw, 256);
            && (!Writable(pointer, length) ==>
                  q.tasks[i] == r.tasks[i].(phase := Faulted, exitCode := 127) && q.active == None)
            && (Writable(pointer, length) && length > 0 && r.tasks[i].input == [] ==>
                  q.tasks[i] == r.tasks[i].(phase := Blocked, pointer := pointer, length := length) && q.active == None)
            && (length == 0 ==> q.tasks == r.tasks && q.active == r.active)
  {
    hide Complete;
  }

  /** Cancelling ends the first task of that pid, with the given code or 130, unless it is
      the active one or over already. */
  lemma CancelEnds(r: Runtime, pid: u32, code: u32)
    ensures var (q, ok) := AfterCancel(r, pid, code);
            var o := FindTask(r, pid, 0);
            && (ok <==> o.Some? && r.active != Some(o.value) && !IsOver(r.tasks[o.value]))
            && (ok ==> q.tasks[o.value] == r.tasks[o.value].(phase := Finished, exitCode := if code == 0 then 130 else code)
                       && forall j: Slot :: j != o.value ==> q.tasks[j] == r.tasks[j])
            && (!ok ==> q == r)
  {
    hide FindTask;
  }

  /** Input is taken by the first task of that pid if it is ready or blocked and its ring has
      room; a ready task finds it behind what it has, and a blocked one is woken by it. */
  lemma DeliverAnswers(r: Runtime, pid: u32, data: byte)
    requires RuntimeOk(r)
    ensures var (q, ok) := AfterDeliver(r, pid, data);
            var o := FindTask(r, pid, 0);
            && (ok <==> o.Some? && (r.tasks[o.value].phase == Ready || r.tasks[o.value].phase == Blocked)
                        && |r.tasks[o.value].input| < 128)
            && (ok && r.tasks[o.value].phase == Ready ==>
                  var t := r.tasks[o.value];
                  q.tasks[o.value] == t.(input := t.input + [data], accepted := t.accepted + [data]))
            && (ok && r.tasks[o.value].phase == Blocked ==>
                  var t := r.tasks[o.value];
                  && q.tasks[o.value].phase == Ready && q.tasks[o.value].input == []
                  && q.tasks[o.value].copies == t.copies + [Copy(t.pointer, [data])])
            && (ok ==> forall j: Slot :: j != o.value ==> q.tasks[j] == r.tasks[j])
            && (!ok ==> q == r)
  {
    hide FindTask, WithByte, TaskOk;
    var o := FindTask(r, pid, 0);
    if o.Some? && TakesInput(r.tasks[o.value]) {
      if r.tasks[o.value].phase == Blocked {
        WakesBlocked(r.tasks[o.value], data);
      } else {
        ReadyTakes(r.tasks[o.value], data);
      }
    }
  }

  lemma ReadyTakes(t: Task, data: byte)
    requires TakesInput(t) && t.phase == Ready
    ensures WithByte(t, data) == t.(input := t.input + [data], accepted := t.accepted + [data])
  {
  }

  /** The slot of a program that neither runs nor can run is emptied; the other slots stay. */
  lemma RetireEmpties(r: Runtime, i: Slot)
    ensures var q := Step(r, Retire(i));
            && (r.tasks[i].phase == Ready || r.tasks[i].phase == Running ==> q == r)
            && (r.tasks[i].phase != Ready && r.tasks[i].phase != Running ==> q.tasks[i] == r.tasks[i].(phase := Empty))
            && forall j: Slot :: j != i ==> q.tasks[j] == r.tasks[j]
  {
  }

  /** Slot `i` is neither emptied nor given to a new program. */
  predicate Kept(r: Runtime, e: Event, i: Slot) {
    e != Retire(i) && (e.Spawn? ==> Reusable(r) != Some(i))
  }

  predicate AllKept(r: Runtime, es: seq<Event>, i: Slot)
    decreases |es|
  {
    es == [] || (Kept(r, es[0], i) && AllKept(Step(r, es[0]), es[1..], i))
  }

  lemma OverStays(r: Runtime, e: Event, i: Slot)
    requires RuntimeOk(r) && IsOver(r.tasks[i]) && Kept(r, e, i)
    ensures Step(r, e).tasks[i] == r.tasks[i] && Step(r, e).active != Some(i)
  {
    hide TaskOk, Reusable, FindTask, FirstOffset, AfterTrap, WithByte;
    FirstOffsetIsFirst(r, IsReady, 0);
  }

  /** A program that is over is never dispatched again, and its code stays, until its slot is
      emptied or given to another. */
  lemma {:induction false} OverRests(r: Runtime, es: seq<Event>, i: Slot)
    requires RuntimeOk(r) && IsOver(r.tasks[i]) && AllKept(r, es, i)
    ensures Run(r, es).tasks[i] == r.tasks[i] && !Dispatched(r, es, i)
    decreases |es|
  {
    hide RuntimeOk, Step, Kept;
    if es != [] {
      OverStays(r, es[0], i);
      StepKeeps(r, es[0]);
      OverRests(Step(r, es[0]), es[1..], i);
    }
  }

  /** Some event of the run makes slot `i` the active one. */
  predicate Dispatched(r: Runtime, es: seq<Event>, i: Slot)
    decreases |es|
  {
    es != [] && (Step(r, es[0]).active == Some(i) || Dispatched(Step(r, es[0]), es[1..], i))
  }

  lemma EndIsFinal(r: Runtime, trap: Trap, es: seq<Event>)
    requires RuntimeOk(r) && r.active.Some? && Ending(trap).Some?
    requires AllKept(Step(r, Enter(trap)), es, r.active.value)
    ensures var i := r.active.value;
            var q := Step(r, Enter(trap));
            && Run(q, es).tasks[i].phase == Ending(trap).value.0 && Run(q, es).tasks[i].exitCode == Ending(trap).value.1
            && !Dispatched(q, es, i)
  {
    hide RuntimeOk, Run, Dispatched, AllKept;
    TrapEnds(r, trap);
    StepKeeps(r, Enter(trap));
    OverRests(Step(r, Enter(trap)), es, r.active.value);
  }

  // ----- how it starts

  /** A program that was accepted is ready, under a new pid, without input or history. */
  lemma SpawnStarts(r: Runtime)
    requires Reusable(r).Some?
    ensures var i := Reusable(r).value;
            var q := Step(r, Spawn(true, true));
            && q.tasks[i] == Task(Ready, r.nextPid, [], 0, 0, 0, [], []) && q.active == r.active
            && q.nextPid != r.nextPid && q.nextPid >= 1000
            && forall j: Slot :: j != i ==> q.tasks[j] == r.tasks[j]
  {
    hide Reusable;
    U32Near(r.nextPid + 1);
  }

  /** A ready task is ready until it is dispatched or cancelled. */
  lemma ReadyLeaves(r: Runtime, e: Event, i: Slot)
    requires RuntimeOk(r) && r.tasks[i].phase == Ready && !e.Spawn? && (e.Cancel? ==> e.pid != r.tasks[i].pid)
    ensures var q := Step(r, e);
            && q.tasks[i].pid == r.tasks[i].pid
            && (q.tasks[i].phase == Ready || (q.tasks[i].phase == Running && q.active == Some(i)))
  {
    hide TaskOk, FirstOffset, AfterTrap, Complete;
    FirstOffsetIsFirst(r, IsReady, 0);
  }

  lemma {:induction false} ReadyOrDispatched(r: Runtime, es: seq<Event>, i: Slot)
    requires RuntimeOk(r) && r.tasks[i].phase == Ready
    requires forall e :: e in es ==> !e.Spawn? && (e.Cancel? ==> e.pid != r.tasks[i].pid)
    ensures StaysReady(r, es, i) || Dispatched(r, es, i)
    decreases |es|
  {
    hide RuntimeOk, Step;
    if es != [] {
      assert es[0] in es && forall e :: e in es[1..] ==> e in es;
      ReadyLeaves(r, es[0], i);
      StepKeeps(r, es[0]);
      if Step(r, es[0]).tasks[i].phase == Ready { ReadyOrDispatched(Step(r, es[0]), es[1..], i); }
    }
  }

  /** Without another spawn, and unless it is cancelled, a ready program is dispatched by the
      fourth poll that finds no task active. */
  lemma ReadyIsDispatched(r: Runtime, es: seq<Event>, i: Slot)
    requires RuntimeOk(r) && r.tasks[i].phase == Ready && Polls(r, es) >= CAPACITY
    requires forall e :: e in es ==> !e.Spawn? && (e.Cancel? ==> e.pid != r.tasks[i].pid)
    ensures Dispatched(r, es, i)
  {
    hide RuntimeOk, StaysReady, Dispatched, Polls;
    ReadyOrDispatched(r, es, i);
    if StaysReady(r, es, i) {
      DispatchedWithinFour(r, es, i);
      assert false;
    }
  }

  /** So is one that was just spawned. */
  lemma SpawnedIsDispatched(r: Runtime, es: seq<Event>)
    requires RuntimeOk(r) && Reusable(r).Some? && Polls(Step(r, Spawn(true, true)), es) >= CAPACITY
    requires forall e :: e in es ==> !e.Spawn? && (e.Cancel? ==> e.pid != r.nextPid)
    ensures Dispatched(Step(r, Spawn(true, true)), es, Reusable(r).value)
  {
    hide RuntimeOk, Dispatched, Polls, Reusable, Step;
    SpawnStarts(r);
    StepKeeps(r, Spawn(true, true));
    ReadyIsDispatched(Step(r, Spawn(true, true)), es, Reusable(r).value);
  }
}
