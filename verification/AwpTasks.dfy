/** The user-task machine of arch/x86_64/cpu/user_mode.c: four slots, round-robin
    dispatch, traps out of ring 3, and blocking input. */
module AwpTasks {
  import opened Words
  import opened Wrappers

  const CAPACITY := 4
  const INPUT_CAPACITY := 128
  const TRANSFER_LIMIT := 256
  const QUANTUM_TICKS := 2
  const BAD_SYSCALL_EXIT: u32 := 127
  const CANCELED_EXIT: u32 := 130
  const STACK_BASE: u64 := 0x80_0020_0000
  const STACK_SIZE: u64 := 24 * 4096

  datatype Phase = Empty | Ready | Running | Blocked | Finished | Faulted

  /** One completed read: `bytes` went to user memory from `pointer` on. */
  datatype Copy = Copy(pointer: u64, bytes: seq<byte>)

  type InputRing = s: seq<byte> | |s| <= 128

  /** `accepted` and `copies` are the history of the program in the slot: the input
      bytes taken for it and the reads that handed them over. */
  datatype Task = Task(
    phase: Phase, pid: u32, input: InputRing, pointer: u64, length: u64, exitCode: u32,
    accepted: seq<byte>, copies: seq<Copy>)

  type Slot = i: nat | i < 4
  type Tasks = s: seq<Task> | |s| == 4 witness seq(4, _ => FreshTask(Empty, 0))

  datatype Runtime = Runtime(tasks: Tasks, active: Option<Slot>, nextSlot: Slot, nextPid: u32, ticks: nat)

  function FreshTask(phase: Phase, pid: u32): Task {
    Task(phase, pid, [], 0, 0, 0, [], [])
  }

  // ----- user memory ranges

  predicate InRegion(start: u64, length: u64, base: u64, size: u64) {
    length == 0 || (start >= base && length <= size && start - base <= size - length)
  }

  predicate Writable(start: u64, length: u64) {
    InRegion(start, length, STACK_BASE, STACK_SIZE)
  }

  /** How many of the `count` addresses from `pointer` on can be written. */
  function WritablePrefix(pointer: u64, count: nat): (n: nat)
    ensures n <= count
  {
    if count == 0 then 0
    else
      var n := WritablePrefix(pointer, count - 1);
      if n == count - 1 && Writable(U64(pointer + count - 1), 1) then count else n
  }

  lemma {:induction false} RangeIsWritable(pointer: u64, length: u64, count: nat)
    requires Writable(pointer, length) && count <= length
    ensures WritablePrefix(pointer, count) == count
  {
    if count > 0 {
      RangeIsWritable(pointer, length, count - 1);
      U64Small(pointer + count - 1);
    }
  }

  // ----- one task

  /** `complete_pending_read` */
  function Complete(t: Task): (Task, nat) {
    var count := Min(|t.input|, t.length);
    var good := WritablePrefix(t.pointer, count);
    var moved := t.(input := t.input[good..], copies := t.copies + [Copy(t.pointer, t.input[..good])]);
    if good < count then
      (moved.(phase := Faulted, exitCode := BAD_SYSCALL_EXIT), 0)
    else
      (moved.(pointer := 0, length := 0, phase := if t.phase == Blocked then Ready else t.phase), count)
  }

  datatype Trap =
    | Read(pointer: u64, length: u64)
    | Exit(code: u32)
    | BadSyscall
    | BadPointer
    | NetworkRetry
    | Tick
    | Fault(vector: byte)
    | Served

  /** What a trap makes of the running task, and whether it leaves ring 3. */
  function AfterTrap(t: Task, ticks: nat, trap: Trap): (Task, bool) {
    match trap
    case Read(pointer, raw) =>
      var length := if raw > TRANSFER_LIMIT then TRANSFER_LIMIT else raw;
      if !Writable(pointer, length) then (t.(phase := Faulted, exitCode := BAD_SYSCALL_EXIT), true)
      else if length == 0 then (t, false)
      else if |t.input| != 0 then (Complete(t.(pointer := pointer, length := length)).0, false)
      else (t.(pointer := pointer, length := length, phase := Blocked), true)
    case Exit(code) => (t.(phase := Finished, exitCode := code), true)
    case BadSyscall => (t.(phase := Finished, exitCode := BAD_SYSCALL_EXIT), true)
    case BadPointer => (t.(phase := Faulted, exitCode := BAD_SYSCALL_EXIT), true)
    case NetworkRetry => (t.(phase := Ready), true)
    case Tick => if ticks + 1 < QUANTUM_TICKS then (t, false) else (t.(phase := Ready), true)
    case Fault(vector) => (t.(phase := Faulted, exitCode := 128 + vector as int), true)
    case Served => (t, false)
  }

  // ----- the table

  function At(nextSlot: Slot, offset: nat): Slot {
    (nextSlot + offset) % CAPACITY
  }

  /** The first offset from `nextSlot` whose task satisfies `p`. */
  function FirstOffset(r: Runtime, p: Task -> bool, from: nat): Option<nat>
    requires from <= CAPACITY
    decreases CAPACITY - from
  {
    if from == CAPACITY then None
    else if p(r.tasks[At(r.nextSlot, from)]) then Some(from)
    else FirstOffset(r, p, from + 1)
  }

  lemma {:induction false} FirstOffsetIsFirst(r: Runtime, p: Task -> bool, from: nat)
    requires from <= CAPACITY
    ensures var o := FirstOffset(r, p, from);
            && (o.Some? ==> from <= o.value < CAPACITY && p(r.tasks[At(r.nextSlot, o.value)])
                            && forall k :: from <= k < o.value ==> !p(r.tasks[At(r.nextSlot, k)]))
            && (o.None? ==> forall k :: from <= k < CAPACITY ==> !p(r.tasks[At(r.nextSlot, k)]))
    decreases CAPACITY - from
  {
    if from < CAPACITY && !p(r.tasks[At(r.nextSlot, from)]) { FirstOffsetIsFirst(r, p, from + 1); }
  }

  predicate IsReady(t: Task) { t.phase == Ready }
  predicate IsEmpty(t: Task) { t.phase == Empty }
  predicate IsOver(t: Task) { t.phase == Finished || t.phase == Faulted }

  /** `find_reusable_task`: an empty slot if there is one, else one that is over. */
  function Reusable(r: Runtime): Option<Slot> {
    match FirstOffset(r, IsEmpty, 0)
    case Some(k) => Some(At(r.nextSlot, k))
    case None =>
      match FirstOffset(r, IsOver, 0)
      case Some(k) => Some(At(r.nextSlot, k))
      case None => None
  }

  /** `find_task`: the first slot in use with that pid. */
  function FindTask(r: Runtime, pid: u32, from: nat): (o: Option<Slot>)
    requires from <= CAPACITY
    ensures o.Some? ==> r.tasks[o.value].phase != Empty && r.tasks[o.value].pid == pid
    decreases CAPACITY - from
  {
    if from == CAPACITY then None
    else if r.tasks[from].phase != Empty && r.tasks[from].pid == pid then Some(from)
    else FindTask(r, pid, from + 1)
  }

  function SetTask(r: Runtime, i: Slot, t: Task): Runtime {
    r.(tasks := r.tasks[i := t])
  }

  function NextPid(pid: u32): u32 {
    var next := U32(pid + 1);
    if next < 1000 then 1000 else next
  }

  datatype Event =
    | Spawn(named: bool, loaded: bool)
    | Retire(slot: Slot)
    | Poll
    | Enter(trap: Trap)
    | Deliver(pid: u32, data: byte)
    | Cancel(pid: u32, code: u32)

  /** `x86_64_user_spawn_image`: do name and argument fit, is the image well formed? */
  function AfterSpawn(r: Runtime, named: bool, loaded: bool): Runtime {
    match Reusable(r)
    case None => r
    case Some(i) =>
      var r1 := r.(nextSlot := (i + 1) % CAPACITY);
      if !named then SetTask(r1, i, FreshTask(Empty, 0))
      else SetTask(r1.(nextPid := NextPid(r.nextPid)), i, FreshTask(if loaded then Ready else Empty, r.nextPid))
  }

  function AfterPoll(r: Runtime): Runtime {
    if r.active.Some? then r
    else match FirstOffset(r, IsReady, 0)
      case None => r
      case Some(k) =>
        var i := At(r.nextSlot, k);
        SetTask(r, i, r.tasks[i].(phase := Running)).(active := Some(i), nextSlot := (i + 1) % CAPACITY, ticks := 0)
  }

  function AfterEnter(r: Runtime, trap: Trap): Runtime {
    match r.active
    case None => r
    case Some(i) =>
      var (t, leaves) := AfterTrap(r.tasks[i], r.ticks, trap);
      SetTask(r, i, t).(active := if leaves then None else r.active,
                        ticks := if trap.Tick? then r.ticks + 1 else r.ticks)
  }

  predicate TakesInput(t: Task) {
    (t.phase == Ready || t.phase == Blocked) && |t.input| < INPUT_CAPACITY
  }

  function WithByte(t: Task, data: byte): Task
    requires TakesInput(t)
  {
    var t1 := t.(input := t.input + [data], accepted := t.accepted + [data]);
    if t.phase == Blocked then Complete(t1).0 else t1
  }

  function AfterDeliver(r: Runtime, pid: u32, data: byte): (Runtime, bool) {
    match FindTask(r, pid, 0)
    case None => (r, false)
    case Some(i) =>
      if TakesInput(r.tasks[i]) then (SetTask(r, i, WithByte(r.tasks[i], data)), true) else (r, false)
  }

  function AfterCancel(r: Runtime, pid: u32, code: u32): (Runtime, bool) {
    match FindTask(r, pid, 0)
    case None => (r, false)
    case Some(i) =>
      if r.active == Some(i) || IsOver(r.tasks[i]) then (r, false)
      else (SetTask(r, i, r.tasks[i].(phase := Finished, exitCode := if code == 0 then CANCELED_EXIT else code)), true)
  }

  /** The end of `x86_64_user_run`: the slot of a program that no longer runs is emptied. */
  function AfterRetire(r: Runtime, i: Slot): Runtime {
    if r.tasks[i].phase == Ready || r.tasks[i].phase == Running then r
    else SetTask(r, i, r.tasks[i].(phase := Empty))
  }

  function Step(r: Runtime, e: Event): Runtime {
    match e
    case Spawn(named, loaded) => AfterSpawn(r, named, loaded)
    case Retire(slot) => AfterRetire(r, slot)
    case Poll => AfterPoll(r)
    case Enter(trap) => AfterEnter(r, trap)
    case Deliver(pid, data) => AfterDeliver(r, pid, data).0
    case Cancel(pid, code) => AfterCancel(r, pid, code).0
  }

  function Run(r: Runtime, es: seq<Event>): Runtime
    decreases |es|
  {
    if es == [] then r else Run(Step(r, es[0]), es[1..])
  }

  // ----- safety

  function Handed(copies: seq<Copy>): seq<byte> {
    if copies == [] then [] else Handed(copies[..|copies| - 1]) + copies[|copies| - 1].bytes
  }

  /** A blocked task has no input and a non-empty, writable buffer; what was handed
      over and what still waits is what was accepted, in order; nothing was ever
      written outside the stack. */
  predicate TaskOk(t: Task) {
    && (t.phase == Blocked ==> t.input == [] && 0 < t.length <= TRANSFER_LIMIT && Writable(t.pointer, t.length))
    && Handed(t.copies) + t.input == t.accepted
    && forall c :: c in t.copies ==> 0 < |c.bytes| <= INPUT_CAPACITY && Writable(c.pointer, |c.bytes|)
  }

  /** Outside ring 3 no task is running; inside, exactly the active one is. */
  predicate RuntimeOk(r: Runtime) {
    && (forall i: Slot :: r.tasks[i].phase == Running <==> r.active == Some(i))
    && forall i: Slot :: TaskOk(r.tasks[i])
  }

  lemma HandedAppend(copies: seq<Copy>, c: Copy)
    ensures Handed(copies + [c]) == Handed(copies) + c.bytes
  {
    assert (copies + [c])[..|copies|] == copies;
  }

  /** A read with input at hand hands over a prefix of the ring, at the buffer. */
  lemma CompleteKeeps(t: Task)
    requires t.input != [] && 0 < t.length <= TRANSFER_LIMIT && Writable(t.pointer, t.length)
    requires TaskOk(t.(phase := Ready))
    ensures var (u, count) := Complete(t);
            && count == Min(|t.input|, t.length) && count > 0
            && u.input == t.input[count..] && u.copies == t.copies + [Copy(t.pointer, t.input[..count])]
            && u.phase == (if t.phase == Blocked then Ready else t.phase) && u.accepted == t.accepted
            && u.pointer == 0 && u.length == 0 && (u.phase != Blocked ==> TaskOk(u))
  {
    hide WritablePrefix, Handed;
    var count := Min(|t.input|, t.length);
    RangeIsWritable(t.pointer, t.length, count);
    var c := Copy(t.pointer, t.input[..count]);
    HandedAppend(t.copies, c);
    assert t.input == t.input[..count] + t.input[count..];
    assert Handed(t.copies) + t.input[..count] + t.input[count..] == t.accepted;
  }

  lemma TrapKeeps(t: Task, ticks: nat, trap: Trap)
    requires TaskOk(t) && t.phase == Running
    ensures TaskOk(AfterTrap(t, ticks, trap).0)
    ensures AfterTrap(t, ticks, trap).0.phase == Running <==> !AfterTrap(t, ticks, trap).1
  {
    hide Complete, Handed;
    match trap
    case Read(pointer, raw) =>
      var length := if raw > TRANSFER_LIMIT then TRANSFER_LIMIT else raw;
      if Writable(pointer, length) && length != 0 && |t.input| != 0 {
        CompleteKeeps(t.(pointer := pointer, length := length));
      }
    case _ =>
  }

  /** No wakeup is lost: a byte for a blocked task goes straight into its buffer and
      makes it ready. */
  lemma WakesBlocked(t: Task, data: byte)
    requires TaskOk(t) && t.phase == Blocked
    ensures TakesInput(t)
    ensures var u := WithByte(t, data);
            && u.phase == Ready && u.input == [] && u.copies == t.copies + [Copy(t.pointer, [data])] && TaskOk(u)
  {
    hide Complete, Handed;
    var t1 := t.(input := t.input + [data], accepted := t.accepted + [data]);
    assert t1.input == [data];
    assert Handed(t.copies) + [data] == t1.accepted;
    CompleteKeeps(t1);
    assert t1.input[..1] == [data] && t1.input[1..] == [];
  }

  lemma ByteKeeps(t: Task, data: byte)
    requires TaskOk(t) && TakesInput(t)
    ensures TaskOk(WithByte(t, data)) && WithByte(t, data).phase == Ready
    ensures WithByte(t, data).accepted == t.accepted + [data]
  {
    hide Complete, Handed;
    if t.phase == Blocked {
      WakesBlocked(t, data);
      var t1 := t.(input := t.input + [data], accepted := t.accepted + [data]);
      assert t1.input == [data] && Handed(t.copies) + [data] == t1.accepted;
      CompleteKeeps(t1);
    } else {
      assert Handed(t.copies) + (t.input + [data]) == t.accepted + [data];
    }
  }

  /** A slot is handed out only if no live program is in it, and only refused when
      every slot holds one. */
  lemma ReusableExact(r: Runtime)
    ensures var o := Reusable(r);
            && (o.Some? ==> IsEmpty(r.tasks[o.value]) || IsOver(r.tasks[o.value]))
            && (o.Some? && IsOver(r.tasks[o.value]) ==> forall i: Slot :: !IsEmpty(r.tasks[i]))
            && (o.None? <==> forall i: Slot :: !IsEmpty(r.tasks[i]) && !IsOver(r.tasks[i]))
  {
    FirstOffsetIsFirst(r, IsEmpty, 0);
    FirstOffsetIsFirst(r, IsOver, 0);
    forall i: Slot ensures At(r.nextSlot, Distance(r.nextSlot, i)) == i && Distance(r.nextSlot, i) < CAPACITY {
      EverySlot(r.nextSlot, i);
    }
  }

  /** How far `i` is from the next slot to be looked at. */
  function Distance(nextSlot: Slot, i: Slot): nat {
    (i - nextSlot) % CAPACITY
  }

  lemma EverySlot(nextSlot: Slot, i: Slot)
    ensures Distance(nextSlot, i) < CAPACITY && At(nextSlot, Distance(nextSlot, i)) == i
  {
  }

  lemma SpawnKeeps(r: Runtime, named: bool, loaded: bool)
    requires RuntimeOk(r)
    ensures RuntimeOk(AfterSpawn(r, named, loaded))
  {
    hide TaskOk, Reusable, FirstOffset;
    ReusableExact(r);
    assert TaskOk(FreshTask(Empty, 0)) by { FreshOk(Empty, 0); }
    FreshOk(Ready, r.nextPid);
    FreshOk(Empty, r.nextPid);
  }

  lemma PollKeeps(r: Runtime)
    requires RuntimeOk(r)
    ensures RuntimeOk(AfterPoll(r))
  {
    hide TaskOk, FirstOffset;
    if r.active.None? && FirstOffset(r, IsReady, 0).Some? {
      FirstOffsetIsFirst(r, IsReady, 0);
      PhaseOk(r.tasks[At(r.nextSlot, FirstOffset(r, IsReady, 0).value)], Running);
    }
  }

  lemma DeliverKeeps(r: Runtime, pid: u32, data: byte)
    requires RuntimeOk(r)
    ensures RuntimeOk(AfterDeliver(r, pid, data).0)
  {
    hide TaskOk, WithByte, FindTask;
    var o := FindTask(r, pid, 0);
    if o.Some? && TakesInput(r.tasks[o.value]) { ByteKeeps(r.tasks[o.value], data); }
  }

  lemma StepKeeps(r: Runtime, e: Event)
    requires RuntimeOk(r)
    ensures RuntimeOk(Step(r, e))
  {
    hide TaskOk, AfterTrap, AfterSpawn, AfterPoll, AfterDeliver, FindTask;
    match e
    case Spawn(named, loaded) => SpawnKeeps(r, named, loaded);
    case Retire(slot) => PhaseOk(r.tasks[slot], Empty);
    case Poll => PollKeeps(r);
    case Enter(trap) =>
      if r.active.Some? { TrapKeeps(r.tasks[r.active.value], r.ticks, trap); }
    case Deliver(pid, data) => DeliverKeeps(r, pid, data);
    case Cancel(pid, code) =>
      var o := FindTask(r, pid, 0);
      if o.Some? { CancelOk(r.tasks[o.value], if code == 0 then CANCELED_EXIT else code); }
  }

  lemma FreshOk(phase: Phase, pid: u32)
    requires phase != Blocked
    ensures TaskOk(FreshTask(phase, pid))
  {
  }

  lemma PhaseOk(t: Task, phase: Phase)
    requires TaskOk(t) && phase != Blocked
    ensures TaskOk(t.(phase := phase))
  {
  }

  lemma CancelOk(t: Task, code: u32)
    requires TaskOk(t)
    ensures TaskOk(t.(phase := Finished, exitCode := code))
  {
  }

  /** Over every run of spawns, polls, traps, input and cancellation. */
  lemma {:induction false} RunKeeps(r: Runtime, es: seq<Event>)
    requires RuntimeOk(r)
    ensures RuntimeOk(Run(r, es))
    decreases |es|
  {
    hide RuntimeOk, Step;
    if es != [] {
      StepKeeps(r, es[0]);
      RunKeeps(Step(r, es[0]), es[1..]);
    }
  }

  // ----- fairness

  /** Polls that find no task active. */
  function Polls(r: Runtime, es: seq<Event>): nat
    decreases |es|
  {
    if es == [] then 0
    else (if es[0].Poll? && r.active.None? then 1 else 0) + Polls(Step(r, es[0]), es[1..])
  }

  predicate StaysReady(r: Runtime, es: seq<Event>, i: Slot)
    decreases |es|
  {
    r.tasks[i].phase == Ready && (es == [] || StaysReady(Step(r, es[0]), es[1..], i))
  }

  /** A poll that passes a ready task over brings it nearer. */
  lemma PollApproaches(r: Runtime, i: Slot)
    requires r.active.None? && r.tasks[i].phase == Ready && AfterPoll(r).tasks[i].phase == Ready
    ensures Distance(AfterPoll(r).nextSlot, i) < Distance(r.nextSlot, i)
  {
    EverySlot(r.nextSlot, i);
    var d := Distance(r.nextSlot, i);
    var o := FirstOffset(r, IsReady, 0);
    FirstOffsetIsFirst(r, IsReady, 0);
    assert o.Some? && o.value <= d by { assert IsReady(r.tasks[At(r.nextSlot, d)]); }
    var k := o.value;
    assert At(r.nextSlot, k) != i;
    Nearer(r.nextSlot, k, i);
  }

  lemma Nearer(nextSlot: Slot, k: nat, i: Slot)
    requires k < CAPACITY && k <= Distance(nextSlot, i) && At(nextSlot, k) != i
    ensures Distance((At(nextSlot, k) + 1) % CAPACITY, i) < Distance(nextSlot, i)
  {
  }

  lemma OthersKeepTurn(r: Runtime, e: Event)
    requires !e.Spawn? && !(e.Poll? && r.active.None?)
    ensures Step(r, e).nextSlot == r.nextSlot
  {
  }

  /** Without a spawn in between, a task that stays ready is passed over by at most
      three polls: the fourth dispatches it. */
  lemma {:induction false} DispatchedWithinFour(r: Runtime, es: seq<Event>, i: Slot)
    requires StaysReady(r, es, i) && forall e :: e in es ==> !e.Spawn?
    ensures Polls(r, es) <= Distance(r.nextSlot, i) < CAPACITY
    decreases |es|
  {
    hide Step, AfterPoll;
    if es != [] {
      var next := Step(r, es[0]);
      assert es[0] in es;
      if es[0].Poll? && r.active.None? {
        assert next == AfterPoll(r) by { PollIsStep(r); }
        PollApproaches(r, i);
      } else {
        OthersKeepTurn(r, es[0]);
      }
      DispatchedWithinFour(next, es[1..], i);
    }
  }

  lemma PollIsStep(r: Runtime)
    ensures Step(r, Poll) == AfterPoll(r)
  {
  }

  function Ticks(es: seq<Event>): nat {
    if es == [] then 0 else (if es[0] == Enter(Tick) then 1 else 0) + Ticks(es[1..])
  }

  predicate StaysActive(r: Runtime, es: seq<Event>, i: Slot)
    decreases |es|
  {
    r.active == Some(i) && (es == [] || StaysActive(Step(r, es[0]), es[1..], i))
  }

  /** A dispatched task is back in the kernel by its second timer tick, whatever it does. */
  lemma {:induction false} SliceEnds(r: Runtime, es: seq<Event>, i: Slot)
    requires StaysActive(r, es, i) && r.ticks < QUANTUM_TICKS
    ensures r.ticks + Ticks(es) < QUANTUM_TICKS
    decreases |es|
  {
    hide Step;
    if es != [] {
      TickCounts(r, es[0], i);
      SliceEnds(Step(r, es[0]), es[1..], i);
    }
  }

  lemma TickCounts(r: Runtime, e: Event, i: Slot)
    requires r.active == Some(i) && Step(r, e).active == Some(i) && r.ticks < QUANTUM_TICKS
    ensures Step(r, e).ticks == (if e == Enter(Tick) then r.ticks + 1 else r.ticks) < QUANTUM_TICKS
  {
  }
}
