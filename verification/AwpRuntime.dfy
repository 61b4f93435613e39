/** The user runtime of arch/x86_64/cpu/user_mode.c as kernel state that its entry points
    change in place: task records with their input rings, the active task, the next slot
    and the pages written for each task.  Each method is proved against the step of
    AwpTasks that it performs. */
module AwpRuntime {
  import opened Words
  import opened Wrappers
  import opened Rings
  import opened AwpTasks

  /** A task record; its input is a ring of `INPUT_CAPACITY` cells. */
  datatype Record = Record(
    phase: Phase, pid: u32, cells: seq<byte>, head: nat, count: nat,
    pointer: u64, length: u64, exitCode: u32)

  ghost predicate Mirrors(rec: Record, t: Task) {
    && rec.phase == t.phase && rec.pid == t.pid && rec.exitCode == t.exitCode
    && rec.pointer == t.pointer && rec.length == t.length
    && |rec.cells| == INPUT_CAPACITY && rec.head < INPUT_CAPACITY && rec.count <= INPUT_CAPACITY
    && t.input == Elements(rec.cells, rec.head, rec.count)
  }

  /** Appending behind the newest element. */
  lemma PushElements(cells: seq<byte>, head: nat, count: nat, x: byte)
    requires head < |cells| && count < |cells|
    ensures (head + count) % |cells| == Rings.Slot(head, count, |cells|) < |cells|
    ensures Elements(cells[(head + count) % |cells| := x], head, count + 1) == Elements(cells, head, count) + [x]
  {
    SlotIsRemainder(head, count, |cells|);
  }

  /** Taking the oldest element. */
  lemma PopElements(cells: seq<byte>, head: nat, count: nat)
    requires head < |cells| && 0 < count <= |cells|
    ensures (head + 1) % |cells| < |cells|
    ensures Elements(cells, head, count)[0] == cells[head]
    ensures Elements(cells, (head + 1) % |cells|, count - 1) == Elements(cells, head, count)[1..]
  {
    SlotIsRemainder(head, 1, |cells|);
    var next := (head + 1) % |cells|;
    var all := Elements(cells, head, count);
    var rest := Elements(cells, next, count - 1);
    forall k | 0 <= k < count - 1 ensures rest[k] == all[1..][k] {
      assert Rings.Slot(next, k, |cells|) == Rings.Slot(head, k + 1, |cells|);
    }
    assert rest == all[1..];
  }

  function Target(pointer: u64, k: nat): u64 {
    U64(pointer + k)
  }

  /** Memory after `bytes` were stored from `pointer` on. */
  function Stored(stack: map<int, byte>, pointer: u64, bytes: seq<byte>): map<int, byte> {
    if bytes == [] then stack
    else
      var n := |bytes| - 1;
      Stored(stack, pointer, bytes[..n])[Target(pointer, n) := bytes[n]]
  }

  /** What was stored lies in memory, byte for byte, and nothing else changed. */
  lemma {:induction false} StoredLands(stack: map<int, byte>, pointer: u64, bytes: seq<byte>)
    requires |bytes| <= INPUT_CAPACITY
    ensures var s := Stored(stack, pointer, bytes);
            && (forall k :: 0 <= k < |bytes| ==> Target(pointer, k) in s && s[Target(pointer, k)] == bytes[k])
            && forall a :: (forall k :: 0 <= k < |bytes| ==> a != Target(pointer, k)) ==>
                 (a in s <==> a in stack) && (a in s ==> s[a] == stack[a])
  {
    hide Target;
    if bytes != [] {
      var n := |bytes| - 1;
      StoredLands(stack, pointer, bytes[..n]);
      TargetsDiffer(pointer, n);
    }
  }

  /** A slot's memory after its task went from `before` to `after`: what the read that
      completed in between handed over, if one did, is stored at its buffer. */
  function MemoryAfter(stack: map<int, byte>, before: Task, after: Task): map<int, byte> {
    if |after.copies| <= |before.copies| then stack
    else
      var copy := after.copies[|after.copies| - 1];
      Stored(stack, copy.pointer, copy.bytes)
  }

  /** Every slot's memory is what the reads that completed from `before` to `after` made of it. */
  ghost predicate HandedOver(was: seq<map<int, byte>>, now: seq<map<int, byte>>, before: Tasks, after: Tasks) {
    |was| == |now| == CAPACITY && forall i: AwpTasks.Slot :: now[i] == MemoryAfter(was[i], before[i], after[i])
  }

  lemma NothingHanded(stacks: seq<map<int, byte>>, before: Tasks, after: Tasks)
    requires |stacks| == CAPACITY && forall i: AwpTasks.Slot :: |after[i].copies| <= |before[i].copies|
    ensures HandedOver(stacks, stacks, before, after)
  {
  }

  lemma HandedSince(was: seq<map<int, byte>>, now: seq<map<int, byte>>, before: Tasks, middle: Tasks, after: Tasks)
    requires HandedOver(was, now, middle, after)
    requires forall i: AwpTasks.Slot :: middle[i].copies == before[i].copies
    ensures HandedOver(was, now, before, after)
  {
  }

  lemma MirrorsPointer(rec: Record, t: Task, good: nat)
    requires good <= |t.input| && Mirrors(rec, t.(input := t.input[good..]))
    ensures rec.pointer == t.pointer
  {
  }

  /** The oldest byte leaves the ring. */
  lemma PopMirrors(rec: Record, t: Task, good: nat)
    requires good < |t.input| && Mirrors(rec, t.(input := t.input[good..]))
    ensures rec.head < |rec.cells| && rec.count > 0 && rec.cells[rec.head] == t.input[good]
    ensures Mirrors(rec.(head := (rec.head + 1) % INPUT_CAPACITY, count := rec.count - 1),
                    t.(input := t.input[good + 1..]))
  {
    hide Elements;
    PopElements(rec.cells, rec.head, rec.count);
    assert t.input[good..][0] == t.input[good] && t.input[good..][1..] == t.input[good + 1..];
  }

  /** Bytes go from the ring to user memory one by one, until an address is refused. */
  method MoveBytes(start: Record, memory: map<int, byte>, count: nat, ghost t: Task)
    returns (rec: Record, stack: map<int, byte>, good: nat)
    requires Mirrors(start, t) && count == Min(|t.input|, t.length) <= INPUT_CAPACITY
    ensures good == WritablePrefix(t.pointer, count)
    ensures Mirrors(rec, t.(input := t.input[good..])) && stack == Stored(memory, t.pointer, t.input[..good])
  {
    hide Elements, Writable, Mirrors, Target;
    rec, stack, good := start, memory, 0;
    assert t.input[0..] == t.input;
    while good < count
      invariant good <= count && Mirrors(rec, t.(input := t.input[good..]))
      invariant WritablePrefix(t.pointer, good) == good && stack == Stored(memory, t.pointer, t.input[..good])
    {
      MirrorsPointer(rec, t, good);
      if !Writable(U64(rec.pointer + good), 1) {
        PrefixStops(t.pointer, good, count);
        return;
      }
      PopMirrors(rec, t, good);
      assert t.input[..good + 1][..good] == t.input[..good];
      stack := stack[Target(rec.pointer, good) := rec.cells[rec.head]];
      rec := rec.(head := (rec.head + 1) % INPUT_CAPACITY, count := rec.count - 1);
      good := good + 1;
    }
  }

  class UserRuntime {
    var records: seq<Record>
    var active: Option<AwpTasks.Slot>
    var nextSlot: AwpTasks.Slot
    var nextPid: u32
    var ticks: nat
    /** What the kernel has written to each slot's stack pages. */
    var stacks: seq<map<int, byte>>
    ghost var view: Runtime

    ghost predicate Valid()
      reads this
    {
      && |records| == CAPACITY && |stacks| == CAPACITY
      && (forall i: AwpTasks.Slot :: Mirrors(records[i], view.tasks[i]))
      && active == view.active && nextSlot == view.nextSlot && nextPid == view.nextPid && ticks == view.ticks
    }

    constructor ()
      ensures Valid() && RuntimeOk(view)
    {
      var blank := Record(Empty, 0, seq(INPUT_CAPACITY, _ => 0), 0, 0, 0, 0, 0);
      records := [blank, blank, blank, blank];
      active, nextSlot, nextPid, ticks := None, 0, 1000, 0;
      stacks := [map[], map[], map[], map[]];
      var empty := FreshTask(Empty, 0);
      view := Runtime([empty, empty, empty, empty], None, 0, 1000, 0);
    }

    /** `complete_pending_read`; with `MoveBytes` for its loop. */
    method CompletePendingRead(i: AwpTasks.Slot) returns (moved: nat)
      requires Valid()
      modifies this`records, this`stacks, this`view
      ensures Valid() && view == SetTask(old(view), i, Complete(old(view).tasks[i]).0)
      ensures moved == Complete(old(view).tasks[i]).1
      ensures HandedOver(old(stacks), stacks, old(view).tasks, view.tasks)
    {
      hide Elements, WritablePrefix;
      ghost var t := view.tasks[i];
      assert Mirrors(records[i], t);
      var count := records[i].count;
      if count > records[i].length { count := records[i].length; }
      var rec, stack, good := MoveBytes(records[i], stacks[i], count, t);
      stacks := stacks[i := stack];
      view := SetTask(view, i, Complete(t).0);
      if good < count {
        records := records[i := rec.(phase := Faulted, exitCode := BAD_SYSCALL_EXIT)];
        return 0;
      }
      records := records[i := rec.(pointer := 0, length := 0,
                                   phase := if rec.phase == Blocked then Ready else rec.phase)];
      moved := count;
    }

    /** The loop of `find_task`. */
    method LookUp(pid: u32) returns (found: Option<AwpTasks.Slot>)
      requires Valid()
      ensures found == FindTask(view, pid, 0)
    {
      var index := 0;
      while index < CAPACITY
        invariant index <= CAPACITY && FindTask(view, pid, 0) == FindTask(view, pid, index)
      {
        assert Mirrors(records[index], view.tasks[index]);
        if records[index].phase != Empty && records[index].pid == pid { return Some(index); }
        index := index + 1;
      }
      return None;
    }

    /** A byte behind the newest of the ring. */
    method PushByte(i: AwpTasks.Slot, data: byte)
      requires Valid() && records[i].count < INPUT_CAPACITY
      modifies this`records, this`view
      ensures Valid() && |old(view).tasks[i].input| < INPUT_CAPACITY
      ensures var t := old(view).tasks[i];
              view == SetTask(old(view), i, t.(input := t.input + [data], accepted := t.accepted + [data]))
    {
      hide Elements;
      var rec := records[i];
      assert Mirrors(rec, view.tasks[i]);
      PushElements(rec.cells, rec.head, rec.count, data);
      var tail := (rec.head + rec.count) % INPUT_CAPACITY;
      records := records[i := rec.(cells := rec.cells[tail := data], count := rec.count + 1)];
      ghost var t := view.tasks[i];
      view := SetTask(view, i, t.(input := t.input + [data], accepted := t.accepted + [data]));
    }

    /** `x86_64_user_deliver_input` */
    method DeliverInput(pid: u32, data: byte) returns (ok: bool)
      requires Valid()
      modifies this`records, this`stacks, this`view
      ensures Valid() && (view, ok) == AfterDeliver(old(view), pid, data)
      ensures HandedOver(old(stacks), stacks, old(view).tasks, view.tasks)
    {
      hide Elements, Complete, HandedOver;
      NothingHanded(stacks, view.tasks, view.tasks);
      var found := LookUp(pid);
      if found.None? { return false; }
      var i := found.value;
      var rec := records[i];
      assert Mirrors(rec, view.tasks[i]);
      if rec.phase != Ready && rec.phase != Blocked { return false; }
      if rec.count >= INPUT_CAPACITY { return false; }
      ghost var t := view.tasks[i];
      ghost var t1 := t.(input := t.input + [data], accepted := t.accepted + [data]);
      PushByte(i, data);
      if rec.phase == Blocked {
        ghost var asked := view;
        var moved := CompletePendingRead(i);
        HandedSince(old(stacks), stacks, old(view).tasks, asked.tasks, view.tasks);
        assert view == SetTask(old(view), i, Complete(t1).0);
      } else {
        NothingHanded(stacks, old(view).tasks, view.tasks);
      }
      ok := true;
    }

    /** `x86_64_user_cancel` */
    method CancelTask(pid: u32, code: u32) returns (ok: bool)
      requires Valid()
      modifies this`records, this`view
      ensures Valid() && (view, ok) == AfterCancel(old(view), pid, code)
    {
      hide Elements;
      var found := LookUp(pid);
      if found.None? { return false; }
      var i := found.value;
      var rec := records[i];
      assert Mirrors(rec, view.tasks[i]);
      if active == Some(i) || rec.phase == Finished || rec.phase == Faulted { return false; }
      records := records[i := rec.(phase := Finished, exitCode := if code == 0 then CANCELED_EXIT else code)];
      view := AfterCancel(view, pid, code).0;
      ok := true;
    }

    /** The scan of `x86_64_user_poll`. */
    method FirstReady() returns (found: Option<nat>)
      requires Valid()
      ensures found == FirstOffset(view, IsReady, 0)
    {
      hide Elements, At;
      var offset := 0;
      while offset < CAPACITY
        invariant offset <= CAPACITY && FirstOffset(view, IsReady, 0) == FirstOffset(view, IsReady, offset)
      {
        var index: AwpTasks.Slot := (nextSlot + offset) % CAPACITY;
        AtIs(nextSlot, offset);
        assert Mirrors(records[index], view.tasks[index]);
        if records[index].phase == Ready { return Some(offset); }
        offset := offset + 1;
      }
      return None;
    }

    /** `x86_64_user_poll`, up to the jump into ring 3. */
    method PollTasks()
      requires Valid()
      modifies this`records, this`active, this`nextSlot, this`ticks, this`view
      ensures Valid() && view == AfterPoll(old(view))
    {
      hide Elements, SetTask;
      if active.Some? { return; }
      var offset := FirstReady();
      if offset.None? { return; }
      FirstOffsetIsFirst(view, IsReady, 0);
      var index: AwpTasks.Slot := (nextSlot + offset.value) % CAPACITY;
      assert Mirrors(records[index], view.tasks[index]);
      Dispatch(index);
    }

    method Dispatch(index: AwpTasks.Slot)
      requires Valid() && active.None? && records[index].phase == Ready
      modifies this`records, this`active, this`nextSlot, this`ticks, this`view
      ensures Valid()
      ensures view == SetTask(old(view), index, old(view).tasks[index].(phase := Running))
                      .(active := Some(index), nextSlot := (index + 1) % CAPACITY, ticks := 0)
    {
      hide Elements;
      nextSlot := (index + 1) % CAPACITY;
      active := Some(index);
      ticks := 0;
      records := records[index := records[index].(phase := Running)];
      view := SetTask(view, index, view.tasks[index].(phase := Running))
              .(active := Some(index), nextSlot := (index + 1) % CAPACITY, ticks := 0);
    }

    /** One pass of `find_reusable_task` over the slots. */
    method Scan(pass: nat) returns (found: Option<nat>)
      requires Valid() && pass < 2
      ensures found == FirstOffset(view, if pass == 0 then IsEmpty else IsOver, 0)
    {
      hide Elements, At;
      ghost var p := if pass == 0 then IsEmpty else IsOver;
      var offset := 0;
      while offset < CAPACITY
        invariant offset <= CAPACITY && FirstOffset(view, p, 0) == FirstOffset(view, p, offset)
      {
        var index: AwpTasks.Slot := (nextSlot + offset) % CAPACITY;
        AtIs(nextSlot, offset);
        assert Mirrors(records[index], view.tasks[index]);
        var phase := records[index].phase;
        var reusable := if pass == 0 then phase == Empty else phase == Finished || phase == Faulted;
        if reusable { return Some(offset); }
        offset := offset + 1;
      }
      return None;
    }

    /** `find_reusable_task` */
    method FindReusable() returns (found: Option<AwpTasks.Slot>)
      requires Valid()
      modifies this`nextSlot, this`view
      ensures Valid() && found == Reusable(old(view))
      ensures view == if found.Some? then old(view).(nextSlot := (found.value + 1) % CAPACITY) else old(view)
    {
      hide Elements, FirstOffset;
      var pass := 0;
      while pass < 2
        invariant pass <= 2 && Valid() && view == old(view)
        invariant pass >= 1 ==> FirstOffset(view, IsEmpty, 0) == None
        invariant pass == 2 ==> FirstOffset(view, IsOver, 0) == None
      {
        var offset := Scan(pass);
        if offset.Some? {
          var index: AwpTasks.Slot := (nextSlot + offset.value) % CAPACITY;
          nextSlot := (index + 1) % CAPACITY;
          view := view.(nextSlot := nextSlot);
          return Some(index);
        }
        pass := pass + 1;
      }
      return None;
    }

    /** `x86_64_user_spawn_image` with its checks answered by the caller. */
    method SpawnImage(named: bool, loaded: bool)
      requires Valid()
      modifies this`records, this`nextSlot, this`nextPid, this`stacks, this`view
      ensures Valid() && view == AfterSpawn(old(view), named, loaded)
    {
      hide Reusable;
      var found := FindReusable();
      if found.None? { return; }
      var i := found.value;
      view := AfterSpawn(old(view), named, loaded);
      stacks := stacks[i := map[]];
      var cells := records[i].cells;
      assert Mirrors(records[i], old(view).tasks[i]);
      records := records[i := Record(Empty, 0, cells, 0, 0, 0, 0, 0)];
      if !named { return; }
      var pid := nextPid;
      nextPid := U32(nextPid + 1);
      if nextPid < 1000 { nextPid := 1000; }
      records := records[i := records[i].(pid := pid, phase := Ready)];
      if !loaded {
        records := records[i := records[i].(phase := Empty)];
      }
    }

    /** A system call, timer tick or fault out of ring 3. */
    method EnterKernel(trap: Trap)
      requires Valid()
      modifies this`records, this`active, this`ticks, this`stacks, this`view
      ensures Valid() && view == AfterEnter(old(view), trap)
      ensures HandedOver(old(stacks), stacks, old(view).tasks, view.tasks)
    {
      hide Elements, Complete, HandedOver;
      NothingHanded(stacks, view.tasks, view.tasks);
      if active.None? { return; }
      var i := active.value;
      var rec := records[i];
      assert Mirrors(rec, view.tasks[i]);
      match trap
      case Read(pointer, raw) => HandleRead(i, pointer, raw);
      case Exit(code) => Leave(i, Finished, code);
      case BadSyscall => Leave(i, Finished, BAD_SYSCALL_EXIT);
      case BadPointer => Leave(i, Faulted, BAD_SYSCALL_EXIT);
      case NetworkRetry => Leave(i, Ready, rec.exitCode);
      case Tick =>
        ticks := ticks + 1;
        view := view.(ticks := ticks);
        if ticks >= QUANTUM_TICKS { Leave(i, Ready, rec.exitCode); }
      case Fault(vector) => Leave(i, Faulted, 128 + vector as int);
      case Served =>
    }

    method Leave(i: AwpTasks.Slot, phase: Phase, code: u32)
      requires Valid()
      modifies this`records, this`active, this`view
      ensures Valid()
      ensures view == SetTask(old(view), i, old(view).tasks[i].(phase := phase, exitCode := code)).(active := None)
      ensures HandedOver(stacks, stacks, old(view).tasks, view.tasks)
    {
      hide Elements;
      assert Mirrors(records[i], view.tasks[i]);
      records := records[i := records[i].(phase := phase, exitCode := code)];
      active := None;
      view := SetTask(view, i, view.tasks[i].(phase := phase, exitCode := code)).(active := None);
    }

    method HandleRead(i: AwpTasks.Slot, pointer: u64, raw: u64)
      requires Valid() && active == Some(i)
      modifies this`records, this`active, this`stacks, this`view
      ensures Valid() && view == AfterEnter(old(view), Read(pointer, raw))
      ensures HandedOver(old(stacks), stacks, old(view).tasks, view.tasks)
    {
      hide Elements, Complete, HandedOver;
      NothingHanded(stacks, view.tasks, view.tasks);
      var length := if raw > TRANSFER_LIMIT then TRANSFER_LIMIT else raw;
      var rec := records[i];
      assert Mirrors(rec, view.tasks[i]);
      if !Writable(pointer, length) {
        Leave(i, Faulted, BAD_SYSCALL_EXIT);
        return;
      }
      if length == 0 { return; }
      records := records[i := rec.(pointer := pointer, length := length)];
      view := SetTask(view, i, view.tasks[i].(pointer := pointer, length := length));
      ghost var asked := view;
      if rec.count != 0 {
        var moved := CompletePendingRead(i);
        HandedSince(old(stacks), stacks, old(view).tasks, asked.tasks, view.tasks);
        return;
      }
      records := records[i := records[i].(phase := Blocked)];
      active := None;
      view := SetTask(view, i, view.tasks[i].(phase := Blocked)).(active := None);
      NothingHanded(stacks, old(view).tasks, view.tasks);
    }
  }

  lemma AtIs(nextSlot: AwpTasks.Slot, offset: nat)
    ensures At(nextSlot, offset) == (nextSlot + offset) % CAPACITY
  {
  }

  lemma {:induction false} PrefixStops(pointer: u64, index: nat, count: nat)
    requires index < count && WritablePrefix(pointer, index) == index && !Writable(U64(pointer + index), 1)
    ensures WritablePrefix(pointer, count) == index
    decreases count
  {
    if count > index + 1 { PrefixStops(pointer, index, count - 1); }
  }

  /** Addresses of one transfer are distinct. */
  lemma TargetsDiffer(pointer: u64, n: nat)
    requires n < INPUT_CAPACITY
    ensures forall k :: 0 <= k < n ==> Target(pointer, k) != Target(pointer, n)
  {
    forall k | 0 <= k < n ensures Target(pointer, k) != Target(pointer, n) {
      U64Apart(pointer + k, n - k);
    }
  }

  lemma U64Apart(x: nat, gap: nat)
    requires 0 < gap < M64
    ensures U64(x) != U64(x + gap)
  {
  }
}
