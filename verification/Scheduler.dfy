/** The scheduler itself: a ring of ready tasks, the task table and the current task, updated in
    place.  Every operation is one step of the state machine, and none of its assertions fails. */
module Scheduler {
  import opened Outcomes
  import opened Rings
  import opened Tasks
  import opened Sched

  datatype SendError = MailboxFull | NoTask

  /** What a switch loads: a page table only when it differs from the loaded one. */
  datatype Switch = Switch(space: nat, stackTop: nat, activate: bool)

  class RunQueue {
    var tasks: seq<Option<Tcb>>
    var current: Option<nat>
    const ready: Ring<nat>
    /** The address space whose page table is loaded, and the kernel stack used on entry. */
    var active: nat
    var kernelStack: nat

    ghost predicate Valid()
      reads this, ready, ready.entries
    {
      && ready.Valid() && ready.entries.Length == MAX_TASKS && SchedOk(State(tasks, current, ready.Contents()))
      && Loaded()
    }

    /** The current task's address space and kernel stack are the ones in use. */
    ghost predicate Loaded()
      reads this
    {
      HasCurrent(State(tasks, current, [])) ==>
        var x := tasks[current.value].value; active == x.space && kernelStack == x.stackTop
    }

    ghost function Now(): State
      reads this, ready, ready.entries
      requires ready.Valid()
    {
      State(tasks, current, ready.Contents())
    }

    constructor ()
      ensures Valid() && fresh(ready) && fresh(ready.entries)
      ensures Now() == State(seq(MAX_TASKS, i => None), None, [])
    {
      tasks := seq(MAX_TASKS, i => None);
      current := None;
      active, kernelStack := 0, 0;
      ready := new Ring<nat>(MAX_TASKS);
      new;
      assert forall t: nat {:trigger TaskOk(Now(), t)} :: TaskOk(Now(), t);
    }

    /** Puts a task in the first empty slot, gives it a handle to itself and queues it. */
    method AddTask(task: Tcb) returns (r: Option<nat>)
      requires Valid() && (current.None? || Sched.Free(Now()))
      requires FirstNone(task.handles).Some? && task.receiving.None? && task.mailbox == []
      modifies this`tasks, ready, ready.entries
      ensures Valid() && r == FirstNone(old(tasks))
      ensures r.None? ==> Now() == old(Now())
      ensures r.Some? ==>
        var own := Some(Handle(ThreadObject(r.value), BASIC_RIGHTS));
        var queued := task.(state := Ready, handles := task.handles[FirstNone(task.handles).value := own]);
        Enabled(old(Now()), Create(queued)) && Now() == Step(old(Now()), Create(queued))
    {
      r := FirstNone(tasks);
      if r.None? {
        return;
      }
      var id := r.value;
      var slot := FirstNone(task.handles);
      var queued := task.(state := Ready,
                          handles := task.handles[slot.value := Some(Handle(ThreadObject(id), BASIC_RIGHTS))]);
      ghost var s := Now();
      StepKeeps(s, Create(queued));
      EnqueueKeeps(s, id, queued);
      tasks := tasks[id := Some(queued)];
      var pushed := ready.PushBack(id);
      assert pushed;
    }

    /** Starts the first queued task. */
    method Start() returns (started: bool)
      requires Valid() && current.None?
      modifies this, ready
      ensures Valid()
      ensures started <==> old(Now()).ready != []
      ensures started ==> Enabled(old(Now()), Sched.Start) && Now() == Step(old(Now()), Sched.Start)
      ensures !started ==> Now() == old(Now())
    {
      ghost var s := Now();
      var next := ready.PopFront();
      if next.None? {
        return false;
      }
      FrontIsReady(s);
      StepKeeps(s, Sched.Start);
      tasks := tasks[next.value := Some(tasks[next.value].value.(state := Running))];
      current := Some(next.value);
      Perform(Switch(tasks[next.value].value.space, tasks[next.value].value.stackTop, true));
      return true;
    }

    /** The switch from one task to another: performed while the first one's page table is loaded, it
        leaves the second one's loaded. */
    method MakeSwitch(currentId: nat, nextId: nat) returns (switch: Switch)
      requires currentId != nextId && Lives(State(tasks, current, []), currentId)
      requires Lives(State(tasks, current, []), nextId)
      ensures switch.stackTop == tasks[nextId].value.stackTop
      ensures (if switch.activate then switch.space else tasks[currentId].value.space) == tasks[nextId].value.space
      ensures tasks[currentId].value.space == tasks[nextId].value.space ==> !switch.activate
    {
      var previous, next := tasks[currentId].value.space, tasks[nextId].value;
      return Switch(next.space, next.stackTop, next.space != previous);
    }

    method Perform(switch: Switch)
      modifies this`active, this`kernelStack
      ensures active == if switch.activate then switch.space else old(active)
      ensures kernelStack == switch.stackTop
    {
      if switch.activate {
        active := switch.space;
      }
      kernelStack := switch.stackTop;
    }

    /** Runs the next task in place of the current one, whose page table is loaded. */
    method SwitchTo(currentId: nat, nextId: nat)
      requires currentId != nextId && Lives(State(tasks, current, []), currentId)
      requires Lives(State(tasks, current, []), nextId)
      requires active == tasks[currentId].value.space
      modifies this`tasks, this`current, this`active, this`kernelStack
      ensures tasks == old(tasks)[nextId := Some(old(tasks)[nextId].value.(state := Running))]
      ensures current == Some(nextId)
      ensures Loaded()
    {
      tasks := tasks[nextId := Some(tasks[nextId].value.(state := Running))];
      current := Some(nextId);
      var switch := MakeSwitch(currentId, nextId);
      Perform(switch);
    }

    /** Makes a task ready and queues it. */
    method Requeue(id: nat)
      requires ready.Valid() && ready.entries.Length == MAX_TASKS && |ready.Contents()| < MAX_TASKS
      requires Lives(State(tasks, current, []), id)
      modifies this`tasks, ready, ready.entries
      ensures ready.Valid() && ready.Contents() == old(ready.Contents()) + [id]
      ensures tasks == old(tasks)[id := Some(old(tasks)[id].value.(state := Ready))]
    {
      tasks := tasks[id := Some(tasks[id].value.(state := Ready))];
      var pushed := ready.PushBack(id);
      assert pushed;
    }

    /** Blocks the current task, in the middle of a receive, until a message comes. */
    method BlockCurrent(args: ReceiveArgs) returns (halted: bool)
      requires Valid() && Sched.Free(Now()) && Current(Now()).mailbox == []
      modifies this, ready
      ensures Valid()
      ensures halted <==> old(Now()).ready == []
      ensures !halted ==> Enabled(old(Now()), Wait(args)) && Now() == Step(old(Now()), Wait(args))
      ensures halted ==> Now() == old(Now())
    {
      ghost var s := Now();
      var next := ready.PopFront();
      if next.None? {
        return true;
      }
      FrontIsReady(s);
      StepKeeps(s, Wait(args));
      var id := current.value;
      tasks := tasks[id := Some(tasks[id].value.(state := Blocked, receiving := Some(args)))];
      SwitchTo(id, next.value);
      return false;
    }

    /** Queues the current task again and runs the next one, if there is one. */
    method YieldCurrent()
      requires Valid() && Sched.Free(Now())
      modifies this, ready, ready.entries
      ensures Valid()
      ensures old(Now()).ready == [] ==> Now() == old(Now())
      ensures old(Now()).ready != [] ==> Enabled(old(Now()), Yield) && Now() == Step(old(Now()), Yield)
    {
      ghost var s := Now();
      var next := ready.PopFront();
      if next.None? {
        return;
      }
      FrontIsReady(s);
      StepKeeps(s, Yield);
      QueueRoom(s);
      var id := current.value;
      assert (s.ready + [id])[1..] == s.ready[1..] + [id];
      assert ready.Contents() == s.ready[1..];
      Requeue(id);
      SwitchTo(id, next.value);
    }

    method ExitCurrent() returns (halted: bool)
      requires Valid() && Sched.Free(Now())
      modifies this, ready
      ensures Valid()
      ensures halted <==> old(Now()).ready == []
      ensures !halted ==> Enabled(old(Now()), Exit) && Now() == Step(old(Now()), Exit)
      ensures halted ==> Now() == old(Now())
    {
      ghost var s := Now();
      var next := ready.PopFront();
      if next.None? {
        return true;
      }
      FrontIsReady(s);
      StepKeeps(s, Exit);
      var id := current.value;
      tasks := tasks[id := Some(tasks[id].value.(state := Dead))];
      SwitchTo(id, next.value);
      return false;
    }

    /** Makes a blocked task ready again. */
    method Unblock(id: nat)
      requires ready.Valid() && ready.entries.Length == MAX_TASKS && id < |tasks|
      requires tasks[id].Some? && tasks[id].value.state == Blocked ==> |ready.Contents()| < MAX_TASKS
      modifies this`tasks, ready, ready.entries
      ensures ready.Valid()
      ensures var x := old(tasks)[id];
              Now() == if x.Some? && x.value.state == Blocked
                       then State(old(tasks)[id := Some(x.value.(state := Ready))], old(current),
                                  old(ready.Contents()) + [id])
                       else old(Now())
    {
      if tasks[id].Some? && tasks[id].value.state == Blocked {
        Requeue(id);
      }
    }

    /** Leaves a message with a task, and wakes that task if it waits for one. */
    method Deliver(dest: nat, msg: Message) returns (r: Result<(), SendError>)
      requires Valid() && Sched.Free(Now()) && MessageOk(msg)
      modifies this`tasks, ready, ready.entries
      ensures Valid()
      ensures r == Err(NoTask) <==> !Lives(old(Now()), dest)
      ensures r == Err(MailboxFull) <==> Lives(old(Now()), dest) && |old(tasks)[dest].value.mailbox| == MAILBOX_CAPACITY
      ensures r.Err? ==> Now() == old(Now())
      ensures r.Ok? ==> Enabled(old(Now()), Send(dest, msg)) && Now() == Step(old(Now()), Send(dest, msg))
    {
      ghost var s := Now();
      assert TaskOk(s, dest);
      if dest >= |tasks| || tasks[dest].None? {
        return Err(NoTask);
      }
      var x := tasks[dest].value;
      if |x.mailbox| == MAILBOX_CAPACITY {
        return Err(MailboxFull);
      }
      StepKeeps(s, Send(dest, msg));
      tasks := tasks[dest := Some(x.(mailbox := x.mailbox + [msg]))];
      if x.state == Blocked {
        RoomFor(s, dest);
        Unblock(dest);
        var woken := x.(mailbox := x.mailbox + [msg], state := Ready);
        assert s.tasks[dest := Some(x.(mailbox := x.mailbox + [msg]))][dest := Some(woken)]
            == s.tasks[dest := Some(woken)];
      }
      return Ok(());
    }

    /** Takes the oldest message of the current task. */
    method TakeMessage() returns (r: Option<Message>)
      requires Valid() && HasCurrent(Now())
      modifies this`tasks
      ensures Valid()
      ensures r.None? <==> Current(old(Now())).mailbox == []
      ensures r.None? ==> Now() == old(Now())
      ensures r.Some? ==>
        && r.value == Current(old(Now())).mailbox[0]
        && Enabled(old(Now()), Take) && Now() == Step(old(Now()), Take)
    {
      ghost var s := Now();
      var id := current.value;
      var x := tasks[id].value;
      if x.mailbox == [] {
        return None;
      }
      StepKeeps(s, Take);
      tasks := tasks[id := Some(x.(mailbox := x.mailbox[1..], receiving := None))];
      return Some(x.mailbox[0]);
    }

    /** Ends a resumed receive without taking its message. */
    method AbandonReceive()
      requires Valid() && HasCurrent(Now())
      modifies this`tasks
      ensures Valid()
      ensures Current(old(Now())).receiving.Some? ==> Enabled(old(Now()), GiveUp) && Now() == Step(old(Now()), GiveUp)
      ensures Current(old(Now())).receiving.None? ==> Now() == old(Now())
    {
      ghost var s := Now();
      var id := current.value;
      if tasks[id].value.receiving.Some? {
        StepKeeps(s, GiveUp);
        tasks := tasks[id := Some(tasks[id].value.(receiving := None))];
      }
    }

    // ---- Handles of the current task ----

    /** Takes a handle out of its slot. */
    method TakeHandle(slot: nat) returns (r: Option<Handle>)
      requires Valid() && Sched.Free(Now())
      modifies this`tasks
      ensures Valid()
      ensures r == HandleIn(Current(old(Now())).handles, slot)
      ensures r.None? ==> Now() == old(Now())
      ensures r.Some? ==> Now() == Step(old(Now()), Hold(Current(old(Now())).handles[slot := None]))
    {
      var x := tasks[current.value].value;
      if slot >= |x.handles| {
        return None;
      }
      r := x.handles[slot];
      if r.Some? {
        StepKeeps(Now(), Hold(x.handles[slot := None]));
        tasks := tasks[current.value := Some(x.(handles := x.handles[slot := None]))];
      }
    }

    /** Puts a handle into an empty slot. */
    method PutHandle(slot: nat, h: Handle) returns (ok: bool)
      requires Valid() && Sched.Free(Now())
      modifies this`tasks
      ensures Valid()
      ensures ok <==> slot < |Current(old(Now())).handles| && Current(old(Now())).handles[slot].None?
      ensures !ok ==> Now() == old(Now())
      ensures ok ==> Now() == Step(old(Now()), Hold(Current(old(Now())).handles[slot := Some(h)]))
    {
      var x := tasks[current.value].value;
      if slot >= |x.handles| || x.handles[slot].Some? {
        return false;
      }
      StepKeeps(Now(), Hold(x.handles[slot := Some(h)]));
      tasks := tasks[current.value := Some(x.(handles := x.handles[slot := Some(h)]))];
      return true;
    }

    /** Puts a handle into the first empty slot. */
    method PushHandle(h: Handle) returns (r: Option<nat>)
      requires Valid() && Sched.Free(Now())
      modifies this`tasks
      ensures Valid()
      ensures r == FirstNone(Current(old(Now())).handles)
      ensures r.None? ==> Now() == old(Now())
      ensures r.Some? ==> Now() == Step(old(Now()), Hold(Current(old(Now())).handles[r.value := Some(h)]))
    {
      r := FirstNone(tasks[current.value].value.handles);
      if r.Some? {
        var _ := PutHandle(r.value, h);
      }
    }

    /** Takes a task other than the current one out of its slot and out of the queue. */
    method RemoveTask(id: nat) returns (r: Option<Tcb>)
      requires Valid() && Sched.Free(Now())
      modifies this`tasks, ready, ready.entries
      ensures Valid()
      ensures r.Some? <==> Enabled(old(Now()), Discard(id))
      ensures r.Some? ==> r == old(tasks)[id] && Now() == Step(old(Now()), Discard(id))
      ensures r.None? ==> Now() == old(Now())
    {
      if current == Some(id) || id >= |tasks| || tasks[id].None? {
        return None;
      }
      StepKeeps(Now(), Discard(id));
      r := tasks[id];
      tasks := tasks[id := None];
      var _ := ready.Remove(id);
    }
  }

  /** After the front has been taken, there is room for the current task. */
  lemma QueueRoom(s: State)
    requires SchedOk(s) && HasCurrent(s)
    ensures |s.ready| < MAX_TASKS
  {
    assert TaskOk(s, s.current.value);
    RoomFor(s, s.current.value);
  }

  /** Whatever happens elsewhere, the queue stays as it is. */
  twostate lemma QueueUntouched(q: RunQueue)
    requires old(q.Valid()) && unchanged(q, q.ready, q.ready.entries)
    ensures q.Valid() && q.Now() == old(q.Now())
  {
  }
}
