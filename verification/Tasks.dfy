/** Task control blocks: messages, handles and the state of one task. */
module Tasks {
  import opened Outcomes

  const MAX_TASKS: nat := 32
  const MAX_HANDLES: nat := 32
  const MAX_MSG_SIZE: nat := 128
  const MAILBOX_CAPACITY: nat := 4

  datatype RunState = Ready | Running | Blocked | Dead

  datatype Message = Message(sender: nat, length: nat, data: seq<bv8>)

  /** A message fits its buffer, which is always full length. */
  predicate MessageOk(m: Message) {
    m.length <= MAX_MSG_SIZE && |m.data| == MAX_MSG_SIZE
  }

  datatype Right = ReadRight | WriteRight | ExecuteRight | MapRight

  datatype KernelObject =
    | AddressSpaceObject(id: nat)
    | FrameObject(frame: nat)
    | MappingObject(frame: nat, id: nat, addr: nat)
    | ThreadObject(task: nat)

  datatype Handle = Handle(target: KernelObject, rights: set<Right>)

  type HandleTable = seq<Option<Handle>>

  datatype ReceiveArgs = ReceiveArgs(out: nat, maxLen: nat, outLen: nat, outSender: nat)

  /** `receiving` is set from the moment a receive finds the mailbox empty until that same receive has
      ended: the kernel code of that call resumes where it stopped, with the arguments on its stack. */
  datatype Tcb = Tcb(
    space: nat, state: RunState, receiving: Option<ReceiveArgs>, stackTop: nat, mailbox: seq<Message>,
    handles: HandleTable)

  const BASIC_RIGHTS: set<Right> := {ReadRight, WriteRight, ExecuteRight}
  const FRAME_RIGHTS: set<Right> := {ReadRight, WriteRight, ExecuteRight, MapRight}

  /** First empty slot. */
  function FirstNone<T>(slots: seq<Option<T>>): (r: Option<nat>)
    ensures r.Some? ==> r.value < |slots| && slots[r.value].None?
    ensures r.Some? ==> forall j :: 0 <= j < r.value ==> slots[j].Some?
    ensures r.None? ==> forall j :: 0 <= j < |slots| ==> slots[j].Some?
  {
    if slots == [] then None
    else if slots[0].None? then Some(0)
    else
      var rest := FirstNone(slots[1..]);
      if rest.Some? then Some(rest.value + 1) else None
  }

  function HandleIn(handles: HandleTable, slot: nat): Option<Handle> {
    if slot < |handles| then handles[slot] else None
  }

  function EmptyHandles(): (r: HandleTable)
    ensures |r| == MAX_HANDLES && forall i :: 0 <= i < MAX_HANDLES ==> r[i] == None
  {
    seq(MAX_HANDLES, i => None)
  }

  /** A new task: its own address space is its first handle. */
  function NewTask(space: nat, stackTop: nat): Tcb {
    Tcb(space, Ready, None, stackTop, [], EmptyHandles()[0 := Some(Handle(AddressSpaceObject(space), BASIC_RIGHTS))])
  }
}
