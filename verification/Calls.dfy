/** What each system call does, as a relation between two moments of the kernel: the events of the
    scheduler it causes and what it changes of memory, handles, address spaces and stacks. */
module Calls {
  import opened Outcomes
  import opened Numbers
  import opened Addresses
  import opened Frames
  import opened Forest
  import opened Walks
  import opened Tasks
  import opened Sched
  import opened SchedRuns
  import opened AddressSpaces
  import opened Stacks
  import opened StackPool
  import opened UserAccess
  import opened Caps
  import opened CapSteps
  import opened KernelSteps
  import PageTables

  /** What a receive hands to its caller. */
  datatype Delivery = Delivery(bytes: seq<bv8>, length: nat, sender: nat)

  /** A message as the receiver sees it: cut to the receiver's buffer. */
  function Handed(m: Message, maxLen: nat): Delivery {
    Delivery(if Min(m.length, maxLen) <= |m.data| then m.data[..Min(m.length, maxLen)] else [], m.length, m.sender)
  }

  /** The system calls, and a store by the task's own code, after which a frame reads as `data`. */
  datatype Call =
    | UserStore(addr: nat, data: Table)
    | CallYield
    | CallExit
    | CallSend(dest: nat, ptr: nat, payload: seq<bv8>)
    | CallReceive(args: ReceiveArgs)
    | CallFrameAlloc(out: nat)
    | CallFrameDealloc(slot: nat)
    | CallAsCreate(out: nat)
    | CallMap(asHandle: nat, frameHandle: nat, addr: nat, perms: nat, out: nat)
    | CallUnmap(slot: nat)
    | CallTaskCreate(asHandle: nat, entry: nat, userStack: nat, out: nat)

  function ZeroPadded(payload: seq<bv8>): (r: seq<bv8>)
    requires |payload| <= MAX_MSG_SIZE
    ensures |r| == MAX_MSG_SIZE && r[..|payload|] == payload
  {
    payload + seq(MAX_MSG_SIZE - |payload|, i => 0)
  }

  /** The rights a mapping with these permission bits needs. */
  function RequiredRights(perms: nat): set<Right> {
    {ReadRight, MapRight} + (if perms % 2 == 1 then {WriteRight} else {})
    + (if perms / 2 % 2 == 1 then {ExecuteRight} else {})
  }

  function PermsOf(perms: nat): Perms {
    Perms(perms % 2 == 1, perms / 2 % 2 == 1, true)
  }

  /** What a caller needs in order to map: a writable address space, a frame with enough rights,
      and a user page. */
  predicate MayMap(handles: HandleTable, asHandle: nat, frameHandle: nat, addr: nat, perms: nat) {
    var a, f := HandleIn(handles, asHandle), HandleIn(handles, frameHandle);
    && a.Some? && a.value.target.AddressSpaceObject? && WriteRight in a.value.rights
    && f.Some? && f.value.target.FrameObject? && RequiredRights(perms) <= f.value.rights
    && addr % PAGE_SIZE == 0 && perms < 4 && addr + PAGE_SIZE <= USER_SPACE_END
  }

  /** Why a page that may be mapped is not: it is mapped already, it cannot be made non-executable,
      or there are not enough frames for its tables. */
  ghost predicate Refused(c: Caps, id: nat, addr: nat, perms: Perms, nx: bool, memory: bool)
    requires SpaceLives(c, id)
  {
    if memory then NoRoom(c.mode, c.view, c.states, PageIn(c, id, addr))
    else PageIn(c, id, addr) in c.view.maps || (!perms.executable && !nx)
  }

  /** A handle's frame is mapped at one page that was free, with exactly these permissions, and the
      handle becomes that mapping's. */
  ghost predicate Maps(c: Caps, p: Pos, h: Handle, id: nat, addr: nat, perms: Perms, c': Caps) {
    && HasSlot(c.tasks, p) && SpaceLives(c, id) && h.target.FrameObject?
    && PageIn(c, id, addr) !in c.view.maps
    && PageTables.Added(c.view, c.states, c'.view, c'.states, PageIn(c, id, addr),
                        Entry(true, perms, false, false, false, h.target.frame))
    && c' == MappedFrame(c, p, h.target.frame, h.rights, id, addr, c'.view, c'.states)
  }

  /** A new address space in entry `id` with root f, no pages, and a handle p for it. */
  ghost predicate NewSpace(c: Caps, p: Pos, id: nat, f: nat, c': Caps) {
    && HasSlot(c.tasks, p) && id < |c.spaces| && f < |c.states| && c.states[f] == FrameState.Free
    && Key(f, 0, 0) !in c.view.nodes
    && c' == WithSpace(c, id, f).(tasks := SetHandle(c.tasks, p, Some(Handle(AddressSpaceObject(id), BASIC_RIGHTS))))
  }

  /** A new task in entry t, in address space `id`, on its own stack, and a handle p for it. */
  ghost predicate NewTaskRuns(c: Caps, p: Pos, t: nat, id: nat, stackTop: nat, c': Caps) {
    && t < |c.tasks|
    && var tasks := c.tasks[t := Some(QueuedTask(id, stackTop, t))];
       HasSlot(tasks, p) && c' == c.(tasks := SetHandle(tasks, p, Some(Handle(ThreadObject(t), BASIC_RIGHTS))))
  }

  /** Only the caller's handles change. */
  ghost predicate ChangesHandles(es: seq<Event>) {
    |es| == 1 && es[0].Hold?
  }

  /** One step of scheduling or messages. */
  ghost predicate SchedulesOnce(es: seq<Event>) {
    |es| == 1 && !es[0].Hold? && !es[0].Create? && !es[0].Discard?
  }

  /** A task is created, and the caller gets a handle. */
  ghost predicate MakesTask(es: seq<Event>) {
    |es| == 2 && es[0].Create? && es[1].Hold?
  }

  // ---- Moments ----

  /** Everything a call can see. */
  datatype Moment = Moment(caps: Caps, queue: State, mem: Memory, slots: seq<bool>, nx: bool)

  function RootOf(m: Moment): Option<nat> {
    if HasCurrent(m.queue) && SpaceLives(m.caps, Current(m.queue).space)
    then Some(m.caps.spaces[Current(m.queue).space].value.root) else None
  }

  /** The current task may access these bytes. */
  ghost predicate MayAccess(m: Moment, addr: nat, len: nat, writable: bool) {
    && RangeInBounds(addr, len)
    && (len > 0 ==> RootOf(m).Some? && RangeOk(m.mem, m.caps.mode, RootOf(m).value, addr, addr + len, writable))
  }

  /** A word may be stored there. */
  ghost predicate MayStore(m: Moment, out: nat) {
    out != 0 && out % WORD_BYTES == 0 && MayAccess(m, out, WORD_BYTES, true)
  }

  ghost predicate MayStoreOptional(m: Moment, out: nat) {
    out != 0 ==> MayStore(m, out)
  }

  /** A message may be handed over there. */
  ghost predicate MayReceive(m: Moment, args: ReceiveArgs) {
    MayAccess(m, args.out, args.maxLen, true) && MayStoreOptional(m, args.outLen) && MayStoreOptional(m, args.outSender)
  }

  ghost predicate MaySend(m: Moment, dest: nat, ptr: nat, payload: seq<bv8>) {
    && |payload| <= MAX_MSG_SIZE && MayAccess(m, ptr, |payload|, false)
    && Lives(m.queue, dest) && |m.queue.tasks[dest].value.mailbox| < MAILBOX_CAPACITY
  }

  /** The first empty slot of the current task's handle table. */
  function EmptySlot(m: Moment): Option<nat> {
    if HasCurrent(m.queue) then FirstNone(Current(m.queue).handles) else None
  }

  function OwnHandle(m: Moment, slot: nat): Option<Handle> {
    if HasCurrent(m.queue) then HandleIn(Current(m.queue).handles, slot) else None
  }

  /** A task may be started there: an executable space and entry, and a writable last byte of stack. */
  ghost predicate MayBegin(m: Moment, asHandle: nat, entry: nat, userStack: nat) {
    var a := OwnHandle(m, asHandle);
    && entry != 0 && userStack != 0 && entry < USER_SPACE_END && userStack <= USER_SPACE_END
    && a.Some? && a.value.target.AddressSpaceObject? && ExecuteRight in a.value.rights
    && SpaceLives(m.caps, a.value.target.id)
    && var root := m.caps.spaces[a.value.target.id].value.root;
       && ByteOk(m.mem, m.caps.mode, root, userStack - 1, true)
       && var p := MappingAt(m.mem, m.caps.mode, root, entry);
          p.Some? && p.value.user && p.value.executable
  }

  ghost predicate SlotPays(m: Moment, slot: nat, left: int) {
    LowestClear(m.slots, slot) &&
    Affords(m.caps.mode, m.caps.view, m.caps.states, m.caps.kernelRoot, SlotStart(slot), 0, KERNEL_STACK_PAGES, 1, left)
  }

  /** A kernel stack can be had. */
  ghost predicate StackFor(m: Moment) {
    m.nx && exists slot: nat, left: nat :: SlotPays(m, slot, left)
  }

  // ---- Answers ----

  /** Only the scheduler's state changes. */
  ghost predicate Quiet(m: Moment, m': Moment) {
    m'.caps == m.caps.(tasks := m'.queue.tasks) && m'.mem == m.mem && m'.slots == m.slots
  }

  /** Nothing at all changes, except what tables hold beyond their pages. */
  ghost predicate Nothing(m: Moment, es: seq<Event>, m': Moment) {
    es == [] && m'.caps == m.caps && m'.slots == m.slots
  }

  ghost predicate AnsweredSend(m: Moment, dest: nat, ptr: nat, payload: seq<bv8>, es: seq<Event>, m': Moment) {
    && Quiet(m, m') && m.queue.current.Some?
    && es == if MaySend(m, dest, ptr, payload)
             then [Send(dest, Message(m.queue.current.value, |payload|, ZeroPadded(payload)))] else []
  }

  ghost predicate AnsweredReceive(m: Moment, args: ReceiveArgs, es: seq<Event>, m': Moment)
    requires HasCurrent(m.queue)
  {
    && Quiet(m, m')
    && es == if args.out == 0 then []
             else if Current(m.queue).mailbox == [] then (if m.queue.ready == [] then [] else [Wait(args)])
             else if MayReceive(m, args) then [Take] else []
  }

  /** The frame an allowed store of the current task reaches. */
  ghost function StoreFrame(m: Moment, addr: nat): Option<nat> {
    if RootOf(m).Some? && Translate(m.mem, m.caps.mode, RootOf(m).value, addr).Some?
    then Some(Translate(m.mem, m.caps.mode, RootOf(m).value, addr).value / PAGE_SIZE) else None
  }

  /** Only the contents of that frame change; a store that is not allowed ends the task. */
  ghost predicate AnsweredStore(m: Moment, addr: nat, data: Table, es: seq<Event>, m': Moment) {
    if MayAccess(m, addr, 1, true) then
      && Nothing(m, es, m')
      && m'.mem == if StoreFrame(m, addr).Some? && StoreFrame(m, addr).value in m.mem && |data| == 512
                   then m.mem[StoreFrame(m, addr).value := data] else m.mem
    else Quiet(m, m') && es == if m.queue.ready == [] then [] else [Exit]
  }

  ghost predicate GotFrame(m: Moment, slot: nat, f: nat, m': Moment)
    requires m.queue.current.Some?
  {
    && HasSlot(m.caps.tasks, Here(m.queue, slot)) && f < |m.caps.states| && m.caps.states[f] == FrameState.Free
    && m'.caps == GainedFrame(m.caps, Here(m.queue, slot), f)
  }

  ghost predicate AnsweredFrameAlloc(m: Moment, out: nat, es: seq<Event>, m': Moment)
    requires m.queue.current.Some?
  {
    if MayStore(m, out) && FreeSet(m.caps.states) != {} && EmptySlot(m).Some?
    then ChangesHandles(es) && m'.slots == m.slots && exists f: nat :: GotFrame(m, EmptySlot(m).value, f, m')
    else Nothing(m, es, m')
  }

  ghost predicate AnsweredFrameDealloc(m: Moment, slot: nat, es: seq<Event>, m': Moment)
    requires m.queue.current.Some?
  {
    var h := OwnHandle(m, slot);
    if h.Some? && h.value.target.FrameObject? then
      && ChangesHandles(es) && m'.slots == m.slots && HasSlot(m.caps.tasks, Here(m.queue, slot))
      && h.value.target.frame < |m.caps.states|
      && m'.caps == LostFrame(m.caps, Here(m.queue, slot), h.value.target.frame)
    else Nothing(m, es, m')
  }

  ghost predicate GotSpace(m: Moment, slot: nat, id: nat, root: nat, m': Moment)
    requires m.queue.current.Some?
  {
    NewSpace(m.caps, Here(m.queue, slot), id, root, m'.caps)
  }

  ghost predicate AnsweredAsCreate(m: Moment, out: nat, es: seq<Event>, m': Moment)
    requires m.queue.current.Some?
  {
    if MayStore(m, out) && FreeSet(m.caps.states) != {} && FirstNone(m.caps.spaces).Some? && EmptySlot(m).Some?
    then
      && ChangesHandles(es) && m'.slots == m.slots
      && exists root: nat :: GotSpace(m, EmptySlot(m).value, FirstNone(m.caps.spaces).value, root, m')
    else Nothing(m, es, m')
  }

  /** Why a mapping is not made. */
  ghost predicate MapRefused(m: Moment, asHandle: nat, addr: nat, perms: nat, memory: bool) {
    && OwnHandle(m, asHandle).Some? && OwnHandle(m, asHandle).value.target.AddressSpaceObject?
    && SpaceLives(m.caps, OwnHandle(m, asHandle).value.target.id)
    && Refused(m.caps, OwnHandle(m, asHandle).value.target.id, addr, PermsOf(perms), m.nx, memory)
  }

  ghost predicate AnsweredMap(
    m: Moment, asHandle: nat, frameHandle: nat, addr: nat, perms: nat, out: nat, es: seq<Event>, m': Moment)
    requires HasCurrent(m.queue)
  {
    if es == [] then
      && Nothing(m, es, m')
      && (MayStore(m, out) && MayMap(Current(m.queue).handles, asHandle, frameHandle, addr, perms) ==>
            exists memory: bool :: MapRefused(m, asHandle, addr, perms, memory))
    else
      && ChangesHandles(es) && m'.slots == m.slots && MayStore(m, out)
      && MayMap(Current(m.queue).handles, asHandle, frameHandle, addr, perms)
      && Maps(m.caps, Here(m.queue, frameHandle), OwnHandle(m, frameHandle).value,
              OwnHandle(m, asHandle).value.target.id, addr, PermsOf(perms), m'.caps)
  }

  ghost predicate AnsweredUnmap(m: Moment, slot: nat, es: seq<Event>, m': Moment)
    requires m.queue.current.Some?
  {
    var h := OwnHandle(m, slot);
    if h.Some? && h.value.target.MappingObject? then
      var p := Here(m.queue, slot);
      && ChangesHandles(es) && m'.slots == m.slots && HasSlot(m.caps.tasks, p) && SpaceLives(m.caps, h.value.target.id)
      && PageTables.Removed(m.caps.view, m.caps.states, m'.caps.view, m'.caps.states,
                            PageIn(m.caps, h.value.target.id, h.value.target.addr))
      && m'.caps == UnmappedFrame(m.caps, p, h.value.target.frame, h.value.rights, m'.caps.view, m'.caps.states)
    else Nothing(m, es, m')
  }

  /** A task runs in entry t, on a stack of its own. */
  ghost predicate GotTask(m: Moment, slot: nat, t: nat, id: nat, held: set<nat>, top: nat, m': Moment)
    requires m.queue.current.Some?
  {
    NewTaskRuns(WithStack(m.caps, m'.caps.view, m'.caps.states, held), Here(m.queue, slot), t, id, top, m'.caps)
  }

  ghost predicate KeptStack(m: Moment, held: set<nat>, m': Moment) {
    m'.caps == WithStack(m.caps, m'.caps.view, m'.caps.states, held) && m'.caps != m.caps
  }

  ghost predicate AnsweredTaskCreate(
    m: Moment, asHandle: nat, entry: nat, userStack: nat, out: nat, es: seq<Event>, m': Moment)
    requires m.queue.current.Some?
  {
    if !(MayStore(m, out) && MayBegin(m, asHandle, entry, userStack)) then Nothing(m, es, m')
    else if !StackFor(m) then es == [] && m'.caps == m.caps && m'.slots == Marked(m.slots)
    else if FirstNone(m.caps.tasks).None? then
      es == [] && m'.slots == Marked(m.slots) && exists held: set<nat> :: KeptStack(m, held, m')
    else if EmptySlot(m).None? then Nothing(m, es, m')
    else
      && MakesTask(es) && m'.slots == Marked(m.slots)
      && exists held: set<nat>, top: nat {:trigger GotTask(m, EmptySlot(m).value, FirstNone(m.caps.tasks).value,
                                                           OwnHandle(m, asHandle).value.target.id, held, top, m')} ::
           GotTask(m, EmptySlot(m).value, FirstNone(m.caps.tasks).value, OwnHandle(m, asHandle).value.target.id,
                   held, top, m')
  }

  /** Each outcome of a task creation is the answer to the call. */
  lemma TaskAnswered(
    m: Moment, asHandle: nat, entry: nat, userStack: nat, out: nat, right: bool, can: bool, ok: bool,
    id: nat, held: set<nat>, top: nat, es: seq<Event>, m': Moment)
    requires HasCurrent(m.queue) && (can <==> StackFor(m))
    requires right <==> MayStore(m, out) && MayBegin(m, asHandle, entry, userStack)
    requires ok <==> right && can && FirstNone(m.caps.tasks).Some? && EmptySlot(m).Some?
    requires !ok ==> es == [] && (m'.caps == m.caps <==> !(right && can && FirstNone(m.caps.tasks).None?))
    requires !ok && right && can && FirstNone(m.caps.tasks).None? ==>
      m'.caps == WithStack(m.caps, m'.caps.view, m'.caps.states, held)
    requires m'.slots ==
      if !right || (!ok && can && FirstNone(m.caps.tasks).Some?) then m.slots else Marked(m.slots)
    requires ok ==>
      && MakesTask(es) && OwnHandle(m, asHandle).Some?
      && OwnHandle(m, asHandle).value.target == AddressSpaceObject(id)
      && GotTask(m, EmptySlot(m).value, FirstNone(m.caps.tasks).value, id, held, top, m')
    ensures AnsweredTaskCreate(m, asHandle, entry, userStack, out, es, m')
  {
    if !ok && right && can && FirstNone(m.caps.tasks).None? {
      assert KeptStack(m, held, m');
    }
  }

  /** The answer to a call of a task that is not in the middle of a receive. */
  ghost predicate AnsweredCall(call: Call, m: Moment, es: seq<Event>, m': Moment)
    requires HasCurrent(m.queue)
  {
    match call
    case UserStore(addr, data) => AnsweredStore(m, addr, data, es, m')
    case CallYield => Quiet(m, m') && es == if m.queue.ready == [] then [] else [Yield]
    case CallExit => Quiet(m, m') && es == if m.queue.ready == [] then [] else [Exit]
    case CallSend(dest, ptr, payload) => AnsweredSend(m, dest, ptr, payload, es, m')
    case CallReceive(args) => AnsweredReceive(m, args, es, m')
    case CallFrameAlloc(out) => AnsweredFrameAlloc(m, out, es, m')
    case CallFrameDealloc(slot) => AnsweredFrameDealloc(m, slot, es, m')
    case CallAsCreate(out) => AnsweredAsCreate(m, out, es, m')
    case CallMap(a, f, addr, perms, out) => AnsweredMap(m, a, f, addr, perms, out, es, m')
    case CallUnmap(slot) => AnsweredUnmap(m, slot, es, m')
    case CallTaskCreate(a, entry, stack, out) => AnsweredTaskCreate(m, a, entry, stack, out, es, m')
  }

  /** The answer to a call; a task in the middle of a receive goes on with that instead. */
  ghost predicate Answered(call: Call, m: Moment, es: seq<Event>, m': Moment) {
    && HasCurrent(m.queue) && Tracks(m.queue, es, m'.queue) && m'.nx == m.nx
    && match Current(m.queue).receiving
       case None => AnsweredCall(call, m, es, m')
       case Some(args) => Quiet(m, m') && es == if MayReceive(m, args) then [Take] else [GiveUp]
  }

  /** A call that would need another task to go on with halts the machine instead. */
  ghost predicate Halts(call: Call, m: Moment) {
    && HasCurrent(m.queue) && Current(m.queue).receiving.None? && m.queue.ready == []
    && (call.CallExit? || (call.UserStore? && !MayAccess(m, call.addr, 1, true))
        || (call.CallReceive? && call.args.out != 0 && Current(m.queue).mailbox == []))
  }

  /** An answer discards no task. */
  lemma {:induction false} AnswersKeepTasks(call: Call, m: Moment, es: seq<Event>, m': Moment)
    requires Answered(call, m, es, m')
    ensures KeepsTasks(es)
  {
  }

  // ---- Runs of calls ----

  datatype Answer = Answer(call: Call, before: Moment, events: seq<Event>, after: Moment)

  ghost predicate AnswerOk(calls: seq<Call>, answers: seq<Answer>, i: nat) {
    i < |answers| <= |calls| ==>
      && answers[i].call == calls[i] && Answered(calls[i], answers[i].before, answers[i].events, answers[i].after)
      && (i + 1 < |answers| ==> answers[i].after == answers[i + 1].before && !Halts(calls[i], answers[i].before))
  }

  /** The calls are answered one after the other, from one moment to another; only the last may halt. */
  ghost predicate InTurn(calls: seq<Call>, answers: seq<Answer>, first: Moment, last: Moment) {
    && |answers| <= |calls|
    && (if answers == [] then first == last
        else answers[0].before == first && answers[|answers| - 1].after == last)
    && forall i: nat {:trigger AnswerOk(calls, answers, i)} :: AnswerOk(calls, answers, i)
  }

  ghost predicate Halted(answers: seq<Answer>) {
    answers != [] && Halts(answers[|answers| - 1].call, answers[|answers| - 1].before)
  }

  function EventsOf(answers: seq<Answer>): seq<Event> {
    if answers == [] then [] else EventsOf(answers[..|answers| - 1]) + answers[|answers| - 1].events
  }

  /** One more call is answered. */
  lemma {:induction false} TurnOn(calls: seq<Call>, answers: seq<Answer>, first: Moment, m: Moment, a: Answer)
    requires InTurn(calls, answers, first, m) && !Halted(answers) && |answers| < |calls|
    requires a.call == calls[|answers|] && a.before == m && Answered(a.call, a.before, a.events, a.after)
    ensures InTurn(calls, answers + [a], first, a.after) && EventsOf(answers + [a]) == EventsOf(answers) + a.events
  {
    var more := answers + [a];
    assert more[..|answers|] == answers;
    forall i: nat
      ensures AnswerOk(calls, more, i)
    {
      assert AnswerOk(calls, answers, i);
    }
  }

  lemma {:induction false} TurnsBut(calls: seq<Call>, answers: seq<Answer>, first: Moment, last: Moment)
    requires InTurn(calls, answers, first, last) && answers != []
    ensures var a := answers[|answers| - 1];
            && InTurn(calls, answers[..|answers| - 1], first, a.before)
            && Answered(a.call, a.before, a.events, a.after) && a.after == last
  {
    var n := |answers| - 1;
    var rest := answers[..n];
    assert AnswerOk(calls, answers, n);
    if n > 0 {
      assert AnswerOk(calls, answers, n - 1);
    }
    forall i: nat
      ensures AnswerOk(calls, rest, i)
    {
      assert AnswerOk(calls, answers, i);
    }
  }

  /** The events of all answers are a run of the scheduler from the first moment to the last. */
  lemma {:induction false} TurnsTrack(calls: seq<Call>, answers: seq<Answer>, first: Moment, last: Moment)
    requires InTurn(calls, answers, first, last)
    ensures Tracks(first.queue, EventsOf(answers), last.queue) && KeepsTasks(EventsOf(answers))
    decreases |answers|
  {
    if answers != [] {
      var a := answers[|answers| - 1];
      TurnsBut(calls, answers, first, last);
      TurnsTrack(calls, answers[..|answers| - 1], first, a.before);
      AnswersKeepTasks(a.call, a.before, a.events, a.after);
      TrackThen(first.queue, EventsOf(answers[..|answers| - 1]), a.before.queue, a.events, last.queue);
    }
  }

  // ---- Messages ----

  /** What an answered call sends to task t. */
  ghost function SendOf(a: Answer, t: nat): seq<Message> {
    if HasCurrent(a.before.queue) && Current(a.before.queue).receiving.None? && a.call.CallSend? && a.call.dest == t
       && MaySend(a.before, t, a.call.ptr, a.call.payload)
    then [Message(a.before.queue.current.value, |a.call.payload|, ZeroPadded(a.call.payload))] else []
  }

  /** What an answered call hands to task t: its oldest message, when it receives. */
  ghost function HandedTo(a: Answer, t: nat): seq<Message> {
    if a.events == [Take] && a.before.queue.current == Some(t) && MailboxOf(a.before.queue, t) != []
    then [MailboxOf(a.before.queue, t)[0]] else []
  }

  ghost function Sends(answers: seq<Answer>, t: nat): seq<Message> {
    if answers == [] then [] else Sends(answers[..|answers| - 1], t) + SendOf(answers[|answers| - 1], t)
  }

  ghost function Hands(answers: seq<Answer>, t: nat): seq<Message> {
    if answers == [] then [] else Hands(answers[..|answers| - 1], t) + HandedTo(answers[|answers| - 1], t)
  }

  lemma {:induction false} AcceptedSum(es: seq<Event>, fs: seq<Event>, t: nat)
    ensures Accepted(es + fs, t) == Accepted(es, t) + Accepted(fs, t)
    decreases |es|
  {
    if es == [] {
      assert es + fs == fs;
    } else {
      assert (es + fs)[1..] == es[1..] + fs;
      AcceptedSum(es[1..], fs, t);
    }
  }

  lemma {:induction false} DeliveredSum(s: State, es: seq<Event>, s': State, fs: seq<Event>, t: nat)
    requires Tracks(s, es, s') && Legal(s', fs) && Legal(s, es + fs)
    ensures Delivered(s, es + fs, t) == Delivered(s, es, t) + Delivered(s', fs, t)
    decreases |es|
  {
    var all := es + fs;
    if es == [] {
      assert all == fs;
    } else {
      assert all[0] == es[0] && all[1..] == es[1..] + fs;
      DeliveredSum(Step(s, es[0]), es[1..], s', fs, t);
    }
  }

  lemma {:induction false} OneCarries(s: State, es: seq<Event>, t: nat)
    requires Legal(s, es) && |es| == 1
    ensures Accepted(es, t) == SentBy(es[0], t) && Delivered(s, es, t) == TakenBy(s, es[0], t)
  {
    assert es[1..] == [];
  }

  /** Events that change handles or create a task carry no message. */
  lemma {:induction false} OthersCarryNothing(s: State, es: seq<Event>, t: nat)
    requires Legal(s, es) && (es == [] || ChangesHandles(es) || MakesTask(es))
    ensures Accepted(es, t) == [] && Delivered(s, es, t) == [] && es != [Take]
  {
    if |es| == 1 {
      OneCarries(s, es, t);
    } else if |es| == 2 {
      assert es[1..] == [es[1]];
      OneCarries(Step(s, es[0]), es[1..], t);
    }
  }

  /** What the calls other than a send and a receive cause. */
  lemma {:induction false} QuietKinds(a: Answer)
    requires Answered(a.call, a.before, a.events, a.after) && Current(a.before.queue).receiving.None?
    requires !a.call.CallSend? && !a.call.CallReceive? && !a.call.CallYield? && !a.call.CallExit? && !a.call.UserStore?
    ensures a.events == [] || ChangesHandles(a.events) || MakesTask(a.events)
  {
  }

  /** One answer sends and hands over exactly what its events say. */
  lemma {:induction false} AnswerCarries(a: Answer, t: nat)
    requires Answered(a.call, a.before, a.events, a.after) && Lives(a.before.queue, t)
    ensures Accepted(a.events, t) == SendOf(a, t) && Delivered(a.before.queue, a.events, t) == HandedTo(a, t)
  {
    var s, es := a.before.queue, a.events;
    if Current(s).receiving.None? && !a.call.CallSend? && !a.call.CallReceive? && !a.call.CallYield?
       && !a.call.CallExit? && !a.call.UserStore? {
      QuietKinds(a);
      OthersCarryNothing(s, es, t);
    } else if es != [] {
      OneCarries(s, es, t);
    } else {
      OthersCarryNothing(s, es, t);
    }
  }

  lemma {:induction false} LivesOn(s: State, es: seq<Event>, t: nat)
    requires Legal(s, es) && KeepsTasks(es) && Lives(s, t)
    ensures Lives(Run(s, es), t)
    decreases |es|
  {
    if es != [] {
      assert es[0] in es;
      assert Lives(Step(s, es[0]), t);
      LivesOn(Step(s, es[0]), es[1..], t);
    }
  }

  lemma {:induction false} TurnsCarry(calls: seq<Call>, answers: seq<Answer>, first: Moment, last: Moment, t: nat)
    requires InTurn(calls, answers, first, last) && Lives(first.queue, t) && Legal(first.queue, EventsOf(answers))
    ensures Accepted(EventsOf(answers), t) == Sends(answers, t)
    ensures Delivered(first.queue, EventsOf(answers), t) == Hands(answers, t)
    decreases |answers|
  {
    if answers != [] {
      var rest, a := answers[..|answers| - 1], answers[|answers| - 1];
      TurnsBut(calls, answers, first, last);
      TurnsTrack(calls, rest, first, a.before);
      LivesOn(first.queue, EventsOf(rest), t);
      TurnsCarry(calls, rest, first, a.before, t);
      AnswerCarries(a, t);
      AcceptedSum(EventsOf(rest), a.events, t);
      DeliveredSum(first.queue, EventsOf(rest), a.before.queue, a.events, t);
    }
  }

  /** Over any run of calls: what was waiting for task t, and then what calls sent to it, is what its receives
      were handed, and then what is still waiting, in order. */
  lemma {:induction false} MessagesServed(calls: seq<Call>, answers: seq<Answer>, first: Moment, last: Moment, t: nat)
    requires InTurn(calls, answers, first, last) && SchedOk(first.queue) && Lives(first.queue, t)
    ensures Lives(last.queue, t)
    ensures MailboxOf(first.queue, t) + Sends(answers, t) == Hands(answers, t) + MailboxOf(last.queue, t)
  {
    TurnsTrack(calls, answers, first, last);
    LivesOn(first.queue, EventsOf(answers), t);
    TurnsCarry(calls, answers, first, last, t);
    assert Discard(t) !in EventsOf(answers);
    MessagesInOrder(first.queue, EventsOf(answers), t);
  }

  // ---- Slots of kernel stacks ----

  /** Marking sets a bit and clears none. */
  lemma {:induction false} MarkedFills(slots: seq<bool>)
    ensures |Marked(slots)| == |slots| && forall t :: 0 <= t < |slots| && slots[t] ==> Marked(slots)[t]
  {
    if slots != [] && slots[0] {
      MarkedFills(slots[1..]);
      forall t | 0 <= t < |slots| && slots[t]
        ensures Marked(slots)[t]
      {
        assert t > 0 ==> slots[t] == slots[1..][t - 1];
      }
    }
  }

  lemma {:induction false} AnswerSlots(call: Call, m: Moment, es: seq<Event>, m': Moment)
    requires Answered(call, m, es, m')
    ensures m'.slots == m.slots || m'.slots == Marked(m.slots)
  {
  }

  /** No call ever makes a slot available again: what dead tasks and failed creations have taken stays taken. */
  lemma {:induction false} SlotsFill(calls: seq<Call>, answers: seq<Answer>, first: Moment, last: Moment)
    requires InTurn(calls, answers, first, last)
    ensures |last.slots| == |first.slots|
    ensures forall t :: 0 <= t < |first.slots| && first.slots[t] ==> last.slots[t]
    decreases |answers|
  {
    if answers != [] {
      var a := answers[|answers| - 1];
      TurnsBut(calls, answers, first, last);
      SlotsFill(calls, answers[..|answers| - 1], first, a.before);
      AnswerSlots(a.call, a.before, a.events, a.after);
      MarkedFills(a.before.slots);
    }
  }

  /** Once every slot is taken, no task is ever created again, however many frames are free. */
  lemma {:induction false} NoTaskAgain(calls: seq<Call>, answers: seq<Answer>, first: Moment, last: Moment, i: nat)
    requires InTurn(calls, answers, first, last) && AllTaken(first.slots) && i < |answers|
    ensures !MakesTask(answers[i].events)
    decreases |answers|
  {
    var n := |answers| - 1;
    var a := answers[n];
    TurnsBut(calls, answers, first, last);
    if i < n {
      NoTaskAgain(calls, answers[..n], first, a.before, i);
    } else {
      SlotsFill(calls, answers[..n], first, a.before);
      TakenNoTask(a.call, a.before, a.events, a.after);
    }
  }

  lemma {:induction false} TakenNoTask(call: Call, m: Moment, es: seq<Event>, m': Moment)
    requires Answered(call, m, es, m') && AllTaken(m.slots)
    ensures !MakesTask(es)
  {
  }
}
