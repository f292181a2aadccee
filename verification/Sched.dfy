/** The scheduler and the mailboxes as a state machine of atomic steps: between two system calls
    nothing else runs, and tasks change only at a switch. */
module Sched {
  import opened Outcomes
  import opened Rings
  import opened Tasks

  datatype State = State(tasks: seq<Option<Tcb>>, current: Option<nat>, ready: seq<nat>)

  predicate Lives(s: State, t: nat) {
    t < |s.tasks| && s.tasks[t].Some?
  }

  predicate Is(s: State, t: nat, r: RunState) {
    Lives(s, t) && s.tasks[t].value.state == r
  }

  ghost predicate NoRepeats(q: seq<nat>) {
    forall i, j :: 0 <= i < j < |q| ==> q[i] != q[j]
  }

  /** A blocked task waits on an empty mailbox inside a receive, and a receive that has been
      woken up has its message. */
  predicate MailOk(x: Tcb) {
    && |x.mailbox| <= MAILBOX_CAPACITY && (forall m <- x.mailbox :: MessageOk(m))
    && (x.state == Blocked ==> x.receiving.Some? && x.mailbox == [])
    && (x.receiving.Some? && x.state != Blocked ==> x.mailbox != [] && x.state != Dead)
  }

  /** The ready queue lists exactly the ready tasks, and the current task is the only running one. */
  predicate TaskOk(s: State, t: nat) {
    && (t in s.ready <==> Is(s, t, Ready))
    && (s.current == Some(t) <==> Is(s, t, Running))
    && (Lives(s, t) ==> MailOk(s.tasks[t].value))
  }

  /** What every step keeps. */
  ghost predicate SchedOk(s: State) {
    && |s.tasks| == MAX_TASKS
    && NoRepeats(s.ready)
    && forall t: nat {:trigger TaskOk(s, t)} :: TaskOk(s, t)
  }

  function Put(s: State, t: nat, x: Tcb): State
    requires t < |s.tasks|
  {
    s.(tasks := s.tasks[t := Some(x)])
  }

  // ---- The steps ----

  /** Gives the processor to the front of the queue. */
  function Dispatch(s: State): State
    requires s.ready != [] && Lives(s, s.ready[0])
  {
    var next := s.ready[0];
    Put(s, next, s.tasks[next].value.(state := Running)).(current := Some(next), ready := s.ready[1..])
  }

  /** The current task as x, queued again if it is still ready. */
  function Leave(s: State, x: Tcb): State
    requires s.current.Some? && s.current.value < |s.tasks|
  {
    var c := s.current.value;
    Put(s, c, x).(current := None, ready := if x.state == Ready then s.ready + [c] else s.ready)
  }

  datatype Event =
    | Start
    | Yield
    | Exit
    | Wait(args: ReceiveArgs)
    | Send(dest: nat, msg: Message)
    | Take
    | GiveUp
    | Hold(handles: HandleTable)
    | Create(task: Tcb)
    | Discard(id: nat)

  predicate IsSwitch(e: Event) {
    e.Start? || e.Yield? || e.Exit? || e.Wait?
  }

  predicate HasCurrent(s: State) {
    s.current.Some? && Lives(s, s.current.value)
  }

  function Current(s: State): Tcb
    requires HasCurrent(s)
  {
    s.tasks[s.current.value].value
  }

  /** Which step the current task, or the kernel on its behalf, can take next.  A task inside a
      receive can only go on with it.  Tasks can also be created before the first one starts. */
  predicate Enabled(s: State, e: Event) {
    match e
    case Start => s.current.None? && s.ready != [] && Lives(s, s.ready[0])
    case Yield => Free(s) && s.ready != [] && Lives(s, s.ready[0])
    case Exit => Free(s) && s.ready != [] && Lives(s, s.ready[0])
    case Wait(_) => Free(s) && s.ready != [] && Lives(s, s.ready[0]) && Current(s).mailbox == []
    case Send(d, m) => MessageOk(m) && Free(s) && Lives(s, d) && |s.tasks[d].value.mailbox| < MAILBOX_CAPACITY
    case Take => HasCurrent(s) && Current(s).mailbox != []
    case GiveUp => HasCurrent(s) && Current(s).receiving.Some?
    case Hold(_) => Free(s)
    case Create(x) =>
      && (s.current.None? || Free(s)) && FirstNone(s.tasks).Some?
      && x.state == Ready && x.receiving.None? && x.mailbox == []
    case Discard(t) => Free(s) && Lives(s, t) && s.current != Some(t)
  }

  /** The current task runs and is not in the middle of a receive. */
  predicate Free(s: State) {
    HasCurrent(s) && Current(s).receiving.None?
  }

  function Step(s: State, e: Event): State
    requires Enabled(s, e)
  {
    match e
    case Start => Dispatch(s)
    case Yield => Dispatch(Leave(s, Current(s).(state := Ready)))
    case Exit => Dispatch(Leave(s, Current(s).(state := Dead)))
    case Wait(args) => Dispatch(Leave(s, Current(s).(state := Blocked, receiving := Some(args))))
    case Send(d, m) =>
      var x := s.tasks[d].value;
      var filled := x.(mailbox := x.mailbox + [m]);
      if x.state == Blocked then Put(s, d, filled.(state := Ready)).(ready := s.ready + [d]) else Put(s, d, filled)
    case Take => Put(s, s.current.value, Current(s).(mailbox := Current(s).mailbox[1..], receiving := None))
    case GiveUp => Put(s, s.current.value, Current(s).(receiving := None))
    case Hold(hs) => Put(s, s.current.value, Current(s).(handles := hs))
    case Create(x) =>
      var t := FirstNone(s.tasks).value;
      Put(s, t, x).(ready := s.ready + [t])
    case Discard(t) => s.(tasks := s.tasks[t := None], ready := Without(s.ready, t))
  }

  // ---- Queues ----

  lemma QueueAppend(q: seq<nat>, t: nat)
    requires NoRepeats(q) && t !in q
    ensures NoRepeats(q + [t]) && forall x :: x in q + [t] <==> x in q || x == t
  {
  }

  lemma QueueTail(q: seq<nat>)
    requires NoRepeats(q) && q != []
    ensures NoRepeats(q[1..]) && q[0] !in q[1..] && forall x :: x in q[1..] <==> x in q && x != q[0]
  {
    forall x | x in q && x != q[0]
      ensures x in q[1..]
    {
      var i :| 0 <= i < |q| && q[i] == x;
      assert q[1..][i - 1] == x;
    }
  }

  lemma {:induction false} QueueWithout(q: seq<nat>, t: nat)
    requires NoRepeats(q)
    ensures NoRepeats(Without(q, t)) && forall x :: x in Without(q, t) <==> x in q && x != t
  {
    if q != [] {
      QueueTail(q);
      QueueWithout(q[1..], t);
    }
  }

  lemma {:induction false} WithoutLength(q: seq<nat>, t: nat)
    ensures |Without(q, t)| >= |q| - 1
  {
    if q != [] {
      WithoutLength(q[1..], t);
    }
  }

  /** There are at most n distinct numbers below n. */
  lemma {:induction false} Pigeonhole(q: seq<nat>, n: nat)
    requires NoRepeats(q) && forall t :: t in q ==> t < n
    ensures |q| <= n
    decreases n
  {
    if q != [] {
      assert q[0] in q;
      var last: nat := n - 1;
      var rest: seq<nat> := Without(q, last);
      QueueWithout(q, last);
      WithoutLength(q, last);
      Pigeonhole(rest, last);
    }
  }

  /** A ready queue with a task missing has room for it: `push_back` cannot fail. */
  lemma RoomFor(s: State, t: nat)
    requires SchedOk(s) && t < MAX_TASKS && t !in s.ready
    ensures |s.ready| < MAX_TASKS
  {
    forall x | x in s.ready
      ensures x < MAX_TASKS
    {
      assert TaskOk(s, x);
    }
    QueueAppend(s.ready, t);
    Pigeonhole(s.ready + [t], MAX_TASKS);
  }

  // ---- Every step keeps the invariant ----

  /** The front of the queue is ready, so it is not the current task. */
  lemma FrontIsReady(s: State)
    requires SchedOk(s) && s.ready != []
    ensures Is(s, s.ready[0], Ready) && s.current != Some(s.ready[0])
  {
    assert TaskOk(s, s.ready[0]);
  }

  lemma DispatchKeeps(s: State)
    requires SchedOk(s) && s.current.None? && s.ready != []
    ensures Lives(s, s.ready[0]) && SchedOk(Dispatch(s))
  {
    FrontIsReady(s);
    QueueTail(s.ready);
    forall t: nat
      ensures TaskOk(Dispatch(s), t)
    {
      assert TaskOk(s, t);
    }
  }

  lemma LeaveKeeps(s: State, x: Tcb)
    requires SchedOk(s) && HasCurrent(s) && MailOk(x) && x.state != Running
    ensures SchedOk(Leave(s, x))
  {
    var c := s.current.value;
    assert TaskOk(s, c);
    QueueAppend(s.ready, c);
    forall t: nat
      ensures TaskOk(Leave(s, x), t)
    {
      assert TaskOk(s, t);
    }
  }

  /** Changing a task without changing its run state. */
  lemma PutKeeps(s: State, t: nat, x: Tcb)
    requires SchedOk(s) && Lives(s, t) && MailOk(x) && x.state == s.tasks[t].value.state
    ensures SchedOk(Put(s, t, x))
  {
    forall u: nat
      ensures TaskOk(Put(s, t, x), u)
    {
      assert TaskOk(s, u);
    }
  }

  lemma EnqueueKeeps(s: State, t: nat, x: Tcb)
    requires SchedOk(s) && t < MAX_TASKS && (Lives(s, t) ==> Is(s, t, Blocked)) && MailOk(x) && x.state == Ready
    ensures SchedOk(Put(s, t, x).(ready := s.ready + [t])) && |s.ready| < MAX_TASKS
  {
    assert TaskOk(s, t);
    RoomFor(s, t);
    QueueAppend(s.ready, t);
    forall u: nat
      ensures TaskOk(Put(s, t, x).(ready := s.ready + [t]), u)
    {
      assert TaskOk(s, u);
    }
  }

  lemma DiscardKeeps(s: State, t: nat)
    requires SchedOk(s) && Enabled(s, Discard(t))
    ensures SchedOk(Step(s, Discard(t)))
  {
    QueueWithout(s.ready, t);
    forall u: nat
      ensures TaskOk(Step(s, Discard(t)), u)
    {
      assert TaskOk(s, u);
    }
  }

  /** Every step keeps the scheduler's invariant. */
  lemma StepKeeps(s: State, e: Event)
    requires SchedOk(s) && Enabled(s, e)
    ensures SchedOk(Step(s, e))
  {
    if s.current.Some? {
      assert TaskOk(s, s.current.value);
    }
    match e
    case Start => DispatchKeeps(s);
    case Yield => SwitchKeeps(s, Current(s).(state := Ready));
    case Exit => SwitchKeeps(s, Current(s).(state := Dead));
    case Wait(args) => SwitchKeeps(s, Current(s).(state := Blocked, receiving := Some(args)));
    case Send(d, m) =>
      assert TaskOk(s, d);
      var x := s.tasks[d].value;
      var filled := x.(mailbox := x.mailbox + [m]);
      if x.state == Blocked {
        EnqueueKeeps(s, d, filled.(state := Ready));
      } else {
        PutKeeps(s, d, filled);
      }
    case Take => PutKeeps(s, s.current.value, Current(s).(mailbox := Current(s).mailbox[1..], receiving := None));
    case GiveUp => PutKeeps(s, s.current.value, Current(s).(receiving := None));
    case Hold(hs) => PutKeeps(s, s.current.value, Current(s).(handles := hs));
    case Create(x) => EnqueueKeeps(s, FirstNone(s.tasks).value, x);
    case Discard(t) => DiscardKeeps(s, t);
  }

  lemma SwitchKeeps(s: State, x: Tcb)
    requires SchedOk(s) && HasCurrent(s) && s.ready != [] && MailOk(x) && x.state != Running
    ensures Leave(s, x).ready[0] == s.ready[0] && s.current != Some(s.ready[0])
    ensures Lives(Leave(s, x), s.ready[0]) && SchedOk(Dispatch(Leave(s, x)))
  {
    FrontIsReady(s);
    LeaveKeeps(s, x);
    DispatchKeeps(Leave(s, x));
  }
}
