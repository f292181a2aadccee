/** What holds over every run of the scheduler: its invariant, no lost wakeup, bounded waiting,
    and first-in first-out delivery of messages. */
module SchedRuns {
  import opened Outcomes
  import opened Rings
  import opened Tasks
  import opened Sched

  /** No task, no current task. */
  function Boot(): State {
    State(seq(MAX_TASKS, i => None), None, [])
  }

  /** Every event is possible when it happens. */
  predicate Legal(s: State, es: seq<Event>)
    decreases |es|
  {
    es == [] || (Enabled(s, es[0]) && Legal(Step(s, es[0]), es[1..]))
  }

  function Run(s: State, es: seq<Event>): State
    requires Legal(s, es)
    decreases |es|
  {
    if es == [] then s else Run(Step(s, es[0]), es[1..])
  }

  lemma {:induction false} RunKeeps(s: State, es: seq<Event>)
    requires SchedOk(s) && Legal(s, es)
    ensures SchedOk(Run(s, es))
    decreases |es|
  {
    if es != [] {
      StepKeeps(s, es[0]);
      RunKeeps(Step(s, es[0]), es[1..]);
    }
  }

  /** In every reachable state the scheduler's invariant holds. */
  lemma ReachableOk(es: seq<Event>)
    requires Legal(Boot(), es)
    ensures SchedOk(Run(Boot(), es))
  {
    var s := Boot();
    assert forall t: nat {:trigger TaskOk(s, t)} :: TaskOk(s, t);
    RunKeeps(s, es);
  }

  /** No lost wakeup: whoever is blocked has no message waiting, and a receive that runs on after
      its block always finds one, so its `pop` cannot fail. */
  lemma NoLostWakeup(es: seq<Event>, t: nat)
    requires Legal(Boot(), es) && Lives(Run(Boot(), es), t)
    ensures var s := Run(Boot(), es);
            && (Is(s, t, Blocked) ==> s.tasks[t].value.mailbox == [])
            && (s.current == Some(t) && s.tasks[t].value.receiving.Some? ==> Enabled(s, Take))
  {
    ReachableOk(es);
    assert TaskOk(Run(Boot(), es), t);
  }

  /** Task t ends the receive it is in, with or without a message. */
  predicate Ends(s: State, e: Event, t: nat) {
    (e.Take? || e.GiveUp?) && s.current == Some(t)
  }

  /** Task t does not end the receive it is in. */
  predicate StaysIn(s: State, es: seq<Event>, t: nat)
    requires Legal(s, es)
    decreases |es|
  {
    es != [] ==> !Ends(s, es[0], t) && es[0] != Discard(t) && StaysIn(Step(s, es[0]), es[1..], t)
  }

  lemma StaysInStep(s: State, e: Event, t: nat, args: ReceiveArgs)
    requires Enabled(s, e) && Lives(s, t) && s.tasks[t].value.receiving == Some(args)
    requires !Ends(s, e, t) && e != Discard(t)
    ensures Lives(Step(s, e), t) && Step(s, e).tasks[t].value.receiving == Some(args)
  {
  }

  /** However long a receive blocks, and whatever runs meanwhile, it goes on with its own arguments. */
  lemma {:induction false} ArgumentsKept(s: State, es: seq<Event>, t: nat, args: ReceiveArgs)
    requires Legal(s, es) && StaysIn(s, es, t) && Lives(s, t) && s.tasks[t].value.receiving == Some(args)
    ensures Lives(Run(s, es), t) && Run(s, es).tasks[t].value.receiving == Some(args)
    decreases |es|
  {
    if es != [] {
      StaysInStep(s, es[0], t, args);
      ArgumentsKept(Step(s, es[0]), es[1..], t, args);
    }
  }

  /** Once a task runs, some task always runs. */
  lemma {:induction false} StaysCurrent(s: State, es: seq<Event>)
    requires SchedOk(s) && Legal(s, es) && s.current.Some?
    ensures HasCurrent(Run(s, es))
    decreases |es|
  {
    if es == [] {
      assert TaskOk(s, s.current.value);
    } else {
      StepKeeps(s, es[0]);
      StaysCurrent(Step(s, es[0]), es[1..]);
    }
  }

  // ---- Dead tasks ----

  /** A dead task stays dead, and so never runs, until its slot is given up. */
  lemma {:induction false} DeadStaysDead(s: State, es: seq<Event>, t: nat)
    requires SchedOk(s) && Legal(s, es) && Is(s, t, Dead) && Discard(t) !in es
    ensures Is(Run(s, es), t, Dead) && Run(s, es).current != Some(t)
    decreases |es|
  {
    assert TaskOk(s, t);
    if es != [] {
      if s.ready != [] {
        FrontIsReady(s);
      }
      StepKeeps(s, es[0]);
      DeadStaysDead(Step(s, es[0]), es[1..], t);
    }
  }

  // ---- Bounded waiting ----

  /** How many tasks are queued ahead of t. */
  function Position(q: seq<nat>, t: nat): (k: nat)
    ensures t in q ==> k < |q| && q[k] == t
  {
    if q == [] || q[0] == t then 0 else 1 + Position(q[1..], t)
  }

  lemma {:induction false} PositionAppend(q: seq<nat>, t: nat, x: nat)
    requires t in q
    ensures Position(q + [x], t) == Position(q, t)
  {
    assert (q + [x])[0] == q[0];
    if q[0] != t {
      assert (q + [x])[1..] == q[1..] + [x];
      PositionAppend(q[1..], t, x);
    }
  }

  /** Removing another element brings t forward if that element was ahead of it. */
  lemma {:induction false} PositionWithout(q: seq<nat>, t: nat, x: nat)
    requires t in q && t != x
    ensures t in Without(q, x)
    ensures Position(Without(q, x), t) == Position(q, t) - (if x in q && Position(q, x) < Position(q, t) then 1 else 0)
  {
    if q[0] != x && q[0] != t {
      PositionWithout(q[1..], t, x);
    }
  }

  function Switches(es: seq<Event>): nat {
    if es == [] then 0 else (if IsSwitch(es[0]) then 1 else 0) + Switches(es[1..])
  }

  /** Whether a step removes a task queued ahead of t. */
  predicate Skips(s: State, e: Event, t: nat) {
    e.Discard? && e.id in s.ready && Position(s.ready, e.id) < Position(s.ready, t)
  }

  function Skipped(s: State, es: seq<Event>, t: nat): nat
    requires Legal(s, es)
    decreases |es|
  {
    if es == [] then 0 else (if Skips(s, es[0], t) then 1 else 0) + Skipped(Step(s, es[0]), es[1..], t)
  }

  /** Each switch, and each removal of a task ahead of it, brings a waiting task one place forward. */
  lemma WaitStep(s: State, e: Event, t: nat)
    requires SchedOk(s) && Enabled(s, e) && t in s.ready && e != Discard(t)
    ensures var s', k := Step(s, e), Position(s.ready, t);
            if IsSwitch(e) && k == 0 then s'.current == Some(t)
            else t in s'.ready && Position(s'.ready, t) == k - (if IsSwitch(e) || Skips(s, e, t) then 1 else 0)
  {
    match e
    case Yield => PositionAppend(s.ready, t, s.current.value);
    case Send(d, _) => PositionAppend(s.ready, t, d);
    case Create(_) => PositionAppend(s.ready, t, FirstNone(s.tasks).value);
    case Discard(x) => PositionWithout(s.ready, t, x);
    case _ =>
  }

  /** A task queued at position k waits for as long as fewer than k + 1 switches and removals
      ahead of it have happened, and is then exactly that many places further on. */
  lemma {:induction false} StillWaiting(s: State, es: seq<Event>, t: nat)
    requires SchedOk(s) && Legal(s, es) && t in s.ready && Discard(t) !in es
    requires Switches(es) + Skipped(s, es, t) <= Position(s.ready, t)
    ensures t in Run(s, es).ready
    ensures Position(Run(s, es).ready, t) == Position(s.ready, t) - Switches(es) - Skipped(s, es, t)
    decreases |es|
  {
    if es != [] {
      StepKeeps(s, es[0]);
      WaitStep(s, es[0], t);
      StillWaiting(Step(s, es[0]), es[1..], t);
    }
  }

  /** A run of one event. */
  lemma OneEvent(s: State, e: Event, t: nat)
    requires Enabled(s, e)
    ensures Legal(s, [e]) && Run(s, [e]) == Step(s, e)
    ensures Switches([e]) == (if IsSwitch(e) then 1 else 0) && Skipped(s, [e], t) == if Skips(s, e, t) then 1 else 0
  {
    assert [e][1..] == [];
    assert Legal(Step(s, e), []);
  }

  /** Bounded waiting: in a run with more than k switches, a task queued at position k runs after
      exactly k + 1 switches, less one for each removal of a task ahead of it. */
  lemma {:induction false} BoundedWaiting(s: State, es: seq<Event>, t: nat) returns (n: nat)
    requires SchedOk(s) && Legal(s, es) && t in s.ready && Discard(t) !in es
    requires Switches(es) > Position(s.ready, t)
    ensures n <= |es| && Legal(s, es[..n]) && Run(s, es[..n]).current == Some(t)
    ensures Switches(es[..n]) + Skipped(s, es[..n], t) == Position(s.ready, t) + 1
    decreases |es|
  {
    StepKeeps(s, es[0]);
    WaitStep(s, es[0], t);
    var s' := Step(s, es[0]);
    if IsSwitch(es[0]) && Position(s.ready, t) == 0 {
      assert es[..1] == [es[0]];
      OneEvent(s, es[0], t);
      return 1;
    }
    var m := BoundedWaiting(s', es[1..], t);
    assert es[..m + 1][1..] == es[1..][..m];
    return m + 1;
  }

  // ---- Messages ----

  function MailboxOf(s: State, t: nat): seq<Message> {
    if Lives(s, t) then s.tasks[t].value.mailbox else []
  }

  function SentBy(e: Event, t: nat): seq<Message> {
    if e.Send? && e.dest == t then [e.msg] else []
  }

  function TakenBy(s: State, e: Event, t: nat): seq<Message>
    requires Enabled(s, e)
  {
    if e == Take && s.current == Some(t) then [MailboxOf(s, t)[0]] else []
  }

  /** The messages sent to t in a run, in order. */
  function Accepted(es: seq<Event>, t: nat): seq<Message> {
    if es == [] then [] else SentBy(es[0], t) + Accepted(es[1..], t)
  }

  /** The messages t takes in a run, in order. */
  function Delivered(s: State, es: seq<Event>, t: nat): seq<Message>
    requires Legal(s, es)
    decreases |es|
  {
    if es == [] then [] else TakenBy(s, es[0], t) + Delivered(Step(s, es[0]), es[1..], t)
  }

  /** A switch leaves all mailboxes as they are. */
  lemma SwitchMail(s: State, x: Tcb, t: nat)
    requires HasCurrent(s) && s.ready != [] && s.current.value != s.ready[0] && Lives(s, s.ready[0])
    requires x.mailbox == Current(s).mailbox && Lives(s, t)
    ensures Leave(s, x).ready[0] == s.ready[0] && Lives(Leave(s, x), s.ready[0])
    ensures var s' := Dispatch(Leave(s, x)); Lives(s', t) && MailboxOf(s', t) == MailboxOf(s, t)
  {
  }

  lemma MailStep(s: State, e: Event, t: nat)
    requires SchedOk(s) && Enabled(s, e) && Lives(s, t) && e != Discard(t)
    ensures Lives(Step(s, e), t)
    ensures MailboxOf(s, t) + SentBy(e, t) == TakenBy(s, e, t) + MailboxOf(Step(s, e), t)
  {
    if s.ready != [] {
      FrontIsReady(s);
    }
    match e
    case Yield => SwitchMail(s, Current(s).(state := Ready), t);
    case Exit => SwitchMail(s, Current(s).(state := Dead), t);
    case Wait(args) => SwitchMail(s, Current(s).(state := Blocked, receiving := Some(args)), t);
    case Take => assert s.current == Some(t) ==> MailboxOf(s, t) == [MailboxOf(s, t)[0]] + MailboxOf(s, t)[1..];
    case _ => assert TakenBy(s, e, t) == [];
  }

  lemma Regroup(a: seq<Message>, sent: seq<Message>, later: seq<Message>, took: seq<Message>, b: seq<Message>,
                rest: seq<Message>, end: seq<Message>)
    requires a + sent == took + b && b + later == rest + end
    ensures a + (sent + later) == (took + rest) + end
  {
    assert a + (sent + later) == (a + sent) + later;
    assert (took + b) + later == took + (b + later);
    assert took + (rest + end) == (took + rest) + end;
  }

  /** First in, first out, nothing lost and nothing twice: what a task had waiting and what was
      sent to it is what it took and what it still has waiting. */
  lemma {:induction false} MessagesInOrder(s: State, es: seq<Event>, t: nat)
    requires SchedOk(s) && Legal(s, es) && Lives(s, t) && Discard(t) !in es
    ensures MailboxOf(s, t) + Accepted(es, t) == Delivered(s, es, t) + MailboxOf(Run(s, es), t)
    decreases |es|
  {
    if es == [] {
      assert MailboxOf(s, t) + [] == [] + MailboxOf(s, t);
    } else {
      var s' := Step(s, es[0]);
      StepKeeps(s, es[0]);
      MailStep(s, es[0], t);
      MessagesInOrder(s', es[1..], t);
      Regroup(MailboxOf(s, t), SentBy(es[0], t), Accepted(es[1..], t),
              TakenBy(s, es[0], t), MailboxOf(s', t), Delivered(s', es[1..], t), MailboxOf(Run(s', es[1..]), t));
    }
  }

  /** From a task's creation on, the messages it receives are a prefix of those sent to it. */
  lemma ReceivedIsPrefix(s: State, x: Tcb, es: seq<Event>, t: nat)
    requires SchedOk(s) && Enabled(s, Create(x)) && Legal(Step(s, Create(x)), es)
    requires FirstNone(s.tasks) == Some(t) && Discard(t) !in es
    ensures Delivered(Step(s, Create(x)), es, t) <= Accepted(es, t)
  {
    var s' := Step(s, Create(x));
    StepKeeps(s, Create(x));
    MessagesInOrder(s', es, t);
    assert MailboxOf(s', t) + Accepted(es, t) == Accepted(es, t);
  }

  // ---- Runs in which no task is discarded ----

  ghost predicate KeepsTasks(es: seq<Event>) {
    forall e <- es :: !e.Discard?
  }

  lemma {:induction false} NoneSkipped(s: State, es: seq<Event>, t: nat)
    requires Legal(s, es) && KeepsTasks(es)
    ensures Skipped(s, es, t) == 0
    decreases |es|
  {
    if es != [] {
      assert es[0] in es;
      NoneSkipped(Step(s, es[0]), es[1..], t);
    }
  }

  /** After n events of the run, and one switch more than tasks were ahead of it, task t runs. */
  ghost predicate RunsAfter(s: State, es: seq<Event>, t: nat, n: nat) {
    && n <= |es| && Legal(s, es[..n]) && Run(s, es[..n]).current == Some(t)
    && Switches(es[..n]) == Position(s.ready, t) + 1
  }

  /** Dead tasks stay dead, messages arrive in order, and ready tasks run in their turn. */
  ghost predicate RunHolds(s: State, es: seq<Event>, s': State) {
    && Legal(s, es)
    && (forall t: nat {:trigger Is(s', t, Dead)} :: Is(s, t, Dead) ==> Is(s', t, Dead) && s'.current != Some(t))
    && (forall t: nat {:trigger MailboxOf(s', t)} :: Lives(s, t) ==>
          MailboxOf(s, t) + Accepted(es, t) == Delivered(s, es, t) + MailboxOf(s', t))
    && (forall t: nat {:trigger Position(s.ready, t)} :: t in s.ready && Switches(es) > Position(s.ready, t) ==>
          exists n: nat :: RunsAfter(s, es, t, n))
  }

  lemma RunFacts(s: State, es: seq<Event>)
    requires SchedOk(s) && Legal(s, es) && KeepsTasks(es)
    ensures RunHolds(s, es, Run(s, es))
  {
    forall t: nat | Is(s, t, Dead)
      ensures Is(Run(s, es), t, Dead) && Run(s, es).current != Some(t)
    {
      DeadStaysDead(s, es, t);
    }
    forall t: nat | Lives(s, t)
      ensures MailboxOf(s, t) + Accepted(es, t) == Delivered(s, es, t) + MailboxOf(Run(s, es), t)
    {
      MessagesInOrder(s, es, t);
    }
    forall t: nat | t in s.ready && Switches(es) > Position(s.ready, t)
      ensures exists n: nat :: RunsAfter(s, es, t, n)
    {
      RunsInTurn(s, es, t);
    }
  }

  lemma RunsInTurn(s: State, es: seq<Event>, t: nat)
    requires SchedOk(s) && Legal(s, es) && KeepsTasks(es) && t in s.ready && Switches(es) > Position(s.ready, t)
    ensures exists n: nat :: RunsAfter(s, es, t, n)
  {
    var n := BoundedWaiting(s, es, t);
    NoneSkipped(s, es[..n], t);
    assert RunsAfter(s, es, t, n);
  }
}
