/** The mailbox and event protocol between any number of senders and one receiving task
    (src/gki/common/gki_buffer.cc, src/gki/ulinux/gki_ulinux.cc), as interleaved atomic steps.  A
    critical section under one lock is one step, except that `GKI_wait` is split where it gives up
    the event lock or looks at a mailbox, whose lock is a different one. */
module Mailbox {
  const NUM_TASK_MBOX := 4

  type Message = nat

  /** Between appending a message and sending the event for it. */
  datatype Sender = Idle | MustSignal(mbox: nat)

  datatype Receiver =
    | Running(todo: set<nat>)   // working on the mailboxes whose event bits the last wait returned
    | Entering                  // in GKI_wait, before it takes the event lock
    | Checking                  // holds the lock, has not looked at the events yet
    | Blocked                   // on the condition variable
    | Woken                     // signalled, or spuriously, or timed out; must take the lock again
    | Refreshing(next: nat)     // holds the lock, re-reads mailbox after mailbox
    | Leaving                   // holds the lock, about to take its bits and return

  datatype State = State(
    mbox: seq<seq<Message>>,
    sent: seq<seq<Message>>,
    got: seq<seq<Message>>,
    evt: set<nat>,
    flag: set<nat>,
    senders: seq<Sender>,
    rx: Receiver,
    returned: set<nat>)

  datatype Step =
    | Append(sender: nat, m: nat, message: Message)
    | Signal(sender: nat)
    | SendEvent(events: set<nat>)
    | Read(m: nat)
    | CallWait(flag: set<nat>)
    | Lock
    | Check
    | Spurious
    | Relock
    | Refresh
    | Leave

  predicate HoldsLock(rx: Receiver) {
    rx.Checking? || rx.Refreshing? || rx.Leaving?
  }

  predicate Shape(s: State) {
    && |s.mbox| == |s.sent| == |s.got| == NUM_TASK_MBOX
    && (forall i :: 0 <= i < |s.senders| && s.senders[i].MustSignal? ==> s.senders[i].mbox < NUM_TASK_MBOX)
    && (s.rx.Running? ==> forall m :: m in s.rx.todo ==> m < NUM_TASK_MBOX)
    && (s.rx.Refreshing? ==> s.rx.next <= NUM_TASK_MBOX)
  }

  predicate Enabled(s: State, step: Step)
    requires Shape(s)
  {
    match step
    case Append(i, m, _) => i < |s.senders| && s.senders[i].Idle? && m < NUM_TASK_MBOX
    case Signal(i) => i < |s.senders| && s.senders[i].MustSignal? && !HoldsLock(s.rx)
    case SendEvent(_) => !HoldsLock(s.rx)
    case Read(m) => s.rx.Running? && m < NUM_TASK_MBOX
    case CallWait(_) => s.rx.Running? && s.rx.todo == {}
    case Lock => s.rx.Entering?
    case Check => s.rx.Checking?
    case Spurious => s.rx.Blocked?
    case Relock => s.rx.Woken?
    case Refresh => s.rx.Refreshing?
    case Leave => s.rx.Leaving?
  }

  /** Setting event bits wakes a blocked receiver, whatever the bits are. */
  function Raise(s: State, events: set<nat>): State {
    s.(evt := s.evt + events, rx := if s.rx.Blocked? then Woken else s.rx)
  }

  function Do(s: State, step: Step): State
    requires Shape(s) && Enabled(s, step)
  {
    match step
    case Append(i, m, message) =>
      s.(mbox := s.mbox[m := s.mbox[m] + [message]], sent := s.sent[m := s.sent[m] + [message]],
         senders := s.senders[i := MustSignal(m)])
    case Signal(i) => Raise(s.(senders := s.senders[i := Idle]), {s.senders[i].mbox})
    case SendEvent(events) => Raise(s, events)
    case Read(m) =>
      if s.mbox[m] == [] then s.(rx := Running(s.rx.todo - {m}))
      else s.(mbox := s.mbox[m := s.mbox[m][1..]], got := s.got[m := s.got[m] + [s.mbox[m][0]]])
    case CallWait(flag) => s.(flag := flag, rx := Entering)
    case Lock => s.(rx := Checking)
    case Check => s.(rx := if s.evt * s.flag == {} then Blocked else Leaving)
    case Spurious => s.(rx := Woken)
    case Relock => s.(rx := Refreshing(0))
    case Refresh =>
      if s.rx.next == NUM_TASK_MBOX then s.(rx := Leaving)
      else if s.mbox[s.rx.next] == [] then s.(rx := Refreshing(s.rx.next + 1))
      else s.(evt := s.evt + {s.rx.next}, rx := Refreshing(s.rx.next + 1))
    case Leave =>
      s.(evt := s.evt - s.flag, returned := s.evt * s.flag,
         rx := Running(set m: nat | m in s.evt * s.flag && m < NUM_TASK_MBOX))
  }

  predicate Init(s: State) {
    && |s.mbox| == |s.sent| == |s.got| == NUM_TASK_MBOX
    && (forall m :: 0 <= m < NUM_TASK_MBOX ==> s.mbox[m] == s.sent[m] == s.got[m] == [])
    && s.evt == {} && s.rx == Running({})
    && (forall i :: 0 <= i < |s.senders| ==> s.senders[i].Idle?)
  }

  /** Someone is between its append to mailbox `m` and its event. */
  predicate Announced(s: State, m: nat) {
    exists i :: 0 <= i < |s.senders| && s.senders[i] == MustSignal(m)
  }

  /** A filled mailbox has its bit set, or its event is still owed, or the receiver is emptying it. */
  predicate Noticed(s: State, m: nat)
    requires m < |s.mbox|
  {
    s.mbox[m] != [] ==> m in s.evt || Announced(s, m) || (s.rx.Running? && m in s.rx.todo)
  }

  /** No mailbox fills up unnoticed, and the receiver only sleeps while nothing it waits for is set. */
  predicate Inv(s: State) {
    && Shape(s)
    && (forall m: nat :: m < NUM_TASK_MBOX ==> Noticed(s, m))
    && (s.rx.Blocked? ==> s.evt * s.flag == {})
    && (forall m: nat :: m < NUM_TASK_MBOX ==> s.sent[m] == s.got[m] + s.mbox[m])
  }

  lemma StepShape(s: State, step: Step)
    requires Shape(s) && Enabled(s, step)
    ensures Shape(Do(s, step))
  {
  }

  lemma StepFifo(s: State, step: Step, m: nat)
    requires Shape(s) && Enabled(s, step) && m < NUM_TASK_MBOX && s.sent[m] == s.got[m] + s.mbox[m]
    ensures Do(s, step).sent[m] == Do(s, step).got[m] + Do(s, step).mbox[m]
  {
  }

  lemma StepNotice(s: State, step: Step, m: nat)
    requires Inv(s) && Enabled(s, step) && m < NUM_TASK_MBOX
    ensures m < |Do(s, step).mbox| && Noticed(Do(s, step), m)
  {
    var t := Do(s, step);
    assert Noticed(s, m);
    if step.Append? {
      if m == step.m {
        assert t.senders[step.sender] == MustSignal(m);
      } else if Announced(s, m) {
        var i :| 0 <= i < |s.senders| && s.senders[i] == MustSignal(m);
        assert t.senders[i] == MustSignal(m);
      }
    } else if step.Signal? {
      if Announced(s, m) && s.senders[step.sender].mbox != m {
        var i :| 0 <= i < |s.senders| && s.senders[i] == MustSignal(m);
        assert t.senders[i] == MustSignal(m);
      }
    }
  }

  lemma StepInv(s: State, step: Step)
    requires Inv(s) && Enabled(s, step)
    ensures Inv(Do(s, step))
  {
    StepShape(s, step);
    var t := Do(s, step);
    forall m: nat | m < NUM_TASK_MBOX
      ensures Noticed(t, m) && t.sent[m] == t.got[m] + t.mbox[m]
    {
      StepFifo(s, step, m);
      StepNotice(s, step, m);
    }
  }

  /** `run` is an interleaving, in which `steps[i]` leads from state `i` to state `i + 1`. */
  predicate IsRun(run: seq<State>, steps: seq<Step>) {
    && |run| == |steps| + 1
    && forall i :: 0 <= i < |steps| ==> Shape(run[i]) && Enabled(run[i], steps[i]) && run[i + 1] == Do(run[i], steps[i])
  }

  /** Every state of every interleaving satisfies the invariant. */
  lemma {:induction false} RunInv(run: seq<State>, steps: seq<Step>, n: nat)
    requires IsRun(run, steps) && Inv(run[0]) && n < |run|
    ensures Inv(run[n])
  {
    if n > 0 {
      RunInv(run, steps, n - 1);
      StepInv(run[n - 1], steps[n - 1]);
    }
  }

  lemma InitInv(s: State)
    requires Init(s)
    ensures Inv(s)
  {
  }

  /** No lost wake-up: while the receiver sleeps on a filled mailbox it waits for, some sender still
      owes it an event, may send it now, and wakes it with that. */
  lemma NoLostWakeup(run: seq<State>, steps: seq<Step>, n: nat, m: nat) returns (i: nat)
    requires IsRun(run, steps) && Init(run[0]) && n < |run|
    requires run[n].rx.Blocked? && m < NUM_TASK_MBOX && m in run[n].flag
    requires |run[n].mbox| == NUM_TASK_MBOX && run[n].mbox[m] != []
    ensures
      var s := run[n];
      && Inv(s) && i < |s.senders| && s.senders[i] == MustSignal(m) && Enabled(s, Signal(i))
      && Do(s, Signal(i)).rx.Woken? && m in Do(s, Signal(i)).evt * s.flag
  {
    InitInv(run[0]);
    RunInv(run, steps, n);
    var s := run[n];
    assert m in s.flag && m !in s.evt * s.flag;
    assert Noticed(s, m);
    i :| 0 <= i < |s.senders| && s.senders[i] == MustSignal(m);
  }

  /** Once every sender is idle, a sleeping receiver has received, in order, everything that was
      sent to the mailboxes it waits for. */
  lemma SleepsOnlyWhenDone(s: State, m: nat)
    requires Inv(s) && s.rx.Blocked? && m < NUM_TASK_MBOX && m in s.flag
    requires forall i :: 0 <= i < |s.senders| ==> s.senders[i].Idle?
    ensures s.mbox[m] == [] && s.got[m] == s.sent[m]
  {
    assert m !in s.evt * s.flag && Noticed(s, m);
  }

  // ---- the receiver on its own ----------------------------------------------------------------

  /** How far the receiver is from sleep: rounds, stage within the round, work within the stage. */
  function Rounds(s: State): nat {
    if s.rx.Woken? || s.rx.Refreshing? || s.rx.Leaving? then 1
    else if s.evt * s.flag != {} then 1 else 0
  }

  function Stage(s: State): nat
    requires Shape(s)
  {
    match s.rx
    case Running(_) => 10
    case Entering => 9
    case Checking => 8
    case Woken => 7
    case Refreshing(k) => 6 - k
    case Leaving => 1
    case Blocked => 0
  }

  function Work(s: State): nat
    requires Shape(s)
  {
    |s.mbox[0]| + |s.mbox[1]| + |s.mbox[2]| + |s.mbox[3]| + (if s.rx.Running? then |s.rx.todo| else 0)
  }

  predicate RxStep(step: Step) {
    step.Read? || step.CallWait? || step.Lock? || step.Check? || step.Relock? || step.Refresh? || step.Leave?
  }

  /** From any reachable state, however many messages are queued, a receiver that always waits for
      the same events reaches sleep in finitely many steps of its own. */
  lemma ReceiverComesToRest(s: State) returns (run: seq<State>, steps: seq<Step>)
    requires Inv(s)
    ensures IsRun(run, steps) && run[0] == s
    ensures forall i :: 0 <= i < |steps| ==> RxStep(steps[i]) && (steps[i].CallWait? ==> steps[i].flag == s.flag)
    ensures
      var t := run[|steps|];
      Inv(t) && t.rx.Blocked? && t.senders == s.senders && t.flag == s.flag && t.sent == s.sent
    decreases Rounds(s), Stage(s), Work(s)
  {
    if s.rx.Blocked? {
      return [s], [];
    }
    var step := NextOwnStep(s);
    var t := Do(s, step);
    StepInv(s, step);
    OwnStepDecreases(s, step);
    var rest, more := ReceiverComesToRest(t);
    run, steps := [s] + rest, [step] + more;
    forall i | 0 <= i < |steps|
      ensures Shape(run[i]) && Enabled(run[i], steps[i]) && run[i + 1] == Do(run[i], steps[i])
      ensures RxStep(steps[i]) && (steps[i].CallWait? ==> steps[i].flag == s.flag)
    {
      if i > 0 {
        assert run[i] == rest[i - 1] && steps[i] == more[i - 1];
      }
    }
  }

  ghost function NextOwnStep(s: State): (step: Step)
    requires Shape(s) && !s.rx.Blocked?
    ensures Enabled(s, step) && RxStep(step) && (step.CallWait? ==> step.flag == s.flag)
    ensures step.Read? ==> step.m in s.rx.todo
  {
    match s.rx
    case Running(todo) => if todo == {} then CallWait(s.flag) else var m :| m in todo; Read(m)
    case Entering => Lock
    case Checking => Check
    case Woken => Relock
    case Refreshing(_) => Refresh
    case Leaving => Leave
  }

  lemma OwnStepDecreases(s: State, step: Step)
    requires Inv(s) && !s.rx.Blocked? && step == NextOwnStep(s)
    ensures
      var t := Do(s, step);
      && Shape(t) && t.flag == s.flag && t.senders == s.senders && t.sent == s.sent
      && (Rounds(t) < Rounds(s)
          || (Rounds(t) == Rounds(s) && Stage(t) < Stage(s))
          || (Rounds(t) == Rounds(s) && Stage(t) == Stage(s) && Work(t) < Work(s)))
  {
    StepShape(s, step);
    match s.rx
    case Running(todo) =>
      if todo != {} {
        ReadDecreases(s, step.m);
      }
    case Leaving => assert Do(s, step).evt * s.flag == {};
    case _ =>
  }

  lemma ReadDecreases(s: State, m: nat)
    requires Shape(s) && s.rx.Running? && m in s.rx.todo
    ensures Shape(Do(s, Read(m))) && Work(Do(s, Read(m))) < Work(s)
  {
    var t := Do(s, Read(m));
    if s.mbox[m] == [] {
      assert |s.rx.todo - {m}| < |s.rx.todo|;
    } else {
      assert m == 0 || m == 1 || m == 2 || m == 3;
    }
  }

  /** With every sender idle, running the receiver alone delivers every message it waits for. */
  lemma EverythingIsDelivered(s: State, m: nat) returns (run: seq<State>, steps: seq<Step>)
    requires Inv(s) && m < NUM_TASK_MBOX && m in s.flag
    requires forall i :: 0 <= i < |s.senders| ==> s.senders[i].Idle?
    ensures IsRun(run, steps) && run[0] == s && forall i :: 0 <= i < |steps| ==> RxStep(steps[i])
    ensures |run[|steps|].got| == NUM_TASK_MBOX && run[|steps|].got[m] == s.sent[m]
  {
    run, steps := ReceiverComesToRest(s);
    SleepsOnlyWhenDone(run[|steps|], m);
  }

  // ---- events ----------------------------------------------------------------------------------

  /** What sets bit `e`: an event that is sent, with or without a message, or a filled mailbox that a wait
      finds after it has slept. */
  predicate Puts(s: State, step: Step, e: nat)
    requires Shape(s)
  {
    || (step.SendEvent? && e in step.events)
    || (step.Signal? && step.sender < |s.senders| && s.senders[step.sender] == MustSignal(e))
    || (step.Refresh? && s.rx == Refreshing(e) && e < NUM_TASK_MBOX && s.mbox[e] != [])
  }

  /** The return of a wait that asked for `e`. */
  predicate Takes(s: State, step: Step, e: nat) {
    step.Leave? && e in s.flag
  }

  lemma StepSetsExactly(s: State, step: Step, e: nat)
    requires Shape(s) && Enabled(s, step)
    ensures e in Do(s, step).evt <==> Puts(s, step, e) || (e in s.evt && !Takes(s, step, e))
  {
  }

  /** No wait that asked for `e` has returned from state `i` to state `n`. */
  predicate Untaken(run: seq<State>, steps: seq<Step>, i: nat, n: nat, e: nat)
    requires n <= |run| && n <= |steps|
  {
    forall j :: i <= j < n ==> !Takes(run[j], steps[j], e)
  }

  /** In every interleaving a bit is set exactly if something has set it and no wait that asked for it has
      returned since. */
  lemma {:induction false} SetExactly(run: seq<State>, steps: seq<Step>, n: nat, e: nat)
    requires IsRun(run, steps) && n <= |steps|
    ensures e in run[n].evt <==>
            || (e in run[0].evt && Untaken(run, steps, 0, n, e))
            || exists i :: 0 <= i < n && Puts(run[i], steps[i], e) && Untaken(run, steps, i + 1, n, e)
  {
    if n > 0 {
      SetExactly(run, steps, n - 1, e);
      StepSetsExactly(run[n - 1], steps[n - 1], e);
      hide Puts, Takes, Do, Shape, Enabled;
      assert Untaken(run, steps, n, n, e);
      forall i | 0 <= i < n
        ensures Untaken(run, steps, i, n, e) <==>
                Untaken(run, steps, i, n - 1, e) && !Takes(run[n - 1], steps[n - 1], e)
      {
      }
    }
  }

  /** A bit that is no longer set has been returned by a wait that asked for it. */
  lemma {:induction false} ClearedIsReturned(run: seq<State>, steps: seq<Step>, i: nat, n: nat, e: nat)
    returns (j: nat)
    requires IsRun(run, steps) && i <= n <= |steps| && e in run[i].evt && e !in run[n].evt
    ensures i <= j < n && steps[j].Leave? && e in run[j].flag && e in run[j + 1].returned
    decreases n - i
  {
    j := i;
    StepSetsExactly(run[i], steps[i], e);
    if e in run[i + 1].evt {
      j := ClearedIsReturned(run, steps, i + 1, n, e);
    }
  }

  lemma SleepsOnNothing(s: State, e: nat)
    requires Inv(s)
    ensures e in s.evt && e in s.flag ==> !s.rx.Blocked?
  {
    assert e in s.evt && e in s.flag ==> e in s.evt * s.flag;
  }

  /** An event that is sent sets all its bits and wakes the receiver; from then on each is set, or has been
      returned by a wait that asked for it.  So nobody sleeps on an event that was sent to him. */
  lemma SentEventIsKept(run: seq<State>, steps: seq<Step>, i: nat, n: nat, e: nat)
    requires IsRun(run, steps) && i < n <= |steps| && steps[i].SendEvent? && e in steps[i].events
    ensures e in run[i + 1].evt && !run[i + 1].rx.Blocked?
    ensures e in run[n].evt
            || exists j :: i < j < n && steps[j].Leave? && e in run[j].flag && e in run[j + 1].returned
    ensures Inv(run[0]) && run[n].rx.Blocked? && e in run[n].flag ==>
              exists j :: i < j < n && steps[j].Leave? && e in run[j].flag && e in run[j + 1].returned
  {
    StepSetsExactly(run[i], steps[i], e);
    if e !in run[n].evt {
      var j := ClearedIsReturned(run, steps, i + 1, n, e);
    } else if Inv(run[0]) {
      RunInv(run, steps, n);
      SleepsOnNothing(run[n], e);
    }
    hide Inv, Do, Shape, Enabled;
  }

  /** The messages that are appended to mailbox `m` in the first `n` steps. */
  function Appended(steps: seq<Step>, n: nat, m: nat): seq<Message>
    requires n <= |steps|
  {
    if n == 0 then []
    else Appended(steps, n - 1, m) + if steps[n - 1].Append? && steps[n - 1].m == m then [steps[n - 1].message] else []
  }

  /** In every interleaving what has been sent to a mailbox is what senders have appended to it, in order, and of that
      the task has received the first part and finds the rest in the mailbox. */
  lemma {:induction false} SentIsAppended(run: seq<State>, steps: seq<Step>, n: nat, m: nat)
    requires IsRun(run, steps) && Init(run[0]) && n <= |steps| && m < NUM_TASK_MBOX
    ensures Shape(run[n]) && Appended(steps, n, m) == run[n].sent[m] == run[n].got[m] + run[n].mbox[m]
  {
    if n > 0 {
      SentIsAppended(run, steps, n - 1, m);
      StepShape(run[n - 1], steps[n - 1]);
      StepFifo(run[n - 1], steps[n - 1], m);
    } else {
    }
  }

  /** A wait that times out is woken like one that is signalled. */
  lemma TimeoutWakes(s: State)
    requires Shape(s) && s.rx.Blocked?
    ensures Enabled(s, Spurious) && Do(s, Spurious) == s.(rx := Woken)
  {
  }

  /** What a wait asked for stays in force until the next. */
  lemma {:induction false} FlagStays(run: seq<State>, steps: seq<Step>, i: nat, n: nat)
    requires IsRun(run, steps) && i < n <= |steps| && steps[i].CallWait?
    requires forall k :: i < k < n ==> !steps[k].CallWait?
    ensures run[n].flag == steps[i].flag
    decreases n
  {
    if i + 1 < n {
      FlagStays(run, steps, i, n - 1);
    }
  }

  /** A wait returns those bits that it asked for, clears them, and leaves all others as they are. */
  lemma WaitReturns(run: seq<State>, steps: seq<Step>, i: nat, n: nat)
    requires IsRun(run, steps) && i < n < |steps| && steps[i].CallWait? && steps[n].Leave?
    requires forall k :: i < k < n ==> !steps[k].CallWait?
    ensures run[n + 1].returned == run[n].evt * steps[i].flag
    ensures run[n + 1].evt == run[n].evt - steps[i].flag
    ensures run[n + 1].rx == Running(set m: nat | m in run[n].evt * steps[i].flag && m < NUM_TASK_MBOX)
  {
    FlagStays(run, steps, i, n);
  }

  /** What has slept is on its way out. */
  predicate Awake(rx: Receiver) {
    rx.Woken? || rx.Refreshing? || rx.Leaving?
  }

  /** A wait sleeps at most once: whatever woke it, it returns next, with nothing if it was for nothing. */
  lemma {:induction false} SleepsOnce(run: seq<State>, steps: seq<Step>, i: nat, n: nat)
    requires IsRun(run, steps) && i <= n <= |steps| && run[i].rx.Blocked?
    requires forall k :: i <= k < n ==> !steps[k].Leave?
    ensures run[n].rx.Blocked? || Awake(run[n].rx)
    ensures run[n].rx.Blocked? ==> forall k :: i <= k <= n ==> run[k].rx.Blocked?
    decreases n
  {
    if i < n {
      SleepsOnce(run, steps, i, n - 1);
    }
  }

  /** The wait has yet to look at mailbox `m`, or has set its bit. */
  predicate WillNotice(s: State, m: nat) {
    && m < |s.mbox| && s.mbox[m] != []
    && (s.rx.Woken? || (s.rx.Refreshing? && (s.rx.next <= m || m in s.evt)) || (s.rx.Leaving? && m in s.evt))
  }

  lemma {:induction false} KeepsNoticing(run: seq<State>, steps: seq<Step>, i: nat, n: nat, m: nat)
    requires IsRun(run, steps) && i <= n <= |steps| && run[i].rx.Woken? && m < NUM_TASK_MBOX
    requires |run[i].mbox| == NUM_TASK_MBOX && run[i].mbox[m] != []
    requires forall k :: i <= k < n ==> !steps[k].Leave?
    ensures WillNotice(run[n], m)
    decreases n
  {
    if i < n {
      KeepsNoticing(run, steps, i, n - 1, m);
    }
  }

  /** A wait that has slept returns the bit of every mailbox it asked for that was filled when it woke, whether
      or not the event for it has been sent by then. */
  lemma FilledIsReturned(run: seq<State>, steps: seq<Step>, i: nat, n: nat, m: nat)
    requires IsRun(run, steps) && i <= n < |steps| && run[i].rx.Woken? && m < NUM_TASK_MBOX
    requires |run[i].mbox| == NUM_TASK_MBOX && run[i].mbox[m] != []
    requires steps[n].Leave? && forall k :: i <= k < n ==> !steps[k].Leave?
    ensures m in run[n].flag ==> m in run[n + 1].returned && m in run[n + 1].rx.todo
  {
    KeepsNoticing(run, steps, i, n, m);
  }

  /** A bit that is set and waited for is returned, if only the receiver goes on. */
  lemma EventIsReturned(s: State, e: nat) returns (run: seq<State>, steps: seq<Step>, j: nat)
    requires Inv(s) && e in s.evt * s.flag
    ensures IsRun(run, steps) && run[0] == s && forall i :: 0 <= i < |steps| ==> RxStep(steps[i])
    ensures j < |steps| && steps[j].Leave? && e in run[j + 1].returned
  {
    run, steps := ReceiverComesToRest(s);
    var t := run[|steps|];
    assert e in t.evt ==> e in t.evt * t.flag;
    j := ClearedIsReturned(run, steps, 0, |steps|, e);
  }

  /** A sender finds the lock free, or does so after a few steps of the receiver alone. */
  lemma SenderGetsThrough(s: State, events: set<nat>) returns (run: seq<State>, steps: seq<Step>)
    requires Shape(s)
    ensures IsRun(run, steps) && run[0] == s && forall i :: 0 <= i < |steps| ==> RxStep(steps[i])
    ensures Shape(run[|steps|]) && Enabled(run[|steps|], SendEvent(events))
    ensures forall i :: 0 <= i < |s.senders| && s.senders[i].MustSignal? ==> Enabled(run[|steps|], Signal(i))
    ensures Enabled(s, SendEvent(events)) <==> steps == []
    decreases if HoldsLock(s.rx) then Stage(s) else 0
  {
    if !HoldsLock(s.rx) {
      return [s], [];
    }
    var step := NextOwnStep(s);
    StepShape(s, step);
    var rest, more := SenderGetsThrough(Do(s, step), events);
    run, steps := [s] + rest, [step] + more;
    forall i | 0 <= i < |steps|
      ensures Shape(run[i]) && Enabled(run[i], steps[i]) && run[i + 1] == Do(run[i], steps[i]) && RxStep(steps[i])
    {
      if i > 0 {
        assert run[i] == rest[i - 1] && steps[i] == more[i - 1];
      }
    }
  }

  /** Draining matters: a receiver that waits again after reading one message of two falls asleep
      on the other, with nobody left to wake it. */
  lemma UndrainedReceiverSleeps()
    ensures
      var s := State([[7, 8], [], [], []], [[7, 8], [], [], []], [[], [], [], []], {}, {0}, [Idle], Running({0}), {0});
      var t := s.(mbox := s.mbox[0 := [8]], got := s.got[0 := [7]]);
      var u := t.(rx := Checking);
      && Inv(s) && Enabled(s, Read(0)) && Do(s, Read(0)) == t
      && Shape(u) && Enabled(u, Check) && Do(u, Check).rx.Blocked?
      && 0 in u.flag && u.mbox[0] == [8] && u.senders == [Idle]
  {
    var s := State([[7, 8], [], [], []], [[7, 8], [], [], []], [[], [], [], []], {}, {0}, [Idle], Running({0}), {0});
    assert forall m: nat :: m < NUM_TASK_MBOX ==> Noticed(s, m);
    assert s.mbox[0][1..] == [8] && s.got[0] + [7] == [7];
    assert forall m: nat :: m < NUM_TASK_MBOX ==> s.sent[m] == s.got[m] + s.mbox[m];
  }
}
