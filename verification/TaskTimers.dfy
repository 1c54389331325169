/** The reference model for task timers: every running timer counts down on every tick. */
module Countdown {

  /** A running timer: ticks left, and the reload value (0 for a one-shot timer). */
  datatype Timer = Timer(left: int, period: nat)

  /** The running timers, by slot. */
  type Timers = map<nat, Timer>

  predicate Positive(t: Timers) {
    forall i :: i in t ==> 0 < t[i].left
  }

  /** The timers that fire when `n` ticks are charged in one update. */
  function Fired(t: Timers, n: nat): set<nat> {
    set i | i in t && t[i].left <= n
  }

  /** One update of `n` ticks: a timer that fires is reloaded or disappears. */
  function Advance(t: Timers, n: nat): Timers {
    map i | i in t && (n < t[i].left || 0 < t[i].period)
      :: if n < t[i].left then Timer(t[i].left - n, t[i].period) else Timer(t[i].period, t[i].period)
  }

  /** `n` updates of a single tick each. */
  function Ticks(t: Timers, n: nat): Timers {
    if n == 0 then t else Advance(Ticks(t, n - 1), 1)
  }

  /** What `n` single ticks leave of one timer, in closed form. */
  function Phase(t: Timer, n: nat): Timer {
    if n < t.left || t.period == 0 then Timer(t.left - n, t.period)
    else Timer(t.period - (n - t.left) % t.period, t.period)
  }

  predicate Survives(t: Timer, n: nat) {
    n < t.left || 0 < t.period
  }

  lemma {:induction false} TicksClosedForm(t: Timers, n: nat)
    requires Positive(t)
    ensures Positive(Ticks(t, n))
    ensures forall i :: i in Ticks(t, n) <==> i in t && Survives(t[i], n)
    ensures forall i :: i in Ticks(t, n) ==> Ticks(t, n)[i] == Phase(t[i], n)
  {
    if n == 0 {
    } else {
      TicksClosedForm(t, n - 1);
      forall i | i in t {
        PhaseStep(t[i], n - 1);
      }
    }
  }

  /** One more tick on a timer that has seen `n`. */
  lemma PhaseStep(t: Timer, n: nat)
    requires 0 < t.left
    ensures Survives(t, n) ==> 0 < Phase(t, n).left && Phase(t, n).period == t.period
    ensures Survives(t, n) ==> (Survives(t, n + 1) <==> Survives(Phase(t, n), 1))
    ensures Survives(t, n + 1) ==>
              && Survives(t, n)
              && Phase(t, n + 1) == if 1 < Phase(t, n).left then Timer(Phase(t, n).left - 1, t.period)
                                    else Timer(t.period, t.period)
  {
    if t.left <= n && 0 < t.period {
      NextRemainder(n - t.left, t.period);
    } else if t.left == n + 1 && 0 < t.period {
      assert 0 % t.period == 0;
    }
  }

  lemma NextRemainder(d: nat, p: nat)
    requires 0 < p
    ensures (d + 1) % p == if d % p == p - 1 then 0 else d % p + 1
  {
    var q, r := d / p, d % p;
    if r + 1 == p {
      assert d + 1 == (q + 1) * p + 0;
      Quotient(q + 1, p, 0);
    } else {
      assert d + 1 == q * p + (r + 1);
      Quotient(q, p, r + 1);
    }
  }

  lemma Quotient(q: int, p: nat, r: nat)
    requires r < p
    ensures (q * p + r) % p == r
  {
    var x := q * p + r;
    var k := x / p - q;
    assert x == (x / p) * p + x % p;
    assert k * p == r - x % p;
    assert k == 0 by {
      MultipleWithin(k, p);
    }
  }

  lemma MultipleWithin(k: int, p: nat)
    requires 0 - p < k * p < p
    ensures k == 0
  {
  }

  /** Charging `n` ticks at once agrees with `n` single ticks exactly when no continuous timer is
      overshot by something other than a whole number of its periods. */
  lemma AdvanceVersusTicks(t: Timers, n: nat)
    requires Positive(t)
    ensures Advance(t, n) == Ticks(t, n)
      <==> forall i :: i in t && 0 < t[i].period && t[i].left <= n ==> (n - t[i].left) % t[i].period == 0
  {
    TicksClosedForm(t, n);
    assert Advance(t, n).Keys == Ticks(t, n).Keys;
    forall i | i in Ticks(t, n)
      ensures Advance(t, n)[i] == Ticks(t, n)[i] <==>
        (0 < t[i].period && t[i].left <= n ==> (n - t[i].left) % t[i].period == 0)
    {
      assert Ticks(t, n)[i] == Phase(t[i], n);
    }
    if Advance(t, n) == Ticks(t, n) {
      forall i | i in t && 0 < t[i].period && t[i].left <= n
        ensures (n - t[i].left) % t[i].period == 0
      {
        assert i in Ticks(t, n);
      }
    }
  }

  /** The slots that fire at least once during `n` single ticks. */
  function TicksFired(t: Timers, n: nat): set<nat> {
    if n == 0 then {} else TicksFired(t, n - 1) + Fired(Ticks(t, n - 1), 1)
  }

  /** However late an update comes, the timers it fires are those the single ticks would have fired. */
  lemma {:induction false} FiredVersusTicks(t: Timers, n: nat)
    requires Positive(t)
    ensures TicksFired(t, n) == Fired(t, n)
  {
    if n == 0 {
      assert Fired(t, n) == {};
    } else {
      FiredVersusTicks(t, n - 1);
      TicksClosedForm(t, n - 1);
      forall i
        ensures i in TicksFired(t, n) <==> i in Fired(t, n)
      {
        if i in t {
          if t[i].left == n {
            assert i in Ticks(t, n - 1);
          }
          if i in Fired(Ticks(t, n - 1), 1) {
            assert Ticks(t, n - 1)[i] == Phase(t[i], n - 1);
          }
        }
      }
    }
  }
}

/** The task timers of the kernel (src/gki/common/gki_time.cc): decremented only when the nearest
    expiry is due.  `numOrigTicks - ticksTilExp` is the time that passed since the last such
    service and has not been charged to the timers yet. */
module TaskTimers {
  import opened Countdown

  const MAX_TASKS := 15
  const NUM_TIMERS := 3
  const SLOTS := 45
  const MAX_INT32 := 0x7fff_ffff
  const DELAY_STOP_SYS_TICK := 10
  const DEFAULT_TASK := 14
  const NO_TASK := 255

  /** The calls a task or the operating system can make. */
  datatype Op =
    | StartOp(caller: nat, tnum: nat, ticks: int, continuous: bool)
    | StopOp(caller: nat, tnum: nat)
    | UpdateOp(n: nat)
    | CreateOp(task: nat)
    | ExitOp(task: nat)

  /** A thread that is no task is served as task 14. */
  function Owner(caller: nat): nat {
    if caller == NO_TASK then DEFAULT_TASK else caller
  }

  predicate IsCaller(caller: nat) {
    caller < MAX_TASKS || caller == NO_TASK
  }

  /** The timers of all tasks, three each, in the order in which service visits them. */
  function Slot(task: nat, tnum: nat): nat {
    3 * task + tnum
  }

  function TaskOf(slot: nat): nat {
    slot / 3
  }

  function Max(a: int, b: int): int {
    if a < b then b else a
  }

  function Min(a: int, b: int): int {
    if a < b then a else b
  }

  predicate WellFormed(op: Op) {
    match op
    case StartOp(c, _, ticks, _) => IsCaller(c) && ticks <= MAX_INT32
    case StopOp(c, _) => IsCaller(c)
    case UpdateOp(_) => true
    case CreateOp(task) => task < MAX_TASKS
    case ExitOp(task) => task < MAX_TASKS
  }

  /** The reference state: the running timers of live tasks, and which tasks are live. */
  datatype Reference = Reference(timers: Timers, live: set<nat>) {
    function Start(task: nat, k: nat, t: nat, continuous: bool, room: nat): Reference {
      if k < NUM_TIMERS && task in live
      then this.(timers := timers[Slot(task, k) := Timer(Min(t, room), if continuous then t else 0)])
      else this
    }

    function Stop(task: nat, k: nat): Reference {
      if k < NUM_TIMERS then this.(timers := timers - {Slot(task, k)}) else this
    }

    function Update(n: nat): Reference {
      this.(timers := Advance(timers, n))
    }

    function Create(task: nat): Reference {
      Reference(timers, live + {task})
    }

    function Exit(task: nat): Reference {
      Reference(timers - {Slot(task, 0), Slot(task, 1), Slot(task, 2)}, live - {task})
    }
  }

  /** One call on the reference, when no counter saturates. */
  function Apply(r: Reference, op: Op): Reference {
    match op
    case StartOp(c, k, ticks, continuous) => r.Start(Owner(c), k, Max(ticks, 1), continuous, MAX_INT32)
    case StopOp(c, k) => r.Stop(Owner(c), k)
    case UpdateOp(n) => r.Update(n)
    case CreateOp(task) => r.Create(task)
    case ExitOp(task) => r.Exit(task)
  }

  function Fires(r: Reference, op: Op): set<nat> {
    if op.UpdateOp? then Fired(r.timers, op.n) else {}
  }

  /** A whole run of the reference, and what each call of it fires. */
  function Run(r: Reference, ops: seq<Op>): Reference {
    if ops == [] then r else Apply(Run(r, ops[..|ops| - 1]), ops[|ops| - 1])
  }

  function Trace(r: Reference, ops: seq<Op>): seq<set<nat>> {
    if ops == [] then [] else
      Trace(r, ops[..|ops| - 1]) + [Fires(Run(r, ops[..|ops| - 1]), ops[|ops| - 1])]
  }

  // ---- the timers of one task ----------------------------------------------------------------------

  /** Whether the call can matter to task `t`: its own calls, the ticks, its coming and going; and to task 14
      the calls of threads that are no task. */
  predicate Concerns(op: Op, t: nat) {
    match op
    case StartOp(c, _, _, _) => c == t || (c == NO_TASK && t == DEFAULT_TASK)
    case StopOp(c, _) => c == t || (c == NO_TASK && t == DEFAULT_TASK)
    case UpdateOp(_) => true
    case CreateOp(task) => task == t
    case ExitOp(task) => task == t
  }

  function Concerning(ops: seq<Op>, t: nat): seq<Op> {
    if ops == [] then []
    else Concerning(ops[..|ops| - 1], t) + if Concerns(ops[|ops| - 1], t) then [ops[|ops| - 1]] else []
  }

  /** What belongs to task `t` alone. */
  function Share(r: Reference, t: nat): Reference {
    Reference(map i | i in r.timers && 3 * t <= i < 3 * t + 3 :: r.timers[i], r.live * {t})
  }

  lemma StartInShare(r: Reference, u: nat, k: nat, ticks: nat, continuous: bool, t: nat)
    ensures var s := r.Start(u, k, ticks, continuous, MAX_INT32);
            Share(s, t) == if u == t then Share(r, t).Start(u, k, ticks, continuous, MAX_INT32) else Share(r, t)
  {
    var s := r.Start(u, k, ticks, continuous, MAX_INT32);
    assert Share(s, t).live == Share(r, t).live;
    assert Share(s, t).timers
        == if u == t then Share(r, t).Start(u, k, ticks, continuous, MAX_INT32).timers else Share(r, t).timers;
  }

  lemma StopInShare(r: Reference, u: nat, k: nat, t: nat)
    ensures Share(r.Stop(u, k), t) == if u == t then Share(r, t).Stop(u, k) else Share(r, t)
  {
    assert Share(r.Stop(u, k), t).timers == if u == t then Share(r, t).Stop(u, k).timers else Share(r, t).timers;
  }

  lemma UpdateInShare(r: Reference, n: nat, t: nat)
    ensures Share(r.Update(n), t) == Share(r, t).Update(n)
    ensures (set i | i in Fired(r.timers, n) && 3 * t <= i < 3 * t + 3) == Fired(Share(r, t).timers, n)
  {
    assert Share(r.Update(n), t).timers == Share(r, t).Update(n).timers;
  }

  lemma ExitInShare(r: Reference, u: nat, t: nat)
    ensures Share(r.Exit(u), t) == if u == t then Share(r, t).Exit(u) else Share(r, t)
  {
    if u == t {
      assert Share(r.Exit(u), t).timers == Share(r, t).Exit(u).timers == map[];
    } else {
      assert Share(r.Exit(u), t).timers == Share(r, t).timers;
    }
  }

  /** A call for task `t` acts on its three timers as if there were no others, and any other call leaves them
      alone. */
  lemma StepOfOneTask(r: Reference, op: Op, t: nat)
    requires WellFormed(op) && t < MAX_TASKS
    ensures Share(Apply(r, op), t) == if Concerns(op, t) then Apply(Share(r, t), op) else Share(r, t)
    ensures (set i | i in Fires(r, op) && 3 * t <= i < 3 * t + 3) == Fires(Share(r, t), op)
  {
    match op
    case StartOp(c, k, ticks, continuous) =>
      StartInShare(r, Owner(c), k, Max(ticks, 1), continuous, t);
      hide Share;
    case StopOp(c, k) =>
      StopInShare(r, Owner(c), k, t);
      hide Share;
    case UpdateOp(n) =>
      UpdateInShare(r, n, t);
      hide Share;
    case CreateOp(task) => assert Share(Apply(r, op), t).timers == Share(r, t).timers;
    case ExitOp(task) =>
      ExitInShare(r, task, t);
      hide Share;
  }

  /** Over every run the timers of a task are those that its own calls and the ticks make: no other task can
      start, stop or shift them. */
  lemma {:induction false} TasksAreApart(r: Reference, ops: seq<Op>, t: nat)
    requires t < MAX_TASKS && forall i :: 0 <= i < |ops| ==> WellFormed(ops[i])
    ensures Share(Run(r, ops), t) == Run(Share(r, t), Concerning(ops, t))
  {
    if ops != [] {
      var n := |ops| - 1;
      TasksAreApart(r, ops[..n], t);
      StepOfOneTask(Run(r, ops[..n]), ops[n], t);
      var before := Concerning(ops[..n], t);
      if Concerns(ops[n], t) {
        assert (before + [ops[n]])[..|before|] == before;
      } else {
        assert Concerning(ops, t) == before;
      }
    }
  }

  /** What the ticks, the start and the end of a task do: every timer counts down and those exhausted fire; a task
      joins the live ones; it leaves them, and its timers go. */
  lemma OtherCalls(r: Reference, n: nat, t: nat, k: nat)
    requires t < MAX_TASKS && k < NUM_TIMERS
    ensures var s := Apply(r, UpdateOp(n));
            && s.live == r.live && Fires(r, UpdateOp(n)) == Fired(r.timers, n)
            && forall i :: i in r.timers ==>
                 (i in s.timers <==> Survives(r.timers[i], n))
                 && (n < r.timers[i].left ==> s.timers[i].left == r.timers[i].left - n)
    ensures var s := Apply(r, CreateOp(t)); s.timers == r.timers && t in s.live && s.live - {t} == r.live - {t}
    ensures var s := Apply(r, ExitOp(t));
            t !in s.live && s.live + {t} == r.live + {t} && 3 * t + k !in s.timers
  {
  }

  /** What a start of a live task of its own leaves in its slot, and what a stop does. */
  lemma OwnSlot(r: Reference, t: nat, k: nat, ticks: int, continuous: bool)
    requires t < MAX_TASKS && k < NUM_TIMERS && ticks <= MAX_INT32
    ensures 3 * t + k !in Apply(r, StopOp(t, k)).timers
    ensures var s := Apply(r, StartOp(t, k, ticks, continuous));
            var left := if ticks <= 0 then 1 else ticks;
            if t in r.live
            then 3 * t + k in s.timers && s.timers[3 * t + k] == Timer(left, if continuous then left else 0)
            else s == r
  {
  }

  /** A run goes on from where it is, and what each call fires stays as it was. */
  lemma NextCall(r: Reference, ops: seq<Op>, op: Op)
    ensures Run(r, ops + [op]) == Apply(Run(r, ops), op)
    ensures Trace(r, ops + [op]) == Trace(r, ops) + [Fires(Run(r, ops), op)]
    ensures Run(r, []) == r && |Trace(r, ops)| == |ops|
  {
    assert (ops + [op])[..|ops|] == ops;
  }

  /** What the three per-task tables hold. */
  datatype Tables = Tables(tmr: seq<int>, reload: seq<int>, live: seq<bool>) {
    ghost predicate Shape() {
      && |live| == MAX_TASKS && |tmr| == SLOTS && |reload| == SLOTS
      && (forall i :: 0 <= i < SLOTS ==> 0 <= tmr[i] <= MAX_INT32)
      && (forall i :: 0 <= i < SLOTS ==> 0 <= reload[i] <= MAX_INT32)
    }

    /** A timer that service will visit. */
    ghost predicate Runs(i: nat)
      requires Shape()
    {
      i < SLOTS && live[TaskOf(i)] && tmr[i] > 0
    }

    ghost predicate AnyRunning()
      requires Shape()
    {
      exists i :: 0 <= i < SLOTS && tmr[i] != 0
    }

    /** What a naive countdown would hold: the stored value less the time not charged yet. */
    ghost function View(elapsed: int): Reference
      requires Shape()
    {
      Reference(
        map i: nat | i < SLOTS && Runs(i) :: Timer(tmr[i] - elapsed, reload[i]),
        set t: nat | t < MAX_TASKS && live[t])
    }

    /** Nothing that runs is due before the next service. */
    ghost predicate Covered(elapsed: int, orig: int)
      requires Shape()
    {
      forall i: nat :: i < SLOTS && Runs(i) ==>
        orig <= tmr[i] && elapsed < tmr[i] && (orig == 0 ==> tmr[i] == MAX_INT32)
    }

    /** What charging `due` ticks to every running timer leaves in slot `i`. */
    ghost function Serviced(i: nat, due: int): int
      requires Shape() && i < SLOTS
    {
      if !Runs(i) then tmr[i] else if tmr[i] <= due then reload[i] else tmr[i] - due
    }
  }

  /** The tables after storing a timer of `task`. */
  ghost function Stored(b: Tables, task: nat, k: nat, value: int, period: int): Tables
    requires b.Shape() && task < MAX_TASKS && k < NUM_TIMERS
  {
    b.(tmr := b.tmr[Slot(task, k) := value], reload := b.reload[Slot(task, k) := period])
  }

  lemma StartView(b: Tables, elapsed: int, task: nat, k: nat, t: nat, continuous: bool, value: int, period: nat)
    requires b.Shape() && task < MAX_TASKS && k < NUM_TIMERS && 0 < t <= MAX_INT32 && 0 <= elapsed < MAX_INT32
    requires value == Min(t + elapsed, MAX_INT32) && period == if continuous then t else 0
    ensures
      var c := Stored(b, task, k, value, period);
      && c.Shape() && c.AnyRunning()
      && c.View(elapsed) == b.View(elapsed).Start(task, k, t, continuous, MAX_INT32 - elapsed)
  {
    var s := Slot(task, k);
    var c := Stored(b, task, k, value, period);
    assert TaskOf(s) == task;
    assert c.tmr[s] > 0;
    var v, w := c.View(elapsed).timers, b.View(elapsed).Start(task, k, t, continuous, MAX_INT32 - elapsed).timers;
    forall i: nat
      ensures i in v <==> i in w
      ensures i in v ==> v[i] == w[i]
    {
      assert i != s ==> (i < SLOTS && c.Runs(i) <==> i < SLOTS && b.Runs(i));
    }
    assert v == w;
  }

  /** Starting a timer keeps the next service no later than anything that runs. */
  lemma StartCovered(b: Tables, elapsed: int, orig: int, task: nat, k: nat, t: nat, value: int, period: nat, orig': int)
    requires b.Shape() && task < MAX_TASKS && k < NUM_TIMERS && 0 < t <= MAX_INT32 && 0 <= elapsed < MAX_INT32
    requires value == Min(t + elapsed, MAX_INT32) && period <= MAX_INT32
    requires orig == 0 ==> elapsed + t <= MAX_INT32
    requires orig' == if orig == 0 || 0 < t < orig - elapsed then elapsed + t else orig
    requires 0 <= orig <= MAX_INT32 && b.Covered(elapsed, orig)
    ensures
      var c := Stored(b, task, k, value, period);
      c.Shape() && c.Covered(elapsed, orig') && 0 <= orig' <= MAX_INT32
  {
  }

  lemma StopView(b: Tables, elapsed: int, task: nat, k: nat)
    requires b.Shape() && task < MAX_TASKS && k < NUM_TIMERS
    ensures
      var c := Stored(b, task, k, 0, 0);
      && c.Shape() && (c.AnyRunning() ==> b.AnyRunning())
      && c.View(elapsed) == b.View(elapsed).Stop(task, k)
      && (forall orig :: b.Covered(elapsed, orig) ==> c.Covered(elapsed, orig))
  {
    var s, c := Slot(task, k), Stored(b, task, k, 0, 0);
    forall i: nat
      ensures i < SLOTS && c.Runs(i) <==> i < SLOTS && i != s && b.Runs(i)
    {
    }
    assert c.View(elapsed).timers == b.View(elapsed).timers - {s};
  }

  lemma CreateView(b: Tables, c: Tables, elapsed: int, task: nat)
    requires b.Shape() && task < MAX_TASKS && c == b.(live := b.live[task := true])
    requires forall k: nat :: k < NUM_TIMERS ==> b.tmr[Slot(task, k)] == 0
    ensures c.Shape()
    ensures forall i: nat :: i < SLOTS && c.Runs(i) ==> b.Runs(i)
    ensures c.View(elapsed) == b.View(elapsed).Create(task)
  {
    forall i: nat
      ensures i < SLOTS && c.Runs(i) <==> i < SLOTS && b.Runs(i)
    {
      assert i < SLOTS && TaskOf(i) == task ==> i == Slot(task, i - 3 * task);
    }
    assert c.View(elapsed).timers == b.View(elapsed).timers;
    assert c.View(elapsed).live == b.View(elapsed).live + {task};
  }

  /** Making a task ready is invisible to the countdown exactly if it was ready already or has no timers stored
      from an earlier life; otherwise those run again, with what has not been charged since taken off. */
  lemma RevivedExactly(b: Tables, elapsed: int, task: nat)
    requires b.Shape() && task < MAX_TASKS
    ensures var c := b.(live := b.live[task := true]);
            && c.Shape()
            && (c.View(elapsed) == b.View(elapsed).Create(task) <==>
                b.live[task] || forall k: nat :: k < NUM_TIMERS ==> b.tmr[Slot(task, k)] == 0)
            && forall k: nat :: k < NUM_TIMERS && b.tmr[Slot(task, k)] > 0 ==>
                 && Slot(task, k) in c.View(elapsed).timers
                 && c.View(elapsed).timers[Slot(task, k)]
                    == Timer(b.tmr[Slot(task, k)] - elapsed, b.reload[Slot(task, k)])
  {
    var c := b.(live := b.live[task := true]);
    var v, w := c.View(elapsed).timers, b.View(elapsed).timers;
    forall k: nat | k < NUM_TIMERS
      ensures TaskOf(Slot(task, k)) == task
      ensures Slot(task, k) in v <==> b.tmr[Slot(task, k)] > 0
      ensures Slot(task, k) in w <==> b.live[task] && b.tmr[Slot(task, k)] > 0
    {
    }
    if b.live[task] {
      assert c == b;
      assert b.View(elapsed).live + {task} == b.View(elapsed).live;
    } else if forall k: nat :: k < NUM_TIMERS ==> b.tmr[Slot(task, k)] == 0 {
      CreateView(b, c, elapsed, task);
    } else {
      var k: nat :| k < NUM_TIMERS && b.tmr[Slot(task, k)] != 0;
      assert Slot(task, k) in v && Slot(task, k) !in w;
    }
  }

  lemma ExitView(b: Tables, c: Tables, elapsed: int, task: nat)
    requires b.Shape() && task < MAX_TASKS && c == b.(live := b.live[task := false])
    ensures c.Shape()
    ensures forall i: nat :: i < SLOTS && c.Runs(i) ==> b.Runs(i)
    ensures c.View(elapsed) == b.View(elapsed).Exit(task)
  {
    var gone := {Slot(task, 0), Slot(task, 1), Slot(task, 2)};
    forall i: nat
      ensures i < SLOTS && c.Runs(i) <==> i < SLOTS && i !in gone && b.Runs(i)
    {
      assert i in gone <==> TaskOf(i) == task;
    }
    assert c.View(elapsed).timers == b.View(elapsed).timers - gone;
    assert c.View(elapsed).live == b.View(elapsed).live - {task};
  }

  /** Nothing is charged while the nearest expiry is still ahead. */
  lemma WaitView(b: Tables, elapsed: int, n: nat, elapsed': int)
    requires elapsed' == elapsed + n
    requires b.Shape() && (forall i: nat :: i < SLOTS && b.Runs(i) ==> elapsed + n < b.tmr[i])
    ensures b.View(elapsed') == b.View(elapsed).Update(n)
    ensures Fired(b.View(elapsed).timers, n) == {}
  {
    assert b.View(elapsed').timers == Advance(b.View(elapsed).timers, n);
  }

  /** Service charges the elapsed time and the new ticks together, as the countdown does in two. */
  lemma ServiceView(b: Tables, c: Tables, elapsed: int, n: nat, elapsed': int)
    requires elapsed' == 0
    requires b.Shape() && c.Shape() && c.reload == b.reload && c.live == b.live
    requires forall i: nat :: i < SLOTS ==> c.tmr[i] == b.Serviced(i, elapsed + n)
    ensures c.View(elapsed') == b.View(elapsed).Update(n)
    ensures Fired(b.View(elapsed).timers, n) == set i: nat | i < SLOTS && b.Runs(i) && b.tmr[i] <= elapsed + n
    ensures c.AnyRunning() ==> b.AnyRunning()
  {
    var v, w := c.View(elapsed').timers, Advance(b.View(elapsed).timers, n);
    forall i: nat
      ensures i in v <==> i in w
      ensures i in v ==> v[i] == w[i]
    {
      if i < SLOTS {
        assert c.tmr[i] == b.Serviced(i, elapsed + n);
      }
    }
    assert v == w;
  }

  class TaskTimers {
    const tickCallback: bool
    var osTicks: nat
    var ticksTilExp: int
    var ticksTilStop: nat
    var numOrigTicks: int
    var timerNesting: bool
    var systemTickRunning: bool
    const live: array<bool>
    const tmr: array<int>
    const reload: array<int>
    ghost var tables: Tables
    ghost var tickCalls: seq<bool>

    ghost function Elapsed(): int
      reads this
    {
      numOrigTicks - ticksTilExp
    }

    /** `tables` is what the three arrays hold. */
    ghost predicate Synced()
      reads this`tables, live, tmr, reload
    {
      tmr != reload && tables.Shape() && tables == Tables(tmr[..], reload[..], live[..])
    }

    ghost predicate Valid()
      reads this, live, tmr, reload
    {
      && Synced()
      && osTicks < 0x1_0000_0000
      && 0 <= numOrigTicks <= MAX_INT32
      && 0 <= Elapsed() < MAX_INT32
      && tables.Covered(Elapsed(), numOrigTicks)
      && (ticksTilStop != 0 ==> tickCallback && systemTickRunning && !tables.AnyRunning())
      && (tickCallback && tables.AnyRunning() ==> systemTickRunning)
    }

    ghost function View(): Reference
      requires tables.Shape()
      reads this
    {
      tables.View(Elapsed())
    }

    /** No 32-bit counter overflows in this call. */
    ghost predicate Fits(op: Op)
      reads this
    {
      match op
      case StartOp(_, k, ticks, _) =>
        k < NUM_TIMERS && numOrigTicks == 0 ==> Elapsed() + Max(ticks, 1) <= MAX_INT32
      case UpdateOp(n) => Elapsed() + n < MAX_INT32
      case _ => true
    }

    /** Nothing overflows or saturates in this call, and a new task finds no timers from before. */
    predicate Exact(op: Op)
      requires WellFormed(op) && tmr.Length == SLOTS
      reads this, tmr
    {
      match op
      case StartOp(_, _, ticks, _) => (numOrigTicks - ticksTilExp) + Max(ticks, 1) <= MAX_INT32
      case UpdateOp(n) => (numOrigTicks - ticksTilExp) + n < MAX_INT32
      case CreateOp(task) => tmr[Slot(task, 0)] == 0 && tmr[Slot(task, 1)] == 0 && tmr[Slot(task, 2)] == 0
      case _ => true
    }

    constructor (tickCallback: bool, ticks: nat)
      requires ticks < 0x1_0000_0000
      ensures Valid() && fresh(live) && fresh(tmr) && fresh(reload)
      ensures View() == Reference(map[], {}) && !timerNesting && tickCalls == []
    {
      this.tickCallback := tickCallback;
      osTicks, ticksTilExp, ticksTilStop, numOrigTicks := ticks, 0, 0, 0;
      timerNesting, systemTickRunning := false, false;
      live := new bool[MAX_TASKS](_ => false);
      tmr := new int[SLOTS](_ => 0);
      reload := new int[SLOTS](_ => 0);
      tickCalls := [];
      tables := Tables(seq(SLOTS, _ => 0), seq(SLOTS, _ => 0), seq(MAX_TASKS, _ => false));
    }

    method IsTimerRunning() returns (running: bool)
      requires Synced()
      ensures running <==> tables.AnyRunning()
    {
      for i := 0 to SLOTS
        invariant forall j :: 0 <= j < i ==> tmr[j] == 0
      {
        if tmr[i] != 0 {
          assert tables.tmr[i] != 0;
          return true;
        }
      }
      return false;
    }

    method StartTimer(caller: nat, tnum: nat, ticks: int, continuous: bool)
      requires Valid() && WellFormed(StartOp(caller, tnum, ticks, continuous))
      requires Fits(StartOp(caller, tnum, ticks, continuous))
      modifies this, tmr, reload
      ensures Valid()
      ensures caller < MAX_TASKS ==>
                View() == old(View()).Start(caller, tnum, Max(ticks, 1), continuous, MAX_INT32 - old(Elapsed()))
      ensures caller == NO_TASK ==>
                View() == old(View()).Start(DEFAULT_TASK, tnum, Max(ticks, 1), continuous, MAX_INT32 - old(Elapsed()))
      ensures Elapsed() == old(Elapsed()) && osTicks == old(osTicks) && timerNesting == old(timerNesting)
      ensures ticksTilStop == if old(tables.AnyRunning()) then old(ticksTilStop) else 0
      ensures
        var wake := tickCallback && !old(tables.AnyRunning()) && old(ticksTilStop) == 0;
        && tickCalls == old(tickCalls) + (if wake then [true] else [])
        && systemTickRunning == (old(systemTickRunning) || wake)
    {
      var left := if ticks <= 0 then 1 else ticks;
      var running := IsTimerRunning();
      if !running {
        StartTick();
      }
      if tnum < NUM_TIMERS {
        InstallTimer(Owner(caller), tnum, left, continuous);
      }
    }

    /** Stores the timer with the uncharged time added, saturating, and brings the next service forward. */
    method InstallTimer(task: nat, tnum: nat, left: nat, continuous: bool)
      requires Synced() && task < MAX_TASKS && tnum < NUM_TIMERS && 0 < left <= MAX_INT32
      requires 0 <= numOrigTicks <= MAX_INT32 && 0 <= Elapsed() < MAX_INT32
      requires numOrigTicks == 0 ==> Elapsed() + left <= MAX_INT32
      requires tables.Covered(Elapsed(), numOrigTicks)
      modifies this`tables, this`numOrigTicks, this`ticksTilExp, tmr, reload
      ensures Synced() && tables.AnyRunning()
      ensures tables.Covered(Elapsed(), numOrigTicks) && 0 <= numOrigTicks <= MAX_INT32
      ensures Elapsed() == old(Elapsed())
      ensures View() == old(View()).Start(task, tnum, left, continuous, MAX_INT32 - old(Elapsed()))
    {
      var period := if continuous then left else 0;
      var stored := MAX_INT32;
      if MAX_INT32 - (numOrigTicks - ticksTilExp) > left {
        stored := left + (numOrigTicks - ticksTilExp);
      }
      StartView(tables, Elapsed(), task, tnum, left, continuous, stored, period);
      ghost var before := tables;
      StoreTimer(task, tnum, stored, period);
      AdjustTimerCount(left);
      StartCovered(before, Elapsed(), old(numOrigTicks), task, tnum, left, stored, period, numOrigTicks);
    }

    /** A first timer starts the system tick, unless it is only waiting to be stopped. */
    method StartTick()
      modifies this`systemTickRunning, this`tickCalls, this`ticksTilStop
      ensures ticksTilStop == 0
      ensures
        var wake := tickCallback && old(ticksTilStop) == 0;
        && tickCalls == old(tickCalls) + (if wake then [true] else [])
        && systemTickRunning == (old(systemTickRunning) || wake)
    {
      if ticksTilStop == 0 {
        if tickCallback {
          systemTickRunning := true;
          tickCalls := tickCalls + [true];
        }
      } else {
        ticksTilStop := 0;
      }
    }

    method StoreTimer(task: nat, tnum: nat, value: int, period: int)
      requires Synced() && task < MAX_TASKS && tnum < NUM_TIMERS
      requires 0 <= value <= MAX_INT32 && 0 <= period <= MAX_INT32
      modifies this`tables, tmr, reload
      ensures Synced() && tables == Stored(old(tables), task, tnum, value, period)
    {
      reload[Slot(task, tnum)] := period;
      tmr[Slot(task, tnum)] := value;
      tables := Stored(tables, task, tnum, value, period);
    }

    /** Brings the next service forward if the new timer is due before it. */
    method AdjustTimerCount(ticks: int)
      modifies this`numOrigTicks, this`ticksTilExp
      ensures Elapsed() == old(Elapsed())
      ensures ticks > 0 && (old(numOrigTicks) == 0 || 0 < ticks < old(ticksTilExp)) ==>
                ticksTilExp == ticks && numOrigTicks == old(Elapsed()) + ticks
      ensures !(ticks > 0 && (old(numOrigTicks) == 0 || 0 < ticks < old(ticksTilExp))) ==>
                ticksTilExp == old(ticksTilExp) && numOrigTicks == old(numOrigTicks)
    {
      if ticks > 0 {
        if numOrigTicks == 0 || (ticks < ticksTilExp && ticksTilExp > 0) {
          numOrigTicks := (numOrigTicks - ticksTilExp) + ticks;
          ticksTilExp := ticks;
        }
      }
    }

    method StopTimer(caller: nat, tnum: nat)
      requires Valid() && IsCaller(caller)
      modifies this, tmr, reload
      ensures Valid()
      ensures caller < MAX_TASKS ==> View() == old(View()).Stop(caller, tnum)
      ensures caller == NO_TASK ==> View() == old(View()).Stop(DEFAULT_TASK, tnum)
      ensures Elapsed() == old(Elapsed()) && osTicks == old(osTicks) && timerNesting == old(timerNesting)
      ensures tickCalls == old(tickCalls) && systemTickRunning == old(systemTickRunning)
      ensures ticksTilStop ==
        if !tables.AnyRunning() && tickCallback && systemTickRunning && old(ticksTilStop) == 0
        then DELAY_STOP_SYS_TICK else old(ticksTilStop)
    {
      var task := Owner(caller);
      ghost var before := tables;
      if tnum < NUM_TIMERS {
        StoreTimer(task, tnum, 0, 0);
        StopView(before, Elapsed(), task, tnum);
      }
      var running := IsTimerRunning();
      if !running && tickCallback && systemTickRunning && ticksTilStop == 0 {
        ticksTilStop := DELAY_STOP_SYS_TICK;
      }
    }

    /** Makes a task ready that has no timers stored from an earlier life. */
    method CreateTask(task: nat)
      requires Valid() && task < MAX_TASKS && Exact(CreateOp(task))
      modifies this`tables, live
      ensures Valid() && View() == old(View()).Create(task)
    {
      live[task] := true;
      ghost var after := tables.(live := tables.live[task := true]);
      forall k: nat | k < NUM_TIMERS
        ensures tables.tmr[Slot(task, k)] == 0
      {
        assert k == 0 || k == 1 || k == 2;
      }
      CreateView(tables, after, Elapsed(), task);
      tables := after;
    }

    method ExitTask(task: nat)
      requires Valid() && task < MAX_TASKS
      modifies this`tables, live
      ensures Valid() && View() == old(View()).Exit(task)
    {
      live[task] := false;
      ExitView(tables, tables.(live := tables.live[task := false]), Elapsed(), task);
      tables := tables.(live := tables.live[task := false]);
    }

    /** The system tick: charges nothing until the nearest expiry is due, then charges everything. */
    method TimerUpdate(n: nat) returns (ghost fired: set<nat>)
      requires Valid() && !timerNesting && Fits(UpdateOp(n))
      modifies this, tmr
      ensures Valid() && !timerNesting
      ensures View() == old(View()).Update(n)
      ensures fired == Fired(old(View()).timers, n)
      ensures osTicks == (old(osTicks) + n) % 0x1_0000_0000
      ensures ticksTilStop == if old(ticksTilStop) <= n then 0 else old(ticksTilStop) - n
      ensures
        if 0 < old(ticksTilStop) <= n
        then !old(tables.AnyRunning()) && !systemTickRunning && tickCalls == old(tickCalls) + [false]
        else systemTickRunning == old(systemTickRunning) && tickCalls == old(tickCalls)
    {
      ghost var before, elapsed := tables, Elapsed();
      fired := {};
      osTicks := (osTicks + n) % 0x1_0000_0000;
      ticksTilExp := ticksTilExp - n;
      timerNesting := true;
      var stopped := InactivityUpdate(n);
      if stopped || ticksTilExp > 0 {
        timerNesting := false;
        WaitView(before, elapsed, n, Elapsed());
        return;
      }
      fired := Service();
      ServiceView(before, tables, elapsed, n, Elapsed());
      timerNesting := false;
    }

    /** Stops the system tick when the inactivity delay is over. */
    method InactivityUpdate(n: nat) returns (stopped: bool)
      modifies this`systemTickRunning, this`tickCalls, this`ticksTilStop
      ensures stopped <==> 0 < old(ticksTilStop) <= n
      ensures ticksTilStop == if old(ticksTilStop) <= n then 0 else old(ticksTilStop) - n
      ensures systemTickRunning == (old(systemTickRunning) && !(stopped && tickCallback))
      ensures tickCalls == old(tickCalls) + (if stopped && tickCallback then [false] else [])
    {
      stopped := false;
      if ticksTilStop != 0 {
        if ticksTilStop <= n {
          if tickCallback {
            systemTickRunning := false;
            tickCalls := tickCalls + [false];
          }
          ticksTilStop := 0;
          stopped := true;
        } else {
          ticksTilStop := ticksTilStop - n;
        }
      }
    }

    /** The service loop of the update, entered when the next expiry is due. */
    method Service() returns (ghost fired: set<nat>)
      requires Synced() && ticksTilExp <= 0 <= numOrigTicks && Elapsed() < MAX_INT32
      modifies this`numOrigTicks, this`ticksTilExp, this`tables, tmr
      ensures Synced() && tables == old(tables).(tmr := tables.tmr)
      ensures forall i: nat :: i < SLOTS ==> tables.tmr[i] == old(tables).Serviced(i, old(Elapsed()))
      ensures fired == set i: nat | i < SLOTS && old(tables).Runs(i) && old(tables).tmr[i] <= old(Elapsed())
      ensures ticksTilExp == numOrigTicks && 0 <= numOrigTicks < MAX_INT32
      ensures tables.Covered(0, numOrigTicks)
    {
      ghost var was := tables;
      fired := {};
      var next := MAX_INT32;
      numOrigTicks := numOrigTicks - ticksTilExp;
      ghost var due := numOrigTicks;
      for task := 0 to MAX_TASKS
        invariant 0 <= numOrigTicks == due && 0 < next <= MAX_INT32
        invariant Synced() && tables == was.(tmr := tables.tmr)
        invariant Progress(was, tables.tmr, Slot(task, 0), due, next)
        invariant fired == set i: nat | i < Slot(task, 0) && was.Runs(i) && was.tmr[i] <= due
      {
        if !live[task] {
          SkipTask(was, tables.tmr, task, due, next);
          continue;
        }
        for k := 0 to NUM_TIMERS
          invariant 0 <= numOrigTicks == due && 0 < next <= MAX_INT32
          invariant Synced() && tables == was.(tmr := tables.tmr)
          invariant Progress(was, tables.tmr, Slot(task, k), due, next)
          invariant fired == set i: nat | i < Slot(task, k) && was.Runs(i) && was.tmr[i] <= due
        {
          next, fired := ServiceSlot(Slot(task, k), next, was, due, fired);
        }
      }
      if next < MAX_INT32 {
        numOrigTicks := next;
        ticksTilExp := next;
      } else {
        numOrigTicks := 0;
        ticksTilExp := 0;
      }
    }

    /** One timer of a live task: charge it, report and reload it if it expired, and look whether it is the next. */
    method ServiceSlot(i: nat, next: int, ghost was: Tables, ghost due: int, ghost fired: set<nat>)
      returns (next': int, ghost fired': set<nat>)
      requires Synced() && was.Shape() && tables == was.(tmr := tables.tmr) && numOrigTicks == due
      requires 0 <= due && 0 < next <= MAX_INT32 && i < SLOTS && was.live[TaskOf(i)]
      requires Progress(was, tables.tmr, i, due, next)
      requires fired == set j: nat | j < i && was.Runs(j) && was.tmr[j] <= due
      modifies this`tables, tmr
      ensures Synced() && tables == was.(tmr := tables.tmr)
      ensures 0 < next' <= MAX_INT32 && Progress(was, tables.tmr, i + 1, due, next')
      ensures fired' == set j: nat | j < i + 1 && was.Runs(j) && was.tmr[j] <= due
    {
      next', fired' := next, fired;
      if tmr[i] > 0 {
        tmr[i] := tmr[i] - numOrigTicks;
        if tmr[i] <= 0 {
          fired' := fired' + {i};
          tmr[i] := reload[i];
        }
      }
      if tmr[i] > 0 && tmr[i] < next' {
        next' := tmr[i];
      }
      tables := tables.(tmr := tables.tmr[i := was.Serviced(i, due)]);
      assert tmr[..] == tables.tmr;
    }

    method Perform(op: Op) returns (ghost fired: set<nat>)
      requires Valid() && !timerNesting && WellFormed(op) && Exact(op)
      modifies this, live, tmr, reload
      ensures Valid() && !timerNesting
      ensures View() == Apply(old(View()), op) && fired == Fires(old(View()), op)
    {
      fired := {};
      match op
      case StartOp(c, k, ticks, continuous) => StartTimer(c, k, ticks, continuous);
      case StopOp(c, k) => StopTimer(c, k);
      case UpdateOp(n) => fired := TimerUpdate(n);
      case CreateOp(task) => CreateTask(task);
      case ExitOp(task) => ExitTask(task);
    }

    /** Any run of calls fires and reloads the same timers at the same updates as the countdown, up to
        a call whose counters would not fit. */
    method Play(ops: seq<Op>) returns (done: nat, ghost trace: seq<set<nat>>)
      requires Valid() && !timerNesting && forall i :: 0 <= i < |ops| ==> WellFormed(ops[i])
      modifies this, live, tmr, reload
      ensures Valid() && !timerNesting
      ensures done <= |ops| && (done < |ops| ==> !Exact(ops[done]))
      ensures View() == Run(old(View()), ops[..done]) && trace == Trace(old(View()), ops[..done])
    {
      done, trace := 0, [];
      while done < |ops|
        invariant Valid() && !timerNesting && done <= |ops|
        invariant View() == Run(old(View()), ops[..done]) && trace == Trace(old(View()), ops[..done])
      {
        if !Exact(ops[done]) {
          return;
        }
        ghost var fired := Perform(ops[done]);
        trace := trace + [fired];
        assert ops[..done + 1][..done] == ops[..done];
        done := done + 1;
      }
    }
  }

  /** The slots below `done` have been charged, and `next` bounds what is left in them. */
  ghost predicate Progress(was: Tables, tmr: seq<int>, done: nat, due: int, next: int)
    requires was.Shape()
  {
    && |tmr| == SLOTS && done <= SLOTS
    && (forall i: nat :: i < done ==> tmr[i] == was.Serviced(i, due))
    && (forall i: nat :: i < done && was.live[TaskOf(i)] && tmr[i] > 0 ==> next <= tmr[i])
    && (forall i: nat :: done <= i < SLOTS ==> tmr[i] == was.tmr[i])
  }

  lemma SkipTask(was: Tables, tmr: seq<int>, task: nat, due: int, next: int)
    requires was.Shape() && task < MAX_TASKS && !was.live[task] && Progress(was, tmr, Slot(task, 0), due, next)
    ensures Progress(was, tmr, Slot(task + 1, 0), due, next)
    ensures forall i: nat :: Slot(task, 0) <= i < Slot(task + 1, 0) ==> !was.Runs(i)
  {
  }
}
