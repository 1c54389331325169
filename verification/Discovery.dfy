/** The RF discovery state machine of the device manager (src/nfa/dm/nfa_dm_discover.cc): the states of
    section 5.2 of the NFC Forum NCI Technical Specification, as the host tracks them. */
module Discovery {
  import opened Options

  datatype State =
    Idle | Discovering | W4AllDiscoveries | W4HostSelect | PollActive | ListenActive | ListenSleep | LpListen | LpActive

  datatype DeactType = ToIdle | ToSleep | ToSleepAf | ToDiscovery

  datatype Reason = DhReq | EndpointReq | RfLinkLoss | BadAfi | DhReqFailed

  datatype Status = Ok | SemanticError | Failed

  datatype More = Last | LastAbort | MoreToCome

  datatype Interface = EeDirect | SwpDirect | OtherInterface

  datatype Event =
    | DiscoverCmd
    | DiscoverRsp(status: Status)
    | DiscoverNtf(more: More, known: bool)
    | SelectCmd
    | SelectRsp(status: Status)
    | ActivatedNtf(interface: Interface, listen: bool, handle: Option<nat>)
    | DeactivateCmd(kind: DeactType)
    | DeactivateRsp(status: Status)
    | DeactivateNtf(kind: DeactType, reason: Reason)
    | LpListenCmd
    | InterfaceError

  /** What the manager tells the controller and the modules above. */
  datatype Action =
    | SendDeactivate(kind: DeactType)
    | SendDiscover
    | SendSelect
    | NotifyResult
    | NotifyActivated(to: Option<nat>)
    | NotifyDeactivated(byNtf: bool, kind: DeactType, reason: Reason, to: Option<nat>)
    | NotifySelect(ok: bool)
    | NotifyStarted
    | NotifyStopped
    | NotifyExclusiveStopped
    | NotifyIdleToApp
    | CheckDisabled
    | WakeupDone(ok: bool)
    | ReaderDeactivated

  /** The flags of the control block. The guard timer runs while a deactivation notification is overdue,
      unless the host is configured to be patient; discovery has something to do if a technology is offered. */
  datatype Flag =
    | Enabled | Stopping | Disabling | Checking | Notify | W4Rsp | W4Ntf
    | ExclusiveActive | ExclusiveEntry | DeactPending | DeactNotifyPending | TimerRunning | Patient | Offered

  datatype ControlBlock = ControlBlock(
    state: State, flags: set<Flag>, pendingType: DeactType, retries: nat, handle: Option<nat>,
    log: seq<Action>, answers: nat, notices: nat)
  {
    predicate Has(f: Flag) {
      f in flags
    }

    function On(f: set<Flag>): ControlBlock {
      this.(flags := flags + f)
    }

    function Off(f: set<Flag>): ControlBlock {
      this.(flags := flags - f)
    }

    /** Records an action, and counts the answers to stops and the deactivations passed on. */
    function Do(a: Action): ControlBlock {
      this.(log := log + [a],
            answers := answers + if a.NotifyStopped? || a.NotifyExclusiveStopped? then 1 else 0,
            notices := notices + if a.NotifyDeactivated? then 1 else 0)
    }
  }

  /** The stop that is still to be answered, if any. */
  function Owed(c: ControlBlock): nat {
    if c.Has(Stopping) then 1 else 0
  }

  /** Every stop asked for is either answered or owed, before and after, and no answer is taken back. */
  ghost predicate Balanced(c: ControlBlock, d: ControlBlock) {
    d.answers + Owed(d) == c.answers + Owed(c) && c.answers <= d.answers
  }

  /** The guard timer runs only while a deactivation notification is overdue in an active state. */
  predicate Guarded(c: ControlBlock) {
    && (c.Has(TimerRunning) ==>
          c.Has(W4Ntf) && (c.state == PollActive || c.state == ListenActive || c.state == ListenSleep))
    && c.retries <= 3
  }

  /** The state, the guard and the overdue notification stay as they are; the log only grows. */
  predicate Steady(c: ControlBlock, d: ControlBlock) {
    d.state == c.state && SteadyGuard(c, d)
  }

  predicate SteadyGuard(c: ControlBlock, d: ControlBlock) {
    && d.retries == c.retries && c.log <= d.log
    && (d.Has(TimerRunning) <==> c.Has(TimerRunning)) && (d.Has(W4Ntf) <==> c.Has(W4Ntf))
    && (d.Has(Checking) <==> c.Has(Checking))
  }

  // ---- what the handlers share ---------------------------------------------------------------------

  /** Entering IDLE completes a stop or a shutdown, unless a response is still awaited. */
  function NewState(c: ControlBlock, s: State): (d: ControlBlock)
    ensures Balanced(c, d) && d.state == s && SteadyGuard(c, d)
    ensures s != Idle ==> d == c.(state := s)
  {
    var d := c.(state := s);
    if s != Idle || c.Has(W4Rsp) then d
    else Disabled(if c.Has(Stopping) then Stopped(d.Off({Stopping}), c.state) else d)
  }

  function Stopped(c: ControlBlock, before: State): (d: ControlBlock)
    ensures Steady(c, d)
  {
    if !c.Has(ExclusiveActive) then c.Do(NotifyStopped)
    else
      (if before == Idle || before == Discovering then c else c.Do(NotifyIdleToApp))
      .Off({ExclusiveActive, ExclusiveEntry}).Do(NotifyExclusiveStopped)
  }

  function Disabled(c: ControlBlock): (d: ControlBlock)
    ensures Steady(c, d)
  {
    if c.Has(Disabling) then c.Off({Disabling}).Do(CheckDisabled) else c
  }

  /** Restarts discovery if it is enabled. */
  function StartDiscover(c: ControlBlock): (d: ControlBlock)
    ensures Balanced(c, d) && Steady(c, d)
  {
    if !c.Has(Enabled) && !c.Has(ExclusiveEntry) then c
    else (if c.Has(Offered) then c.Do(SendDiscover).On({W4Rsp}) else Started(c)).(handle := None)
  }

  function Started(c: ControlBlock): (d: ControlBlock)
    ensures Balanced(c, d) && Steady(c, d)
  {
    if c.Has(Notify) then c.Off({Notify}).Do(NotifyStarted) else c
  }

  /** Tells the module whose link was active; silent during a sleep and wake-up. */
  function NotifyDeactivation(c: ControlBlock, byNtf: bool, kind: DeactType, reason: Reason): (d: ControlBlock)
    ensures Balanced(c, d) && Steady(c, d)
    ensures byNtf ==> d.notices == c.notices + if c.Has(Checking) then 0 else 1
  {
    if c.Has(Checking) then c
    else
      (if byNtf || c.state == ListenSleep then c.Do(NotifyDeactivated(byNtf, kind, reason, c.handle))
       else if c.Has(Stopping) && !c.Has(DeactNotifyPending) then c
       else c.Do(NotifyDeactivated(byNtf, kind, reason, c.handle)))
      .(handle := None).Off({DeactNotifyPending})
  }

  /** Whether somebody wants the activated target: the exclusive owner, or the entry it matches. */
  predicate Wanted(c: ControlBlock, handle: Option<nat>) {
    c.Has(ExclusiveEntry) || handle.Some?
  }

  function NotifyActivation(c: ControlBlock, interface: Interface, handle: Option<nat>): (d: ControlBlock)
    ensures Balanced(c, d) && Steady(c, d)
  {
    if c.Has(ExclusiveEntry) then c.(handle := None).Do(NotifyActivated(None))
    else if handle.Some? then c.(handle := handle).Do(NotifyActivated(handle))
    else if interface == OtherInterface then c.(handle := None)
    else c
  }

  function ForceToIdle(c: ControlBlock): (r: (ControlBlock, Status))
    ensures Balanced(c, r.0)
  {
    if c.Has(W4Ntf) then (NewState(c.Off({W4Ntf}).On({W4Rsp}), Idle).Do(SendDeactivate(ToIdle)), Ok)
    else (c, SemanticError)
  }

  /** Sends the command unless one is in progress; insisting on it forces the controller to idle. */
  function SendDeactivateCmd(c: ControlBlock, kind: DeactType): (r: (ControlBlock, Status))
    ensures Balanced(c, r.0)
    ensures Guarded(c) &&
            (c.Has(W4Rsp) || c.state == PollActive || c.state == ListenActive || c.state == ListenSleep) ==>
              Guarded(r.0)
    ensures r.0.state == c.state || (r.0.Has(W4Rsp) && c.Has(W4Ntf))
    ensures r.0.Has(Checking) <==> c.Has(Checking)
  {
    if !c.Has(W4Rsp) && !c.Has(W4Ntf) then
      (c.On({W4Rsp, W4Ntf} + if c.Has(Patient) then {} else {TimerRunning}).Do(SendDeactivate(kind)), Ok)
    else if kind == ToSleep then (c, SemanticError)
    else if c.Has(TimerRunning) then (c, Ok)
    else ForceToIdle(c)
  }

  // ---- the handlers --------------------------------------------------------------------------------

  function OnDeactivateCmd(c: ControlBlock, kind: DeactType): (d: ControlBlock)
    ensures Balanced(c, d) && (Guarded(c) ==> Guarded(d))
    ensures d.Has(Checking) <==> c.Has(Checking)
    ensures d.state == c.state || (d.Has(W4Rsp) && c.Has(W4Ntf))
  {
    match c.state
    case Discovering => if c.Has(W4Rsp) then c else c.On({W4Rsp}).Do(SendDeactivate(kind))
    case W4AllDiscoveries => if c.Has(W4Rsp) then c else c.On({W4Rsp}).Do(SendDeactivate(ToIdle))
    case W4HostSelect =>
      if c.Has(Checking) then c.(pendingType := kind).On({DeactPending})
      else if c.Has(W4Rsp) then c else c.On({W4Rsp}).Do(SendDeactivate(ToIdle))
    case PollActive =>
      if c.Has(Checking) then c.(pendingType := kind).On({DeactPending}) else SendDeactivateCmd(c, kind).0
    case ListenActive => SendDeactivateCmd(c, kind).0
    case ListenSleep =>
      var d := SendDeactivateCmd(c, kind).0;
      if kind == ToDiscovery then d else d.Off({W4Ntf, TimerRunning})
    case _ => c
  }

  /** The sleep and wake-up is over; a deactivation that had to wait goes out now. */
  function EndSleepWakeup(c: ControlBlock, ok: bool): (d: ControlBlock)
    ensures Balanced(c, d) && (Guarded(c) ==> Guarded(d))
    ensures !d.Has(Checking)
    ensures d.state == c.state || (d.Has(W4Rsp) && c.Has(W4Ntf))
  {
    if !c.Has(Checking) then c
    else
      var d := c.Off({Checking}).Do(WakeupDone(ok));
      if !c.Has(DeactPending) then d
      else OnDeactivateCmd(d.Off({DeactPending}).On({DeactNotifyPending}), c.pendingType)
  }

  function BackToIdle(c: ControlBlock): (d: ControlBlock)
    ensures Balanced(c, d) && d.state == Idle && SteadyGuard(c, d)
    ensures d.notices == c.notices
  {
    StartDiscover(NewState(c, Idle))
  }

  function InIdle(c: ControlBlock, e: Event): (d: ControlBlock)
    ensures Balanced(c, d) && (c.state == Idle && Guarded(c) ==> Guarded(d))
  {
    match e
    case DiscoverCmd => StartDiscover(c)
    case DiscoverRsp(status) =>
      if status != Ok then c.On({W4Rsp}).Do(SendDeactivate(ToIdle))
      else
        var d := NewState(c.Off({W4Rsp}), Discovering);
        if d.Has(Stopping) || d.Has(Disabling) then d.On({W4Rsp}).Do(SendDeactivate(ToIdle)) else Started(d)
    case DeactivateRsp(status) =>
      var d := c.Off({W4Rsp});
      if status == Ok then if d.Has(W4Ntf) then d else BackToIdle(NotifyDeactivation(d, true, ToIdle, DhReq))
      else if status == SemanticError then BackToIdle(d)
      else d
    case DeactivateNtf(kind, reason) =>
      (if c.Has(W4Ntf) then c
       else if kind == ToDiscovery then c.On({W4Rsp}).Do(SendDeactivate(ToIdle))
       else BackToIdle(NotifyDeactivation(c, true, kind, reason))).Off({W4Ntf})
    case ActivatedNtf(_, _, _) => c.On({W4Rsp, W4Ntf}).Do(SendDeactivate(ToIdle))
    case LpListenCmd => NewState(c, LpListen)
    case _ => c
  }

  function ActiveState(interface: Interface, listen: bool): State {
    match interface
    case EeDirect => ListenActive
    case SwpDirect => PollActive
    case OtherInterface => if listen then ListenActive else PollActive
  }

  function InDiscovery(c: ControlBlock, e: Event): (d: ControlBlock)
    ensures Balanced(c, d) && (c.state == Discovering && Guarded(c) ==> Guarded(d))
  {
    match e
    case DeactivateRsp(_) =>
      var d := c.Off({W4Rsp});
      if d.Has(W4Ntf) then d else BackToIdle(d)
    case DeactivateNtf(_, _) =>
      if !c.Has(W4Ntf) then c
      else
        var d := c.Off({W4Ntf});
        if d.Has(W4Rsp) then d else BackToIdle(d)
    case DiscoverNtf(more, _) =>
      (if more == LastAbort then c.Do(SendDeactivate(ToIdle)) else NewState(c, W4AllDiscoveries)).Do(NotifyResult)
    case ActivatedNtf(interface, listen, handle) =>
      if c.Has(W4Rsp) then c.On({W4Ntf})
      else
        var d := NotifyActivation(NewState(c, ActiveState(interface, listen)), interface, handle);
        if !Wanted(c, handle) then d.On({W4Rsp, W4Ntf}).Do(SendDeactivate(ToIdle)) else d
    case _ => c
  }

  function InW4AllDiscoveries(c: ControlBlock, e: Event): (d: ControlBlock)
    ensures Balanced(c, d) && (c.state == W4AllDiscoveries && Guarded(c) ==> Guarded(d))
  {
    match e
    case DeactivateRsp(_) => BackToIdle(NotifyDeactivation(c.Off({W4Rsp}), false, ToIdle, DhReq))
    case DiscoverNtf(more, known) =>
      if !known then c.Do(SendDeactivate(ToIdle))
      else if c.Has(W4Rsp) then c
      else (if more == MoreToCome then c else NewState(c, W4HostSelect)).Do(NotifyResult)
    case ActivatedNtf(interface, _, handle) =>
      var d := NotifyActivation(NewState(c, PollActive), interface, handle);
      if !Wanted(c, handle) then d.Do(SendDeactivate(ToIdle)) else d
    case _ => c
  }

  function AppNotified(c: ControlBlock, ok: bool): (d: ControlBlock)
    ensures Balanced(c, d) && Steady(c, d)
  {
    if c.Has(Notify) then c.Off({Notify}).Do(NotifySelect(ok)) else c
  }

  function InW4HostSelect(c: ControlBlock, e: Event): (d: ControlBlock)
    ensures Balanced(c, d) && (c.state == W4HostSelect && Guarded(c) ==> Guarded(d))
  {
    match e
    case SelectCmd => if c.Has(W4Rsp) then AppNotified(c, false) else c.Do(SendSelect)
    case SelectRsp(status) =>
      var d := if c.Has(Checking) then c else AppNotified(c, status == Ok);
      if status != Ok then EndSleepWakeup(d, false) else d
    case ActivatedNtf(interface, _, handle) =>
      var d := NotifyActivation(NewState(c, PollActive), interface, handle);
      if c.Has(Checking) then EndSleepWakeup(d, true)
      else if !Wanted(c, handle) then d.Do(SendDeactivate(ToIdle)) else d
    case DeactivateRsp(_) => BackToIdle(NotifyDeactivation(c.Off({W4Rsp}), false, ToIdle, DhReq))
    case InterfaceError => if c.Has(Checking) then EndSleepWakeup(c, false) else c.Do(NotifySelect(false))
    case DeactivateCmd(_) => c
    case _ => c.Do(SendDeactivate(ToIdle))
  }

  /** A deactivation to sleep that the controller reports as failed is tried again; after three more
      attempts the host asks for discovery instead. */
  function RetrySleep(c: ControlBlock, kind: DeactType, checking: bool): (d: ControlBlock)
    ensures Balanced(c, d)
    ensures Guarded(c) && (c.state == PollActive || c.Has(W4Rsp)) ==> Guarded(d)
  {
    if c.retries == 3 then
      (if !checking || !c.Has(DeactPending) then SendDeactivateCmd(c, ToDiscovery).0 else c).(retries := 0)
    else SendDeactivateCmd(c.(retries := c.retries + 1), kind).0
  }

  function PollSleep(c: ControlBlock, kind: DeactType, failed: bool): (d: ControlBlock)
    ensures Balanced(c, d)
    ensures Guarded(c) && c.state == PollActive && !c.Has(TimerRunning) ==> Guarded(d)
  {
    var d := if failed then c else NewState(c.(retries := 0), W4HostSelect);
    var e :=
      if !c.Has(Checking) then d
      else if d.Has(DeactPending) then EndSleepWakeup(d, true).Do(ReaderDeactivated)
      else d.Do(SendSelect);
    if failed then RetrySleep(e, kind, c.Has(Checking)) else e
  }

  function PollDeactivated(c: ControlBlock, kind: DeactType, reason: Reason): (d: ControlBlock)
    ensures Balanced(c, d)
    ensures Guarded(c) && c.state == PollActive && !c.Has(TimerRunning) ==> Guarded(d)
  {
    var failed := reason == DhReqFailed;
    var d := if failed then c else NotifyDeactivation(c, true, kind, reason);
    match kind
    case ToSleep | ToSleepAf => PollSleep(d, kind, failed)
    case ToIdle =>
      var e := BackToIdle(d);
      if failed then e else EndSleepWakeup(e, false)
    case ToDiscovery =>
      var e := NewState(d, Discovering);
      var g := if e.Has(Stopping) then e.Do(SendDeactivate(ToIdle)) else e;
      if failed then g else EndSleepWakeup(g, false)
  }

  function InPollActive(c: ControlBlock, e: Event): (d: ControlBlock)
    ensures Balanced(c, d) && (c.state == PollActive && Guarded(c) ==> Guarded(d))
  {
    match e
    case DeactivateRsp(_) =>
      var d := c.Off({W4Rsp});
      if d.Has(W4Ntf) then d else BackToIdle(NotifyDeactivation(d, true, ToIdle, DhReq))
    case DeactivateNtf(kind, reason) =>
      var d := c.Off({W4Ntf, TimerRunning});
      if d.Has(W4Rsp) then d else PollDeactivated(d, kind, reason)
    case _ => c
  }

  function ListenDeactivated(c: ControlBlock, kind: DeactType, reason: Reason): (d: ControlBlock)
    ensures Balanced(c, d)
    ensures Guarded(c) && !c.Has(TimerRunning) ==> Guarded(d)
  {
    var d := NotifyDeactivation(c, true, kind, reason);
    match kind
    case ToIdle => BackToIdle(d)
    case ToSleep | ToSleepAf => NewState(d, ListenSleep)
    case ToDiscovery =>
      var e := NewState(d, Discovering);
      if e.Has(Stopping) then e.Do(SendDeactivate(ToIdle)) else e
  }

  function InListenActive(c: ControlBlock, e: Event): (d: ControlBlock)
    ensures Balanced(c, d) && (c.state == ListenActive && Guarded(c) ==> Guarded(d))
  {
    match e
    case DeactivateRsp(_) =>
      var d := c.Off({W4Rsp});
      if d.Has(W4Ntf) then d else BackToIdle(NotifyDeactivation(d, true, ToIdle, DhReq))
    case DeactivateNtf(kind, reason) =>
      var d := c.Off({W4Ntf, TimerRunning});
      if d.Has(W4Rsp) then d else ListenDeactivated(d, kind, reason)
    case _ => c
  }

  function InListenSleep(c: ControlBlock, e: Event): (d: ControlBlock)
    ensures Balanced(c, d) && (c.state == ListenSleep && Guarded(c) ==> Guarded(d))
  {
    match e
    case DeactivateRsp(_) =>
      var d := c.Off({W4Rsp});
      if d.Has(W4Ntf) then d else BackToIdle(NotifyDeactivation(d, false, ToIdle, DhReq))
    case DeactivateNtf(kind, reason) =>
      var d := NotifyDeactivation(c.Off({W4Rsp, W4Ntf, TimerRunning}), false, kind, reason);
      if kind == ToDiscovery then NewState(d, Discovering) else BackToIdle(d)
    case ActivatedNtf(interface, _, handle) =>
      var d := NotifyActivation(NewState(c, ListenActive), interface, handle);
      if !Wanted(c, handle) then d.Do(SendDeactivate(ToIdle)) else d
    case _ => c
  }

  function InLpListen(c: ControlBlock, e: Event): (d: ControlBlock)
    ensures Balanced(c, d) && (c.state == LpListen && Guarded(c) ==> Guarded(d))
  {
    if e.ActivatedNtf? then NotifyActivation(NewState(c, LpActive), e.interface, e.handle) else c
  }

  function InLpActive(c: ControlBlock, e: Event): (d: ControlBlock)
    ensures Balanced(c, d) && (c.state == LpActive && Guarded(c) ==> Guarded(d))
  {
    if e.DeactivateNtf? then NotifyDeactivation(NewState(c, LpListen), true, e.kind, e.reason) else c
  }

  function Execute(c: ControlBlock, e: Event): (d: ControlBlock)
    ensures Balanced(c, d) && (Guarded(c) ==> Guarded(d))
  {
    if e.DeactivateCmd? then OnDeactivateCmd(c, e.kind)
    else
      match c.state
      case Idle => InIdle(c, e)
      case Discovering => InDiscovery(c, e)
      case W4AllDiscoveries => InW4AllDiscoveries(c, e)
      case W4HostSelect => InW4HostSelect(c, e)
      case PollActive => InPollActive(c, e)
      case ListenActive => InListenActive(c, e)
      case ListenSleep => InListenSleep(c, e)
      case LpListen => InLpListen(c, e)
      case LpActive => InLpActive(c, e)
  }

  // ---- the requests from above and the guard timer -------------------------------------------------

  datatype Op =
    | Input(event: Event)
    | Timeout
    | SleepWakeup
    | Deactivate(kind: DeactType)
    | Start
    | Stop
    | Disable
    | RequestExclusive
    | ReleaseExclusive
    | Offer(any: bool)

  /** The guard timer expires. */
  function OnTimeout(c: ControlBlock): ControlBlock {
    if c.Has(TimerRunning) then ForceToIdle(c.Off({TimerRunning})).0 else c
  }

  /** Puts a tag to sleep, to wake it up again. */
  function OnSleepWakeup(c: ControlBlock): ControlBlock {
    if c.state != PollActive then c
    else
      var (d, status) := SendDeactivateCmd(c, ToSleep);
      if status == Ok then d.On({Checking}).Off({DeactPending}) else d
  }

  function RfDeactivate(c: ControlBlock, kind: DeactType): ControlBlock {
    if c.state == Idle || (c.state == Discovering && kind != ToIdle) then c else OnDeactivateCmd(c, kind)
  }

  function OnStart(c: ControlBlock): ControlBlock {
    if c.Has(Enabled) || c.state != Idle then c.Do(NotifyStarted) else StartDiscover(c.On({Enabled, Notify}))
  }

  function OnStop(c: ControlBlock): ControlBlock {
    var d := c.Off({Enabled});
    if !c.Has(Enabled) || c.state == Idle then
      if c.Has(W4Rsp) then d.On({Stopping}) else d.Do(NotifyStopped)
    else RfDeactivate(d.On({Stopping}), ToIdle)
  }

  function OnDisable(c: ControlBlock): ControlBlock {
    if !c.Has(Enabled) then c
    else
      var d := c.Off({Enabled});
      if c.state == Idle then if c.Has(W4Rsp) then d.On({Disabling}) else d
      else
        var e := OnDeactivateCmd(d.On({Disabling}), ToIdle);
        if e.Has(W4Rsp) || e.Has(W4Ntf) then e else e.Off({Disabling})
  }

  function OnRequestExclusive(c: ControlBlock): ControlBlock {
    if c.Has(ExclusiveActive) || c.state != Idle then c
    else StartDiscover(c.On({ExclusiveActive, ExclusiveEntry}))
  }

  function OnReleaseExclusive(c: ControlBlock): ControlBlock {
    var d := c.On({Stopping});
    if c.state == Idle && c.Has(W4Rsp) then d else RfDeactivate(d, ToIdle)
  }

  function Step(c: ControlBlock, op: Op): ControlBlock {
    match op
    case Input(e) => Execute(c, e)
    case Timeout => OnTimeout(c)
    case SleepWakeup => OnSleepWakeup(c)
    case Deactivate(kind) => RfDeactivate(c, kind)
    case Start => OnStart(c)
    case Stop => OnStop(c)
    case Disable => OnDisable(c)
    case RequestExclusive => OnRequestExclusive(c)
    case ReleaseExclusive => OnReleaseExclusive(c)
    case Offer(any) => if any then c.On({Offered}) else c.Off({Offered})
  }

  function Run(c: ControlBlock, ops: seq<Op>): ControlBlock {
    if ops == [] then c else Step(Run(c, ops[..|ops| - 1]), ops[|ops| - 1])
  }

  // ---- the order of response and notification ------------------------------------------------------

  function RspThenNtf(c: ControlBlock, status: Status, kind: DeactType, reason: Reason): ControlBlock {
    Execute(Execute(c, DeactivateRsp(status)), DeactivateNtf(kind, reason))
  }

  function NtfThenRsp(c: ControlBlock, status: Status, kind: DeactType, reason: Reason): ControlBlock {
    Execute(Execute(c, DeactivateNtf(kind, reason)), DeactivateRsp(status))
  }

  /** Both the response and the notification of a deactivation have come in. */
  function Cleared(c: ControlBlock): ControlBlock {
    c.Off({W4Rsp, W4Ntf, TimerRunning})
  }

  predicate BothAwaited(c: ControlBlock) {
    c.Has(W4Rsp) && c.Has(W4Ntf)
  }

  lemma PollNtfLast(c: ControlBlock, status: Status, kind: DeactType, reason: Reason)
    requires c.state == PollActive && BothAwaited(c)
    ensures RspThenNtf(c, status, kind, reason) == PollDeactivated(Cleared(c), kind, reason)
  {
    hide PollDeactivated, BackToIdle, NotifyDeactivation;
    assert c.flags - {W4Rsp} - {W4Ntf, TimerRunning} == Cleared(c).flags;
  }

  lemma RspLast(c: ControlBlock, status: Status, kind: DeactType, reason: Reason)
    requires (c.state == PollActive || c.state == ListenActive) && BothAwaited(c)
    ensures NtfThenRsp(c, status, kind, reason) == BackToIdle(NotifyDeactivation(Cleared(c), true, ToIdle, DhReq))
  {
    hide BackToIdle, NotifyDeactivation;
    assert c.flags - {W4Ntf, TimerRunning} - {W4Rsp} == Cleared(c).flags;
  }

  lemma ListenNtfLast(c: ControlBlock, status: Status, kind: DeactType, reason: Reason)
    requires c.state == ListenActive && BothAwaited(c)
    ensures RspThenNtf(c, status, kind, reason) == ListenDeactivated(Cleared(c), kind, reason)
  {
    hide ListenDeactivated, BackToIdle, NotifyDeactivation;
    assert c.flags - {W4Rsp} - {W4Ntf, TimerRunning} == Cleared(c).flags;
  }

  /** In LISTEN_ACTIVE the order makes no difference exactly when the link goes to idle at the host's
      request. */
  lemma ListenOrderExactly(c: ControlBlock, status: Status, kind: DeactType, reason: Reason)
    requires c.state == ListenActive && BothAwaited(c)
    ensures RspThenNtf(c, status, kind, reason) == NtfThenRsp(c, status, kind, reason) <==>
            kind == ToIdle && (reason == DhReq || c.Has(Checking))
  {
    ListenNtfLast(c, status, kind, reason);
    RspLast(c, status, kind, reason);
    hide Execute, RspThenNtf, NtfThenRsp, BackToIdle, NewState;
    if kind == ToIdle && !c.Has(Checking) && reason != DhReq {
      LogTells(Cleared(c), reason);
    }
  }

  /** The module is told the reason that the notification gives; a response that comes last does not know
      it and reports the host's own request. */
  lemma LogTells(c: ControlBlock, reason: Reason)
    requires !c.Has(Checking) && reason != DhReq
    ensures BackToIdle(NotifyDeactivation(c, true, ToIdle, reason))
            != BackToIdle(NotifyDeactivation(c, true, ToIdle, DhReq))
  {
    var a, b := NotifyDeactivation(c, true, ToIdle, reason), NotifyDeactivation(c, true, ToIdle, DhReq);
    assert a.log[|c.log|] == NotifyDeactivated(true, ToIdle, reason, c.handle);
    assert b.log[|c.log|] == NotifyDeactivated(true, ToIdle, DhReq, c.handle);
    hide BackToIdle, NotifyDeactivation;
    assert BackToIdle(a).log[|c.log|] == a.log[|c.log|];
    assert BackToIdle(b).log[|c.log|] == b.log[|c.log|];
  }

  /** In POLL_ACTIVE the order makes no difference exactly when the link goes to idle and, with no tag
      being woken up, at the host's request; during a wake-up, when the controller reports a failure. */
  lemma PollOrderExactly(c: ControlBlock, status: Status, kind: DeactType, reason: Reason)
    requires c.state == PollActive && BothAwaited(c)
    ensures RspThenNtf(c, status, kind, reason) == NtfThenRsp(c, status, kind, reason) <==>
            kind == ToIdle && reason == if c.Has(Checking) then DhReqFailed else DhReq
  {
    PollNtfLast(c, status, kind, reason);
    RspLast(c, status, kind, reason);
    var d := Cleared(c);
    assert (d.Has(Checking) <==> c.Has(Checking)) && !d.Has(W4Ntf);
    match kind
    case ToSleep => SleepDiffers(d, kind, reason);
    case ToSleepAf => SleepDiffers(d, kind, reason);
    case ToDiscovery => hide Execute, RspThenNtf, NtfThenRsp, NewState, BackToIdle, EndSleepWakeup;
    case ToIdle =>
      hide Execute, RspThenNtf, NtfThenRsp, NewState, BackToIdle, EndSleepWakeup;
      if !d.Has(Checking) && reason != DhReq && reason != DhReqFailed {
        LogTells(d, reason);
      }
  }

  lemma SleepDiffers(c: ControlBlock, kind: DeactType, reason: Reason)
    requires c.state == PollActive && !c.Has(W4Ntf) && !c.Has(W4Rsp) && (kind == ToSleep || kind == ToSleepAf)
    ensures PollDeactivated(c, kind, reason) != BackToIdle(NotifyDeactivation(c, true, ToIdle, DhReq))
  {
    hide NewState, BackToIdle, NotifyDeactivation, EndSleepWakeup, SendDeactivateCmd;
  }

  /** A link that goes to idle for any reason but a failure ends up in the same control block in both
      orders, but for the log, and the routine that tells the module has its effect exactly once. */
  lemma OneNoticeInEitherOrder(c: ControlBlock, status: Status, reason: Reason)
    requires (c.state == PollActive || c.state == ListenActive) && BothAwaited(c)
    requires !c.Has(Checking) && reason != DhReqFailed
    ensures var a, b := RspThenNtf(c, status, ToIdle, reason), NtfThenRsp(c, status, ToIdle, reason);
            SameButLog(a, b) && a.notices == b.notices == c.notices + 1
  {
    RspLast(c, status, ToIdle, reason);
    if c.state == PollActive {
      PollNtfLast(c, status, ToIdle, reason);
    } else {
      ListenNtfLast(c, status, ToIdle, reason);
    }
    hide Execute, RspThenNtf, NtfThenRsp;
    var d := Cleared(c);
    var a, b := NotifyDeactivation(d, true, ToIdle, reason), NotifyDeactivation(d, true, ToIdle, DhReq);
    assert SameButLog(a, b);
    hide NotifyDeactivation;
    LogIsOnlyWritten(a, b);
    hide BackToIdle;
  }

  predicate SameButLog(a: ControlBlock, b: ControlBlock) {
    a == b.(log := a.log) && |a.log| == |b.log|
  }

  /** What happens on the way to idle does not depend on what has been logged. */
  lemma LogIsOnlyWritten(a: ControlBlock, b: ControlBlock)
    requires SameButLog(a, b)
    ensures SameButLog(BackToIdle(a), BackToIdle(b))
  {
    NewStateOnlyWrites(a, b);
    StartOnlyWrites(NewState(a, Idle), NewState(b, Idle));
    hide NewState, StartDiscover, SameButLog;
  }

  lemma NewStateOnlyWrites(a: ControlBlock, b: ControlBlock)
    requires SameButLog(a, b)
    ensures SameButLog(NewState(a, Idle), NewState(b, Idle))
  {
  }

  lemma StartOnlyWrites(a: ControlBlock, b: ControlBlock)
    requires SameButLog(a, b)
    ensures SameButLog(StartDiscover(a), StartDiscover(b))
  {
  }

  /** An activation that crosses a deactivation in DISCOVERY leaves no trace: in either order of response
      and notification all is as if it had not happened, and no module is told. */
  lemma RaceLeavesNoTrace(c: ControlBlock, activation: Event, status: Status, kind: DeactType, reason: Reason)
    requires c.state == Discovering && c.Has(W4Rsp) && !c.Has(W4Ntf) && activation.ActivatedNtf?
    ensures RspThenNtf(Execute(c, activation), status, kind, reason) == Execute(c, DeactivateRsp(status))
    ensures NtfThenRsp(Execute(c, activation), status, kind, reason) == Execute(c, DeactivateRsp(status))
    ensures Execute(c, DeactivateRsp(status)).notices == c.notices
  {
    hide BackToIdle;
    assert c.flags + {W4Ntf} - {W4Rsp} - {W4Ntf} == c.flags - {W4Rsp};
    assert c.flags + {W4Ntf} - {W4Ntf} - {W4Rsp} == c.flags - {W4Rsp};
  }

  // ---- runs ----------------------------------------------------------------------------------------

  lemma StepGuarded(c: ControlBlock, op: Op)
    requires Guarded(c)
    ensures Guarded(Step(c, op))
  {
    hide Execute, OnDeactivateCmd, StartDiscover;
  }

  /** Over every run the guard timer runs only while a notification is overdue in an active state. */
  lemma {:induction false} RunGuarded(c: ControlBlock, ops: seq<Op>)
    requires Guarded(c)
    ensures Guarded(Run(c, ops))
  {
    if ops != [] {
      RunGuarded(c, ops[..|ops| - 1]);
      StepGuarded(Run(c, ops[..|ops| - 1]), ops[|ops| - 1]);
    }
  }

  /** So when the timer expires, the controller is always forced to idle, and its response then completes
      the deactivation: the module is told once, and a stop or a restart goes ahead. */
  lemma TimeoutCompletesDeactivation(c: ControlBlock)
    requires Guarded(c) && c.Has(TimerRunning)
    ensures var d := Cleared(c).(state := Idle).Do(SendDeactivate(ToIdle));
            && OnTimeout(c) == d.On({W4Rsp})
            && Execute(OnTimeout(c), DeactivateRsp(Ok)) == BackToIdle(NotifyDeactivation(d, true, ToIdle, DhReq))
  {
    hide BackToIdle, NotifyDeactivation;
    var d := Cleared(c);
    assert c.flags - {TimerRunning} - {W4Ntf} + {W4Rsp} == d.flags + {W4Rsp};
    assert d.flags + {W4Rsp} - {W4Rsp} == d.flags;
  }

  /** A stop that is not merged into one still pending. */
  function Asked(c: ControlBlock, op: Op): nat {
    match op
    case Stop => if c.Has(Stopping) && (c.Has(W4Rsp) || (c.Has(Enabled) && c.state != Idle)) then 0 else 1
    case ReleaseExclusive => if c.Has(Stopping) then 0 else 1
    case _ => 0
  }

  function AskedInAll(c: ControlBlock, ops: seq<Op>): nat {
    if ops == [] then 0
    else AskedInAll(c, ops[..|ops| - 1]) + Asked(Run(c, ops[..|ops| - 1]), ops[|ops| - 1])
  }

  lemma StepAnswers(c: ControlBlock, op: Op)
    ensures var d := Step(c, op); d.answers + Owed(d) == c.answers + Owed(c) + Asked(c, op) && c.answers <= d.answers
  {
    hide Execute, OnDeactivateCmd, StartDiscover, ForceToIdle, SendDeactivateCmd;
  }

  /** Over every run each stop is answered exactly once, or is the one still owed. */
  lemma {:induction false} EveryStopIsAnsweredOnce(c: ControlBlock, ops: seq<Op>)
    ensures var d := Run(c, ops); d.answers + Owed(d) == c.answers + Owed(c) + AskedInAll(c, ops)
  {
    if ops != [] {
      EveryStopIsAnsweredOnce(c, ops[..|ops| - 1]);
      StepAnswers(Run(c, ops[..|ops| - 1]), ops[|ops| - 1]);
    }
  }

  // ---- retries -------------------------------------------------------------------------------------

  /** A deactivation to sleep that fails: the command's response, then the notification of the failure. */
  function FailedSleep(c: ControlBlock): ControlBlock {
    RspThenNtf(c, Ok, ToSleep, DhReqFailed)
  }

  function FailedSleeps(c: ControlBlock, n: nat): ControlBlock {
    if n == 0 then c else FailedSleep(FailedSleeps(c, n - 1))
  }

  /** What the host sends after the failures so far: three times the same again, then discovery. */
  function Reply(retries: nat): Action {
    if retries == 3 then SendDeactivate(ToDiscovery) else SendDeactivate(ToSleep)
  }

  function Replies(n: nat): seq<Action> {
    if n == 0 then [] else Replies(n - 1) + [Reply((n - 1) % 4)]
  }

  lemma FailedSleepIs(c: ControlBlock, n: nat)
    requires c.state == PollActive && BothAwaited(c) && !c.Has(Checking) && c.retries == n % 4
    ensures var d := FailedSleep(c);
            && d.state == PollActive && BothAwaited(d) && !d.Has(Checking)
            && d.retries == (n + 1) % 4 && d.log == c.log + [Reply(n % 4)]
  {
    PollNtfLast(c, Ok, ToSleep, DhReqFailed);
    hide Execute;
    assert (n + 1) % 4 == if n % 4 == 3 then 0 else n % 4 + 1;
  }

  /** However often the controller fails to go to sleep, every fourth reply escalates. */
  lemma {:induction false} EveryFourthRetryEscalates(c: ControlBlock, n: nat)
    requires c.state == PollActive && BothAwaited(c) && !c.Has(Checking) && c.retries == 0
    ensures var d := FailedSleeps(c, n);
            && d.state == PollActive && BothAwaited(d) && !d.Has(Checking)
            && d.retries == n % 4 && d.log == c.log + Replies(n)
  {
    hide FailedSleep, Reply, BothAwaited;
    if n > 0 {
      EveryFourthRetryEscalates(c, n - 1);
      FailedSleepIs(FailedSleeps(c, n - 1), n - 1);
    }
  }

  /** A stop that arrives while a deactivation to sleep is under way sends nothing, and when the tag has
      gone to sleep nothing is outstanding: the stop stays owed until the application acts again. */
  lemma StopDuringSleepIsLeftOwed(c: ControlBlock, reason: Reason)
    requires c.state == PollActive && BothAwaited(c) && c.Has(TimerRunning) && c.Has(Enabled)
    requires !c.Has(Checking) && reason != DhReqFailed
    ensures var d := RspThenNtf(OnStop(c), Ok, ToSleep, reason);
            && d.state == W4HostSelect && Owed(d) == 1 && !d.Has(W4Rsp) && !d.Has(W4Ntf) && !d.Has(TimerRunning)
            && d.log == c.log + [NotifyDeactivated(true, ToSleep, reason, c.handle)]
  {
    var s := OnStop(c);
    assert s == c.Off({Enabled}).On({Stopping});
    PollNtfLast(s, Ok, ToSleep, reason);
    hide Execute, OnStop;
  }

  /** Nothing is left to do in IDLE: no module to tell, no stop or shutdown to complete, no discovery to restart. */
  predicate Settled(c: ControlBlock) {
    && c.Has(Checking) && !c.Has(Stopping) && !c.Has(Disabling)
    && ((!c.Has(Enabled) && !c.Has(ExclusiveEntry)) || (!c.Has(Offered) && !c.Has(Notify) && c.handle == None))
  }

  /** In IDLE, after an activation that was not expected, the order matters as well: a successful response that
      comes first does nothing, and the notification after it does nothing either; one that comes last goes back
      to idle. So the order makes no difference exactly if the response is no success or nothing is left to do. */
  lemma IdleOrderExactly(c: ControlBlock, status: Status, kind: DeactType, reason: Reason)
    requires c.state == Idle && BothAwaited(c)
    ensures RspThenNtf(c, status, kind, reason) == NtfThenRsp(c, status, kind, reason) <==> status != Ok || Settled(c)
    ensures RspThenNtf(c, Ok, kind, reason) == c.Off({W4Rsp, W4Ntf})
  {
    IdleResponseFirst(c, status, kind, reason);
    IdleResponseLast(c, status, kind, reason);
    SettledWithout(c);
    SettledIs(c.Off({W4Rsp, W4Ntf}));
    WithoutNtf(c.Off({W4Rsp}));
    hide *;
  }

  lemma SettledWithout(c: ControlBlock)
    ensures Settled(c.Off({W4Rsp, W4Ntf})) <==> Settled(c)
    ensures c.Off({W4Rsp}).Off({W4Ntf}) == c.Off({W4Rsp, W4Ntf})
    ensures !c.Off({W4Rsp, W4Ntf}).Has(W4Rsp) && c.Off({W4Rsp, W4Ntf}).state == c.state
  {
    assert c.flags - {W4Rsp} - {W4Ntf} == c.flags - {W4Rsp, W4Ntf};
  }

  lemma IdleResponseFirst(c: ControlBlock, status: Status, kind: DeactType, reason: Reason)
    requires c.state == Idle && BothAwaited(c)
    ensures RspThenNtf(c, status, kind, reason)
            == if status == SemanticError then BackToIdle(c.Off({W4Rsp})).Off({W4Ntf}) else c.Off({W4Rsp, W4Ntf})
  {
    assert c.flags - {W4Rsp} - {W4Ntf} == c.Off({W4Rsp, W4Ntf}).flags;
    hide BackToIdle, NotifyDeactivation;
  }

  lemma IdleResponseLast(c: ControlBlock, status: Status, kind: DeactType, reason: Reason)
    requires c.state == Idle && BothAwaited(c)
    ensures var d := c.Off({W4Rsp, W4Ntf});
            NtfThenRsp(c, status, kind, reason)
            == match status
               case Ok => BackToIdle(NotifyDeactivation(d, true, ToIdle, DhReq))
               case SemanticError => BackToIdle(d)
               case Failed => d
  {
    assert c.flags - {W4Ntf} - {W4Rsp} == c.Off({W4Rsp, W4Ntf}).flags;
    hide BackToIdle, NotifyDeactivation;
  }

  lemma SettledIs(c: ControlBlock)
    requires c.state == Idle && !c.Has(W4Rsp)
    ensures BackToIdle(NotifyDeactivation(c, true, ToIdle, DhReq)) == c <==> Settled(c)
  {
    var d := NotifyDeactivation(c, true, ToIdle, DhReq);
    hide BackToIdle;
    if c.Has(Checking) {
      assert d == c;
      QuietInIdle(c);
    } else {
      assert |d.log| == |c.log| + 1;
    }
  }

  lemma QuietInIdle(c: ControlBlock)
    requires c.state == Idle && !c.Has(W4Rsp) && c.Has(Checking)
    ensures BackToIdle(c) == c <==> Settled(c)
  {
    var d := NewState(c, Idle);
    assert c.Has(Stopping) || c.Has(Disabling) ==> |d.log| > |c.log|;
    assert !c.Has(Stopping) && !c.Has(Disabling) ==> d == c;
    var e := StartDiscover(c);
    assert c.Has(Enabled) || c.Has(ExclusiveEntry) ==> (c.Has(Offered) ==> |e.log| > |c.log|);
    hide NewState;
  }

  lemma WithoutNtf(c: ControlBlock)
    ensures BackToIdle(c).Off({W4Ntf}) == BackToIdle(c.Off({W4Ntf}))
  {
    NewStateWithoutNtf(c);
    StartWithoutNtf(NewState(c, Idle));
    hide NewState, StartDiscover;
  }

  lemma NewStateWithoutNtf(c: ControlBlock)
    ensures NewState(c, Idle).Off({W4Ntf}) == NewState(c.Off({W4Ntf}), Idle)
  {
    var d := c.(state := Idle);
    if !c.Has(W4Rsp) && c.Has(Stopping) {
      assert d.Off({Stopping}).Off({W4Ntf}).flags == d.Off({W4Ntf}).Off({Stopping}).flags;
      StoppedWithoutNtf(d.Off({Stopping}), c.state);
      DisabledWithoutNtf(Stopped(d.Off({Stopping}), c.state));
    } else {
      DisabledWithoutNtf(d);
    }
    hide Stopped, Disabled;
  }

  lemma StoppedWithoutNtf(c: ControlBlock, before: State)
    ensures Stopped(c, before).Off({W4Ntf}) == Stopped(c.Off({W4Ntf}), before)
  {
    assert c.flags - {ExclusiveActive, ExclusiveEntry} - {W4Ntf}
           == c.flags - {W4Ntf} - {ExclusiveActive, ExclusiveEntry};
  }

  lemma DisabledWithoutNtf(c: ControlBlock)
    ensures Disabled(c).Off({W4Ntf}) == Disabled(c.Off({W4Ntf}))
  {
    assert c.flags - {Disabling} - {W4Ntf} == c.flags - {W4Ntf} - {Disabling};
  }

  lemma StartWithoutNtf(c: ControlBlock)
    ensures StartDiscover(c).Off({W4Ntf}) == StartDiscover(c.Off({W4Ntf}))
  {
    assert c.flags + {W4Rsp} - {W4Ntf} == c.flags - {W4Ntf} + {W4Rsp};
    assert c.flags - {Notify} - {W4Ntf} == c.flags - {W4Ntf} - {Notify};
  }

  // ---- what becomes of a deactivation, a stop and a shutdown -----------------------------------------

  predicate LowPower(c: ControlBlock) {
    c.state == LpListen || c.state == LpActive
  }

  /** A response or notification is outstanding that can do something when it comes: none can in the low power
      states, and no notification in IDLE and W4_ALL_DISCOVERIES. */
  predicate Expects(c: ControlBlock) {
    !LowPower(c) && (c.Has(W4Rsp) || (c.Has(W4Ntf) && c.state != Idle && c.state != W4AllDiscoveries))
  }

  /** A deactivation is put off to the end of a wake-up. */
  predicate Deferred(c: ControlBlock) {
    (c.state == PollActive || c.state == W4HostSelect) && c.Has(Checking) && c.Has(DeactPending)
  }

  /** The notification of a deactivation to discovery is all that a sleeping link waits for, and the new command
      gives up on it without sending anything. */
  predicate GivesUp(c: ControlBlock, kind: DeactType) {
    && c.state == ListenSleep && c.Has(W4Ntf) && !c.Has(W4Rsp)
    && kind != ToDiscovery && (kind == ToSleep || c.Has(TimerRunning))
  }

  /** A request to deactivate the link that leads to nothing. */
  predicate Unheard(c: ControlBlock, kind: DeactType) {
    || LowPower(c) || GivesUp(c, kind)
    || (c.state == Idle && !c.Has(W4Rsp))
    || (c.state == Discovering && kind != ToIdle && !Expects(c))
  }

  /** After a request to deactivate the link something is under way, or put off, exactly unless the request is
      one that leads to nothing. */
  lemma DeactivationIsUnderwayExactly(c: ControlBlock, kind: DeactType)
    ensures var d := RfDeactivate(c, kind); (Expects(d) || Deferred(d)) <==> !Unheard(c, kind)
  {
  }

  predicate StopIsLost(c: ControlBlock) {
    (LowPower(c) && (c.Has(Enabled) || c.Has(W4Rsp))) || (c.Has(Enabled) && GivesUp(c, ToIdle))
  }

  /** A stop is answered at once, or something is under way or put off to answer it, exactly unless it comes in a
      low power state or makes a sleeping link give up. */
  lemma StopIsTakenUpExactly(c: ControlBlock)
    ensures var d := OnStop(c); (d.answers > c.answers || Expects(d) || Deferred(d)) <==> !StopIsLost(c)
  {
    if c.Has(Enabled) && c.state != Idle {
      DeactivationIsUnderwayExactly(c.Off({Enabled}).On({Stopping}), ToIdle);
      StopCountsNothing(c);
    }
    hide OnDeactivateCmd;
  }

  lemma StopCountsNothing(c: ControlBlock)
    requires c.Has(Enabled) && c.state != Idle
    ensures OnStop(c).answers == c.answers
  {
  }

  predicate ReleaseIsLost(c: ControlBlock) {
    LowPower(c) || (c.state == Idle && !c.Has(W4Rsp)) || GivesUp(c, ToIdle)
  }

  /** The release of exclusive control is taken up exactly unless it comes in IDLE with no response awaited, in a
      low power state, or makes a sleeping link give up. */
  lemma ReleaseIsTakenUpExactly(c: ControlBlock)
    ensures var d := OnReleaseExclusive(c); (Expects(d) || Deferred(d)) <==> !ReleaseIsLost(c)
  {
    DeactivationIsUnderwayExactly(c.On({Stopping}), ToIdle);
    hide RfDeactivate;
  }

  /** Something will be outstanding: the deactivation that a shutdown asks for, or what is so already. */
  predicate ShutdownWaits(c: ControlBlock) {
    match c.state
    case Idle => c.Has(W4Rsp)
    case LpListen | LpActive => c.Has(W4Rsp) || c.Has(W4Ntf)
    case W4HostSelect | PollActive => !c.Has(Checking) || c.Has(W4Rsp) || c.Has(W4Ntf)
    case _ => !GivesUp(c, ToIdle)
  }

  /** Whether a shutdown is left pending shows beforehand. */
  lemma ShutdownWaitsExactly(c: ControlBlock)
    requires c.Has(Enabled) && !c.Has(Disabling)
    ensures OnDisable(c).Has(Disabling) <==> ShutdownWaits(c)
  {
  }

  /** Something has been done since `c` about a stop that is still owed: a response or notification that matters
      is outstanding, or the last thing done was to ask for idle. */
  predicate Pursued(c: ControlBlock, d: ControlBlock) {
    Expects(d) || (|c.log| < |d.log| && d.log[|d.log| - 1] == SendDeactivate(ToIdle))
  }

  predicate ToAnySleep(kind: DeactType) {
    kind == ToSleep || kind == ToSleepAf
  }

  /** A stop or a release makes the link leave. */
  function Leave(c: ControlBlock): ControlBlock {
    RfDeactivate(c.On({Stopping}), ToIdle)
  }

  /** The response comes, if one is outstanding, and then the notification. */
  function NtfLast(s: ControlBlock, kind: DeactType, reason: Reason): ControlBlock {
    Execute(if s.Has(W4Rsp) then Execute(s, DeactivateRsp(Ok)) else s, DeactivateNtf(kind, reason))
  }

  predicate PutOff(c: ControlBlock) {
    c.state == PollActive && c.Has(Checking)
  }

  /** A stop that meets a deactivation whose notification is outstanding, with or without the response. If the
      response comes last the stop is always answered. If the notification comes last it is answered exactly if
      the link goes to idle, or the controller had to be forced there; and it is left owed with nothing done about
      it exactly if the link goes to sleep, and in POLL_ACTIVE with no failure and no wake-up. */
  lemma StopIsLeftOwedExactly(c: ControlBlock, kind: DeactType, reason: Reason)
    requires (c.state == PollActive || c.state == ListenActive) && c.Has(W4Ntf) && c.Has(Enabled)
    ensures OnStop(c).Has(W4Rsp) ==> Owed(NtfThenRsp(OnStop(c), Ok, kind, reason)) == 0
    ensures var d := NtfLast(OnStop(c), kind, reason);
            && (Owed(d) == 0 <==> kind == ToIdle || (!c.Has(TimerRunning) && !PutOff(c)))
            && (Owed(d) == 1 && !Pursued(c, d) <==>
                && ToAnySleep(kind) && c.Has(TimerRunning) && !PutOff(c)
                && (c.state == ListenActive || reason != DhReqFailed))
  {
    StopIsLeave(c);
    LeaveIsLeftOwedExactly(c.Off({Enabled}), kind, reason);
    hide Leave, OnStop, NtfLast, NtfThenRsp;
  }

  /** The same for the release of exclusive control. */
  lemma ReleaseIsLeftOwedExactly(c: ControlBlock, kind: DeactType, reason: Reason)
    requires (c.state == PollActive || c.state == ListenActive) && c.Has(W4Ntf)
    ensures OnReleaseExclusive(c).Has(W4Rsp) ==> Owed(NtfThenRsp(OnReleaseExclusive(c), Ok, kind, reason)) == 0
    ensures var d := NtfLast(OnReleaseExclusive(c), kind, reason);
            && (Owed(d) == 0 <==> kind == ToIdle || (!c.Has(TimerRunning) && !PutOff(c)))
            && (Owed(d) == 1 && !Pursued(c, d) <==>
                && ToAnySleep(kind) && c.Has(TimerRunning) && !PutOff(c)
                && (c.state == ListenActive || reason != DhReqFailed))
  {
    assert OnReleaseExclusive(c) == Leave(c);
    LeaveIsLeftOwedExactly(c, kind, reason);
    hide Leave, OnReleaseExclusive, NtfLast, NtfThenRsp;
  }

  lemma StopIsLeave(c: ControlBlock)
    requires c.Has(Enabled) && c.state != Idle
    ensures OnStop(c) == Leave(c.Off({Enabled}))
  {
    hide RfDeactivate;
  }

  lemma LeaveIsLeftOwedExactly(c: ControlBlock, kind: DeactType, reason: Reason)
    requires (c.state == PollActive || c.state == ListenActive) && c.Has(W4Ntf)
    ensures Leave(c).Has(W4Rsp) ==> Owed(NtfThenRsp(Leave(c), Ok, kind, reason)) == 0
    ensures var d := NtfLast(Leave(c), kind, reason);
            && (Owed(d) == 0 <==> kind == ToIdle || (!c.Has(TimerRunning) && !PutOff(c)))
            && (Owed(d) == 1 && !Pursued(c, d) <==>
                && ToAnySleep(kind) && c.Has(TimerRunning) && !PutOff(c)
                && (c.state == ListenActive || reason != DhReqFailed))
  {
    var s := Leave(c);
    if PutOff(c) {
      StopPutOff(c);
      StopWhileWaking(c, s, kind, reason);
    } else if c.Has(TimerRunning) {
      StopNotSent(c);
      if c.state == PollActive {
        StopWhilePolling(c, s, kind, reason);
      } else {
        StopWhileListening(c, s, kind, reason);
      }
    } else {
      StopForces(c);
      StopWhileForced(s, kind, reason);
    }
    hide Execute, Leave, NtfLast, NtfThenRsp, Pursued;
  }

  lemma StopPutOff(c: ControlBlock)
    requires PutOff(c)
    ensures Leave(c) == c.On({Stopping}).(pendingType := ToIdle).On({DeactPending})
  {
  }

  lemma StopNotSent(c: ControlBlock)
    requires c.state == ListenActive || (c.state == PollActive && !c.Has(Checking))
    requires c.Has(W4Ntf) && c.Has(TimerRunning)
    ensures Leave(c) == c.On({Stopping})
  {
  }

  lemma StopForces(c: ControlBlock)
    requires c.state == ListenActive || (c.state == PollActive && !c.Has(Checking))
    requires c.Has(W4Ntf) && !c.Has(TimerRunning)
    ensures Leave(c) == c.Off({W4Ntf}).On({Stopping, W4Rsp}).(state := Idle).Do(SendDeactivate(ToIdle))
  {
    assert Leave(c).flags == c.flags - {W4Ntf} + {Stopping, W4Rsp};
  }

  lemma PollNtfLastIs(s: ControlBlock, kind: DeactType, reason: Reason)
    requires s.state == PollActive && s.Has(W4Ntf)
    ensures NtfLast(s, kind, reason) == PollDeactivated(Cleared(s), kind, reason)
  {
    if s.Has(W4Rsp) {
      PollNtfLast(s, Ok, kind, reason);
    } else {
      OnlyNtfAwaited(s);
    }
    hide PollDeactivated, BackToIdle, NotifyDeactivation, Cleared;
  }

  lemma ListenNtfLastIs(s: ControlBlock, kind: DeactType, reason: Reason)
    requires s.state == ListenActive && s.Has(W4Ntf)
    ensures NtfLast(s, kind, reason) == ListenDeactivated(Cleared(s), kind, reason)
  {
    if s.Has(W4Rsp) {
      ListenNtfLast(s, Ok, kind, reason);
    } else {
      OnlyNtfAwaited(s);
    }
    hide ListenDeactivated, BackToIdle, NotifyDeactivation, Cleared;
  }

  lemma OnlyNtfAwaited(s: ControlBlock)
    requires !s.Has(W4Rsp)
    ensures s.Off({W4Ntf, TimerRunning}) == Cleared(s)
  {
    assert s.flags - {W4Ntf, TimerRunning} == Cleared(s).flags;
  }

  lemma IdleAnswers(c: ControlBlock)
    ensures Owed(BackToIdle(c)) <= Owed(c) && (!c.Has(W4Rsp) ==> Owed(BackToIdle(c)) == 0)
  {
  }

  lemma NoticeKeepsFlags(c: ControlBlock, kind: DeactType, reason: Reason)
    ensures var d := NotifyDeactivation(c, true, kind, reason);
            d.flags + {DeactNotifyPending} == c.flags + {DeactNotifyPending} && d.state == c.state
  {
  }

  lemma ResponseAnswers(s: ControlBlock, status: Status, kind: DeactType, reason: Reason)
    requires (s.state == PollActive || s.state == ListenActive) && BothAwaited(s)
    ensures Owed(NtfThenRsp(s, status, kind, reason)) == 0
  {
    RspLast(s, status, kind, reason);
    IdleAnswers(NotifyDeactivation(Cleared(s), true, ToIdle, DhReq));
    hide BackToIdle, Execute, NtfThenRsp;
  }

  lemma StopWhileWaking(c: ControlBlock, s: ControlBlock, kind: DeactType, reason: Reason)
    requires PutOff(c) && c.Has(W4Ntf) && s == c.On({Stopping}).(pendingType := ToIdle).On({DeactPending})
    ensures s.Has(W4Rsp) ==> Owed(NtfThenRsp(s, Ok, kind, reason)) == 0
    ensures var d := NtfLast(s, kind, reason);
            (Owed(d) == 0 <==> kind == ToIdle) && (Owed(d) == 1 ==> Pursued(c, d))
  {
    PutOffIs(c, s);
    hide Execute, NtfLast, NtfThenRsp, PollDeactivated, Cleared;
    if s.Has(W4Rsp) {
      ResponseAnswers(s, Ok, kind, reason);
    }
    PollNtfLastIs(s, kind, reason);
    LeaveWhileWaking(Cleared(s), kind, reason);
  }

  lemma PutOffIs(c: ControlBlock, s: ControlBlock)
    requires PutOff(c) && c.Has(W4Ntf) && s == c.On({Stopping}).(pendingType := ToIdle).On({DeactPending})
    ensures s.state == PollActive && s.Has(W4Ntf)
    ensures var d := Cleared(s);
            && d.state == PollActive && d.Has(Checking) && d.Has(DeactPending) && d.Has(Stopping)
            && d.pendingType == ToIdle && !d.Has(W4Rsp) && !d.Has(W4Ntf) && d.log == c.log
  {
  }

  lemma LeaveWhileWaking(c: ControlBlock, kind: DeactType, reason: Reason)
    requires c.state == PollActive && c.Has(Checking) && c.Has(DeactPending)
    requires c.Has(Stopping) && c.pendingType == ToIdle
    requires !c.Has(W4Rsp) && !c.Has(W4Ntf)
    ensures var d := PollDeactivated(c, kind, reason);
            (Owed(d) == 0 <==> kind == ToIdle) && (Owed(d) == 1 ==> Pursued(c, d))
  {
    assert NotifyDeactivation(c, true, kind, reason) == c;
    if ToAnySleep(kind) {
      SleepWhileWaking(c, kind, reason == DhReqFailed);
    }
    IdleAnswers(c);
    WakingEnds(BackToIdle(c));
    DiscoveryWhileWaking(c);
    hide EndSleepWakeup, BackToIdle, PollSleep, NewState, NotifyDeactivation;
  }

  /** In IDLE the end of a wake-up has nothing to deactivate. */
  lemma WakingEnds(c: ControlBlock)
    requires c.state == Idle
    ensures Owed(EndSleepWakeup(c, false)) == Owed(c)
  {
  }

  lemma DiscoveryWhileWaking(c: ControlBlock)
    requires c.state == PollActive && c.Has(Checking) && c.Has(DeactPending)
    requires c.Has(Stopping) && c.pendingType == ToIdle
    ensures var e := NewState(c, Discovering).Do(SendDeactivate(ToIdle));
            var d := EndSleepWakeup(e, false);
            && Owed(e) == Owed(d) == 1 && d.state == Discovering && d.Has(W4Rsp)
            && |c.log| < |e.log| && e.log[|e.log| - 1] == SendDeactivate(ToIdle)
  {
  }

  /** At the end of the wake-up the stop goes out. */
  lemma SleepWhileWaking(c: ControlBlock, kind: DeactType, failed: bool)
    requires c.state == PollActive && c.Has(Checking) && c.Has(DeactPending)
    requires c.Has(Stopping) && c.pendingType == ToIdle
    requires !c.Has(W4Rsp) && !c.Has(W4Ntf) && ToAnySleep(kind)
    ensures var d := PollSleep(c, kind, failed); Owed(d) == 1 && d.Has(W4Rsp) && !LowPower(d)
  {
    WakingSends(c);
    WakingSends(NewState(c.(retries := 0), W4HostSelect));
    var e := EndSleepWakeup(c, true).Do(ReaderDeactivated);
    hide EndSleepWakeup;
    if failed {
      RetryPursues(e, kind);
    }
    hide RetrySleep;
  }

  lemma WakingSends(c: ControlBlock)
    requires (c.state == PollActive || c.state == W4HostSelect) && c.Has(Checking) && c.Has(DeactPending)
    requires c.Has(Stopping) && c.pendingType == ToIdle && !c.Has(W4Rsp) && !c.Has(W4Ntf)
    ensures var d := EndSleepWakeup(c, true);
            Owed(d) == 1 && d.state == c.state && d.Has(W4Rsp) && !d.Has(DeactPending)
  {
  }

  lemma RetryPursues(c: ControlBlock, kind: DeactType)
    requires c.state == PollActive && c.Has(W4Rsp) && c.Has(Stopping)
    ensures var d := RetrySleep(c, kind, true); Owed(d) == 1 && d.Has(W4Rsp) && !LowPower(d)
  {
  }

  lemma StopWhilePolling(c: ControlBlock, s: ControlBlock, kind: DeactType, reason: Reason)
    requires c.state == PollActive && c.Has(W4Ntf) && !c.Has(Checking) && s == c.On({Stopping})
    ensures s.Has(W4Rsp) ==> Owed(NtfThenRsp(s, Ok, kind, reason)) == 0
    ensures var d := NtfLast(s, kind, reason);
            && (Owed(d) == 0 <==> kind == ToIdle)
            && (Owed(d) == 1 && !Pursued(c, d) <==> ToAnySleep(kind) && reason != DhReqFailed)
  {
    if s.Has(W4Rsp) {
      ResponseAnswers(s, Ok, kind, reason);
    }
    PollNtfLastIs(s, kind, reason);
    var d := Cleared(s);
    assert d.log == c.log && d.state == PollActive && d.Has(Stopping) && !d.Has(Checking);
    assert !d.Has(W4Rsp) && !d.Has(W4Ntf);
    hide Execute, NtfLast, NtfThenRsp, Cleared;
    match kind
    case ToSleep => SleepWhilePolling(d, kind, reason);
    case ToSleepAf => SleepWhilePolling(d, kind, reason);
    case ToIdle =>
      IdleAnswers(d);
      IdleAnswers(NotifyDeactivation(d, true, kind, reason));
      WakingEnds(BackToIdle(NotifyDeactivation(d, true, kind, reason)));
      hide BackToIdle, EndSleepWakeup;
    case ToDiscovery =>
      hide BackToIdle, PollSleep;
  }

  lemma SleepWhilePolling(c: ControlBlock, kind: DeactType, reason: Reason)
    requires c.state == PollActive && !c.Has(Checking) && c.Has(Stopping) && !c.Has(W4Rsp) && !c.Has(W4Ntf)
    requires ToAnySleep(kind)
    ensures var d := PollDeactivated(c, kind, reason);
            Owed(d) == 1 && (Pursued(c, d) <==> reason == DhReqFailed)
  {
    hide EndSleepWakeup, BackToIdle;
  }

  lemma StopWhileListening(c: ControlBlock, s: ControlBlock, kind: DeactType, reason: Reason)
    requires c.state == ListenActive && c.Has(W4Ntf) && s == c.On({Stopping})
    ensures s.Has(W4Rsp) ==> Owed(NtfThenRsp(s, Ok, kind, reason)) == 0
    ensures var d := NtfLast(s, kind, reason);
            && (Owed(d) == 0 <==> kind == ToIdle)
            && (Owed(d) == 1 && !Pursued(c, d) <==> ToAnySleep(kind))
  {
    if s.Has(W4Rsp) {
      ResponseAnswers(s, Ok, kind, reason);
    }
    ListenNtfLastIs(s, kind, reason);
    IdleAnswers(NotifyDeactivation(Cleared(s), true, kind, reason));
    hide Execute, NtfLast, NtfThenRsp;
  }

  /** The controller has been forced to idle; only its response matters. */
  lemma StopWhileForced(s: ControlBlock, kind: DeactType, reason: Reason)
    requires s.state == Idle && s.Has(W4Rsp) && !s.Has(W4Ntf) && s.Has(Stopping)
    ensures Owed(NtfThenRsp(s, Ok, kind, reason)) == 0 && Owed(NtfLast(s, kind, reason)) == 0
  {
    ResponseInIdle(s);
    NotificationInIdle(s, kind, reason);
    ResponseInIdle(Execute(s, DeactivateNtf(kind, reason)));
    NotificationInIdle(Execute(s, DeactivateRsp(Ok)), kind, reason);
    hide Execute;
  }

  lemma ResponseInIdle(c: ControlBlock)
    requires c.state == Idle && !c.Has(W4Ntf)
    ensures var d := Execute(c, DeactivateRsp(Ok)); Owed(d) == 0 && d.state == Idle && !d.Has(W4Ntf)
  {
    var d := c.Off({W4Rsp});
    var e := NotifyDeactivation(d, true, ToIdle, DhReq);
    NoticeKeepsFlags(d, ToIdle, DhReq);
    hide BackToIdle, NotifyDeactivation;
    assert W4Rsp !in e.flags + {DeactNotifyPending};
    IdleAnswers(e);
  }

  lemma NotificationInIdle(c: ControlBlock, kind: DeactType, reason: Reason)
    requires c.state == Idle && !c.Has(W4Ntf)
    ensures var d := Execute(c, DeactivateNtf(kind, reason)); Owed(d) <= Owed(c) && d.state == Idle && !d.Has(W4Ntf)
  {
    var e := NotifyDeactivation(c, true, kind, reason);
    NoticeKeepsFlags(c, kind, reason);
    hide BackToIdle, NotifyDeactivation;
    assert Stopping in e.flags ==> Stopping in c.flags + {DeactNotifyPending};
    IdleAnswers(e);
  }

  /** In IDLE with a response awaited, a stop and a release only leave word. With a notification outstanding too,
      the stop is answered exactly if that comes first and the response is not a rejection, or the response tells
      that the controller is idle already; or else nothing has been done about it, and nothing is outstanding. With
      the response alone it is answered exactly if that is not a rejection. */
  lemma StopInIdleExactly(c: ControlBlock, s: ControlBlock, status: Status, kind: DeactType, reason: Reason)
    requires c.state == Idle && c.Has(W4Rsp) && (s == OnStop(c) || s == OnReleaseExclusive(c))
    ensures c.Has(W4Ntf) ==>
              var d := RspThenNtf(s, status, kind, reason);
              && (Owed(d) == 0 <==> status == SemanticError)
              && (Owed(d) == 1 ==> d.log == c.log && !Expects(d))
              && (Owed(NtfThenRsp(s, status, kind, reason)) == 0 <==> status != Failed)
    ensures !c.Has(W4Ntf) ==> (Owed(Execute(s, DeactivateRsp(status))) == 0 <==> status != Failed)
  {
    assert s.state == Idle && s.Has(W4Rsp) && s.Has(Stopping) && s.log == c.log;
    assert s.Has(W4Ntf) <==> c.Has(W4Ntf);
    hide OnStop, OnReleaseExclusive, Execute, RspThenNtf, NtfThenRsp, Expects;
    ResponseToStopInIdle(s, status);
    if c.Has(W4Ntf) {
      BothToStopInIdle(s, status, kind, reason);
    }
  }

  lemma ResponseToStopInIdle(s: ControlBlock, status: Status)
    requires s.state == Idle && s.Has(Stopping)
    ensures Owed(Execute(s, DeactivateRsp(status))) == 0 <==> status == SemanticError || (status == Ok && !s.Has(W4Ntf))
  {
    IdleAnswers(s.Off({W4Rsp}));
    ActiveResponse(s);
    hide BackToIdle, NotifyDeactivation;
  }

  lemma BothToStopInIdle(s: ControlBlock, status: Status, kind: DeactType, reason: Reason)
    requires s.state == Idle && BothAwaited(s) && s.Has(Stopping)
    ensures var d := RspThenNtf(s, status, kind, reason);
            && (Owed(d) == 0 <==> status == SemanticError)
            && (Owed(d) == 1 ==> d.log == s.log && !Expects(d))
            && (Owed(NtfThenRsp(s, status, kind, reason)) == 0 <==> status != Failed)
  {
    ResponseToStopInIdle(s.Off({W4Ntf}), status);
    var e := Execute(s, DeactivateRsp(status));
    if status == SemanticError {
      IdleAnswers(s.Off({W4Rsp}));
      assert e == BackToIdle(s.Off({W4Rsp})) && e.Has(W4Ntf);
    }
    assert Execute(s, DeactivateNtf(kind, reason)) == s.Off({W4Ntf});
    hide BackToIdle, NotifyDeactivation;
  }

  // ---- how a stop gets forgotten ---------------------------------------------------------------------

  /** What the controller still has to say to a deactivation to idle, beyond what the flags tell: nothing; the
      response to one that has been sent; or, in IDLE, the notification that follows a rejection. */
  datatype Debt = NoDebt | Sent | Rejected

  /** The step from `c` to `d` asks the controller for idle. */
  ghost predicate Sends(c: ControlBlock, d: ControlBlock) {
    exists i :: |c.log| <= i < |d.log| && d.log[i] == SendDeactivate(ToIdle)
  }

  ghost function Next(p: Debt, c: ControlBlock, d: ControlBlock, op: Op): Debt {
    if Sends(c, d) then Sent
    else if op.Input? && op.event.DeactivateRsp? then
      if p == Sent && op.event.status == Failed then Rejected else NoDebt
    else if op.Input? && op.event.DeactivateNtf? && p == Rejected then NoDebt
    else p
  }

  predicate InHand(c: ControlBlock) {
    Expects(c) || Deferred(c)
  }

  predicate Due(c: ControlBlock, p: Debt) {
    (p == Sent && !LowPower(c)) || (p == Rejected && c.state == Idle && !c.Has(W4Ntf))
  }

  /** A stop is owed, and nothing that is to come can answer it. */
  predicate Forgotten(c: ControlBlock, p: Debt) {
    Owed(c) == 1 && !InHand(c) && !Due(c, p)
  }

  /** The events that make the manager forget the stop it owes: in IDLE a response while a notification is
      outstanding too, or one that rejects something else than a deactivation to idle; low power; a target found
      while only a notification is outstanding; a link that goes to sleep, unless that fails or ends a wake-up
      with a deactivation put off; a sleeping link that goes back to discovery. */
  predicate ForgetsOn(c: ControlBlock, p: Debt, e: Event) {
    match c.state
    case Idle =>
      || e.LpListenCmd?
      || (e.DeactivateRsp? && e.status == Ok && c.Has(W4Ntf))
      || (e.DeactivateRsp? && e.status == Failed && (p != Sent || c.Has(W4Ntf)))
    case Discovering => p != Sent && e.DiscoverNtf? && e.more != LastAbort && !c.Has(W4Rsp)
    case PollActive =>
      && p != Sent && e.DeactivateNtf? && !c.Has(W4Rsp) && ToAnySleep(e.kind) && e.reason != DhReqFailed && !Deferred(c)
    case ListenActive => p != Sent && e.DeactivateNtf? && !c.Has(W4Rsp) && ToAnySleep(e.kind)
    case ListenSleep => p != Sent && e.DeactivateNtf? && e.kind == ToDiscovery
    case _ => false
  }

  /** The requests that do: those that make a sleeping link give up the notification it waits for. */
  predicate Forgets(c: ControlBlock, p: Debt, op: Op) {
    match op
    case Input(e) => if e.DeactivateCmd? then p != Sent && GivesUp(c, e.kind) else ForgetsOn(c, p, e)
    case Deactivate(kind) => p != Sent && GivesUp(c, kind)
    case Stop | Disable => p != Sent && c.Has(Enabled) && GivesUp(c, ToIdle)
    case ReleaseExclusive => p != Sent && GivesUp(c, ToIdle)
    case _ => false
  }

  /** A new stop or release that is forgotten at once. */
  predicate ForgetsNew(c: ControlBlock, p: Debt, op: Op) {
    match op
    case Stop => StopIsLost(c) && !Due(c, p)
    case ReleaseExclusive => ReleaseIsLost(c) && !Due(c, p)
    case _ => false
  }

  lemma ForgetsInIdle(c: ControlBlock, p: Debt, e: Event)
    requires c.state == Idle && Owed(c) == 1 && !Forgotten(c, p) && !e.DeactivateCmd?
    ensures var d := InIdle(c, e); Forgotten(d, Next(p, c, d, Input(e))) <==> ForgetsOn(c, p, e)
  {
    if e.DeactivateRsp? {
      ForgetsIdleResponse(c, p, e);
    } else if e.DeactivateNtf? {
      ForgetsIdleNotification(c, p, e);
    }
    hide NotifyDeactivation, BackToIdle, Sends;
  }

  lemma ForgetsIdleResponse(c: ControlBlock, p: Debt, e: Event)
    requires c.state == Idle && Owed(c) == 1 && !Forgotten(c, p) && e.DeactivateRsp?
    ensures var d := InIdle(c, e); Forgotten(d, Next(p, c, d, Input(e))) <==> ForgetsOn(c, p, e)
  {
    var a := c.Off({W4Rsp});
    IdleAnswers(a);
    ActiveResponse(c);
    hide BackToIdle, NotifyDeactivation;
  }

  lemma ForgetsIdleNotification(c: ControlBlock, p: Debt, e: Event)
    requires c.state == Idle && Owed(c) == 1 && !Forgotten(c, p) && e.DeactivateNtf?
    ensures var d := InIdle(c, e); Forgotten(d, Next(p, c, d, Input(e))) <==> ForgetsOn(c, p, e)
  {
    var d := InIdle(c, e);
    var b := NotifyDeactivation(c, true, e.kind, e.reason);
    NoticeIs(c, e.kind, e.reason);
    IdleAnswers(b);
    IdleStillExpects(b);
    assert c.Has(W4Rsp) ==> Expects(d);
    assert !c.Has(W4Rsp) ==> !c.Has(W4Ntf) || p == Sent;
    assert p == Sent ==> Next(p, c, d, Input(e)) == Sent;
    hide BackToIdle, NotifyDeactivation, Sends;
  }

  lemma IdleStillExpects(c: ControlBlock)
    ensures c.Has(W4Rsp) ==> BackToIdle(c).Has(W4Rsp)
  {
  }

  lemma ForgetsInDiscovery(c: ControlBlock, p: Debt, e: Event)
    requires c.state == Discovering && Owed(c) == 1 && !Forgotten(c, p) && !e.DeactivateCmd?
    ensures var d := InDiscovery(c, e); Forgotten(d, Next(p, c, d, Input(e))) <==> ForgetsOn(c, p, e)
  {
    IdleAnswers(c.Off({W4Rsp}));
    IdleAnswers(c.Off({W4Ntf}));
    hide BackToIdle;
  }

  lemma ForgetsInW4AllDiscoveries(c: ControlBlock, p: Debt, e: Event)
    requires c.state == W4AllDiscoveries && Owed(c) == 1 && !Forgotten(c, p) && !e.DeactivateCmd?
    ensures var d := InW4AllDiscoveries(c, e); !Forgotten(d, Next(p, c, d, Input(e)))
  {
    IdleAnswers(NotifyDeactivation(c.Off({W4Rsp}), false, ToIdle, DhReq));
    hide BackToIdle;
  }

  lemma CommandForgets(c: ControlBlock, p: Debt, kind: DeactType, op: Op)
    requires Owed(c) == 1 && !Forgotten(c, p) && (op.Input? ==> op.event.DeactivateCmd?)
    ensures var d := OnDeactivateCmd(c, kind); Forgotten(d, Next(p, c, d, op)) <==> p != Sent && GivesUp(c, kind)
  {
    var d := OnDeactivateCmd(c, kind);
    CommandInHand(c, kind);
    if GivesUp(c, kind) {
      assert d.log == c.log;
    }
    assert p == Sent ==> Next(p, c, d, op) == Sent;
    hide OnDeactivateCmd, Sends;
  }

  /** What a command to deactivate leaves in hand. */
  lemma CommandInHand(c: ControlBlock, kind: DeactType)
    ensures var d := OnDeactivateCmd(c, kind);
            && (Owed(d) == 1 <==> Owed(c) == 1) && (LowPower(d) <==> LowPower(c))
            && (InHand(d) <==> if c.state == Idle || LowPower(c) then InHand(c) else !GivesUp(c, kind))
            && (c.state == Idle ==> d == c)
  {
  }

  /** A wake-up that ends carries out what was put off. */
  lemma WakeupInHand(c: ControlBlock, ok: bool)
    requires c.state == PollActive || c.state == W4HostSelect
    requires InHand(c)
    ensures var d := EndSleepWakeup(c, ok); InHand(d)
  {
    if c.Has(Checking) && c.Has(DeactPending) {
      var e := c.Off({Checking}).Do(WakeupDone(ok)).Off({DeactPending}).On({DeactNotifyPending});
      CommandInHand(e, c.pendingType);
    }
    hide OnDeactivateCmd;
  }

  lemma WakeupKeepsDebt(c: ControlBlock, ok: bool)
    ensures var d := EndSleepWakeup(c, ok); Owed(d) <= 1 && (LowPower(d) <==> LowPower(c))
  {
    if c.Has(Checking) && c.Has(DeactPending) {
      var e := c.Off({Checking}).Do(WakeupDone(ok)).Off({DeactPending}).On({DeactNotifyPending});
      CommandInHand(e, c.pendingType);
    }
    hide OnDeactivateCmd;
  }

  lemma ForgetsInW4HostSelect(c: ControlBlock, p: Debt, e: Event)
    requires c.state == W4HostSelect && Owed(c) == 1 && !Forgotten(c, p) && !e.DeactivateCmd?
    ensures var d := InW4HostSelect(c, e); !Forgotten(d, Next(p, c, d, Input(e)))
  {
    var d := InW4HostSelect(c, e);
    if e.DeactivateRsp? {
      IdleAnswers(NotifyDeactivation(c.Off({W4Rsp}), false, ToIdle, DhReq));
      hide BackToIdle;
    } else if e.ActivatedNtf? {
      var a := NotifyActivation(NewState(c, PollActive), e.interface, e.handle);
      assert InHand(c) ==> InHand(a);
      if InHand(c) { WakeupInHand(a, true); }
      WakeupKeepsDebt(a, true);
      hide EndSleepWakeup;
    } else {
      var a := if e.SelectRsp? && !c.Has(Checking) then AppNotified(c, e.status == Ok) else c;
      if InHand(c) { WakeupInHand(a, false); }
      WakeupKeepsDebt(a, false);
      hide EndSleepWakeup;
    }
  }

  /** How a link that has been left treats a stop that is owed. */
  ghost predicate Leaves(c: ControlBlock, d: ControlBlock, kind: DeactType, pursued: bool) {
    match kind
    case ToIdle => Owed(d) == 0
    case ToDiscovery => Sends(c, d) && !LowPower(d)
    case ToSleep | ToSleepAf =>
      Owed(d) == 1 && !LowPower(d) && if pursued then InHand(d) else d.state != Idle && !InHand(d) && !Sends(c, d)
  }

  lemma ListenLeaves(c: ControlBlock, kind: DeactType, reason: Reason)
    requires c.state == ListenActive && c.Has(Stopping) && !c.Has(W4Rsp) && !c.Has(W4Ntf)
    ensures Leaves(c, ListenDeactivated(c, kind, reason), kind, false)
  {
    var d := ListenDeactivated(c, kind, reason);
    NoticeKeepsFlags(c, kind, reason);
    IdleAnswers(NotifyDeactivation(c, true, kind, reason));
    if kind == ToDiscovery {
      assert d.log[|d.log| - 1] == SendDeactivate(ToIdle);
    }
    hide BackToIdle;
  }

  lemma ForgetsInListenActive(c: ControlBlock, p: Debt, e: Event)
    requires c.state == ListenActive && Owed(c) == 1 && !Forgotten(c, p) && !e.DeactivateCmd?
    ensures var d := InListenActive(c, e); Forgotten(d, Next(p, c, d, Input(e))) <==> ForgetsOn(c, p, e)
  {
    ActiveResponse(c);
    if e.DeactivateNtf? && !c.Has(W4Rsp) {
      ListenLeaves(c.Off({W4Ntf, TimerRunning}), e.kind, e.reason);
      SameSends(c, c.Off({W4Ntf, TimerRunning}), InListenActive(c, e));
    }
    hide BackToIdle, ListenDeactivated, NotifyDeactivation, Sends;
  }

  lemma SameSends(a: ControlBlock, b: ControlBlock, d: ControlBlock)
    requires a.log == b.log
    ensures Sends(a, d) <==> Sends(b, d)
  {
  }

  /** The response of a link that has been left already answers. */
  lemma ActiveResponse(c: ControlBlock)
    ensures Owed(BackToIdle(NotifyDeactivation(c.Off({W4Rsp}), true, ToIdle, DhReq))) == 0
  {
    IdleAnswers(NotifyDeactivation(c.Off({W4Rsp}), true, ToIdle, DhReq));
    hide BackToIdle;
  }

  lemma PollLeaves(c: ControlBlock, kind: DeactType, reason: Reason)
    requires c.state == PollActive && c.Has(Stopping) && !c.Has(W4Rsp) && !c.Has(W4Ntf)
    ensures Leaves(c, PollDeactivated(c, kind, reason), kind, reason == DhReqFailed || Deferred(c))
  {
    var a := if reason == DhReqFailed then c else NotifyDeactivation(c, true, kind, reason);
    NoticeIs(c, kind, reason);
    hide NotifyDeactivation;
    match kind
    case ToSleep => PollSleepLeaves(c, a, kind, reason == DhReqFailed);
    case ToSleepAf => PollSleepLeaves(c, a, kind, reason == DhReqFailed);
    case ToIdle =>
      IdleAnswers(a);
      WakingEnds(BackToIdle(a));
      hide BackToIdle, EndSleepWakeup;
    case ToDiscovery => PollDiscoveryLeaves(c, a, reason == DhReqFailed);
  }

  lemma NoticeIs(c: ControlBlock, kind: DeactType, reason: Reason)
    ensures var d := NotifyDeactivation(c, true, kind, reason);
            && d.state == c.state && d.pendingType == c.pendingType && d.retries == c.retries
            && (c.Has(Checking) ==> d == c)
            && (!c.Has(Checking) ==>
                  && d.flags == c.flags - {DeactNotifyPending}
                  && d.log == c.log + [NotifyDeactivated(true, kind, reason, c.handle)])
  {
  }

  lemma PollDiscoveryLeaves(c: ControlBlock, a: ControlBlock, failed: bool)
    requires a.state == PollActive && a.Has(Stopping) && c.log <= a.log
    ensures var e := NewState(a, Discovering).Do(SendDeactivate(ToIdle));
            var d := if failed then e else EndSleepWakeup(e, false);
            Sends(c, d) && !LowPower(d)
  {
    var e := NewState(a, Discovering).Do(SendDeactivate(ToIdle));
    assert e.log[|a.log|] == SendDeactivate(ToIdle);
    LogGrows(e);
    WakeupKeepsDebt(e, false);
    hide EndSleepWakeup;
  }

  lemma LogGrows(c: ControlBlock)
    requires c.state == Discovering
    ensures c.log <= EndSleepWakeup(c, false).log
  {
  }

  lemma PollSleepLeaves(c: ControlBlock, a: ControlBlock, kind: DeactType, failed: bool)
    requires a.state == PollActive && a.Has(Stopping) && !a.Has(W4Rsp) && !a.Has(W4Ntf) && ToAnySleep(kind)
    requires Deferred(a) <==> Deferred(c)
    requires a.log == c.log || (|a.log| == |c.log| + 1 && c.log <= a.log && a.log[|c.log|].NotifyDeactivated?)
    ensures Leaves(c, PollSleep(a, kind, failed), kind, failed || Deferred(c))
  {
    var b := if failed then a else a.(retries := 0, state := W4HostSelect);
    var e :=
      if !a.Has(Checking) then b
      else if b.Has(DeactPending) then EndSleepWakeup(b, true).Do(ReaderDeactivated)
      else b.Do(SendSelect);
    PollSleepIs(a, kind, failed);
    if a.Has(Checking) && a.Has(DeactPending) {
      WakeupSends(b);
    }
    if failed {
      RetryInHand(e, kind, a.Has(Checking));
    }
    hide EndSleepWakeup, PollSleep, RetrySleep;
  }

  lemma PollSleepIs(a: ControlBlock, kind: DeactType, failed: bool)
    ensures var b := if failed then a else NewState(a.(retries := 0), W4HostSelect);
            var e :=
              if !a.Has(Checking) then b
              else if b.Has(DeactPending) then EndSleepWakeup(b, true).Do(ReaderDeactivated)
              else b.Do(SendSelect);
            PollSleep(a, kind, failed) == if failed then RetrySleep(e, kind, a.Has(Checking)) else e
  {
  }

  lemma WakeupSends(c: ControlBlock)
    requires (c.state == PollActive || c.state == W4HostSelect) && c.Has(Checking) && c.Has(DeactPending)
    requires c.Has(Stopping) && !c.Has(W4Rsp) && !c.Has(W4Ntf)
    ensures var d := EndSleepWakeup(c, true);
            Owed(d) == 1 && d.state == c.state && d.Has(W4Rsp) && !d.Has(DeactPending)
  {
  }

  lemma RetryInHand(c: ControlBlock, kind: DeactType, checking: bool)
    requires c.state == PollActive && c.Has(Stopping) && (checking ==> !c.Has(DeactPending))
    requires (!c.Has(W4Rsp) && !c.Has(W4Ntf)) || c.Has(W4Rsp)
    ensures var d := RetrySleep(c, kind, checking); Owed(d) == 1 && d.Has(W4Rsp) && !LowPower(d)
  {
  }

  lemma ForgetsInPollActive(c: ControlBlock, p: Debt, e: Event)
    requires c.state == PollActive && Owed(c) == 1 && !Forgotten(c, p) && !e.DeactivateCmd?
    ensures var d := InPollActive(c, e); Forgotten(d, Next(p, c, d, Input(e))) <==> ForgetsOn(c, p, e)
  {
    ActiveResponse(c);
    if e.DeactivateNtf? {
      ForgetsWhenPollEnds(c, p, e);
    }
    hide BackToIdle, PollDeactivated, NotifyDeactivation, Sends;
  }

  lemma ForgetsWhenPollEnds(c: ControlBlock, p: Debt, e: Event)
    requires c.state == PollActive && Owed(c) == 1 && !Forgotten(c, p) && e.DeactivateNtf?
    ensures var d := InPollActive(c, e); Forgotten(d, Next(p, c, d, Input(e))) <==> ForgetsOn(c, p, e)
  {
    var a := c.Off({W4Ntf, TimerRunning});
    assert InPollActive(c, e) == if c.Has(W4Rsp) then a else PollDeactivated(a, e.kind, e.reason);
    hide InPollActive, PollDeactivated, Sends;
    if !c.Has(W4Rsp) {
      PollLeaves(a, e.kind, e.reason);
      SameSends(c, a, PollDeactivated(a, e.kind, e.reason));
    }
  }

  lemma ForgetsInListenSleep(c: ControlBlock, p: Debt, e: Event)
    requires c.state == ListenSleep && Owed(c) == 1 && !Forgotten(c, p) && !e.DeactivateCmd?
    ensures var d := InListenSleep(c, e); Forgotten(d, Next(p, c, d, Input(e))) <==> ForgetsOn(c, p, e)
  {
    SilentResponse(c);
    if e.DeactivateNtf? {
      ForgetsWhenSleepEnds(c, p, e);
    }
    hide BackToIdle, NotifyDeactivation, Sends;
  }

  lemma ForgetsWhenSleepEnds(c: ControlBlock, p: Debt, e: Event)
    requires c.state == ListenSleep && Owed(c) == 1 && !Forgotten(c, p) && e.DeactivateNtf?
    ensures var d := InListenSleep(c, e); Forgotten(d, Next(p, c, d, Input(e))) <==> ForgetsOn(c, p, e)
  {
    IdleAnswers(NotifyDeactivation(c.Off({W4Rsp, W4Ntf, TimerRunning}), false, e.kind, e.reason));
    hide BackToIdle;
  }

  lemma EventForgets(c: ControlBlock, p: Debt, e: Event)
    requires Owed(c) == 1 && !Forgotten(c, p)
    ensures var d := Execute(c, e); Forgotten(d, Next(p, c, d, Input(e))) <==> Forgets(c, p, Input(e))
  {
    if e.DeactivateCmd? {
      CommandForgets(c, p, e.kind, Input(e));
    } else {
      match c.state
      case Idle => ForgetsInIdle(c, p, e);
      case Discovering => ForgetsInDiscovery(c, p, e);
      case W4AllDiscoveries => ForgetsInW4AllDiscoveries(c, p, e);
      case W4HostSelect => ForgetsInW4HostSelect(c, p, e);
      case PollActive => ForgetsInPollActive(c, p, e);
      case ListenActive => ForgetsInListenActive(c, p, e);
      case ListenSleep => ForgetsInListenSleep(c, p, e);
      case _ =>
    }
    hide InIdle, InDiscovery, InW4AllDiscoveries, InW4HostSelect, InPollActive, InListenActive, InListenSleep,
      InLpListen, InLpActive, OnDeactivateCmd, Next, Forgotten, GivesUp;
  }

  /** A request to deactivate a link with other flags changed that do not matter to it. */
  lemma RequestForgets(c: ControlBlock, b: ControlBlock, p: Debt, kind: DeactType, op: Op)
    requires Owed(c) == 1 && !Forgotten(c, p) && !op.Input?
    requires b.state == c.state && b.log == c.log && Owed(b) == 1
    requires forall f :: f in {W4Rsp, W4Ntf, Checking, DeactPending, TimerRunning} ==> (f in b.flags <==> f in c.flags)
    ensures var d := RfDeactivate(b, kind); Forgotten(d, Next(p, c, d, op)) <==> p != Sent && GivesUp(c, kind)
  {
    assert !Forgotten(b, p) && (GivesUp(b, kind) <==> GivesUp(c, kind));
    CommandForgets(b, p, kind, op);
    SameSends(c, b, OnDeactivateCmd(b, kind));
    SameSends(c, b, b);
    hide OnDeactivateCmd, Sends;
  }

  /** The manager forgets the stop it owes exactly by the events and requests listed, and a new stop or release
      exactly if it is one of those that are lost. */
  lemma StepForgetsExactly(c: ControlBlock, p: Debt, op: Op)
    requires !Forgotten(c, p)
    ensures var d := Step(c, op);
            Forgotten(d, Next(p, c, d, op)) <==> if Owed(c) == 1 then Forgets(c, p, op) else ForgetsNew(c, p, op)
  {
    if Owed(c) == 0 {
      NewStopForgets(c, p, op);
    } else {
      match op
      case Input(e) => EventForgets(c, p, e);
      case Timeout => TimeoutForgets(c, p);
      case SleepWakeup => SleepForgets(c, p);
      case Deactivate(kind) => RequestForgets(c, c, p, kind, op);
      case Start => StartForgets(c, p);
      case Stop => StopForgets(c, p);
      case Disable => DisableForgets(c, p);
      case RequestExclusive => StartForgets(c, p);
      case ReleaseExclusive => ReleaseForgets(c, p);
      case Offer(any) => OfferForgets(c, p, any);
    }
    hide Step, Next, Forgotten, Forgets, ForgetsNew;
  }

  lemma TimeoutForgets(c: ControlBlock, p: Debt)
    requires Owed(c) == 1 && !Forgotten(c, p)
    ensures var d := Step(c, Timeout); !Forgotten(d, Next(p, c, d, Timeout))
  {
  }

  lemma SleepForgets(c: ControlBlock, p: Debt)
    requires Owed(c) == 1 && !Forgotten(c, p)
    ensures var d := Step(c, SleepWakeup); !Forgotten(d, Next(p, c, d, SleepWakeup))
  {
  }

  lemma OfferForgets(c: ControlBlock, p: Debt, any: bool)
    requires Owed(c) == 1 && !Forgotten(c, p)
    ensures var d := Step(c, Offer(any)); !Forgotten(d, Next(p, c, d, Offer(any)))
  {
  }

  lemma StartForgets(c: ControlBlock, p: Debt)
    requires Owed(c) == 1 && !Forgotten(c, p)
    ensures var d := Step(c, Start); !Forgotten(d, Next(p, c, d, Start))
    ensures var d := Step(c, RequestExclusive); !Forgotten(d, Next(p, c, d, RequestExclusive))
  {
    hide Sends;
  }

  lemma StopForgets(c: ControlBlock, p: Debt)
    requires Owed(c) == 1 && !Forgotten(c, p)
    ensures var d := Step(c, Stop); Forgotten(d, Next(p, c, d, Stop)) <==> Forgets(c, p, Stop)
  {
    if c.Has(Enabled) && c.state != Idle {
      RequestForgets(c, c.Off({Enabled}).On({Stopping}), p, ToIdle, Stop);
    }
    hide RfDeactivate, Sends;
  }

  lemma DisableForgets(c: ControlBlock, p: Debt)
    requires Owed(c) == 1 && !Forgotten(c, p)
    ensures var d := Step(c, Disable); Forgotten(d, Next(p, c, d, Disable)) <==> Forgets(c, p, Disable)
  {
    if c.Has(Enabled) && c.state != Idle {
      var b := c.Off({Enabled}).On({Disabling});
      RequestForgets(c, b, p, ToIdle, Disable);
      assert RfDeactivate(b, ToIdle) == OnDeactivateCmd(b, ToIdle);
      SameSends(c, c, OnDeactivateCmd(b, ToIdle));
    }
    hide RfDeactivate, OnDeactivateCmd, Sends;
  }

  lemma ReleaseForgets(c: ControlBlock, p: Debt)
    requires Owed(c) == 1 && !Forgotten(c, p)
    ensures var d := Step(c, ReleaseExclusive);
            Forgotten(d, Next(p, c, d, ReleaseExclusive)) <==> Forgets(c, p, ReleaseExclusive)
  {
    RequestForgets(c, c.On({Stopping}), p, ToIdle, ReleaseExclusive);
    hide RfDeactivate, Sends;
  }

  lemma NewStopForgets(c: ControlBlock, p: Debt, op: Op)
    requires Owed(c) == 0
    ensures var d := Step(c, op); Forgotten(d, Next(p, c, d, op)) <==> ForgetsNew(c, p, op)
  {
    StepAnswers(c, op);
    if op == Stop {
      StopIsTakenUpExactly(c);
      NewStopSends(c);
    } else if op == ReleaseExclusive {
      ReleaseIsTakenUpExactly(c);
      NewStopSends(c);
    }
    hide Execute, OnStart, OnStop, OnDisable, OnRequestExclusive, OnReleaseExclusive, OnSleepWakeup, RfDeactivate,
      OnTimeout, Sends, InHand, StopIsLost, ReleaseIsLost;
  }

  ghost predicate LeftAlone(c: ControlBlock, d: ControlBlock) {
    !Sends(c, d) && Owed(d) == 1 && d.state == c.state && (c.state == Idle ==> (d.Has(W4Ntf) <==> c.Has(W4Ntf)))
  }

  /** What is lost sends nothing and leaves the state as it is. */
  lemma NewStopSends(c: ControlBlock)
    requires Owed(c) == 0
    ensures StopIsLost(c) ==> LeftAlone(c, OnStop(c))
    ensures ReleaseIsLost(c) ==> LeftAlone(c, OnReleaseExclusive(c))
  {
  }

  /** A run, with what the controller still has to say. */
  ghost function History(c: ControlBlock, p: Debt, ops: seq<Op>): (r: (ControlBlock, Debt))
    ensures r.0 == Run(c, ops)
  {
    if ops == [] then (c, p)
    else
      var (b, q) := History(c, p, ops[..|ops| - 1]);
      var d := Step(b, ops[|ops| - 1]);
      (d, Next(q, b, d, ops[|ops| - 1]))
  }

  ghost predicate ForgottenAfter(c: ControlBlock, p: Debt, ops: seq<Op>) {
    var (b, q) := History(c, p, ops);
    Forgotten(b, q)
  }

  /** Step `n` of a run is one of those that make the manager forget. */
  ghost predicate ForgetsAt(c: ControlBlock, p: Debt, ops: seq<Op>, n: nat)
    requires n < |ops|
  {
    var (b, q) := History(c, p, ops[..n]);
    if Owed(b) == 1 then Forgets(b, q, ops[n]) else ForgetsNew(b, q, ops[n])
  }

  lemma LastStepForgets(c: ControlBlock, p: Debt, ops: seq<Op>)
    requires ops != []
    ensures !ForgottenAfter(c, p, ops[..|ops| - 1]) ==>
              (ForgottenAfter(c, p, ops) <==> ForgetsAt(c, p, ops, |ops| - 1))
  {
    var (b, q) := History(c, p, ops[..|ops| - 1]);
    if !Forgotten(b, q) {
      StepForgetsExactly(b, q, ops[|ops| - 1]);
    }
    hide Step, Next, Forgotten, Forgets, ForgetsNew;
  }

  lemma NothingSince(c: ControlBlock, p: Debt, ops: seq<Op>)
    ensures ForgottenAfter(c, p, []) <==> Forgotten(c, p)
  {
  }

  lemma SameStepForgets(c: ControlBlock, p: Debt, before: seq<Op>, ops: seq<Op>, n: nat)
    requires before <= ops && n < |before|
    ensures ForgetsAt(c, p, ops, n) <==> ForgetsAt(c, p, before, n)
  {
    assert before[..n] == ops[..n];
    hide History, Forgets, ForgetsNew;
  }

  /** A stop that is forgotten at the end of a run has been so since one of the steps listed. */
  lemma {:induction false} ForgottenSince(c: ControlBlock, p: Debt, ops: seq<Op>) returns (n: nat)
    requires !Forgotten(c, p) && ForgottenAfter(c, p, ops)
    ensures n < |ops| && !ForgottenAfter(c, p, ops[..n]) && ForgetsAt(c, p, ops, n)
    ensures forall m :: n < m <= |ops| ==> ForgottenAfter(c, p, ops[..m])
  {
    NothingSince(c, p, ops);
    hide *;
    var last := |ops| - 1;
    var before := ops[..last];
    assert ops[..|ops|] == ops;
    if ForgottenAfter(c, p, before) {
      n := ForgottenSince(c, p, before);
      assert before[..n] == ops[..n];
      SameStepForgets(c, p, before, ops, n);
      forall m | n < m <= |ops|
        ensures ForgottenAfter(c, p, ops[..m])
      {
        assert m <= last ==> before[..m] == ops[..m];
      }
    } else {
      n := last;
      LastStepForgets(c, p, ops);
    }
  }

  /** A stop that is owed and not forgotten can still be answered: by the notification and the response to come;
      after the end of the wake-up, or of the link; or by what the controller says to the deactivation that has
      been sent. */
  lemma CanStillBeAnswered(c: ControlBlock, p: Debt)
    requires Owed(c) == 1 && !Forgotten(c, p)
    ensures if Expects(c) then
              var d := if c.Has(W4Ntf) then Execute(c, DeactivateNtf(ToIdle, DhReq)) else c;
              Owed(d) == 0 || Owed(Execute(d, DeactivateRsp(Ok))) == 0
            else if Deferred(c) && c.state == W4HostSelect then
              Owed(Execute(Execute(c, SelectRsp(Failed)), DeactivateRsp(Ok))) == 0
            else if Deferred(c) || p == Rejected then Owed(Execute(c, DeactivateNtf(ToIdle, RfLinkLoss))) == 0
            else Owed(Execute(c, DeactivateRsp(if c.state == Idle && c.Has(W4Ntf) then SemanticError else Ok))) == 0
  {
    if Expects(c) {
      AnsweredIfExpected(c);
    } else if Deferred(c) && c.state == W4HostSelect {
      SelectionFails(c);
      ResponseIsTheAnswer(Execute(c, SelectRsp(Failed)));
      hide Execute;
    } else if Deferred(c) {
      PollLeaves(c.Off({W4Ntf, TimerRunning}), ToIdle, RfLinkLoss);
      hide PollDeactivated;
    } else if p == Rejected {
      NoticeIs(c, ToIdle, RfLinkLoss);
      IdleAnswers(NotifyDeactivation(c, true, ToIdle, RfLinkLoss));
      hide BackToIdle, NotifyDeactivation;
    } else {
      ResponseIsTheAnswer(c);
      hide Execute;
    }
  }

  /** A response goes back to idle unless a notification is outstanding. */
  lemma ResponseIsTheAnswer(c: ControlBlock)
    requires !LowPower(c)
    ensures !c.Has(W4Ntf) || c.state == W4AllDiscoveries || c.state == W4HostSelect ==>
              Owed(Execute(c, DeactivateRsp(Ok))) == 0
    ensures c.state == Idle ==> Owed(Execute(c, DeactivateRsp(SemanticError))) == 0
  {
    ActiveResponse(c);
    IdleAnswers(c.Off({W4Rsp}));
    SilentResponse(c);
    hide BackToIdle, NotifyDeactivation;
  }

  lemma SilentResponse(c: ControlBlock)
    ensures Owed(BackToIdle(NotifyDeactivation(c.Off({W4Rsp}), false, ToIdle, DhReq))) == 0
  {
    IdleAnswers(NotifyDeactivation(c.Off({W4Rsp}), false, ToIdle, DhReq));
    hide BackToIdle;
  }

  lemma SelectionFails(c: ControlBlock)
    requires c.state == W4HostSelect && c.Has(Checking) && c.Has(DeactPending)
    ensures Execute(c, SelectRsp(Failed)).state == W4HostSelect
  {
  }

  lemma AnsweredIfExpected(c: ControlBlock)
    requires Owed(c) == 1 && Expects(c)
    ensures var d := if c.Has(W4Ntf) then Execute(c, DeactivateNtf(ToIdle, DhReq)) else c;
            Owed(d) == 0 || Owed(Execute(d, DeactivateRsp(Ok))) == 0
  {
    if c.Has(W4Ntf) {
      NotificationComes(c);
      ResponseIsTheAnswer(Execute(c, DeactivateNtf(ToIdle, DhReq)));
    } else {
      ResponseIsTheAnswer(c);
    }
    hide Execute;
  }

  lemma NotificationComes(c: ControlBlock)
    requires Owed(c) == 1 && Expects(c) && c.Has(W4Ntf)
    ensures var d := Execute(c, DeactivateNtf(ToIdle, DhReq));
            Owed(d) == 0 || (!LowPower(d) && (!d.Has(W4Ntf) || d.state == W4AllDiscoveries || d.state == W4HostSelect))
  {
    if c.state == PollActive || c.state == ListenActive {
      NotificationEndsLink(c);
    } else if c.state == ListenSleep {
      IdleAnswers(NotifyDeactivation(c.Off({W4Rsp, W4Ntf, TimerRunning}), false, ToIdle, DhReq));
      hide BackToIdle, NotifyDeactivation;
    } else {
      IdleAnswers(c.Off({W4Ntf}));
      hide BackToIdle, NotifyDeactivation, InPollActive, InListenActive, InListenSleep;
    }
  }

  lemma NotificationEndsLink(c: ControlBlock)
    requires (c.state == PollActive || c.state == ListenActive) && Owed(c) == 1 && c.Has(W4Ntf)
    ensures var d := Execute(c, DeactivateNtf(ToIdle, DhReq)); Owed(d) == 0 || (!LowPower(d) && !d.Has(W4Ntf))
  {
    var a := c.Off({W4Ntf, TimerRunning});
    if !c.Has(W4Rsp) {
      if c.state == PollActive {
        PollLeaves(a, ToIdle, DhReq);
      } else {
        ListenLeaves(a, ToIdle, DhReq);
      }
    }
    hide PollDeactivated, ListenDeactivated, Sends;
  }

  // ---- where events and requests lead ----------------------------------------------------------------

  /** A command that insists on the deactivation in progress, with no timer running that would see to it: the
      controller is forced to idle. */
  predicate Forces(c: ControlBlock, kind: DeactType) {
    && ((c.state == PollActive && !c.Has(Checking)) || c.state == ListenActive || c.state == ListenSleep)
    && c.Has(W4Ntf) && !c.Has(TimerRunning) && kind != ToSleep
  }

  /** The deactivation that was put off to the end of a wake-up is one to force. */
  predicate ForcesPending(c: ControlBlock) {
    c.Has(Checking) && c.Has(DeactPending) && c.Has(W4Ntf) && !c.Has(TimerRunning) && c.pendingType != ToSleep
  }

  /** A tag fails to go to sleep with a deactivation put off: that goes out, and the retry forces it at once if there
      is no timer. */
  predicate RetryForces(c: ControlBlock, kind: DeactType, reason: Reason) {
    && ToAnySleep(kind) && reason == DhReqFailed
    && c.Has(Checking) && c.Has(DeactPending) && c.Has(Patient) && (c.retries == 3 || kind == ToSleepAf)
  }

  /** The last message of a deactivation: the response with no notification awaited, or the other way round. */
  predicate LastOfTwo(c: ControlBlock, e: Event) {
    (e.DeactivateRsp? && !c.Has(W4Ntf)) || (e.DeactivateNtf? && !c.Has(W4Rsp))
  }

  predicate LeadsToIdle(c: ControlBlock, e: Event) {
    || (e.DeactivateCmd? && Forces(c, e.kind))
    || match c.state
       case Discovering => LastOfTwo(c, e) && (e.DeactivateNtf? ==> c.Has(W4Ntf))
       case W4AllDiscoveries => e.DeactivateRsp?
       case W4HostSelect => e.DeactivateRsp? || (e.ActivatedNtf? && ForcesPending(c))
       case PollActive => LastOfTwo(c, e) &&
         (e.DeactivateNtf? ==> e.kind == ToIdle || RetryForces(c, e.kind, e.reason))
       case ListenActive => LastOfTwo(c, e) && (e.DeactivateNtf? ==> e.kind == ToIdle)
       case ListenSleep => (e.DeactivateRsp? && !c.Has(W4Ntf)) || (e.DeactivateNtf? && e.kind != ToDiscovery)
       case _ => false
  }

  /** What leads from another state to `s`: the arrows of the state diagram, by where they end. */
  predicate LeadsTo(c: ControlBlock, e: Event, s: State) {
    match s
    case Idle => LeadsToIdle(c, e)
    case Discovering =>
      || (c.state == Idle && e == DiscoverRsp(Ok))
      || (e.DeactivateNtf? && e.kind == ToDiscovery &&
          (c.state == ListenSleep || ((c.state == PollActive || c.state == ListenActive) && !c.Has(W4Rsp))))
    case W4AllDiscoveries => c.state == Discovering && e.DiscoverNtf? && e.more != LastAbort
    case W4HostSelect =>
      || (c.state == W4AllDiscoveries && e.DiscoverNtf? && e.known && e.more != MoreToCome && !c.Has(W4Rsp))
      || (c.state == PollActive && e.DeactivateNtf? && ToAnySleep(e.kind) && e.reason != DhReqFailed && !c.Has(W4Rsp))
    case PollActive =>
      && e.ActivatedNtf?
      && (|| (c.state == Discovering && !c.Has(W4Rsp) && !IsListened(e.interface, e.listen))
          || c.state == W4AllDiscoveries
          || (c.state == W4HostSelect && !ForcesPending(c)))
    case ListenActive =>
      && e.ActivatedNtf?
      && ((c.state == Discovering && !c.Has(W4Rsp) && IsListened(e.interface, e.listen)) || c.state == ListenSleep)
    case ListenSleep => c.state == ListenActive && e.DeactivateNtf? && ToAnySleep(e.kind) && !c.Has(W4Rsp)
    case LpListen => (c.state == Idle && e.LpListenCmd?) || (c.state == LpActive && e.DeactivateNtf?)
    case LpActive => c.state == LpListen && e.ActivatedNtf?
  }

  /** In every state every event leads to another state exactly along these arrows; everything else leaves the state
      as it is. */
  lemma LeadsExactly(c: ControlBlock, e: Event, s: State)
    requires s != c.state
    ensures Execute(c, e).state == s <==> LeadsTo(c, e, s)
  {
    if e.DeactivateCmd? {
      CommandLeads(c, e.kind);
    } else {
      match c.state
      case PollActive => PollActiveLeads(c, e, s);
      case W4HostSelect => W4HostSelectLeads(c, e, s);
      case Idle => IdleLeads(c, e, s);
      case Discovering => DiscoveryLeads(c, e, s);
      case ListenActive => ListenLeads(c, e, s);
      case ListenSleep => ListenLeads(c, e, s);
      case _ => OtherwiseLeads(c, e, s);
    }
    hide *;
  }

  lemma CommandLeads(c: ControlBlock, kind: DeactType)
    ensures OnDeactivateCmd(c, kind).state == if Forces(c, kind) then Idle else c.state
    ensures forall s :: s != c.state ==> (LeadsTo(c, DeactivateCmd(kind), s) <==> s == Idle && Forces(c, kind))
    ensures Execute(c, DeactivateCmd(kind)) == OnDeactivateCmd(c, kind)
  {
    hide NewState;
  }

  lemma IdleLeads(c: ControlBlock, e: Event, s: State)
    requires s != c.state == Idle && !e.DeactivateCmd?
    ensures Execute(c, e).state == s <==> LeadsTo(c, e, s)
  {
    hide NewState, BackToIdle, NotifyDeactivation, StartDiscover, Started;
  }

  lemma DiscoveryLeads(c: ControlBlock, e: Event, s: State)
    requires s != c.state == Discovering && !e.DeactivateCmd?
    ensures Execute(c, e).state == s <==> LeadsTo(c, e, s)
  {
    hide BackToIdle, NotifyDeactivation, StartDiscover, NotifyActivation;
  }

  lemma ListenLeads(c: ControlBlock, e: Event, s: State)
    requires s != c.state && (c.state == ListenActive || c.state == ListenSleep) && !e.DeactivateCmd?
    ensures Execute(c, e).state == s <==> LeadsTo(c, e, s)
  {
    hide BackToIdle, NotifyDeactivation, StartDiscover, NotifyActivation;
  }

  lemma OtherwiseLeads(c: ControlBlock, e: Event, s: State)
    requires s != c.state && (c.state == W4AllDiscoveries || LowPower(c)) && !e.DeactivateCmd?
    ensures Execute(c, e).state == s <==> LeadsTo(c, e, s)
  {
    hide BackToIdle, NotifyDeactivation, StartDiscover, NotifyActivation;
  }

  /** Where the end of a wake-up leads. */
  lemma WakeupLeads(c: ControlBlock, ok: bool)
    ensures EndSleepWakeup(c, ok).state
            == if ForcesPending(c) && (c.state == PollActive || c.state == ListenActive || c.state == ListenSleep)
               then Idle else c.state
  {
    if c.Has(Checking) && c.Has(DeactPending) {
      CommandLeads(c.Off({Checking}).Do(WakeupDone(ok)).Off({DeactPending}).On({DeactNotifyPending}), c.pendingType);
    }
    hide OnDeactivateCmd;
  }

  lemma W4HostSelectLeads(c: ControlBlock, e: Event, s: State)
    requires s != c.state == W4HostSelect && !e.DeactivateCmd?
    ensures Execute(c, e).state == s <==> LeadsTo(c, e, s)
  {
    if e.ActivatedNtf? {
      var d := NotifyActivation(NewState(c, PollActive), e.interface, e.handle);
      ActivationKeeps(c.(state := PollActive), e.interface, e.handle);
      WakeupLeads(d, true);
    } else if e.SelectRsp? {
      WakeupLeads(AppNotified(c, e.status == Ok), false);
      WakeupLeads(c, false);
    } else if e.InterfaceError? {
      WakeupLeads(c, false);
    }
    hide BackToIdle, NotifyDeactivation, NotifyActivation, EndSleepWakeup;
  }

  lemma ActivationKeeps(c: ControlBlock, interface: Interface, handle: Option<nat>)
    ensures var d := NotifyActivation(c, interface, handle);
            d.flags == c.flags && d.state == c.state && d.pendingType == c.pendingType
  {
  }

  lemma PollActiveLeads(c: ControlBlock, e: Event, s: State)
    requires s != c.state == PollActive && !e.DeactivateCmd?
    ensures Execute(c, e).state == s <==> LeadsTo(c, e, s)
  {
    if e.DeactivateNtf? && !c.Has(W4Rsp) {
      var d := c.Off({W4Ntf, TimerRunning});
      assert Execute(c, e) == PollDeactivated(d, e.kind, e.reason);
      PollDeactivatedLeads(d, e.kind, e.reason);
    }
    hide BackToIdle, NotifyDeactivation, PollDeactivated;
  }

  lemma PollDeactivatedLeads(c: ControlBlock, kind: DeactType, reason: Reason)
    requires c.state == PollActive && c.flags !! {W4Rsp, W4Ntf, TimerRunning}
    ensures PollDeactivated(c, kind, reason).state
            == match kind
               case ToIdle => Idle
               case ToDiscovery => Discovering
               case _ => if reason != DhReqFailed then W4HostSelect
                         else if RetryForces(c, kind, reason) then Idle else PollActive
  {
    var failed := reason == DhReqFailed;
    var d := if failed then c else NotifyDeactivation(c, true, kind, reason);
    match kind
    case ToIdle =>
      WakeupLeads(BackToIdle(d), false);
      hide EndSleepWakeup, NewState, NotifyDeactivation, BackToIdle;
    case ToDiscovery =>
      WakeupLeads(NewState(d, Discovering), false);
      WakeupLeads(NewState(d, Discovering).Do(SendDeactivate(ToIdle)), false);
      hide EndSleepWakeup, NotifyDeactivation;
    case _ =>
      if failed {
        FailedSleepLeads(c, kind);
      } else {
        WakeupLeads(NewState(d.(retries := 0), W4HostSelect), true);
        hide EndSleepWakeup, NotifyDeactivation;
      }
  }

  lemma FailedSleepLeads(c: ControlBlock, kind: DeactType)
    requires c.state == PollActive && c.flags !! {W4Rsp, W4Ntf, TimerRunning} && ToAnySleep(kind)
    ensures PollSleep(c, kind, true).state == if RetryForces(c, kind, DhReqFailed) then Idle else PollActive
  {
    if c.Has(Checking) && c.Has(DeactPending) {
      var d := EndSleepWakeup(c, true).Do(ReaderDeactivated);
      PendingGoesOut(c);
      RetryLeads(d, kind, true);
      hide EndSleepWakeup, RetrySleep, NewState;
    } else {
      RetryLeads(c, kind, c.Has(Checking));
      RetryLeads(c.Do(SendSelect), kind, c.Has(Checking));
      hide RetrySleep, NewState;
    }
  }

  lemma PendingGoesOut(c: ControlBlock)
    requires c.state == PollActive && c.flags !! {W4Rsp, W4Ntf, TimerRunning} && c.Has(Checking) && c.Has(DeactPending)
    ensures var d := EndSleepWakeup(c, true);
            && d.state == PollActive && BothAwaited(d) && d.retries == c.retries && !d.Has(DeactPending)
            && (d.Has(TimerRunning) <==> !c.Has(Patient))
  {
  }

  lemma RetryLeads(c: ControlBlock, kind: DeactType, checking: bool)
    requires c.state == PollActive && (c.Has(W4Rsp) <==> c.Has(W4Ntf))
    ensures RetrySleep(c, kind, checking).state
            == if c.Has(W4Ntf) && !c.Has(TimerRunning)
                  && (if c.retries == 3 then !checking || !c.Has(DeactPending) else kind != ToSleep)
               then Idle else PollActive
  {
    hide NewState;
  }

  predicate RequestForces(c: ControlBlock, op: Op) {
    match op
    case Timeout => c.Has(TimerRunning) && c.Has(W4Ntf)
    case Deactivate(kind) => Forces(c, kind)
    case Stop | Disable => c.Has(Enabled) && Forces(c, ToIdle)
    case ReleaseExclusive => Forces(c, ToIdle)
    case _ => false
  }

  /** Requests and the guard timer lead nowhere but to IDLE, and there exactly by forcing the controller. */
  lemma RequestsLeadExactly(c: ControlBlock, op: Op)
    requires !op.Input?
    ensures Step(c, op).state == if RequestForces(c, op) then Idle else c.state
  {
    match op
    case Deactivate(kind) => CommandLeads(c, kind);
    case Stop => CommandLeads(c.Off({Enabled}).On({Stopping}), ToIdle);
    case Disable => CommandLeads(c.Off({Enabled}).On({Disabling}), ToIdle);
    case ReleaseExclusive => CommandLeads(c.On({Stopping}), ToIdle);
    case _ =>
    hide OnDeactivateCmd, NewState, StartDiscover;
  }

  // ---- what is sent and told -------------------------------------------------------------------------

  /** How often an action has been taken. */
  function Times(c: ControlBlock, a: Action): nat {
    multiset(c.log)[a]
  }

  function One(b: bool): nat {
    if b then 1 else 0
  }

  /** The event takes the link back to IDLE, or is the end of a deactivation there. */
  predicate Returns(c: ControlBlock, e: Event) {
    match c.state
    case Idle =>
      || (e.DeactivateRsp? && (e.status == SemanticError || (e.status == Ok && !c.Has(W4Ntf))))
      || (e.DeactivateNtf? && !c.Has(W4Ntf) && e.kind != ToDiscovery)
    case PollActive => LastOfTwo(c, e) && (e.DeactivateNtf? ==> e.kind == ToIdle)
    case _ => !e.DeactivateCmd? && !e.ActivatedNtf? && LeadsToIdle(c, e)
  }

  /** It does so with nothing else awaited, which completes a stop and a shutdown. */
  predicate Completes(c: ControlBlock, e: Event) {
    Returns(c, e) && (c.state == Idle && e.DeactivateNtf? ==> !c.Has(W4Rsp))
  }

  /** A tag that was to go to sleep has done so, or failed to. */
  predicate SleepEnds(c: ControlBlock, e: Event) {
    c.state == PollActive && e.DeactivateNtf? && ToAnySleep(e.kind) && !c.Has(W4Rsp)
  }

  predicate Activates(c: ControlBlock, e: Event) {
    && e.ActivatedNtf?
    && (|| c.state == W4AllDiscoveries || c.state == W4HostSelect || c.state == ListenSleep || c.state == LpListen
        || (c.state == Discovering && !c.Has(W4Rsp)))
  }

  /** Whether the module is told of a deactivation with this notice: nobody is during a wake-up, nor if a link that was
      not active goes because of a stop. */
  predicate TellsDeactivated(c: ControlBlock, e: Event, byNtf: bool, kind: DeactType, reason: Reason) {
    && !c.Has(Checking)
    && match c.state
       case Idle => byNtf && Returns(c, e) && (e.DeactivateRsp? ==> e.status == Ok)
                    && (kind, reason) == if e.DeactivateNtf? then (e.kind, e.reason) else (ToIdle, DhReq)
       case W4AllDiscoveries | W4HostSelect =>
         && e.DeactivateRsp? && !byNtf && kind == ToIdle && reason == DhReq
         && (c.Has(Stopping) ==> c.Has(DeactNotifyPending))
       case PollActive | ListenActive =>
         && byNtf && LastOfTwo(c, e)
         && (if e.DeactivateRsp? then kind == ToIdle && reason == DhReq
             else kind == e.kind && reason == e.reason && (c.state == PollActive ==> reason != DhReqFailed))
       case ListenSleep =>
         && !byNtf
         && (if e.DeactivateNtf? then kind == e.kind && reason == e.reason
             else LastOfTwo(c, e) && kind == ToIdle && reason == DhReq)
       case LpActive => e.DeactivateNtf? && byNtf && kind == e.kind && reason == e.reason
       case _ => false
  }

  /** What is said when the link is back in IDLE: the answer to a stop and the completion of a shutdown if nothing
      else is awaited; and discovery starts anew if it is enabled, or wanted for an exclusive owner who has not just
      given up. */
  function ReturnSays(c: ControlBlock, done: bool, a: Action): nat {
    var on := c.Has(Enabled) || (c.Has(ExclusiveEntry) && !(done && c.Has(Stopping) && c.Has(ExclusiveActive)));
    match a
    case NotifyStopped => One(done && c.Has(Stopping) && !c.Has(ExclusiveActive))
    case NotifyExclusiveStopped => One(done && c.Has(Stopping) && c.Has(ExclusiveActive))
    case NotifyIdleToApp =>
      One(done && c.Has(Stopping) && c.Has(ExclusiveActive) && c.state != Idle && c.state != Discovering)
    case CheckDisabled => One(done && c.Has(Disabling))
    case SendDiscover => One(on && c.Has(Offered))
    case NotifyStarted => One(on && !c.Has(Offered) && c.Has(Notify))
    case _ => 0
  }

  /** What else leads to an action, but for a deactivation that is sent: by the action. */
  predicate Says(c: ControlBlock, e: Event, a: Action)
    requires !a.SendDeactivate?
  {
    match a
    case SendSelect =>
      || (c.state == W4HostSelect && e.SelectCmd? && !c.Has(W4Rsp))
      || (SleepEnds(c, e) && c.Has(Checking) && !c.Has(DeactPending))
    case NotifyResult =>
      e.DiscoverNtf? && (c.state == Discovering || (c.state == W4AllDiscoveries && e.known && !c.Has(W4Rsp)))
    case NotifyActivated(to) =>
      Activates(c, e) && Wanted(c, e.handle) && to == if c.Has(ExclusiveEntry) then None else e.handle
    case NotifyDeactivated(byNtf, kind, reason, to) => TellsDeactivated(c, e, byNtf, kind, reason) && to == c.handle
    case NotifySelect(ok) =>
      && c.state == W4HostSelect
      && (|| (e.SelectCmd? && c.Has(W4Rsp) && c.Has(Notify) && !ok)
          || (e.SelectRsp? && !c.Has(Checking) && c.Has(Notify) && (ok <==> e.status == Ok))
          || (e.InterfaceError? && !c.Has(Checking) && !ok))
    case NotifyStarted =>
      c.state == Idle && e == DiscoverRsp(Ok) && c.Has(Notify) && !c.Has(Stopping) && !c.Has(Disabling)
    case WakeupDone(ok) =>
      && c.Has(Checking)
      && (|| (c.state == W4HostSelect && e.ActivatedNtf? && ok)
          || (c.state == W4HostSelect && ((e.SelectRsp? && e.status != Ok) || e.InterfaceError?) && !ok)
          || (SleepEnds(c, e) && c.Has(DeactPending) && ok)
          || (c.state == PollActive && e.DeactivateNtf? && !ToAnySleep(e.kind) && e.reason != DhReqFailed
              && !c.Has(W4Rsp) && !ok))
    case ReaderDeactivated => SleepEnds(c, e) && c.Has(Checking) && c.Has(DeactPending)
    case _ => false
  }

  /** It depends on none of the flags of the deactivation itself. */
  lemma ReturnSaysAlike(c: ControlBlock, d: ControlBlock, done: bool, a: Action)
    requires c.state == d.state
    requires var f := {W4Rsp, W4Ntf, TimerRunning, DeactNotifyPending}; c.flags + f == d.flags + f
    ensures ReturnSays(c, done, a) == ReturnSays(d, done, a)
  {
    var f := {W4Rsp, W4Ntf, TimerRunning, DeactNotifyPending};
    assert forall x :: x !in f ==> (x in c.flags <==> x in c.flags + f) && (x in d.flags <==> x in d.flags + f);
  }

  function Said(c: ControlBlock, e: Event, a: Action): nat
    requires !a.SendDeactivate?
  {
    One(Says(c, e, a)) +
    if Returns(c, e) || (c.state == Idle && e.DiscoverCmd?) then ReturnSays(c, Completes(c, e), a) else 0
  }

  lemma DoSays(c: ControlBlock, x: Action, a: Action)
    ensures Times(c.Do(x), a) == Times(c, a) + One(x == a)
  {
  }

  lemma SameLog(c: ControlBlock, d: ControlBlock, a: Action)
    requires c.log == d.log
    ensures Times(c, a) == Times(d, a)
  {
  }

  lemma StoppedSays(c: ControlBlock, before: State, a: Action)
    ensures var d := Stopped(c, before);
            Times(d, a) == Times(c, a) + match a
              case NotifyStopped => One(!c.Has(ExclusiveActive))
              case NotifyExclusiveStopped => One(c.Has(ExclusiveActive))
              case NotifyIdleToApp => One(c.Has(ExclusiveActive) && before != Idle && before != Discovering)
              case _ => 0
    ensures Stopped(c, before).flags
            == c.flags - if c.Has(ExclusiveActive) then {ExclusiveActive, ExclusiveEntry} else {}
  {
  }

  lemma DisabledSays(c: ControlBlock, a: Action)
    ensures Times(Disabled(c), a) == Times(c, a) + One(a == CheckDisabled && c.Has(Disabling))
    ensures Disabled(c).flags == c.flags - {Disabling}
  {
  }

  lemma NewStateSays(c: ControlBlock, s: State, a: Action)
    ensures var d := NewState(c, s);
            var done := s == Idle && !c.Has(W4Rsp);
            Times(d, a) == Times(c, a) + match a
              case NotifyStopped => One(done && c.Has(Stopping) && !c.Has(ExclusiveActive))
              case NotifyExclusiveStopped => One(done && c.Has(Stopping) && c.Has(ExclusiveActive))
              case NotifyIdleToApp =>
                One(done && c.Has(Stopping) && c.Has(ExclusiveActive) && c.state != Idle && c.state != Discovering)
              case CheckDisabled => One(done && c.Has(Disabling))
              case _ => 0
  {
    hide Stopped, Disabled, Times;
    var d := c.(state := s);
    SameLog(c, d, a);
    if s == Idle && !c.Has(W4Rsp) {
      SameLog(c, d.Off({Stopping}), a);
      StoppedSays(d.Off({Stopping}), c.state, a);
      DisabledSays(if c.Has(Stopping) then Stopped(d.Off({Stopping}), c.state) else d, a);
    }
  }

  lemma NewStateFlags(c: ControlBlock)
    ensures NewState(c, Idle).flags == if !c.Has(W4Rsp)
              then c.flags - {Stopping, Disabling}
                   - (if c.Has(Stopping) && c.Has(ExclusiveActive) then {ExclusiveActive, ExclusiveEntry} else {})
              else c.flags
  {
    var d := c.(state := Idle);
    StoppedSays(d.Off({Stopping}), c.state, SendDiscover);
    DisabledSays(if c.Has(Stopping) then Stopped(d.Off({Stopping}), c.state) else d, SendDiscover);
    hide Stopped, Disabled;
  }

  lemma StartSays(c: ControlBlock, a: Action)
    ensures var d := StartDiscover(c);
            var on := c.Has(Enabled) || c.Has(ExclusiveEntry);
            Times(d, a) == Times(c, a) + match a
              case SendDiscover => One(on && c.Has(Offered))
              case NotifyStarted => One(on && !c.Has(Offered) && c.Has(Notify))
              case _ => 0
  {
  }

  lemma BackToIdleSays(c: ControlBlock, a: Action)
    ensures Times(BackToIdle(c), a) == Times(c, a) + ReturnSays(c, !c.Has(W4Rsp), a)
  {
    NewStateSays(c, Idle, a);
    NewStateFlags(c);
    StartSays(NewState(c, Idle), a);
    hide NewState, StartDiscover, Times;
  }

  /** Whether a deactivation is told. */
  predicate Tells(c: ControlBlock, byNtf: bool) {
    !c.Has(Checking) && (byNtf || c.state == ListenSleep || !c.Has(Stopping) || c.Has(DeactNotifyPending))
  }

  lemma NoticeSays(c: ControlBlock, byNtf: bool, kind: DeactType, reason: Reason, a: Action)
    ensures Times(NotifyDeactivation(c, byNtf, kind, reason), a)
            == Times(c, a) + One(a == NotifyDeactivated(byNtf, kind, reason, c.handle) && Tells(c, byNtf))
  {
  }

  lemma ActivationSays(c: ControlBlock, s: State, interface: Interface, handle: Option<nat>, a: Action)
    requires s != Idle
    ensures var d := NotifyActivation(NewState(c, s), interface, handle);
            && Times(d, a) == Times(c, a)
                 + One(Wanted(c, handle) && a == NotifyActivated(if c.Has(ExclusiveEntry) then None else handle))
            && d.flags == c.flags && d.state == s && d.pendingType == c.pendingType
  {
  }

  lemma CommandSays(c: ControlBlock, kind: DeactType, a: Action)
    requires !a.SendDeactivate?
    ensures Times(OnDeactivateCmd(c, kind), a) == Times(c, a)
  {
    NewStateSays(c.Off({W4Ntf}).On({W4Rsp}), Idle, a);
    hide NewState;
  }

  lemma WakeupSays(c: ControlBlock, ok: bool, a: Action)
    requires !a.SendDeactivate?
    ensures Times(EndSleepWakeup(c, ok), a) == Times(c, a) + One(c.Has(Checking) && a == WakeupDone(ok))
  {
    if c.Has(Checking) {
      CommandSays(c.Off({Checking}).Do(WakeupDone(ok)).Off({DeactPending}).On({DeactNotifyPending}), c.pendingType, a);
    }
    hide OnDeactivateCmd;
  }

  /** Telling the module and going back to IDLE, with something of the deactivation ticked off before. */
  lemma LeaveSays(c: ControlBlock, off: set<Flag>, byNtf: bool, kind: DeactType, reason: Reason, a: Action)
    requires off <= {W4Rsp, W4Ntf, TimerRunning}
    ensures Times(BackToIdle(NotifyDeactivation(c.Off(off), byNtf, kind, reason)), a)
            == Times(c, a) + ReturnSays(c, W4Rsp in off || !c.Has(W4Rsp), a)
               + One(a == NotifyDeactivated(byNtf, kind, reason, c.handle) && Tells(c, byNtf))
  {
    var d := c.Off(off);
    var n := NotifyDeactivation(d, byNtf, kind, reason);
    assert Tells(d, byNtf) == Tells(c, byNtf);
    hide *;
    NoticeSays(d, byNtf, kind, reason, a);
    NoticeFlags(d, byNtf, kind, reason);
    BackToIdleSays(n, a);
    SameLog(c, d, a);
    OffFlags(c, d, n, off);
    ReturnSaysAlike(n, c, !n.Has(W4Rsp), a);
  }

  lemma OffFlags(c: ControlBlock, d: ControlBlock, n: ControlBlock, off: set<Flag>)
    requires off <= {W4Rsp, W4Ntf, TimerRunning} && d == c.Off(off)
    requires n.flags + {DeactNotifyPending} == d.flags + {DeactNotifyPending}
    ensures var f := {W4Rsp, W4Ntf, TimerRunning, DeactNotifyPending}; n.flags + f == c.flags + f
    ensures n.Has(W4Rsp) <==> c.Has(W4Rsp) && W4Rsp !in off
  {
    var f := {W4Rsp, W4Ntf, TimerRunning, DeactNotifyPending};
    assert W4Rsp in n.flags <==> W4Rsp in n.flags + {DeactNotifyPending};
    assert W4Rsp in d.flags <==> W4Rsp in d.flags + {DeactNotifyPending};
    assert n.flags + f == (n.flags + {DeactNotifyPending}) + f;
    assert d.flags + f == (d.flags + {DeactNotifyPending}) + f;
    assert d.flags + f == c.flags + f;
  }

  lemma NoticeFlags(c: ControlBlock, byNtf: bool, kind: DeactType, reason: Reason)
    ensures var d := NotifyDeactivation(c, byNtf, kind, reason);
            && d.flags + {DeactNotifyPending} == c.flags + {DeactNotifyPending}
            && d.state == c.state && d.retries == c.retries && d.pendingType == c.pendingType
            && (c.Has(Checking) ==> d == c)
  {
  }

  lemma ReturnOnlySays(c: ControlBlock, off: set<Flag>, a: Action)
    requires off <= {W4Rsp, W4Ntf, TimerRunning}
    ensures Times(BackToIdle(c.Off(off)), a)
            == Times(c, a) + ReturnSays(c, W4Rsp in off || !c.Has(W4Rsp), a)
  {
    BackToIdleSays(c.Off(off), a);
    ReturnSaysAlike(c.Off(off), c, W4Rsp in off || !c.Has(W4Rsp), a);
    hide ReturnSays, BackToIdle;
  }

  lemma IdleSays(c: ControlBlock, e: Event, a: Action)
    requires c.state == Idle && !e.DeactivateCmd? && !a.SendDeactivate?
    ensures Times(Execute(c, e), a) == Times(c, a) + Said(c, e, a)
  {
    hide NewState, StartDiscover, BackToIdle, NotifyDeactivation, Times, ReturnSays;
    match e
    case DiscoverCmd => StartReturns(c, a);
    case DiscoverRsp(_) => IdleSaysDiscovering(c, e, a);
    case DeactivateRsp(_) =>
      LeaveSays(c, {W4Rsp}, true, ToIdle, DhReq, a);
      ReturnOnlySays(c, {W4Rsp}, a);
      SameLog(c, c.Off({W4Rsp}), a);
    case DeactivateNtf(kind, reason) =>
      var d := BackToIdle(NotifyDeactivation(c, true, kind, reason));
      LeaveSays(c, {}, true, kind, reason, a);
      assert c.Off({}) == c;
      SameLog(d, d.Off({W4Ntf}), a);
      SameLog(c, c.Off({W4Ntf}), a);
      OrderSays(c, {W4Rsp}, {W4Ntf}, ToIdle, a);
    case ActivatedNtf(_, _, _) => OrderSays(c, {W4Rsp, W4Ntf}, {}, ToIdle, a);
    case LpListenCmd => NewStateSays(c, LpListen, a);
    case _ =>
  }

  lemma StartReturns(c: ControlBlock, a: Action)
    ensures Times(StartDiscover(c), a) == Times(c, a) + ReturnSays(c, false, a)
  {
    StartSays(c, a);
    hide StartDiscover, Times;
  }

  /** A command is sent, with some flags set before and some cleared after it. */
  lemma OrderSays(c: ControlBlock, on: set<Flag>, off: set<Flag>, kind: DeactType, a: Action)
    requires !a.SendDeactivate?
    ensures Times(c.On(on).Do(SendDeactivate(kind)), a) == Times(c, a)
    ensures Times(c.On(on).Do(SendDeactivate(kind)).Off(off), a) == Times(c, a)
    ensures Times(c.Do(SendDeactivate(kind)), a) == Times(c, a)
  {
    DoSays(c.On(on), SendDeactivate(kind), a);
    DoSays(c, SendDeactivate(kind), a);
  }

  lemma IdleSaysDiscovering(c: ControlBlock, e: Event, a: Action)
    requires c.state == Idle && e.DiscoverRsp? && !a.SendDeactivate?
    ensures Times(Execute(c, e), a) == Times(c, a) + Said(c, e, a)
  {
    hide Execute, Said, NewState, Times;
    var d := NewState(c.Off({W4Rsp}), Discovering);
    DiscoverResponse(c, e.status);
    SameLog(c, d, a);
    OrderSays(d, {W4Rsp}, {}, ToIdle, a);
    OrderSays(c, {W4Rsp}, {}, ToIdle, a);
    DoSays(d.Off({Notify}), NotifyStarted, a);
    SameLog(d, d.Off({Notify}), a);
    SaidOnDiscoverRsp(c, e.status, a);
  }

  lemma DiscoverResponse(c: ControlBlock, status: Status)
    requires c.state == Idle
    ensures var d := NewState(c.Off({W4Rsp}), Discovering);
            && d.log == c.log
            && Execute(c, DiscoverRsp(status))
               == if status != Ok then c.On({W4Rsp}).Do(SendDeactivate(ToIdle))
                  else if c.Has(Stopping) || c.Has(Disabling) then d.On({W4Rsp}).Do(SendDeactivate(ToIdle))
                  else if c.Has(Notify) then d.Off({Notify}).Do(NotifyStarted) else d
  {
  }

  lemma SaidOnDiscoverRsp(c: ControlBlock, status: Status, a: Action)
    requires c.state == Idle && !a.SendDeactivate?
    ensures Said(c, DiscoverRsp(status), a)
            == if a == NotifyStarted && status == Ok && c.Has(Notify) && !c.Has(Stopping) && !c.Has(Disabling)
               then One(true) else 0
  {
    hide ReturnSays;
  }

  lemma DiscoverySays(c: ControlBlock, e: Event, a: Action)
    requires c.state == Discovering && !e.DeactivateCmd? && !a.SendDeactivate?
    ensures Times(Execute(c, e), a) == Times(c, a) + Said(c, e, a)
  {
    hide BackToIdle, NotifyActivation, ReturnSays, Times;
    match e
    case DeactivateRsp(_) =>
      ReturnOnlySays(c, {W4Rsp}, a);
      SameLog(c, c.Off({W4Rsp}), a);
    case DeactivateNtf(_, _) =>
      ReturnOnlySays(c, {W4Ntf}, a);
      SameLog(c, c.Off({W4Ntf}), a);
    case ActivatedNtf(_, _, _) =>
      ActivationInDiscoverySays(c, e, a);
      hide Execute, Said;
    case DiscoverNtf(_, _) =>
      OrderSays(c, {}, {}, ToIdle, a);
      SameLog(c, NewState(c, W4AllDiscoveries), a);
      DoSays(c.Do(SendDeactivate(ToIdle)), NotifyResult, a);
      DoSays(NewState(c, W4AllDiscoveries), NotifyResult, a);
    case _ =>
  }

  lemma ActivationInDiscoverySays(c: ControlBlock, e: Event, a: Action)
    requires c.state == Discovering && e.ActivatedNtf? && !a.SendDeactivate?
    ensures Times(Execute(c, e), a) == Times(c, a) + Said(c, e, a)
  {
    hide NotifyActivation, Times;
    var s := ActiveState(e.interface, e.listen);
    var d := NotifyActivation(NewState(c, s), e.interface, e.handle);
    ActivationSays(c, s, e.interface, e.handle, a);
    OrderSays(d, {W4Rsp, W4Ntf}, {}, ToIdle, a);
    SameLog(c, c.On({W4Ntf}), a);
  }

  lemma W4AllDiscoveriesSays(c: ControlBlock, e: Event, a: Action)
    requires c.state == W4AllDiscoveries && !e.DeactivateCmd? && !a.SendDeactivate?
    ensures Times(Execute(c, e), a) == Times(c, a) + Said(c, e, a)
  {
    hide BackToIdle, NotifyActivation, NotifyDeactivation, ReturnSays, Times;
    match e
    case DeactivateRsp(_) => LeaveSays(c, {W4Rsp}, false, ToIdle, DhReq, a);
    case ActivatedNtf(interface, listen, handle) =>
      ActivationSays(c, PollActive, interface, handle, a);
      OrderSays(NotifyActivation(NewState(c, PollActive), interface, handle), {}, {}, ToIdle, a);
      assert Said(c, e, a)
          == One(Wanted(c, handle) && a == NotifyActivated(if c.Has(ExclusiveEntry) then None else handle));
      hide Said;
    case DiscoverNtf(_, _) =>
      OrderSays(c, {}, {}, ToIdle, a);
      SameLog(c, NewState(c, W4HostSelect), a);
      DoSays(c, NotifyResult, a);
      DoSays(NewState(c, W4HostSelect), NotifyResult, a);
    case _ =>
  }

  lemma W4HostSelectSays(c: ControlBlock, e: Event, a: Action)
    requires c.state == W4HostSelect && !e.DeactivateCmd? && !a.SendDeactivate?
    ensures Times(Execute(c, e), a) == Times(c, a) + Said(c, e, a)
  {
    if e.ActivatedNtf? {
      WokenSays(c, e, a);
    } else if e.DeactivateRsp? {
      LeaveSays(c, {W4Rsp}, false, ToIdle, DhReq, a);
      hide BackToIdle, NotifyDeactivation, ReturnSays, Times;
    } else {
      SelectionSays(c, e, a);
    }
    hide Execute, Said, Times;
  }

  lemma WokenSays(c: ControlBlock, e: Event, a: Action)
    requires c.state == W4HostSelect && e.ActivatedNtf? && !a.SendDeactivate?
    ensures Times(Execute(c, e), a) == Times(c, a) + Said(c, e, a)
  {
    hide NotifyActivation, EndSleepWakeup, Times;
    var d := NotifyActivation(NewState(c, PollActive), e.interface, e.handle);
    ActivationSays(c, PollActive, e.interface, e.handle, a);
    OrderSays(d, {}, {}, ToIdle, a);
    WakeupSays(d, true, a);
  }

  lemma SelectionSays(c: ControlBlock, e: Event, a: Action)
    requires c.state == W4HostSelect && !a.SendDeactivate?
    requires !e.DeactivateCmd? && !e.ActivatedNtf? && !e.DeactivateRsp?
    ensures Times(Execute(c, e), a) == Times(c, a) + Said(c, e, a)
  {
    hide EndSleepWakeup, Times, AppNotified;
    OrderSays(c, {}, {}, ToIdle, a);
    match e
    case SelectCmd =>
      AppSays(c, false, a);
      DoSays(c, SendSelect, a);
    case SelectRsp(status) =>
      AppSays(c, status == Ok, a);
      WakeupSays(if c.Has(Checking) then c else AppNotified(c, status == Ok), false, a);
    case InterfaceError =>
      WakeupSays(c, false, a);
      DoSays(c, NotifySelect(false), a);
    case _ =>
  }

  lemma AppSays(c: ControlBlock, ok: bool, a: Action)
    ensures Times(AppNotified(c, ok), a) == Times(c, a) + One(c.Has(Notify) && a == NotifySelect(ok))
    ensures AppNotified(c, ok).Has(Checking) == c.Has(Checking)
  {
  }

  lemma ListenActiveSays(c: ControlBlock, e: Event, a: Action)
    requires c.state == ListenActive && !e.DeactivateCmd? && !a.SendDeactivate?
    ensures Times(Execute(c, e), a) == Times(c, a) + Said(c, e, a)
  {
    hide BackToIdle, NotifyDeactivation, ReturnSays, Times, ListenDeactivated;
    match e
    case DeactivateRsp(_) =>
      LeaveSays(c, {W4Rsp}, true, ToIdle, DhReq, a);
      SameLog(c, c.Off({W4Rsp}), a);
    case DeactivateNtf(kind, reason) =>
      SameLog(c, c.Off({W4Ntf, TimerRunning}), a);
      ListenDeactivatedSays(c, kind, reason, a);
    case _ =>
  }

  lemma ListenDeactivatedSays(c: ControlBlock, kind: DeactType, reason: Reason, a: Action)
    requires c.state == ListenActive && !a.SendDeactivate?
    ensures var d := c.Off({W4Ntf, TimerRunning});
            Times(ListenDeactivated(d, kind, reason), a) == Times(c, a)
              + (if kind == ToIdle then ReturnSays(c, !c.Has(W4Rsp), a) else 0)
              + One(a == NotifyDeactivated(true, kind, reason, c.handle) && Tells(c, true))
  {
    hide BackToIdle, NotifyDeactivation, ReturnSays, Times;
    var d := c.Off({W4Ntf, TimerRunning});
    var n := NotifyDeactivation(d, true, kind, reason);
    LeaveSays(c, {W4Ntf, TimerRunning}, true, kind, reason, a);
    NoticeSays(d, true, kind, reason, a);
    SameLog(c, d, a);
    SameLog(n, NewState(n, ListenSleep), a);
    SameLog(n, NewState(n, Discovering), a);
    OrderSays(NewState(n, Discovering), {}, {}, ToIdle, a);
  }

  lemma ListenSleepSays(c: ControlBlock, e: Event, a: Action)
    requires c.state == ListenSleep && !e.DeactivateCmd? && !a.SendDeactivate?
    ensures Times(Execute(c, e), a) == Times(c, a) + Said(c, e, a)
  {
    hide BackToIdle, NotifyActivation, NotifyDeactivation, ReturnSays, Times;
    SaidInListenSleep(c, e, a);
    hide Said;
    match e
    case DeactivateRsp(_) =>
      LeaveSays(c, {W4Rsp}, false, ToIdle, DhReq, a);
      SameLog(c, c.Off({W4Rsp}), a);
    case DeactivateNtf(kind, reason) =>
      var d := c.Off({W4Rsp, W4Ntf, TimerRunning});
      var n := NotifyDeactivation(d, false, kind, reason);
      LeaveSays(c, {W4Rsp, W4Ntf, TimerRunning}, false, kind, reason, a);
      NoticeSays(d, false, kind, reason, a);
      SameLog(c, d, a);
      SameLog(n, NewState(n, Discovering), a);
    case ActivatedNtf(interface, listen, handle) =>
      ActivationSays(c, ListenActive, interface, handle, a);
      OrderSays(NotifyActivation(NewState(c, ListenActive), interface, handle), {}, {}, ToIdle, a);
    case _ =>
  }

  lemma SaidInListenSleep(c: ControlBlock, e: Event, a: Action)
    requires c.state == ListenSleep && !e.DeactivateCmd? && !a.SendDeactivate?
    ensures Said(c, e, a)
            == match e
               case DeactivateRsp(_) =>
                 if c.Has(W4Ntf) then 0
                 else
                   ReturnSays(c, true, a) + One(a == NotifyDeactivated(false, ToIdle, DhReq, c.handle) && Tells(c, false))
               case DeactivateNtf(kind, reason) =>
                 (if kind != ToDiscovery then ReturnSays(c, true, a) else 0)
                 + One(a == NotifyDeactivated(false, kind, reason, c.handle) && Tells(c, false))
               case ActivatedNtf(_, _, handle) =>
                 One(Wanted(c, handle) && a == NotifyActivated(if c.Has(ExclusiveEntry) then None else handle))
               case _ => 0
  {
    hide ReturnSays;
  }

  lemma LowPowerSays(c: ControlBlock, e: Event, a: Action)
    requires LowPower(c) && !e.DeactivateCmd? && !a.SendDeactivate?
    ensures Times(Execute(c, e), a) == Times(c, a) + Said(c, e, a)
  {
    hide NotifyActivation, NotifyDeactivation, Times;
    SaidInLowPower(c, e, a);
    hide Said;
    match e
    case ActivatedNtf(interface, listen, handle) => ActivationSays(c, LpActive, interface, handle, a);
    case DeactivateNtf(kind, reason) =>
      NoticeSays(c.(state := LpListen), true, kind, reason, a);
      SameLog(c, c.(state := LpListen), a);
    case _ =>
  }

  lemma SaidInLowPower(c: ControlBlock, e: Event, a: Action)
    requires LowPower(c) && !e.DeactivateCmd? && !a.SendDeactivate?
    ensures Said(c, e, a)
            == match e
               case ActivatedNtf(_, _, handle) =>
                 One(c.state == LpListen && Wanted(c, handle)
                     && a == NotifyActivated(if c.Has(ExclusiveEntry) then None else handle))
               case DeactivateNtf(kind, reason) =>
                 One(c.state == LpActive && a == NotifyDeactivated(true, kind, reason, c.handle) && Tells(c, true))
               case _ => 0
  {
    hide ReturnSays;
  }

  lemma PollActiveSays(c: ControlBlock, e: Event, a: Action)
    requires c.state == PollActive && !e.DeactivateCmd? && !a.SendDeactivate?
    ensures Times(Execute(c, e), a) == Times(c, a) + Said(c, e, a)
  {
    hide BackToIdle, NotifyDeactivation, ReturnSays, Times, PollDeactivated;
    SaidInPollActive(c, e, a);
    match e
    case DeactivateRsp(_) =>
      LeaveSays(c, {W4Rsp}, true, ToIdle, DhReq, a);
      SameLog(c, c.Off({W4Rsp}), a);
      hide Said;
    case DeactivateNtf(kind, reason) =>
      SameLog(c, c.Off({W4Ntf, TimerRunning}), a);
      PollDeactivatedSays(c, kind, reason, a);
      hide Said, WakeupEndSays;
    case _ => hide Said;
  }

  lemma SaidInPollActive(c: ControlBlock, e: Event, a: Action)
    requires c.state == PollActive && !e.DeactivateCmd? && !a.SendDeactivate?
    ensures Said(c, e, a)
            == if !LastOfTwo(c, e) then 0
               else if e.DeactivateRsp? then
                 ReturnSays(c, true, a) + One(a == NotifyDeactivated(true, ToIdle, DhReq, c.handle) && Tells(c, true))
               else
                 (if e.kind == ToIdle then ReturnSays(c, true, a) else 0)
                 + One(e.reason != DhReqFailed && a == NotifyDeactivated(true, e.kind, e.reason, c.handle) && Tells(c, true))
                 + WakeupEndSays(c, e.kind, e.reason == DhReqFailed, a)
  {
    hide ReturnSays;
  }

  /** What the end of a link says about the wake-up that was under way. */
  function WakeupEndSays(c: ControlBlock, kind: DeactType, failed: bool, a: Action): nat {
    One(c.Has(Checking) &&
        if !ToAnySleep(kind) then !failed && a == WakeupDone(false)
        else if c.Has(DeactPending) then a == WakeupDone(true) || a == ReaderDeactivated else a == SendSelect)
  }

  lemma PollDeactivatedSays(c: ControlBlock, kind: DeactType, reason: Reason, a: Action)
    requires c.state == PollActive && !a.SendDeactivate?
    ensures var failed := reason == DhReqFailed;
            Times(PollDeactivated(c.Off({W4Ntf, TimerRunning}), kind, reason), a) == Times(c, a)
              + (if kind == ToIdle then ReturnSays(c, !c.Has(W4Rsp), a) else 0)
              + One(!failed && a == NotifyDeactivated(true, kind, reason, c.handle) && Tells(c, true))
              + WakeupEndSays(c, kind, failed, a)
  {
    hide BackToIdle, NotifyDeactivation, ReturnSays, Times, PollSleep, EndSleepWakeup;
    var failed := reason == DhReqFailed;
    var d := c.Off({W4Ntf, TimerRunning});
    var n := if failed then d else NotifyDeactivation(d, true, kind, reason);
    NoticeSays(d, true, kind, reason, a);
    NoticeFlags(d, true, kind, reason);
    SameLog(c, d, a);
    SameFlags(c, d, n);
    match kind
    case ToIdle =>
      LeaveSays(c, {W4Ntf, TimerRunning}, true, kind, reason, a);
      ReturnOnlySays(c, {W4Ntf, TimerRunning}, a);
      WakeupSays(BackToIdle(n), false, a);
      BackToIdleKeeps(n);
    case ToDiscovery =>
      var e := NewState(n, Discovering);
      SameLog(n, e, a);
      OrderSays(e, {}, {}, ToIdle, a);
      WakeupSays(if e.Has(Stopping) then e.Do(SendDeactivate(ToIdle)) else e, false, a);
    case _ => PollSleepSays(n, kind, failed, a);
  }

  lemma SameFlags(c: ControlBlock, d: ControlBlock, n: ControlBlock)
    requires d == c.Off({W4Ntf, TimerRunning}) && n.flags + {DeactNotifyPending} == d.flags + {DeactNotifyPending}
    ensures n.Has(Checking) == c.Has(Checking) && n.Has(DeactPending) == c.Has(DeactPending)
    ensures n.Has(W4Rsp) == c.Has(W4Rsp) && n.Has(Stopping) == c.Has(Stopping) && n.Has(Patient) == c.Has(Patient)
    ensures !n.Has(W4Ntf) && !n.Has(TimerRunning)
  {
    assert forall x :: x != DeactNotifyPending ==> (x in n.flags <==> x in n.flags + {DeactNotifyPending});
    assert forall x :: x != DeactNotifyPending ==> (x in d.flags <==> x in d.flags + {DeactNotifyPending});
  }

  lemma BackToIdleKeeps(c: ControlBlock)
    ensures BackToIdle(c).Has(Checking) == c.Has(Checking)
  {
  }

  lemma PollSleepSays(c: ControlBlock, kind: DeactType, failed: bool, a: Action)
    requires c.state == PollActive && !a.SendDeactivate? && ToAnySleep(kind)
    ensures Times(PollSleep(c, kind, failed), a) == Times(c, a) + WakeupEndSays(c, kind, failed, a)
  {
    hide EndSleepWakeup, RetrySleep, Times;
    var d := if failed then c else NewState(c.(retries := 0), W4HostSelect);
    SameLog(c, d, a);
    WakeupSays(d, true, a);
    DoSays(EndSleepWakeup(d, true), ReaderDeactivated, a);
    DoSays(d, SendSelect, a);
    var e :=
      if !c.Has(Checking) then d
      else if d.Has(DeactPending) then EndSleepWakeup(d, true).Do(ReaderDeactivated)
      else d.Do(SendSelect);
    RetrySays(e, kind, c.Has(Checking), a);
  }

  lemma SendSays(c: ControlBlock, kind: DeactType, a: Action)
    requires !a.SendDeactivate?
    ensures Times(SendDeactivateCmd(c, kind).0, a) == Times(c, a)
  {
    hide NewState, Times;
    var f := c.Off({W4Ntf}).On({W4Rsp});
    NewStateSays(f, Idle, a);
    SameLog(c, f, a);
    OrderSays(NewState(f, Idle), {}, {}, ToIdle, a);
    OrderSays(c, {W4Rsp, W4Ntf} + if c.Has(Patient) then {} else {TimerRunning}, {}, kind, a);
  }

  lemma RetrySays(c: ControlBlock, kind: DeactType, checking: bool, a: Action)
    requires !a.SendDeactivate?
    ensures Times(RetrySleep(c, kind, checking), a) == Times(c, a)
  {
    hide SendDeactivateCmd, Times;
    var d, e := c.(retries := c.retries + 1), SendDeactivateCmd(c, ToDiscovery).0;
    SendSays(c, ToDiscovery, a);
    SendSays(d, kind, a);
    SameLog(c, d, a);
    SameLog(c, c.(retries := 0), a);
    SameLog(e, e.(retries := 0), a);
  }

  /** In every state every event is followed by exactly these actions, and each once: every order to the controller but
      that to deactivate, and everything that modules are told. */
  lemma SaysExactly(c: ControlBlock, e: Event, a: Action)
    requires !a.SendDeactivate?
    ensures Times(Execute(c, e), a) == Times(c, a) + Said(c, e, a)
  {
    if e.DeactivateCmd? {
      CommandSays(c, e.kind, a);
      hide OnDeactivateCmd;
    } else {
      match c.state
      case Idle => IdleSays(c, e, a);
      case Discovering => DiscoverySays(c, e, a);
      case W4AllDiscoveries => W4AllDiscoveriesSays(c, e, a);
      case W4HostSelect => W4HostSelectSays(c, e, a);
      case PollActive => PollActiveSays(c, e, a);
      case ListenActive => ListenActiveSays(c, e, a);
      case ListenSleep => ListenSleepSays(c, e, a);
      case _ => LowPowerSays(c, e, a);
      hide *;
    }
  }

  // ---- which deactivations are sent ------------------------------------------------------------------

  /** How often the command to deactivate sends `k` to the controller: as asked for if nothing is awaited, and to idle
      where there is no link yet or the controller is forced. */
  function CommandOrders(c: ControlBlock, kind: DeactType, k: DeactType): nat {
    match c.state
    case Discovering => One(!c.Has(W4Rsp) && k == kind)
    case W4AllDiscoveries => One(!c.Has(W4Rsp) && k == ToIdle)
    case W4HostSelect => One(!c.Has(Checking) && !c.Has(W4Rsp) && k == ToIdle)
    case PollActive | ListenActive | ListenSleep =>
      if c.state == PollActive && c.Has(Checking) then 0
      else One(if c.Has(W4Rsp) || c.Has(W4Ntf) then Forces(c, kind) && k == ToIdle else k == kind)
    case _ => 0
  }

  /** The same for the command that was put off to the end of a wake-up. */
  function PendingOrders(c: ControlBlock, k: DeactType): nat {
    if c.Has(Checking) && c.Has(DeactPending) then CommandOrders(c.Off({Checking}), c.pendingType, k) else 0
  }

  /** When the link in POLL_ACTIVE is gone. */
  function LeavingOrders(c: ControlBlock, kind: DeactType, reason: Reason, k: DeactType): nat {
    var failed := reason == DhReqFailed;
    match kind
    case ToIdle => 0
    case ToDiscovery =>
      One(c.Has(Stopping) && k == ToIdle) + if failed then 0 else PendingOrders(c.(state := Discovering), k)
    case _ =>
      if !failed then PendingOrders(c.(state := W4HostSelect), k)
      else if c.Has(Checking) && c.Has(DeactPending) then
        One(k == c.pendingType) + One(RetryForces(c, kind, reason) && k == ToIdle)
      else One(k == if c.retries == 3 then ToDiscovery else kind)
  }

  /** How often an event makes the host send a deactivation of kind `k`. */
  function Orders(c: ControlBlock, e: Event, k: DeactType): nat {
    if e.DeactivateCmd? then CommandOrders(c, e.kind, k)
    else
      match c.state
      case Idle =>
        One(k == ToIdle &&
            (|| e.ActivatedNtf?
             || (e.DiscoverRsp? && (e.status != Ok || c.Has(Stopping) || c.Has(Disabling)))
             || (e.DeactivateNtf? && e.kind == ToDiscovery && !c.Has(W4Ntf))))
      case Discovering =>
        One(k == ToIdle &&
            (|| (e.DiscoverNtf? && e.more == LastAbort)
             || (e.ActivatedNtf? && !c.Has(W4Rsp) && !Wanted(c, e.handle))))
      case W4AllDiscoveries =>
        One(k == ToIdle && ((e.DiscoverNtf? && !e.known) || (e.ActivatedNtf? && !Wanted(c, e.handle))))
      case W4HostSelect =>
        if e.ActivatedNtf? then
          if c.Has(Checking) then PendingOrders(c.(state := PollActive), k)
          else One(k == ToIdle && !Wanted(c, e.handle))
        else if (e.SelectRsp? && e.status != Ok) || e.InterfaceError? then PendingOrders(c, k)
        else
          One(k == ToIdle &&
              (e.DiscoverCmd? || e.DiscoverRsp? || e.DiscoverNtf? || e.DeactivateNtf? || e.LpListenCmd?))
      case PollActive => if e.DeactivateNtf? && !c.Has(W4Rsp) then LeavingOrders(c, e.kind, e.reason, k) else 0
      case ListenActive =>
        One(k == ToIdle && e.DeactivateNtf? && e.kind == ToDiscovery && !c.Has(W4Rsp) && c.Has(Stopping))
      case ListenSleep => One(k == ToIdle && e.ActivatedNtf? && !Wanted(c, e.handle))
      case _ => 0
  }

  lemma SendOrders(c: ControlBlock, kind: DeactType, k: DeactType)
    requires c.state == PollActive || c.state == ListenActive || c.state == ListenSleep
    ensures Times(SendDeactivateCmd(c, kind).0, SendDeactivate(k)) == Times(c, SendDeactivate(k))
              + One(if !c.Has(W4Rsp) && !c.Has(W4Ntf) then k == kind
                    else c.Has(W4Ntf) && !c.Has(TimerRunning) && kind != ToSleep && k == ToIdle)
  {
    hide NewState, Times;
    var a := SendDeactivate(k);
    var f := c.Off({W4Ntf}).On({W4Rsp});
    NewStateSays(f, Idle, a);
    SameLog(c, f, a);
    DoSays(NewState(f, Idle), SendDeactivate(ToIdle), a);
    var g := c.On({W4Rsp, W4Ntf} + if c.Has(Patient) then {} else {TimerRunning});
    SameLog(c, g, a);
    DoSays(g, SendDeactivate(kind), a);
  }

  lemma CommandOrdersExactly(c: ControlBlock, kind: DeactType, k: DeactType)
    ensures Times(OnDeactivateCmd(c, kind), SendDeactivate(k))
            == Times(c, SendDeactivate(k)) + CommandOrders(c, kind, k)
  {
    hide SendDeactivateCmd, Times;
    var a, d := SendDeactivate(k), SendDeactivateCmd(c, kind).0;
    SameLog(c, c.On({W4Rsp}), a);
    DoSays(c.On({W4Rsp}), SendDeactivate(kind), a);
    DoSays(c.On({W4Rsp}), SendDeactivate(ToIdle), a);
    SameLog(c, c.(pendingType := kind).On({DeactPending}), a);
    SameLog(d, d.Off({W4Ntf, TimerRunning}), a);
    if c.state == PollActive || c.state == ListenActive || c.state == ListenSleep {
      SendOrders(c, kind, k);
    }
  }

  lemma PendingOrdersExactly(c: ControlBlock, ok: bool, k: DeactType)
    ensures Times(EndSleepWakeup(c, ok), SendDeactivate(k)) == Times(c, SendDeactivate(k)) + PendingOrders(c, k)
  {
    hide OnDeactivateCmd, Times;
    var a := SendDeactivate(k);
    var d := c.Off({Checking}).Do(WakeupDone(ok));
    var p := d.Off({DeactPending}).On({DeactNotifyPending});
    SameLog(c, c.Off({Checking}), a);
    DoSays(c.Off({Checking}), WakeupDone(ok), a);
    SameLog(d, p, a);
    CommandOrdersExactly(p, c.pendingType, k);
    assert CommandOrders(p, c.pendingType, k) == CommandOrders(c.Off({Checking}), c.pendingType, k);
  }

  lemma RetryOrders(c: ControlBlock, kind: DeactType, checking: bool, k: DeactType)
    requires c.state == PollActive && (c.Has(W4Rsp) <==> c.Has(W4Ntf)) && ToAnySleep(kind)
    ensures var next := if c.retries == 3 then ToDiscovery else kind;
            Times(RetrySleep(c, kind, checking), SendDeactivate(k)) == Times(c, SendDeactivate(k))
              + if c.retries == 3 && checking && c.Has(DeactPending) then 0
                else One(if !c.Has(W4Ntf) then k == next
                         else !c.Has(TimerRunning) && next != ToSleep && k == ToIdle)
  {
    hide SendDeactivateCmd, Times;
    var a, d := SendDeactivate(k), c.(retries := c.retries + 1);
    SendOrders(c, ToDiscovery, k);
    SendOrders(d, kind, k);
    SameLog(c, d, a);
    SameLog(c, c.(retries := 0), a);
    var e := SendDeactivateCmd(c, ToDiscovery).0;
    SameLog(e, e.(retries := 0), a);
  }

  lemma SleepOrders(c: ControlBlock, kind: DeactType, failed: bool, k: DeactType)
    requires c.state == PollActive && c.flags !! {W4Rsp, W4Ntf, TimerRunning} && ToAnySleep(kind)
    ensures Times(PollSleep(c, kind, failed), SendDeactivate(k)) == Times(c, SendDeactivate(k))
              + LeavingOrders(c, kind, if failed then DhReqFailed else DhReq, k)
  {
    hide EndSleepWakeup, RetrySleep, Times, CommandOrders;
    var a := SendDeactivate(k);
    var d := if failed then c else NewState(c.(retries := 0), W4HostSelect);
    SameLog(c, d, a);
    PendingOrdersExactly(d, true, k);
    DoSays(EndSleepWakeup(d, true), ReaderDeactivated, a);
    DoSays(d, SendSelect, a);
    if failed {
      if c.Has(Checking) && c.Has(DeactPending) {
        PendingGoesOut(c);
        RetryOrders(EndSleepWakeup(d, true).Do(ReaderDeactivated), kind, true, k);
        PendingIsSent(c, k);
      } else {
        RetryOrders(d.Do(SendSelect), kind, true, k);
        RetryOrders(d, kind, false, k);
      }
    } else {
      PendingAlike(d, c.(state := W4HostSelect), k);
    }
  }

  lemma PollOrders(c: ControlBlock, kind: DeactType, reason: Reason, k: DeactType)
    requires c.state == PollActive && !c.Has(W4Rsp)
    ensures Times(PollDeactivated(c.Off({W4Ntf, TimerRunning}), kind, reason), SendDeactivate(k))
            == Times(c, SendDeactivate(k)) + LeavingOrders(c, kind, reason, k)
  {
    hide BackToIdle, NotifyDeactivation, Times, PollSleep, EndSleepWakeup, CommandOrders;
    var a, failed := SendDeactivate(k), reason == DhReqFailed;
    var d := c.Off({W4Ntf, TimerRunning});
    var n := if failed then d else NotifyDeactivation(d, true, kind, reason);
    NoticeSays(d, true, kind, reason, a);
    NoticeFlags(d, true, kind, reason);
    SameLog(c, d, a);
    SameFlags(c, d, n);
    match kind
    case ToIdle =>
      BackToIdleSays(n, a);
      PendingOrdersExactly(BackToIdle(n), false, k);
      NonePendingInIdle(BackToIdle(n), k);
    case ToDiscovery =>
      var e := NewState(n, Discovering);
      SameLog(n, e, a);
      DoSays(e, SendDeactivate(ToIdle), a);
      var g := if e.Has(Stopping) then e.Do(SendDeactivate(ToIdle)) else e;
      PendingOrdersExactly(g, false, k);
      PendingAlike(g, c.(state := Discovering), k);
    case _ =>
      SleepOrders(n, kind, failed, k);
      PendingAlike(n.(state := W4HostSelect), c.(state := W4HostSelect), k);
  }

  lemma PendingIsSent(c: ControlBlock, k: DeactType)
    requires c.state == PollActive && c.flags !! {W4Rsp, W4Ntf}
    ensures CommandOrders(c.Off({Checking}), c.pendingType, k) == One(k == c.pendingType)
  {
  }

  lemma NonePendingInIdle(c: ControlBlock, k: DeactType)
    requires c.state == Idle
    ensures PendingOrders(c, k) == 0
  {
  }

  /** Before there is a link it only matters whether a response is awaited. */
  lemma PendingAlike(c: ControlBlock, d: ControlBlock, k: DeactType)
    requires c.state == d.state && (c.state == Discovering || c.state == W4HostSelect)
    requires c.pendingType == d.pendingType && c.Has(W4Rsp) == d.Has(W4Rsp)
    requires c.Has(Checking) == d.Has(Checking) && c.Has(DeactPending) == d.Has(DeactPending)
    ensures PendingOrders(c, k) == PendingOrders(d, k)
  {
  }

  lemma W4HostSelectOrders(c: ControlBlock, e: Event, k: DeactType)
    requires c.state == W4HostSelect && !e.DeactivateCmd?
    ensures Times(Execute(c, e), SendDeactivate(k)) == Times(c, SendDeactivate(k)) + Orders(c, e, k)
  {
    hide BackToIdle, NotifyActivation, NotifyDeactivation, EndSleepWakeup, Times, AppNotified, CommandOrders;
    var a := SendDeactivate(k);
    DoSays(c, SendDeactivate(ToIdle), a);
    match e
    case DeactivateRsp(_) => LeaveSays(c, {W4Rsp}, false, ToIdle, DhReq, a);
    case ActivatedNtf(interface, listen, handle) =>
      var d := NotifyActivation(NewState(c, PollActive), interface, handle);
      ActivationSays(c, PollActive, interface, handle, a);
      DoSays(d, SendDeactivate(ToIdle), a);
      PendingOrdersExactly(d, true, k);
      SameOrders(d, c.(state := PollActive), k);
    case SelectCmd =>
      AppSays(c, false, a);
      DoSays(c, SendSelect, a);
    case SelectRsp(status) =>
      AppSays(c, status == Ok, a);
      PendingOrdersExactly(if c.Has(Checking) then c else AppNotified(c, status == Ok), false, k);
    case InterfaceError =>
      PendingOrdersExactly(c, false, k);
      DoSays(c, NotifySelect(false), a);
    case _ =>
  }

  lemma SameOrders(c: ControlBlock, d: ControlBlock, k: DeactType)
    requires c.state == d.state && c.flags == d.flags && c.pendingType == d.pendingType
    ensures PendingOrders(c, k) == PendingOrders(d, k)
  {
  }

  lemma IdleOrders(c: ControlBlock, e: Event, k: DeactType)
    requires c.state == Idle && !e.DeactivateCmd?
    ensures Times(Execute(c, e), SendDeactivate(k)) == Times(c, SendDeactivate(k)) + Orders(c, e, k)
  {
    hide StartDiscover, BackToIdle, NotifyDeactivation, Times;
    var a, order := SendDeactivate(k), SendDeactivate(ToIdle);
    match e
    case DiscoverCmd => StartSays(c, a);
    case DiscoverRsp(status) =>
      DiscoverResponse(c, status);
      hide Execute;
      var d := NewState(c.Off({W4Rsp}), Discovering);
      SameLog(c, c.On({W4Rsp}), a);
      DoSays(c.On({W4Rsp}), order, a);
      SameLog(c, d, a);
      SameLog(d, d.On({W4Rsp}), a);
      DoSays(d.On({W4Rsp}), order, a);
      DoSays(d.Off({Notify}), NotifyStarted, a);
      SameLog(d, d.Off({Notify}), a);
    case DeactivateRsp(_) =>
      LeaveSays(c, {W4Rsp}, true, ToIdle, DhReq, a);
      ReturnOnlySays(c, {W4Rsp}, a);
      SameLog(c, c.Off({W4Rsp}), a);
    case DeactivateNtf(kind, reason) =>
      var d := BackToIdle(NotifyDeactivation(c, true, kind, reason));
      LeaveSays(c, {}, true, kind, reason, a);
      assert c.Off({}) == c;
      SameLog(d, d.Off({W4Ntf}), a);
      SameLog(c, c.Off({W4Ntf}), a);
      SameLog(c, c.On({W4Rsp}), a);
      DoSays(c.On({W4Rsp}), order, a);
      SameLog(c.On({W4Rsp}).Do(order), c.On({W4Rsp}).Do(order).Off({W4Ntf}), a);
    case ActivatedNtf(_, _, _) =>
      SameLog(c, c.On({W4Rsp, W4Ntf}), a);
      DoSays(c.On({W4Rsp, W4Ntf}), order, a);
    case LpListenCmd => SameLog(c, NewState(c, LpListen), a);
    case _ =>
  }

  lemma DiscoveryOrders(c: ControlBlock, e: Event, k: DeactType)
    requires (c.state == Discovering || c.state == W4AllDiscoveries) && !e.DeactivateCmd?
    ensures Times(Execute(c, e), SendDeactivate(k)) == Times(c, SendDeactivate(k)) + Orders(c, e, k)
  {
    hide BackToIdle, NotifyActivation, NotifyDeactivation, ReturnSays, Times;
    var a, order := SendDeactivate(k), SendDeactivate(ToIdle);
    DoSays(c, order, a);
    match e
    case DeactivateRsp(_) =>
      BackToIdleSays(c.Off({W4Rsp}), a);
      LeaveSays(c, {W4Rsp}, false, ToIdle, DhReq, a);
      SameLog(c, c.Off({W4Rsp}), a);
      ReturnsWithoutOrder(c, a);
    case DeactivateNtf(_, _) =>
      BackToIdleSays(c.Off({W4Ntf}), a);
      SameLog(c, c.Off({W4Ntf}), a);
      ReturnsWithoutOrder(c.Off({W4Ntf}), a);
    case ActivatedNtf(interface, listen, handle) =>
      var s := if c.state == Discovering then ActiveState(interface, listen) else PollActive;
      var d := NotifyActivation(NewState(c, s), interface, handle);
      ActivationSays(c, s, interface, handle, a);
      SameLog(d, d.On({W4Rsp, W4Ntf}), a);
      DoSays(d, order, a);
      DoSays(d.On({W4Rsp, W4Ntf}), order, a);
      SameLog(c, c.On({W4Ntf}), a);
    case DiscoverNtf(_, _) =>
      DoSays(c.Do(order), NotifyResult, a);
      DoSays(c, NotifyResult, a);
      SameLog(c, NewState(c, W4AllDiscoveries), a);
      SameLog(c, NewState(c, W4HostSelect), a);
      DoSays(NewState(c, W4AllDiscoveries), NotifyResult, a);
      DoSays(NewState(c, W4HostSelect), NotifyResult, a);
    case _ =>
  }

  lemma ReturnsWithoutOrder(c: ControlBlock, a: Action)
    requires a.SendDeactivate?
    ensures forall d: ControlBlock, done :: ReturnSays(d, done, a) == 0
  {
  }

  lemma ListenOrders(c: ControlBlock, e: Event, k: DeactType)
    requires (c.state == ListenActive || c.state == ListenSleep || LowPower(c)) && !e.DeactivateCmd?
    ensures Times(Execute(c, e), SendDeactivate(k)) == Times(c, SendDeactivate(k)) + Orders(c, e, k)
  {
    hide BackToIdle, NotifyActivation, NotifyDeactivation, ReturnSays, Times, ListenDeactivated;
    var a, order := SendDeactivate(k), SendDeactivate(ToIdle);
    ReturnsWithoutOrder(c, a);
    match e
    case DeactivateRsp(_) =>
      LeaveSays(c, {W4Rsp}, c.state == ListenActive, ToIdle, DhReq, a);
      SameLog(c, c.Off({W4Rsp}), a);
    case DeactivateNtf(kind, reason) =>
      SameLog(c, c.Off({W4Ntf, TimerRunning}), a);
      if c.state == ListenActive {
        ListenDeactivatedOrders(c, kind, reason, k);
      } else {
        var d := c.Off({W4Rsp, W4Ntf, TimerRunning});
        var n := NotifyDeactivation(d, false, kind, reason);
        LeaveSays(c, {W4Rsp, W4Ntf, TimerRunning}, false, kind, reason, a);
        NoticeSays(d, false, kind, reason, a);
        SameLog(c, d, a);
        SameLog(n, NewState(n, Discovering), a);
        NoticeSays(c.(state := LpListen), true, kind, reason, a);
        SameLog(c, c.(state := LpListen), a);
      }
    case ActivatedNtf(interface, listen, handle) =>
      ActivationSays(c, ListenActive, interface, handle, a);
      ActivationSays(c, LpActive, interface, handle, a);
      DoSays(NotifyActivation(NewState(c, ListenActive), interface, handle), order, a);
    case _ =>
  }

  lemma ListenDeactivatedOrders(c: ControlBlock, kind: DeactType, reason: Reason, k: DeactType)
    requires c.state == ListenActive
    ensures var d := c.Off({W4Ntf, TimerRunning});
            Times(ListenDeactivated(d, kind, reason), SendDeactivate(k)) == Times(c, SendDeactivate(k))
              + One(kind == ToDiscovery && c.Has(Stopping) && k == ToIdle)
  {
    hide BackToIdle, NotifyDeactivation, ReturnSays, Times;
    var a := SendDeactivate(k);
    var d := c.Off({W4Ntf, TimerRunning});
    var n := NotifyDeactivation(d, true, kind, reason);
    NoticeFlags(d, true, kind, reason);
    assert n.Has(Stopping) == c.Has(Stopping) by {
      assert Stopping in n.flags <==> Stopping in n.flags + {DeactNotifyPending};
      assert Stopping in d.flags <==> Stopping in d.flags + {DeactNotifyPending};
    }
    ReturnsWithoutOrder(c, a);
    LeaveSays(c, {W4Ntf, TimerRunning}, true, kind, reason, a);
    NoticeSays(d, true, kind, reason, a);
    SameLog(c, d, a);
    SameLog(n, NewState(n, ListenSleep), a);
    SameLog(n, NewState(n, Discovering), a);
    DoSays(NewState(n, Discovering), SendDeactivate(ToIdle), a);
  }

  /** In every state every event makes the host send exactly these deactivations. */
  lemma OrdersExactly(c: ControlBlock, e: Event, k: DeactType)
    ensures Times(Execute(c, e), SendDeactivate(k)) == Times(c, SendDeactivate(k)) + Orders(c, e, k)
  {
    hide Times, OnDeactivateCmd, CommandOrders, LeavingOrders, PendingOrders;
    if e.DeactivateCmd? {
      CommandOrdersExactly(c, e.kind, k);
    } else if c.state == PollActive {
      PollActiveOrders(c, e, k);
    } else {
      match c.state
      case Idle => IdleOrders(c, e, k);
      case Discovering => DiscoveryOrders(c, e, k);
      case W4AllDiscoveries => DiscoveryOrders(c, e, k);
      case W4HostSelect => W4HostSelectOrders(c, e, k);
      case _ => ListenOrders(c, e, k);
    }
    hide *;
  }

  lemma PollActiveOrders(c: ControlBlock, e: Event, k: DeactType)
    requires c.state == PollActive && !e.DeactivateCmd?
    ensures Times(Execute(c, e), SendDeactivate(k)) == Times(c, SendDeactivate(k)) + Orders(c, e, k)
  {
    hide Times, BackToIdle, NotifyDeactivation, PollDeactivated, ReturnSays, LeavingOrders;
    var a := SendDeactivate(k);
    ReturnsWithoutOrder(c, a);
    match e
    case DeactivateRsp(_) =>
      LeaveSays(c, {W4Rsp}, true, ToIdle, DhReq, a);
      SameLog(c, c.Off({W4Rsp}), a);
    case DeactivateNtf(kind, reason) =>
      SameLog(c, c.Off({W4Ntf, TimerRunning}), a);
      if !c.Has(W4Rsp) {
        PollOrders(c, kind, reason, k);
      }
    case _ =>
  }

  // ---- whether discovery is enabled -------------------------------------------------------------------

  lemma EnabledInIdle(c: ControlBlock)
    ensures BackToIdle(c).Has(Enabled) == c.Has(Enabled)
  {
  }

  lemma EnabledOnNotice(c: ControlBlock, byNtf: bool, kind: DeactType, reason: Reason)
    ensures NotifyDeactivation(c, byNtf, kind, reason).Has(Enabled) == c.Has(Enabled)
  {
  }

  lemma EnabledOnCommand(c: ControlBlock, kind: DeactType)
    ensures OnDeactivateCmd(c, kind).Has(Enabled) == c.Has(Enabled)
    ensures SendDeactivateCmd(c, kind).0.Has(Enabled) == c.Has(Enabled)
  {
    EnabledInNewState(c.Off({W4Ntf}).On({W4Rsp}));
    hide NewState;
  }

  lemma EnabledInNewState(c: ControlBlock)
    ensures NewState(c, Idle).Has(Enabled) == c.Has(Enabled)
  {
  }

  lemma EnabledOnWakeup(c: ControlBlock, ok: bool)
    ensures EndSleepWakeup(c, ok).Has(Enabled) == c.Has(Enabled)
  {
    if c.Has(Checking) {
      var d := c.Off({Checking}).Do(WakeupDone(ok));
      EnabledOnCommand(d.Off({DeactPending}).On({DeactNotifyPending}), c.pendingType);
    }
    hide OnDeactivateCmd;
  }

  lemma EnabledOnRetry(c: ControlBlock, kind: DeactType, checking: bool)
    ensures RetrySleep(c, kind, checking).Has(Enabled) == c.Has(Enabled)
  {
    EnabledOnCommand(c, ToDiscovery);
    EnabledOnCommand(c.(retries := c.retries + 1), kind);
    hide SendDeactivateCmd;
  }

  lemma EnabledWhenPollEnds(c: ControlBlock, kind: DeactType, reason: Reason)
    ensures PollDeactivated(c, kind, reason).Has(Enabled) == c.Has(Enabled)
  {
    hide NotifyDeactivation, EndSleepWakeup, RetrySleep, BackToIdle;
    var failed := reason == DhReqFailed;
    EnabledOnNotice(c, true, kind, reason);
    var d := if failed then c else NotifyDeactivation(c, true, kind, reason);
    EnabledInIdle(d);
    EnabledOnWakeup(BackToIdle(d), false);
    var e := NewState(d, Discovering);
    EnabledOnWakeup(if e.Has(Stopping) then e.Do(SendDeactivate(ToIdle)) else e, false);
    var s := if failed then d else NewState(d.(retries := 0), W4HostSelect);
    EnabledOnWakeup(s, true);
    EnabledOnRetry(s, kind, d.Has(Checking));
    EnabledOnRetry(EndSleepWakeup(s, true).Do(ReaderDeactivated), kind, d.Has(Checking));
    EnabledOnRetry(s.Do(SendSelect), kind, d.Has(Checking));
  }

  lemma EnabledOnResponse(c: ControlBlock, status: Status)
    ensures Execute(c, DeactivateRsp(status)).Has(Enabled) == c.Has(Enabled)
  {
    hide NotifyDeactivation, BackToIdle;
    var r := c.Off({W4Rsp});
    EnabledInIdle(r);
    EnabledOnNotice(r, true, ToIdle, DhReq);
    EnabledOnNotice(r, false, ToIdle, DhReq);
    EnabledInIdle(NotifyDeactivation(r, true, ToIdle, DhReq));
    EnabledInIdle(NotifyDeactivation(r, false, ToIdle, DhReq));
  }

  lemma EnabledOnNotification(c: ControlBlock, kind: DeactType, reason: Reason)
    ensures Execute(c, DeactivateNtf(kind, reason)).Has(Enabled) == c.Has(Enabled)
  {
    hide NotifyDeactivation, BackToIdle, PollDeactivated;
    var n, b := c.Off({W4Ntf, TimerRunning}), c.Off({W4Rsp, W4Ntf, TimerRunning});
    match c.state
    case Idle =>
      EnabledOnNotice(c, true, kind, reason);
      EnabledInIdle(NotifyDeactivation(c, true, kind, reason));
    case Discovering => EnabledInIdle(c.Off({W4Ntf}));
    case PollActive => EnabledWhenPollEnds(n, kind, reason);
    case ListenActive =>
      EnabledOnNotice(n, true, kind, reason);
      EnabledInIdle(NotifyDeactivation(n, true, kind, reason));
    case ListenSleep =>
      EnabledOnNotice(b, false, kind, reason);
      EnabledInIdle(NotifyDeactivation(b, false, kind, reason));
    case LpActive => EnabledOnNotice(c.(state := LpListen), true, kind, reason);
    case _ =>
  }

  lemma EnabledOnActivation(c: ControlBlock, interface: Interface, listen: bool, handle: Option<nat>)
    ensures Execute(c, ActivatedNtf(interface, listen, handle)).Has(Enabled) == c.Has(Enabled)
  {
    hide EndSleepWakeup, NotifyActivation, NewState;
    ActivationKeeps(c.(state := PollActive), interface, handle);
    ActivationKeeps(c.(state := ListenActive), interface, handle);
    ActivationKeeps(c.(state := LpActive), interface, handle);
    EnabledOnWakeup(NotifyActivation(NewState(c, PollActive), interface, handle), true);
  }

  lemma EnabledOtherwise(c: ControlBlock, e: Event)
    requires !e.DeactivateCmd? && !e.DeactivateRsp? && !e.DeactivateNtf? && !e.ActivatedNtf?
    ensures Execute(c, e).Has(Enabled) == c.Has(Enabled)
  {
    hide EndSleepWakeup, NotifyDeactivation, BackToIdle, NotifyActivation, PollDeactivated, ListenDeactivated;
    if e.SelectRsp? {
      EnabledOnWakeup(c, false);
      EnabledOnWakeup(AppNotified(c, e.status == Ok), false);
    } else if e.InterfaceError? {
      EnabledOnWakeup(c, false);
    }
  }

  lemma EnabledStays(c: ControlBlock, e: Event)
    ensures Execute(c, e).Has(Enabled) == c.Has(Enabled)
  {
    match e
    case DeactivateCmd(kind) =>
      EnabledOnCommand(c, kind);
      assert Execute(c, e) == OnDeactivateCmd(c, kind);
    case DeactivateRsp(status) => EnabledOnResponse(c, status);
    case DeactivateNtf(kind, reason) => EnabledOnNotification(c, kind, reason);
    case ActivatedNtf(interface, listen, handle) => EnabledOnActivation(c, interface, listen, handle);
    case _ => EnabledOtherwise(c, e);
    hide *;
  }

  /** Over every step discovery is enabled by a start in IDLE and by nothing else, and disabled by a stop or a shutdown
      and by nothing else. */
  lemma EnabledExactly(c: ControlBlock, op: Op)
    ensures Step(c, op).Has(Enabled) <==>
            if op == Stop || op == Disable then false else c.Has(Enabled) || (op == Start && c.state == Idle)
    ensures op.Offer? ==> (Step(c, op).Has(Offered) <==> op.any)
  {
    hide NewState, OnDeactivateCmd, SendDeactivateCmd, Execute;
    match op
    case Input(e) => EnabledStays(c, e);
    case Timeout => EnabledInNewState(c.Off({TimerRunning}).Off({W4Ntf}).On({W4Rsp}));
    case SleepWakeup => EnabledOnCommand(c, ToSleep);
    case Deactivate(kind) => EnabledOnCommand(c, kind);
    case Stop => EnabledOnCommand(c.Off({Enabled}).On({Stopping}), ToIdle);
    case Disable => EnabledOnCommand(c.Off({Enabled}).On({Disabling}), ToIdle);
    case ReleaseExclusive => EnabledOnCommand(c.On({Stopping}), ToIdle);
    case _ =>
  }

  /** Exclusive control is granted if and only if nobody has it and discovery is at rest; otherwise nothing happens. */
  lemma ExclusiveIsGrantedExactly(c: ControlBlock)
    ensures var d := Step(c, RequestExclusive);
            && (d != c <==> c.state == Idle && !c.Has(ExclusiveActive))
            && (d != c ==> d.Has(ExclusiveActive) && d.Has(ExclusiveEntry))
  {
    var d := StartDiscover(c.On({ExclusiveActive, ExclusiveEntry}));
    assert d.Has(ExclusiveActive) && d.Has(ExclusiveEntry);
  }

  // ---- starting, activating and waking up -----------------------------------------------------------

  /** Once in IDLE, discovery starts again exactly if a technology is offered and discovery is enabled, or
      exclusive control has been granted and is not given up on the way. */
  lemma RestartsExactly(c: ControlBlock)
    ensures var d := BackToIdle(c);
            var restarts := c.Has(Offered) && (c.Has(Enabled) ||
              (c.Has(ExclusiveEntry) && !(c.Has(Stopping) && c.Has(ExclusiveActive) && !c.Has(W4Rsp))));
            && (d.log == NewState(c, Idle).log + [SendDiscover] <==> restarts)
            && (restarts ==> d.Has(W4Rsp) && d.handle == None)
            && (!restarts ==> (d.Has(W4Rsp) <==> c.Has(W4Rsp)))
  {
    IdleKeeps(c);
    DiscoversExactly(NewState(c, Idle));
    hide NewState, StartDiscover;
  }

  lemma IdleKeeps(c: ControlBlock)
    ensures var d := NewState(c, Idle);
            && (d.Has(Enabled) <==> c.Has(Enabled)) && (d.Has(Offered) <==> c.Has(Offered))
            && (d.Has(W4Rsp) <==> c.Has(W4Rsp))
            && (d.Has(ExclusiveEntry) <==>
                c.Has(ExclusiveEntry) && !(c.Has(Stopping) && c.Has(ExclusiveActive) && !c.Has(W4Rsp)))
  {
  }

  lemma DiscoversExactly(c: ControlBlock)
    ensures var d := StartDiscover(c);
            var discovers := c.Has(Offered) && (c.Has(Enabled) || c.Has(ExclusiveEntry));
            && (d.log == c.log + [SendDiscover] <==> discovers)
            && (discovers ==> d.Has(W4Rsp) && d.handle == None)
            && (!discovers ==> (d.Has(W4Rsp) <==> c.Has(W4Rsp)))
  {
    var d := StartDiscover(c);
    assert d.log == c.log || d.log[|c.log|] == SendDiscover || d.log[|c.log|] == NotifyStarted;
  }

  /** The host listens: the interface of an activated secure element, or any but that of its direct access in listen
      mode. */
  predicate IsListened(interface: Interface, listen: bool) {
    interface == EeDirect || (listen && interface != SwpDirect)
  }

  predicate Discovered(c: ControlBlock) {
    || c.state == W4AllDiscoveries || c.state == ListenSleep
    || (c.state == Discovering && !c.Has(W4Rsp)) || (c.state == W4HostSelect && !c.Has(Checking))
  }

  /** An activation is passed on to one module, the exclusive owner before the entry that it matches, which is
      then the one to be told of the deactivation; or the target is sent back to idle, exactly if nobody wants it. */
  lemma ActivationIsToldOrRefused(c: ControlBlock, interface: Interface, listen: bool, handle: Option<nat>)
    requires Discovered(c)
    ensures var d := Execute(c, ActivatedNtf(interface, listen, handle));
            var owner := if c.Has(ExclusiveEntry) then None else handle;
            && d.state == (if c.state == ListenSleep || (c.state == Discovering && IsListened(interface, listen))
                           then ListenActive else PollActive)
            && d.log == c.log + [if Wanted(c, handle) then NotifyActivated(owner) else SendDeactivate(ToIdle)]
            && d.handle == if Wanted(c, handle) then owner else if interface == OtherInterface then None else c.handle
  {
  }

  /** An activation into the low power states, or one that ends a wake-up, is passed on if somebody wants it, but
      never refused. */
  lemma ActivationIsNeverRefused(c: ControlBlock, interface: Interface, listen: bool, handle: Option<nat>)
    requires c.state == LpListen || (c.state == W4HostSelect && c.Has(Checking) && !c.Has(DeactPending))
    ensures var d := Execute(c, ActivatedNtf(interface, listen, handle));
            var owner := if c.Has(ExclusiveEntry) then None else handle;
            && (d.state == if c.state == LpListen then LpActive else PollActive)
            && d.log == c.log + (if Wanted(c, handle) then [NotifyActivated(owner)] else [])
                              + (if c.state == LpListen then [] else [WakeupDone(true)])
            && d.handle == if Wanted(c, handle) then owner else if interface == OtherInterface then None else c.handle
  {
  }

  /** In the low power states a link comes and goes: back in LP_LISTEN, whoever was told of the activation has
      been told of the deactivation, and everything else that comes is ignored. */
  lemma LowPowerRoundTrip(c: ControlBlock, interface: Interface, listen: bool, handle: Option<nat>, kind: DeactType,
                          reason: Reason)
    requires c.state == LpListen && Wanted(c, handle) && !c.Has(Checking)
    ensures var owner := if c.Has(ExclusiveEntry) then None else handle;
            var active := Execute(c, ActivatedNtf(interface, listen, handle));
            var d := Execute(active, DeactivateNtf(kind, reason));
            && d.state == LpListen && d.handle == None
            && d.log == c.log + [NotifyActivated(owner)] + [NotifyDeactivated(true, kind, reason, owner)]
            && forall e: Event ::
                 && (!e.ActivatedNtf? ==> Execute(c, e) == c)
                 && (!e.DeactivateNtf? ==> Execute(active, e) == active)
  {
    var active := Execute(c, ActivatedNtf(interface, listen, handle));
    assert active.state == LpActive;
  }

  /** A start is answered by the controller's response exactly unless a stop or a shutdown waits for that, or
      at once if nothing is offered. */
  lemma StartIsAnsweredExactly(c: ControlBlock)
    requires c.state == Idle && !c.Has(Enabled)
    ensures var d := OnStart(c);
            if c.Has(Offered) then
              && d.log == c.log + [SendDiscover] && d.Has(W4Rsp)
              && var e := Execute(d, DiscoverRsp(Ok));
              e.state == Discovering &&
              e.log == d.log + [if c.Has(Stopping) || c.Has(Disabling) then SendDeactivate(ToIdle) else NotifyStarted]
            else d.log == c.log + [NotifyStarted] && (d.Has(W4Rsp) <==> c.Has(W4Rsp))
  {
  }

  /** A start while discovery is enabled or at work is answered at once and does nothing else. */
  lemma StartAgainIsAnsweredAtOnce(c: ControlBlock)
    requires c.Has(Enabled) || c.state != Idle
    ensures OnStart(c).log == c.log + [NotifyStarted] && OnStart(c).(log := c.log) == c
  {
  }

  /** The application is told of the outcome of its selection once: a second response tells it nothing, nor does a
      second attempt that comes too early. */
  lemma SelectionIsToldOnce(c: ControlBlock, status: Status, again: Status)
    requires c.state == W4HostSelect && !c.Has(Checking)
    ensures var d := Execute(c, SelectRsp(status));
            && d.log == c.log + (if c.Has(Notify) then [NotifySelect(status == Ok)] else [])
            && Execute(d, SelectRsp(again)) == d
    ensures var d := Execute(c, SelectCmd);
            c.Has(W4Rsp) ==>
              && d.log == c.log + (if c.Has(Notify) then [NotifySelect(false)] else [])
              && Execute(d, SelectCmd) == d
  {
  }

  /** Exclusive control that is taken and given back is over after the two responses of the controller if a
      technology is offered; if none is, it is never over: the release stays owed, and nothing is under way. */
  lemma ExclusiveEndsExactly(c: ControlBlock)
    requires c.state == Idle
    requires c.flags !! {ExclusiveActive, ExclusiveEntry, Stopping, Disabling, W4Rsp, W4Ntf, Enabled, Notify}
    ensures var r := OnReleaseExclusive(OnRequestExclusive(c));
            var d := Execute(Execute(r, DiscoverRsp(Ok)), DeactivateRsp(Ok));
            if c.Has(Offered) then
              && d.state == Idle && d.flags == c.flags && d.answers == c.answers + 1
              && d.log == c.log + [SendDiscover] + [SendDeactivate(ToIdle)] + [NotifyExclusiveStopped]
            else r.Has(ExclusiveActive) && Owed(r) == 1 && !Expects(r) && r.log == c.log
  {
    ExclusiveTaken(c);
    var r := OnReleaseExclusive(OnRequestExclusive(c));
    if c.Has(Offered) {
      ExclusiveGivenBack(c, r);
    }
    hide Execute, OnRequestExclusive, OnReleaseExclusive;
  }

  lemma ExclusiveTaken(c: ControlBlock)
    requires c.state == Idle && c.flags !! {ExclusiveActive, ExclusiveEntry, Stopping, W4Rsp, W4Ntf, Enabled, Notify}
    ensures var r := OnReleaseExclusive(OnRequestExclusive(c));
            && r.state == Idle && r.answers == c.answers
            && r.flags == c.flags + {ExclusiveActive, ExclusiveEntry, Stopping}
                          + (if c.Has(Offered) then {W4Rsp} else {})
            && r.log == c.log + if c.Has(Offered) then [SendDiscover] else []
  {
  }

  lemma ExclusiveGivenBack(c: ControlBlock, r: ControlBlock)
    requires c.state == Idle && c.Has(Offered)
    requires c.flags !! {ExclusiveActive, ExclusiveEntry, Stopping, Disabling, W4Rsp, W4Ntf, Enabled, Notify}
    requires r.state == Idle && r.flags == c.flags + {ExclusiveActive, ExclusiveEntry, Stopping, W4Rsp}
    ensures var d := Execute(Execute(r, DiscoverRsp(Ok)), DeactivateRsp(Ok));
            && d.state == Idle && d.flags == c.flags && d.answers == r.answers + 1
            && d.log == r.log + [SendDeactivate(ToIdle)] + [NotifyExclusiveStopped]
  {
    var e := Execute(r, DiscoverRsp(Ok));
    assert e.state == Discovering && e.flags == r.flags && e.log == r.log + [SendDeactivate(ToIdle)];
  }

  /** A wake-up begins exactly if no deactivation is in progress. A tag that then goes to sleep, is selected and
      wakes up is active again, and no module has been told that it was away. */
  lemma WakeupLeavesNoNotice(c: ControlBlock, interface: Interface, listen: bool, handle: Option<nat>)
    requires c.state == PollActive && !c.Has(Checking) && Wanted(c, handle)
    ensures Step(c, SleepWakeup).Has(Checking) <==> !c.Has(W4Rsp) && !c.Has(W4Ntf)
    ensures var asleep := RspThenNtf(Step(c, SleepWakeup), Ok, ToSleep, DhReq);
            var d := Execute(Execute(asleep, SelectRsp(Ok)), ActivatedNtf(interface, listen, handle));
            !c.Has(W4Rsp) && !c.Has(W4Ntf) ==>
              && d.state == PollActive && !d.Has(Checking) && d.notices == c.notices
              && d.log == c.log + [SendDeactivate(ToSleep)] + [SendSelect]
                          + [NotifyActivated(if c.Has(ExclusiveEntry) then None else handle)] + [WakeupDone(true)]
  {
    WakeupBegins(c);
    if !c.Has(W4Rsp) && !c.Has(W4Ntf) {
      var s := OnSleepWakeup(c);
      PollNtfLast(s, Ok, ToSleep, DhReq);
      TagSleeps(Cleared(s));
      TagWakes(RspThenNtf(s, Ok, ToSleep, DhReq), interface, listen, handle);
      hide Execute, RspThenNtf, OnSleepWakeup;
    }
  }

  lemma WakeupBegins(c: ControlBlock)
    requires c.state == PollActive && !c.Has(Checking)
    ensures var s := OnSleepWakeup(c);
            && (s.Has(Checking) <==> !c.Has(W4Rsp) && !c.Has(W4Ntf))
            && (s.Has(Checking) ==>
                  && s.state == PollActive && BothAwaited(s) && !s.Has(DeactPending) && s.notices == c.notices
                  && s.log == c.log + [SendDeactivate(ToSleep)] && (s.Has(ExclusiveEntry) <==> c.Has(ExclusiveEntry)))
  {
  }

  lemma TagSleeps(c: ControlBlock)
    requires c.state == PollActive && c.Has(Checking) && !c.Has(DeactPending)
    ensures PollDeactivated(c, ToSleep, DhReq) == c.(retries := 0, state := W4HostSelect).Do(SendSelect)
  {
  }

  lemma TagWakes(c: ControlBlock, interface: Interface, listen: bool, handle: Option<nat>)
    requires c.state == W4HostSelect && c.Has(Checking) && !c.Has(DeactPending) && Wanted(c, handle)
    ensures var d := Execute(Execute(c, SelectRsp(Ok)), ActivatedNtf(interface, listen, handle));
            && d.state == PollActive && !d.Has(Checking) && d.notices == c.notices
            && d.log == c.log + [NotifyActivated(if c.Has(ExclusiveEntry) then None else handle)] + [WakeupDone(true)]
  {
  }

  // ---- the manager ---------------------------------------------------------------------------------

  /** The handlers as the manager carries them out, one assignment to the control block at a time. */
  class Manager {
    var cb: ControlBlock

    constructor (offered: bool, patient: bool)
      ensures Guarded(cb) && cb.state == Idle && cb.log == [] && cb.answers == 0 && Owed(cb) == 0
    {
      cb := ControlBlock(Idle, (if offered then {Offered} else {}) + if patient then {Patient} else {}, ToIdle, 0,
                         None, [], 0, 0);
    }

    method EnterState(s: State)
      modifies this
      ensures cb == NewState(old(cb), s)
    {
      var before := cb.state;
      cb := cb.(state := s);
      if s == Idle && !cb.Has(W4Rsp) {
        if cb.Has(Stopping) {
          cb := cb.Off({Stopping});
          if cb.Has(ExclusiveActive) {
            if before != Idle && before != Discovering {
              cb := cb.Do(NotifyIdleToApp);
            }
            cb := cb.Off({ExclusiveActive, ExclusiveEntry});
            cb := cb.Do(NotifyExclusiveStopped);
          } else {
            cb := cb.Do(NotifyStopped);
          }
        }
        if cb.Has(Disabling) {
          cb := cb.Off({Disabling});
          cb := cb.Do(CheckDisabled);
        }
      }
    }

    method Discover()
      modifies this
      ensures cb == StartDiscover(old(cb))
    {
      if !cb.Has(Enabled) && !cb.Has(ExclusiveEntry) {
        return;
      }
      if cb.Has(Offered) {
        cb := cb.Do(SendDiscover);
        cb := cb.On({W4Rsp});
      } else if cb.Has(Notify) {
        cb := cb.Off({Notify}).Do(NotifyStarted);
      }
      cb := cb.(handle := None);
    }

    method TellDeactivated(byNtf: bool, kind: DeactType, reason: Reason)
      modifies this
      ensures cb == NotifyDeactivation(old(cb), byNtf, kind, reason)
    {
      if cb.Has(Checking) {
        return;
      }
      if !byNtf {
        if cb.state == ListenSleep || !cb.Has(Stopping) || cb.Has(DeactNotifyPending) {
          cb := cb.Do(NotifyDeactivated(byNtf, kind, reason, cb.handle));
        }
      } else {
        cb := cb.Do(NotifyDeactivated(byNtf, kind, reason, cb.handle));
      }
      cb := cb.(handle := None);
      cb := cb.Off({DeactNotifyPending});
    }

    method TellActivated(interface: Interface, handle: Option<nat>) returns (ok: bool)
      modifies this
      ensures cb == NotifyActivation(old(cb), interface, handle) && ok == Wanted(old(cb), handle)
    {
      if cb.Has(ExclusiveEntry) {
        cb := cb.(handle := None).Do(NotifyActivated(None));
        return true;
      }
      if handle.Some? {
        cb := cb.(handle := handle).Do(NotifyActivated(handle));
        return true;
      }
      if interface == OtherInterface {
        cb := cb.(handle := None);
      }
      return false;
    }

    method ForceIdle() returns (status: Status)
      modifies this
      ensures (cb, status) == ForceToIdle(old(cb))
    {
      status := SemanticError;
      if cb.Has(W4Ntf) {
        cb := cb.Off({W4Ntf});
        cb := cb.On({W4Rsp});
        EnterState(Idle);
        cb := cb.Do(SendDeactivate(ToIdle));
        status := Ok;
      }
    }

    method SendDeactivation(kind: DeactType) returns (status: Status)
      modifies this
      ensures (cb, status) == SendDeactivateCmd(old(cb), kind)
    {
      if !cb.Has(W4Rsp) && !cb.Has(W4Ntf) {
        cb := cb.On({W4Rsp, W4Ntf} + if cb.Has(Patient) then {} else {TimerRunning});
        cb := cb.Do(SendDeactivate(kind));
        return Ok;
      }
      if kind == ToSleep {
        status := SemanticError;
      } else if cb.Has(TimerRunning) {
        status := Ok;
      } else {
        status := ForceIdle();
      }
    }

    method DoDeactivateCmd(kind: DeactType)
      modifies this
      ensures cb == OnDeactivateCmd(old(cb), kind)
    {
      hide NewState, ForceToIdle, SendDeactivateCmd;
      match cb.state {
        case Discovering =>
          if !cb.Has(W4Rsp) {
            cb := cb.On({W4Rsp}).Do(SendDeactivate(kind));
          }
        case W4AllDiscoveries =>
          if !cb.Has(W4Rsp) {
            cb := cb.On({W4Rsp}).Do(SendDeactivate(ToIdle));
          }
        case W4HostSelect =>
          if cb.Has(Checking) {
            cb := cb.(pendingType := kind).On({DeactPending});
          } else if !cb.Has(W4Rsp) {
            cb := cb.On({W4Rsp}).Do(SendDeactivate(ToIdle));
          }
        case PollActive =>
          if cb.Has(Checking) {
            cb := cb.(pendingType := kind).On({DeactPending});
          } else {
            var _ := SendDeactivation(kind);
          }
        case ListenActive =>
          var _ := SendDeactivation(kind);
        case ListenSleep =>
          var _ := SendDeactivation(kind);
          if kind != ToDiscovery {
            cb := cb.Off({W4Ntf, TimerRunning});
          }
        case _ =>
      }
    }

    method FinishWakeup(ok: bool)
      modifies this
      ensures cb == EndSleepWakeup(old(cb), ok)
    {
      hide OnDeactivateCmd;
      if cb.Has(Checking) {
        cb := cb.Off({Checking});
        cb := cb.Do(WakeupDone(ok));
        if cb.Has(DeactPending) {
          cb := cb.Off({DeactPending});
          cb := cb.On({DeactNotifyPending});
          DoDeactivateCmd(cb.pendingType);
        }
      }
    }

    method GoIdle()
      modifies this
      ensures cb == BackToIdle(old(cb))
    {
      hide NewState, StartDiscover;
      EnterState(Idle);
      Discover();
    }

    method HandleIdle(e: Event)
      modifies this
      ensures cb == InIdle(old(cb), e)
      ensures Balanced(old(cb), cb) && (old(cb).state == Idle && Guarded(old(cb)) ==> Guarded(cb))
    {
      hide NewState, StartDiscover, NotifyDeactivation, BackToIdle;
      match e {
        case DiscoverCmd =>
          Discover();
        case DiscoverRsp(status) =>
          cb := cb.Off({W4Rsp});
          if status == Ok {
            EnterState(Discovering);
            if cb.Has(Stopping) || cb.Has(Disabling) {
              cb := cb.On({W4Rsp}).Do(SendDeactivate(ToIdle));
              return;
            }
            if cb.Has(Notify) {
              cb := cb.Off({Notify}).Do(NotifyStarted);
            }
          } else {
            cb := cb.On({W4Rsp}).Do(SendDeactivate(ToIdle));
            assert cb.flags == old(cb).flags + {W4Rsp};
          }
        case DeactivateRsp(status) =>
          cb := cb.Off({W4Rsp});
          if status == Ok {
            if !cb.Has(W4Ntf) {
              TellDeactivated(true, ToIdle, DhReq);
              GoIdle();
            }
          } else if status == SemanticError {
            GoIdle();
          }
        case DeactivateNtf(kind, reason) =>
          if !cb.Has(W4Ntf) {
            if kind == ToDiscovery {
              cb := cb.On({W4Rsp}).Do(SendDeactivate(ToIdle));
            } else {
              TellDeactivated(true, kind, reason);
              GoIdle();
            }
          }
          cb := cb.Off({W4Ntf});
        case ActivatedNtf(_, _, _) =>
          cb := cb.On({W4Rsp, W4Ntf}).Do(SendDeactivate(ToIdle));
        case LpListenCmd =>
          EnterState(LpListen);
        case _ =>
      }
    }

    method HandleDiscovery(e: Event)
      modifies this
      ensures cb == InDiscovery(old(cb), e)
      ensures Balanced(old(cb), cb) && (old(cb).state == Discovering && Guarded(old(cb)) ==> Guarded(cb))
    {
      hide NewState, NotifyActivation, BackToIdle;
      match e {
        case DeactivateRsp(_) =>
          cb := cb.Off({W4Rsp});
          if !cb.Has(W4Ntf) {
            GoIdle();
          }
        case DiscoverNtf(more, _) =>
          if more == LastAbort {
            cb := cb.Do(SendDeactivate(ToIdle));
          } else {
            EnterState(W4AllDiscoveries);
          }
          cb := cb.Do(NotifyResult);
        case ActivatedNtf(interface, listen, handle) =>
          if cb.Has(W4Rsp) {
            cb := cb.On({W4Ntf});
          } else {
            EnterState(ActiveState(interface, listen));
            var ok := TellActivated(interface, handle);
            if !ok {
              cb := cb.On({W4Rsp, W4Ntf}).Do(SendDeactivate(ToIdle));
            }
          }
        case DeactivateNtf(_, _) =>
          if cb.Has(W4Ntf) {
            cb := cb.Off({W4Ntf});
            if !cb.Has(W4Rsp) {
              GoIdle();
            }
          }
        case _ =>
      }
    }

    method HandleW4AllDiscoveries(e: Event)
      modifies this
      ensures cb == InW4AllDiscoveries(old(cb), e)
      ensures Balanced(old(cb), cb) && (old(cb).state == W4AllDiscoveries && Guarded(old(cb)) ==> Guarded(cb))
    {
      hide NewState, NotifyActivation, NotifyDeactivation, BackToIdle;
      match e {
        case DeactivateRsp(_) =>
          cb := cb.Off({W4Rsp});
          TellDeactivated(false, ToIdle, DhReq);
          GoIdle();
        case DiscoverNtf(more, known) =>
          if !known {
            cb := cb.Do(SendDeactivate(ToIdle));
            return;
          }
          if !cb.Has(W4Rsp) {
            if more != MoreToCome {
              EnterState(W4HostSelect);
            }
            cb := cb.Do(NotifyResult);
          }
        case ActivatedNtf(interface, _, handle) =>
          EnterState(PollActive);
          var ok := TellActivated(interface, handle);
          if !ok {
            cb := cb.Do(SendDeactivate(ToIdle));
          }
        case _ =>
      }
    }

    method TellApp(ok: bool)
      modifies this
      ensures cb == AppNotified(old(cb), ok)
    {
      if cb.Has(Notify) {
        cb := cb.Off({Notify});
        cb := cb.Do(NotifySelect(ok));
      }
    }

    method HandleW4HostSelect(e: Event)
      modifies this
      ensures cb == InW4HostSelect(old(cb), e)
      ensures Balanced(old(cb), cb) && (old(cb).state == W4HostSelect && Guarded(old(cb)) ==> Guarded(cb))
    {
      hide NewState, NotifyActivation, NotifyDeactivation, BackToIdle, AppNotified, OnDeactivateCmd;
      var checking := cb.Has(Checking);
      var wakeupEvent, wakeupProcessed := false, false;
      match e {
        case SelectCmd =>
          if !cb.Has(W4Rsp) {
            cb := cb.Do(SendSelect);
          } else {
            TellApp(false);
          }
        case SelectRsp(status) =>
          wakeupEvent := true;
          if status == Ok {
            wakeupProcessed := true;
          }
          if !checking {
            TellApp(status == Ok);
          }
        case ActivatedNtf(interface, _, handle) =>
          EnterState(PollActive);
          var ok := TellActivated(interface, handle);
          if checking {
            FinishWakeup(true);
          } else if !ok {
            cb := cb.Do(SendDeactivate(ToIdle));
          }
        case DeactivateRsp(_) =>
          cb := cb.Off({W4Rsp});
          TellDeactivated(false, ToIdle, DhReq);
          GoIdle();
        case InterfaceError =>
          wakeupEvent := true;
          if !checking {
            cb := cb.Do(NotifySelect(false));
          }
        case DeactivateCmd(_) =>
        case _ =>
          cb := cb.Do(SendDeactivate(ToIdle));
      }
      if checking && wakeupEvent && !wakeupProcessed {
        FinishWakeup(false);
      }
    }

    method HandlePollActive(e: Event)
      modifies this
      ensures cb == InPollActive(old(cb), e)
      ensures Balanced(old(cb), cb) && (old(cb).state == PollActive && Guarded(old(cb)) ==> Guarded(cb))
    {
      hide NewState, NotifyDeactivation, BackToIdle, PollDeactivated;
      match e {
        case DeactivateRsp(_) =>
          cb := cb.Off({W4Rsp});
          if !cb.Has(W4Ntf) {
            TellDeactivated(true, ToIdle, DhReq);
            GoIdle();
          }
        case DeactivateNtf(kind, reason) =>
          cb := cb.Off({W4Ntf, TimerRunning});
          if cb.Has(W4Rsp) {
            return;
          }
          LeavePollActive(kind, reason);
        case _ =>
      }
    }

    method LeavePollActive(kind: DeactType, reason: Reason)
      modifies this
      ensures cb == PollDeactivated(old(cb), kind, reason)
    {
      hide NewState, NotifyDeactivation, BackToIdle, PollSleep, OnDeactivateCmd;
      var checking := cb.Has(Checking);
      var wakeupEvent, wakeupProcessed := false, false;
      if reason != DhReqFailed {
        wakeupEvent := true;
        TellDeactivated(true, kind, reason);
      }
      if kind == ToSleep || kind == ToSleepAf {
        wakeupProcessed := checking;
        PutToSleep(kind, reason == DhReqFailed);
      } else if kind == ToIdle {
        GoIdle();
      } else {
        EnterState(Discovering);
        if cb.Has(Stopping) {
          cb := cb.Do(SendDeactivate(ToIdle));
        }
      }
      if checking && wakeupEvent && !wakeupProcessed {
        FinishWakeup(false);
      }
    }

    method PutToSleep(kind: DeactType, failed: bool)
      modifies this
      ensures cb == PollSleep(old(cb), kind, failed)
    {
      hide NewState, EndSleepWakeup, SendDeactivateCmd;
      var checking := cb.Has(Checking);
      if !failed {
        cb := cb.(retries := 0);
        EnterState(W4HostSelect);
      }
      if checking {
        if cb.Has(DeactPending) {
          FinishWakeup(true);
          cb := cb.Do(ReaderDeactivated);
        } else {
          cb := cb.Do(SendSelect);
        }
      }
      if failed {
        if cb.retries == 3 {
          if !checking || !cb.Has(DeactPending) {
            var _ := SendDeactivation(ToDiscovery);
          }
          cb := cb.(retries := 0);
        } else {
          cb := cb.(retries := cb.retries + 1);
          var _ := SendDeactivation(kind);
        }
      }
    }

    method HandleListenActive(e: Event)
      modifies this
      ensures cb == InListenActive(old(cb), e)
      ensures Balanced(old(cb), cb) && (old(cb).state == ListenActive && Guarded(old(cb)) ==> Guarded(cb))
    {
      hide NewState, NotifyDeactivation, BackToIdle;
      match e {
        case DeactivateRsp(_) =>
          cb := cb.Off({W4Rsp});
          if !cb.Has(W4Ntf) {
            TellDeactivated(true, ToIdle, DhReq);
            GoIdle();
          }
        case DeactivateNtf(kind, reason) =>
          cb := cb.Off({W4Ntf, TimerRunning});
          if !cb.Has(W4Rsp) {
            TellDeactivated(true, kind, reason);
            if kind == ToIdle {
              GoIdle();
            } else if kind == ToSleep || kind == ToSleepAf {
              EnterState(ListenSleep);
            } else {
              EnterState(Discovering);
              if cb.Has(Stopping) {
                cb := cb.Do(SendDeactivate(ToIdle));
              }
            }
          }
        case _ =>
      }
    }

    method HandleListenSleep(e: Event)
      modifies this
      ensures cb == InListenSleep(old(cb), e)
      ensures Balanced(old(cb), cb) && (old(cb).state == ListenSleep && Guarded(old(cb)) ==> Guarded(cb))
    {
      hide NewState, NotifyActivation, NotifyDeactivation, BackToIdle;
      match e {
        case DeactivateRsp(_) =>
          cb := cb.Off({W4Rsp});
          if !cb.Has(W4Ntf) {
            TellDeactivated(false, ToIdle, DhReq);
            GoIdle();
          }
        case DeactivateNtf(kind, reason) =>
          cb := cb.Off({W4Rsp, W4Ntf, TimerRunning});
          TellDeactivated(false, kind, reason);
          if kind == ToDiscovery {
            EnterState(Discovering);
          } else {
            GoIdle();
          }
        case ActivatedNtf(interface, _, handle) =>
          EnterState(ListenActive);
          var ok := TellActivated(interface, handle);
          if !ok {
            cb := cb.Do(SendDeactivate(ToIdle));
          }
        case _ =>
      }
    }

    method HandleLowPower(e: Event)
      requires cb.state == LpListen || cb.state == LpActive
      modifies this
      ensures cb == if old(cb).state == LpListen then InLpListen(old(cb), e) else InLpActive(old(cb), e)
    {
      hide NewState, NotifyActivation, NotifyDeactivation;
      if cb.state == LpListen {
        if e.ActivatedNtf? {
          EnterState(LpActive);
          var _ := TellActivated(e.interface, e.handle);
        }
      } else if e.DeactivateNtf? {
        EnterState(LpListen);
        TellDeactivated(true, e.kind, e.reason);
      }
    }

    /** Takes an event to the handler of the current state. */
    method Handle(e: Event)
      requires Guarded(cb)
      modifies this
      ensures Guarded(cb) && Balanced(old(cb), cb) && cb == Execute(old(cb), e)
    {
      hide InIdle, InDiscovery, InW4AllDiscoveries, InW4HostSelect, InPollActive, InListenActive, InListenSleep,
        InLpListen, InLpActive, OnDeactivateCmd;
      if e.DeactivateCmd? {
        DoDeactivateCmd(e.kind);
        return;
      }
      match cb.state {
        case Idle => HandleIdle(e);
        case Discovering => HandleDiscovery(e);
        case W4AllDiscoveries => HandleW4AllDiscoveries(e);
        case W4HostSelect => HandleW4HostSelect(e);
        case PollActive => HandlePollActive(e);
        case ListenActive => HandleListenActive(e);
        case ListenSleep => HandleListenSleep(e);
        case _ => HandleLowPower(e);
      }
    }

    /** The guard timer expires. */
    method GuardTimeout()
      requires Guarded(cb) && cb.Has(TimerRunning)
      modifies this
      ensures Guarded(cb) && cb == OnTimeout(old(cb)) && cb.state == Idle && cb.Has(W4Rsp)
    {
      TimeoutCompletesDeactivation(cb);
      hide ForceToIdle;
      cb := cb.Off({TimerRunning});
      var _ := ForceIdle();
    }

    method StartDiscovery()
      modifies this
      ensures cb == OnStart(old(cb))
    {
      hide StartDiscover;
      if cb.Has(Enabled) || cb.state != Idle {
        cb := cb.Do(NotifyStarted);
      } else {
        cb := cb.On({Enabled, Notify});
        Discover();
      }
    }

    method StopDiscovery()
      modifies this
      ensures cb == OnStop(old(cb))
      ensures (cb.answers > old(cb).answers || Expects(cb) || Deferred(cb)) <==> !StopIsLost(old(cb))
    {
      StopIsTakenUpExactly(cb);
      hide OnDeactivateCmd, Expects, Deferred, StopIsLost;
      if !cb.Has(Enabled) || cb.state == Idle {
        cb := cb.Off({Enabled});
        if cb.Has(W4Rsp) {
          cb := cb.On({Stopping});
        } else {
          cb := cb.Do(NotifyStopped);
        }
      } else {
        cb := cb.Off({Enabled});
        cb := cb.On({Stopping});
        DeactivateLink(ToIdle);
      }
    }

    method DeactivateLink(kind: DeactType)
      modifies this
      ensures cb == RfDeactivate(old(cb), kind) && ((Expects(cb) || Deferred(cb)) <==> !Unheard(old(cb), kind))
    {
      DeactivationIsUnderwayExactly(cb, kind);
      hide Expects, Deferred, Unheard;
      if cb.state == Idle || (cb.state == Discovering && kind != ToIdle) {
        return;
      }
      DoDeactivateCmd(kind);
    }

    method DisableDiscovery()
      modifies this
      ensures cb == OnDisable(old(cb))
      ensures old(cb).Has(Enabled) && !old(cb).Has(Disabling) ==> (cb.Has(Disabling) <==> ShutdownWaits(old(cb)))
    {
      if cb.Has(Enabled) && !cb.Has(Disabling) {
        ShutdownWaitsExactly(cb);
      }
      hide ShutdownWaits;
      hide OnDeactivateCmd;
      if cb.Has(Enabled) {
        cb := cb.Off({Enabled});
        if cb.state == Idle {
          if cb.Has(W4Rsp) {
            cb := cb.On({Disabling});
          }
        } else {
          cb := cb.On({Disabling});
          DoDeactivateCmd(ToIdle);
          if !cb.Has(W4Rsp) && !cb.Has(W4Ntf) {
            cb := cb.Off({Disabling});
          }
        }
      }
    }

    method StartExclusive()
      modifies this
      ensures cb == OnRequestExclusive(old(cb))
    {
      hide StartDiscover;
      if !cb.Has(ExclusiveActive) && cb.state == Idle {
        cb := cb.On({ExclusiveActive, ExclusiveEntry});
        Discover();
      }
    }

    method StopExclusive()
      modifies this
      ensures cb == OnReleaseExclusive(old(cb)) && ((Expects(cb) || Deferred(cb)) <==> !ReleaseIsLost(old(cb)))
    {
      ReleaseIsTakenUpExactly(cb);
      hide RfDeactivate, Expects, Deferred, ReleaseIsLost;
      cb := cb.On({Stopping});
      if !(cb.state == Idle && cb.Has(W4Rsp)) {
        DeactivateLink(ToIdle);
      }
    }

    /** Puts a tag to sleep, to wake it up again. */
    method CheckPresence()
      modifies this
      ensures cb == OnSleepWakeup(old(cb))
    {
      hide SendDeactivateCmd;
      if cb.state == PollActive {
        var status := SendDeactivation(ToSleep);
        if status == Ok {
          cb := cb.On({Checking});
          cb := cb.Off({DeactPending});
        }
      }
    }

    /** Any sequence of events, timeouts and requests: the guard holds throughout, and every stop asked for is
        answered once or is the one still owed. */
    method Play(ops: seq<Op>)
      requires Guarded(cb)
      modifies this
      ensures Guarded(cb) && cb == Run(old(cb), ops)
      ensures cb.answers + Owed(cb) == old(cb).answers + Owed(old(cb)) + AskedInAll(old(cb), ops)
    {
      EveryStopIsAnsweredOnce(cb, ops);
      hide Step, Guarded;
      ghost var start := cb;
      assert ops[..|ops|] == ops;
      for i := 0 to |ops|
        invariant Guarded(cb) && cb == Run(start, ops[..i])
      {
        assert ops[..i + 1][..i] == ops[..i];
        Perform(ops[i]);
      }
    }

    method Perform(op: Op)
      requires Guarded(cb)
      modifies this
      ensures Guarded(cb) && cb == Step(old(cb), op)
    {
      StepGuarded(cb, op);
      hide Execute, Guarded, OnStart, OnStop, OnDisable, OnRequestExclusive, OnReleaseExclusive, OnSleepWakeup,
        RfDeactivate;
      match op {
        case Input(e) => Handle(e);
        case Timeout => if cb.Has(TimerRunning) { GuardTimeout(); }
        case SleepWakeup => CheckPresence();
        case Deactivate(kind) => DeactivateLink(kind);
        case Start => StartDiscovery();
        case Stop => StopDiscovery();
        case Disable => DisableDiscovery();
        case RequestExclusive => StartExclusive();
        case ReleaseExclusive => StopExclusive();
        case Offer(any) => cb := if any then cb.On({Offered}) else cb.Off({Offered});
      }
    }
  }
}
