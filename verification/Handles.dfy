/** Who holds which discovery handle: the table of discovery entries (src/nfa/dm/nfa_dm_discover.cc), the
    listen entries of card emulation (src/nfa/ce/nfa_ce_act.cc) and the poll handle (src/nfa/dm/nfa_dm_act.cc). */
module DiscoveryHandles {
  import opened Options

  const NUM_ENTRIES := 8
  const LISTEN_INFO_MAX := 10
  const NDEF_IDX := 0

  /** What a listen entry stands for: the local tag, something the host emulates, a secure element, or nothing
      yet. */
  datatype Kind = LocalTag | HostEmulated | SecureElement | Unsettled

  datatype Listen = Listen(inUse: bool, kind: Kind, handle: Option<nat>)

  /** The discovery entries in use, the listen entries, the poll handle, and the handles of other modules. */
  datatype State = State(entries: seq<bool>, listen: seq<Listen>, poll: Option<nat>, others: set<nat>)

  ghost predicate Sized(s: State) {
    |s.entries| == NUM_ENTRIES && |s.listen| == LISTEN_INFO_MAX
  }

  /** A handle that may be held: its entry is in use. */
  predicate Live(s: State, h: nat) {
    h < |s.entries| && s.entries[h]
  }

  predicate Holds(l: Listen, h: nat) {
    l.inUse && l.handle == Some(h)
  }

  /** Every handle that is held is that of an entry in use, and has one holder; the local tag's listen entry
      keeps no handle while it is not in use. */
  ghost predicate Injective(s: State) {
    && Sized(s)
    && (forall i, h: nat :: 0 <= i < |s.listen| && Holds(s.listen[i], h) ==>
          Live(s, h) && s.poll != Some(h) && h !in s.others)
    && (forall i, j, h: nat :: 0 <= i < j < |s.listen| && Holds(s.listen[i], h) ==> !Holds(s.listen[j], h))
    && (s.poll.Some? ==> Live(s, s.poll.value) && s.poll.value !in s.others)
    && (forall h :: h in s.others ==> Live(s, h))
    && (!s.listen[NDEF_IDX].inUse ==> s.listen[NDEF_IDX].handle == None)
  }

  /** Every entry in use has a holder. */
  ghost predicate NoneLost(s: State) {
    forall h: nat :: Live(s, h) ==>
      s.poll == Some(h) || h in s.others || exists i :: 0 <= i < |s.listen| && Holds(s.listen[i], h)
  }

  // ---- the table -----------------------------------------------------------------------------------

  function FirstFree(entries: seq<bool>, i: nat): (h: nat)
    requires i <= |entries|
    ensures i <= h <= |entries| && (h < |entries| ==> !entries[h])
    decreases |entries| - i
  {
    if i == |entries| || !entries[i] then i else FirstFree(entries, i + 1)
  }

  /** The handle of a new discovery entry, if there is room. */
  function NewHandle(s: State): (h: Option<nat>)
    ensures h.Some? ==> h.value < |s.entries| && !s.entries[h.value]
  {
    var h := FirstFree(s.entries, 0);
    if h < |s.entries| then Some(h) else None
  }

  function Delete(s: State, h: Option<nat>): State {
    if h.Some? && h.value < |s.entries| then s.(entries := s.entries[h.value := false]) else s
  }

  /** Listen entry `i` gets a discovery entry of its own. */
  function Attach(s: State, i: nat): (State, bool)
    requires i < |s.listen|
  {
    match NewHandle(s)
    case None => (s, false)
    case Some(h) =>
      (s.(entries := s.entries[h := true], listen := s.listen[i := s.listen[i].(handle := Some(h))]), true)
  }

  /** Whether listening on entry `i` is still to be started. */
  predicate Waits(s: State, i: nat, active: set<nat>)
    requires i < |s.listen|
  {
    && s.listen[i].inUse && s.listen[i].handle == None
    && (s.listen[i].kind == HostEmulated || (s.listen[i].kind == SecureElement && i in active))
  }

  /** Starts listening from entry `i` on, until it fails; secure elements only if active. */
  function StartFrom(s: State, i: nat, active: set<nat>): (r: (State, bool))
    requires i <= |s.listen|
    ensures |r.0.listen| == |s.listen| && |r.0.entries| == |s.entries|
    decreases |s.listen| - i
  {
    if i == |s.listen| then (s, true)
    else if !Waits(s, i, active) then StartFrom(s, i + 1, active)
    else
      var (s', ok) := Attach(s, i);
      if ok then StartFrom(s', i + 1, active) else (s', false)
  }

  function StartListening(s: State, active: set<nat>): (r: (State, bool))
    requires Sized(s)
    ensures Sized(r.0)
  {
    if s.listen[NDEF_IDX].inUse && s.listen[NDEF_IDX].handle == None then
      var (s', ok) := Attach(s, NDEF_IDX);
      if ok then StartFrom(s', 0, active) else (s', false)
    else StartFrom(s, 0, active)
  }

  // ---- the requests --------------------------------------------------------------------------------

  datatype Op =
    | ConfigureTag(changed: bool, listens: bool, active: set<nat>)
    | DisableTag
    | Restart(active: set<nat>)
    | Register(kind: Kind, refused: bool, active: set<nat>)
    | Deregister(i: nat)
    | StartPolling
    | StopPolling(waits: bool)
    | OtherAdds
    | OtherDeletes(h: nat)
    | DetachAll

  function FreeListen(listen: seq<Listen>, i: nat): (k: nat)
    requires i <= |listen|
    ensures i <= k <= |listen| && (k < |listen| ==> !listen[k].inUse)
    decreases |listen| - i
  {
    if i == |listen| || !listen[i].inUse then i else FreeListen(listen, i + 1)
  }

  predicate AnyInUse(listen: seq<Listen>, i: nat)
    requires i <= |listen|
    decreases |listen| - i
  {
    i < |listen| && (listen[i].inUse || AnyInUse(listen, i + 1))
  }

  /** Stops listening on entry `i`. */
  function Detach(s: State, i: nat): State
    requires i < |s.listen|
  {
    Delete(s, s.listen[i].handle).(listen := s.listen[i := s.listen[i].(handle := None)])
  }

  function DetachFrom(s: State, i: nat): (s': State)
    requires i <= |s.listen|
    ensures |s'.listen| == |s.listen| && |s'.entries| == |s.entries|
    decreases |s.listen| - i
  {
    if i == |s.listen| then s
    else if s.listen[i].inUse && s.listen[i].handle.Some? then DetachFrom(Detach(s, i), i + 1)
    else DetachFrom(s, i + 1)
  }

  /** A new listen entry: one that is refused and one that cannot be started are marked free again. */
  function RegisterAt(s: State, k: nat, kind: Kind, refused: bool, active: set<nat>): State
    requires Sized(s) && k < |s.listen|
  {
    if refused then s.(listen := s.listen[k := Listen(false, kind, None)])
    else
      var (s', ok) := StartListening(s.(listen := s.listen[k := Listen(true, kind, None)]), active);
      if ok then s' else s'.(listen := s'.listen[k := s'.listen[k].(inUse := false)])
  }

  function Step(s: State, op: Op): State
    requires Sized(s)
  {
    match op
    case ConfigureTag(changed, listens, active) =>
      var t :=
        if s.listen[NDEF_IDX].inUse && s.listen[NDEF_IDX].handle.Some? && changed then Detach(s, NDEF_IDX) else s;
      var u := t.(listen := t.listen[NDEF_IDX := t.listen[NDEF_IDX].(inUse := true, kind := LocalTag)]);
      if listens then StartListening(u, active).0 else u
    case DisableTag =>
      if s.listen[NDEF_IDX].inUse then
        var t := Detach(s, NDEF_IDX);
        t.(listen := t.listen[NDEF_IDX := t.listen[NDEF_IDX].(inUse := false)])
      else s
    case Restart(active) => if AnyInUse(s.listen, 0) then StartListening(s, active).0 else s
    case Register(kind, refused, active) =>
      var k := FreeListen(s.listen, 1);
      if k == |s.listen| then s else RegisterAt(s, k, kind, refused, active)
    case Deregister(i) =>
      if i < |s.listen| && s.listen[i].inUse then
        var t := Detach(s, i);
        t.(listen := t.listen[i := t.listen[i].(inUse := false)])
      else s
    case StartPolling =>
      if s.poll == None && NewHandle(s).Some? then
        s.(entries := s.entries[NewHandle(s).value := true], poll := NewHandle(s))
      else s
    case StopPolling(waits) => if waits then s else Delete(s, s.poll).(poll := None)
    case OtherAdds =>
      if NewHandle(s).Some? then
        s.(entries := s.entries[NewHandle(s).value := true], others := s.others + {NewHandle(s).value})
      else s
    case OtherDeletes(h) => if h in s.others then Delete(s, Some(h)).(others := s.others - {h}) else s
    case DetachAll => DetachFrom(s, 0)
  }

  function Run(s: State, ops: seq<Op>): (s': State)
    requires Sized(s)
    ensures Sized(s')
  {
    if ops == [] then s else Step(Run(s, ops[..|ops| - 1]), ops[|ops| - 1])
  }

  // ---- ownership -----------------------------------------------------------------------------------

  lemma AttachInjective(s: State, i: nat)
    requires Injective(s) && i < |s.listen| && s.listen[i].inUse && s.listen[i].handle == None
    ensures Injective(Attach(s, i).0) && (NoneLost(s) ==> NoneLost(Attach(s, i).0))
  {
    AttachLosesNone(s, i);
    var (s', ok) := Attach(s, i);
    hide NoneLost, FirstFree;
    if ok {
      assert forall j, g: nat :: 0 <= j < |s.listen| && Holds(s'.listen[j], g) ==>
          (j == i && g == NewHandle(s).value) || Holds(s.listen[j], g);
    }
  }

  lemma AttachLosesNone(s: State, i: nat)
    requires i < |s.listen| && s.listen[i].inUse && s.listen[i].handle == None
    ensures NoneLost(s) ==> NoneLost(Attach(s, i).0)
  {
    var (s', ok) := Attach(s, i);
    if ok && NoneLost(s) {
      var h := NewHandle(s).value;
      assert Holds(s'.listen[i], h);
      forall g: nat | Live(s', g)
        ensures s'.poll == Some(g) || g in s'.others || exists j :: 0 <= j < |s'.listen| && Holds(s'.listen[j], g)
      {
        if g != h {
          assert Live(s, g);
          if j :| 0 <= j < |s.listen| && Holds(s.listen[j], g) {
            assert Holds(s'.listen[j], g);
          }
        }
      }
    }
  }

  lemma DetachInjective(s: State, i: nat)
    requires Injective(s) && i < |s.listen| && s.listen[i].inUse
    ensures Injective(Detach(s, i)) && (NoneLost(s) ==> NoneLost(Detach(s, i)))
  {
    DetachLosesNone(s, i);
    hide NoneLost;
  }

  lemma DetachLosesNone(s: State, i: nat)
    requires i < |s.listen|
    ensures NoneLost(s) ==> NoneLost(Detach(s, i))
  {
    var s' := Detach(s, i);
    forall h: nat | NoneLost(s) && Live(s', h)
      ensures s'.poll == Some(h) || h in s'.others || exists j :: 0 <= j < |s'.listen| && Holds(s'.listen[j], h)
    {
      assert Live(s, h);
      if j :| 0 <= j < |s.listen| && Holds(s.listen[j], h) {
        assert j == i || Holds(s'.listen[j], h);
      }
    }
  }

  lemma {:induction false} StartFromInjective(s: State, i: nat, active: set<nat>)
    requires Injective(s) && i <= |s.listen|
    ensures var s' := StartFrom(s, i, active).0; Injective(s') && (NoneLost(s) ==> NoneLost(s'))
    decreases |s.listen| - i
  {
    hide Injective, NoneLost, Attach, Waits;
    if i < |s.listen| {
      if Waits(s, i, active) {
        WaitsIs(s, i, active);
        AttachInjective(s, i);
        var (s', ok) := Attach(s, i);
        if ok {
          AttachSize(s, i);
          StartFromInjective(s', i + 1, active);
        }
      } else {
        StartFromInjective(s, i + 1, active);
      }
    }
  }

  lemma WaitsIs(s: State, i: nat, active: set<nat>)
    requires i < |s.listen| && Waits(s, i, active)
    ensures s.listen[i].inUse && s.listen[i].handle == None
  {
  }

  lemma AttachSize(s: State, i: nat)
    requires i < |s.listen|
    ensures |Attach(s, i).0.listen| == |s.listen| && |Attach(s, i).0.entries| == |s.entries|
  {
  }

  lemma StartListeningInjective(s: State, active: set<nat>)
    requires Injective(s)
    ensures var s' := StartListening(s, active).0; Injective(s') && (NoneLost(s) ==> NoneLost(s'))
  {
    AttachSize(s, NDEF_IDX);
    if s.listen[NDEF_IDX].inUse && s.listen[NDEF_IDX].handle == None {
      AttachInjective(s, NDEF_IDX);
      var (s', ok) := Attach(s, NDEF_IDX);
      if ok {
        StartFromInjective(s', 0, active);
      }
    } else {
      StartFromInjective(s, 0, active);
    }
    hide Injective, NoneLost, Attach, StartFrom;
  }

  /** Changing a listen entry that holds nothing, to one that holds nothing. */
  lemma SettleInjective(s: State, k: nat, l: Listen)
    requires Injective(s) && k < |s.listen| && l.handle == None
    requires s.listen[k].inUse ==> s.listen[k].handle == None
    ensures var s' := s.(listen := s.listen[k := l]); Injective(s') && (NoneLost(s) ==> NoneLost(s'))
  {
    var s' := s.(listen := s.listen[k := l]);
    forall h: nat | NoneLost(s) && Live(s', h)
      ensures s'.poll == Some(h) || h in s'.others || exists j :: 0 <= j < |s'.listen| && Holds(s'.listen[j], h)
    {
      assert Live(s, h);
      if j :| 0 <= j < |s.listen| && Holds(s.listen[j], h) {
        assert Holds(s'.listen[j], h);
      }
    }
  }

  /** Marking an entry free loses its discovery entry exactly if it has one. */
  lemma DropIs(s: State, k: nat)
    requires Injective(s) && NDEF_IDX < k < |s.listen| && s.listen[k].inUse
    ensures var s' := s.(listen := s.listen[k := s.listen[k].(inUse := false)]);
            Injective(s') && (NoneLost(s) ==> (NoneLost(s') <==> s.listen[k].handle == None))
  {
    var s' := s.(listen := s.listen[k := s.listen[k].(inUse := false)]);
    if NoneLost(s) {
      if s.listen[k].handle == None {
        forall h: nat | Live(s', h)
          ensures s'.poll == Some(h) || h in s'.others || exists j :: 0 <= j < |s'.listen| && Holds(s'.listen[j], h)
        {
          assert Live(s, h);
          if j :| 0 <= j < |s.listen| && Holds(s.listen[j], h) {
            assert Holds(s'.listen[j], h);
          }
        }
      } else {
        var h := s.listen[k].handle.value;
        assert Holds(s.listen[k], h) && Live(s', h);
        assert forall j :: 0 <= j < |s'.listen| ==> !Holds(s'.listen[j], h);
      }
    }
  }

  /** How many discovery entries are free. */
  function Free(entries: seq<bool>): nat {
    if entries == [] then 0 else Free(entries[..|entries| - 1]) + if entries[|entries| - 1] then 0 else 1
  }

  /** How many of the listen entries from `i` to `n` wait for a discovery entry. */
  function Demand(s: State, i: nat, n: nat, active: set<nat>): nat
    requires i <= n <= |s.listen|
    decreases n - i
  {
    if i == n then 0 else (if Waits(s, i, active) then 1 else 0) + Demand(s, i + 1, n, active)
  }

  /** The local tag is served before all others. */
  predicate TagWaits(s: State)
    requires Sized(s)
  {
    s.listen[NDEF_IDX].inUse && s.listen[NDEF_IDX].handle == None
  }

  /** The demand that is served before listen entry `k` is. */
  function DemandBefore(s: State, k: nat, active: set<nat>): nat
    requires Sized(s) && 1 <= k <= |s.listen|
  {
    (if TagWaits(s) then 1 else 0) + Demand(s, 1, k, active)
  }

  lemma {:induction false} FreeAfter(entries: seq<bool>, h: nat)
    requires h < |entries| && !entries[h]
    ensures 0 < Free(entries) && Free(entries[h := true]) == Free(entries) - 1
  {
    var n := |entries| - 1;
    if h < n {
      FreeAfter(entries[..n], h);
      assert entries[h := true][..n] == entries[..n][h := true];
    } else {
      assert entries[h := true][..n] == entries[..n];
    }
  }

  lemma {:induction false} NoneFree(entries: seq<bool>)
    requires forall h :: 0 <= h < |entries| ==> entries[h]
    ensures Free(entries) == 0
  {
    if entries != [] {
      NoneFree(entries[..|entries| - 1]);
    }
  }

  lemma {:induction false} FirstFreeSkips(entries: seq<bool>, i: nat)
    requires i <= |entries|
    ensures forall h :: i <= h < FirstFree(entries, i) ==> entries[h]
    decreases |entries| - i
  {
    if i < |entries| && entries[i] {
      FirstFreeSkips(entries, i + 1);
    }
  }

  /** A discovery entry can be had exactly if one is free, and then there is one less. */
  lemma AttachCounts(s: State, i: nat)
    requires i < |s.listen|
    ensures var (t, ok) := Attach(s, i);
            && (ok <==> 0 < Free(s.entries))
            && (ok ==> Free(t.entries) == Free(s.entries) - 1 && t.listen[i].handle.Some?)
            && (!ok ==> t == s)
            && |t.listen| == |s.listen| && forall j :: 0 <= j < |s.listen| && j != i ==> t.listen[j] == s.listen[j]
  {
    FirstFreeSkips(s.entries, 0);
    if NewHandle(s).Some? {
      FreeAfter(s.entries, NewHandle(s).value);
    } else {
      NoneFree(s.entries);
    }
  }

  lemma {:induction false} SameDemand(s: State, t: State, i: nat, n: nat, active: set<nat>)
    requires i <= n <= |s.listen| && |t.listen| == |s.listen| && forall j :: i <= j < n ==> t.listen[j] == s.listen[j]
    ensures Demand(t, i, n, active) == Demand(s, i, n, active)
    decreases n - i
  {
    if i < n {
      SameDemand(s, t, i + 1, n, active);
    }
  }

  lemma {:induction false} DemandGrows(s: State, i: nat, k: nat, n: nat, active: set<nat>)
    requires i <= k < n <= |s.listen| && Waits(s, k, active)
    ensures Demand(s, i, k, active) < Demand(s, i, n, active)
    decreases k - i
  {
    if i < k {
      DemandGrows(s, i + 1, k, n, active);
    }
  }

  /** Starting succeeds exactly if there are enough discovery entries for all that wait, and serves an entry
      exactly if there are more than those before it take. */
  lemma {:induction false} StartFromServes(s: State, i: nat, k: nat, active: set<nat>)
    requires i <= |s.listen| && k < |s.listen|
    ensures var (t, ok) := StartFrom(s, i, active);
            && (ok <==> Demand(s, i, |s.listen|, active) <= Free(s.entries))
            && (k < i ==> t.listen[k] == s.listen[k])
            && (i <= k && s.listen[k].handle == None ==>
                (t.listen[k].handle.Some? <==> Waits(s, k, active) && Demand(s, i, k, active) < Free(s.entries)))
    decreases |s.listen| - i
  {
    if i < |s.listen| {
      if Waits(s, i, active) {
        AttachCounts(s, i);
        var (t, ok) := Attach(s, i);
        SameDemand(s, t, i + 1, |s.listen|, active);
        if i < k {
          SameDemand(s, t, i + 1, k, active);
        }
        hide Attach, Free;
        if ok {
          StartFromServes(t, i + 1, k, active);
        }
      } else {
        StartFromServes(s, i + 1, k, active);
      }
    }
  }

  /** The same with the local tag served first. */
  lemma StartListeningServes(s: State, k: nat, active: set<nat>)
    requires Sized(s) && NDEF_IDX < k < |s.listen| && s.listen[k].handle == None
    ensures var (t, ok) := StartListening(s, active);
            && (ok <==> DemandBefore(s, |s.listen|, active) <= Free(s.entries))
            && (t.listen[k].handle.Some? <==> Waits(s, k, active) && DemandBefore(s, k, active) < Free(s.entries))
  {
    if TagWaits(s) {
      AttachCounts(s, NDEF_IDX);
      var (t, ok) := Attach(s, NDEF_IDX);
      SameDemand(s, t, 1, |s.listen|, active);
      SameDemand(s, t, 1, k, active);
      hide Attach, Free;
      if ok {
        FromTheFirst(t, k, active);
        StartFromServes(t, 0, k, active);
      }
    } else {
      FromTheFirst(s, k, active);
      StartFromServes(s, 0, k, active);
    }
  }

  lemma FromTheFirst(s: State, k: nat, active: set<nat>)
    requires Sized(s) && NDEF_IDX < k < |s.listen| && !TagWaits(s)
    ensures Demand(s, 0, |s.listen|, active) == Demand(s, 1, |s.listen|, active)
    ensures Demand(s, 0, k, active) == Demand(s, 1, k, active)
  {
    assert !Waits(s, 0, active);
  }

  /** Whether a new listen entry `k` takes a discovery entry but those that wait are too many for all to. */
  predicate RunsShort(s: State, k: nat, kind: Kind, active: set<nat>)
    requires Sized(s) && 1 <= k < |s.listen|
  {
    var u := s.(listen := s.listen[k := Listen(true, kind, None)]);
    Waits(u, k, active) && DemandBefore(u, k, active) < Free(s.entries) < DemandBefore(u, |s.listen|, active)
  }

  /** Registering keeps handles with their holders. It loses a discovery entry, which is then in use for good with
      nobody to delete it, exactly when there is one for the new listen entry but not for all that wait. */
  lemma RegisterLosesExactly(s: State, k: nat, kind: Kind, refused: bool, active: set<nat>)
    requires Injective(s) && NDEF_IDX < k < |s.listen| && !s.listen[k].inUse
    ensures Injective(RegisterAt(s, k, kind, refused, active))
    ensures NoneLost(s) ==>
              (NoneLost(RegisterAt(s, k, kind, refused, active)) <==> refused || !RunsShort(s, k, kind, active))
  {
    SettleInjective(s, k, Listen(false, kind, None));
    SettleInjective(s, k, Listen(true, kind, None));
    var u := s.(listen := s.listen[k := Listen(true, kind, None)]);
    StartListeningInjective(u, active);
    StaysInUse(u, k, active);
    StartListeningServes(u, k, active);
    var (t, ok) := StartListening(u, active);
    DropIs(t, k);
    hide Injective, NoneLost, StartListening, Demand, Free, Waits;
  }

  lemma {:induction false} StaysInUseFrom(s: State, i: nat, k: nat, active: set<nat>)
    requires i <= |s.listen| && k < |s.listen|
    ensures StartFrom(s, i, active).0.listen[k].inUse == s.listen[k].inUse
    decreases |s.listen| - i
  {
    if i < |s.listen| {
      if Waits(s, i, active) {
        StaysInUseFrom(Attach(s, i).0, i + 1, k, active);
      } else {
        StaysInUseFrom(s, i + 1, k, active);
      }
    }
  }

  lemma StaysInUse(s: State, k: nat, active: set<nat>)
    requires Sized(s) && k < |s.listen|
    ensures StartListening(s, active).0.listen[k].inUse == s.listen[k].inUse
  {
    StaysInUseFrom(Attach(s, NDEF_IDX).0, 0, k, active);
    StaysInUseFrom(s, 0, k, active);
  }

  lemma {:induction false} DetachFromInjective(s: State, i: nat)
    requires Injective(s) && i <= |s.listen|
    ensures Injective(DetachFrom(s, i)) && (NoneLost(s) ==> NoneLost(DetachFrom(s, i)))
    decreases |s.listen| - i
  {
    if i < |s.listen| {
      if s.listen[i].inUse && s.listen[i].handle.Some? {
        DetachInjective(s, i);
        assert |Detach(s, i).listen| == |s.listen|;
        DetachFromInjective(Detach(s, i), i + 1);
      } else {
        DetachFromInjective(s, i + 1);
      }
    }
    hide Injective, NoneLost, Detach;
  }

  /** Other listen entries may change as long as they hold what they held. */
  lemma NoneLostHolding(s: State, t: State)
    requires NoneLost(s) && t.poll == s.poll && t.others == s.others
    requires t.entries == s.entries && |t.listen| == |s.listen|
    requires forall i, h: nat :: 0 <= i < |s.listen| && Holds(s.listen[i], h) ==> Holds(t.listen[i], h)
    ensures NoneLost(t)
  {
    forall h: nat | Live(t, h)
      ensures t.poll == Some(h) || h in t.others || exists j :: 0 <= j < |t.listen| && Holds(t.listen[j], h)
    {
      assert Live(s, h);
      if j :| 0 <= j < |s.listen| && Holds(s.listen[j], h) {
        assert Holds(t.listen[j], h);
      }
    }
  }

  /** The poll handle or those of others may change as long as no entry in use goes without a holder. */
  lemma NoneLostElsewhere(s: State, t: State)
    requires NoneLost(s) && t.listen == s.listen
    requires forall h: nat :: Live(t, h) ==>
               t.poll == Some(h) || h in t.others || (Live(s, h) && s.poll != Some(h) && h !in s.others)
    ensures NoneLost(t)
  {
  }

  lemma ConfigureInjective(s: State, changed: bool, listens: bool, active: set<nat>)
    requires Injective(s)
    ensures var s' := Step(s, ConfigureTag(changed, listens, active)); Injective(s') && (NoneLost(s) ==> NoneLost(s'))
  {
    if s.listen[NDEF_IDX].inUse && s.listen[NDEF_IDX].handle.Some? && changed {
      DetachInjective(s, NDEF_IDX);
    }
    var t := if s.listen[NDEF_IDX].inUse && s.listen[NDEF_IDX].handle.Some? && changed then Detach(s, NDEF_IDX) else s;
    hide Detach;
    var u := t.(listen := t.listen[NDEF_IDX := t.listen[NDEF_IDX].(inUse := true, kind := LocalTag)]);
    assert forall i, h: nat :: 0 <= i < |u.listen| && Holds(u.listen[i], h) ==> Holds(t.listen[i], h);
    assert Injective(u);
    hide NoneLost, StartListening;
    if NoneLost(t) {
      NoneLostHolding(t, u);
    }
    if listens {
      StartListeningInjective(u, active);
    }
    hide Injective;
  }

  lemma RemoveInjective(s: State, i: nat)
    requires Injective(s) && i < |s.listen| && s.listen[i].inUse
    ensures var t := Detach(s, i);
            var s' := t.(listen := t.listen[i := t.listen[i].(inUse := false)]);
            Injective(s') && (NoneLost(s) ==> NoneLost(s'))
  {
    DetachInjective(s, i);
    var t := Detach(s, i);
    assert t.listen[i].handle == None;
    hide Detach, NoneLost;
    SettleInjective(t, i, t.listen[i].(inUse := false));
  }

  lemma PollingInjective(s: State)
    requires Injective(s)
    ensures Injective(Step(s, StartPolling)) && Injective(Step(s, StopPolling(false)))
    ensures NoneLost(s) ==> NoneLost(Step(s, StartPolling)) && NoneLost(Step(s, StopPolling(false)))
  {
    hide FirstFree, NoneLost;
    if NoneLost(s) {
      NoneLostElsewhere(s, Step(s, StartPolling));
      NoneLostElsewhere(s, Step(s, StopPolling(false)));
    }
  }

  lemma OtherAddsInjective(s: State)
    requires Injective(s)
    ensures Injective(Step(s, OtherAdds)) && (NoneLost(s) ==> NoneLost(Step(s, OtherAdds)))
  {
    hide FirstFree, NoneLost;
    if NoneLost(s) {
      NoneLostElsewhere(s, Step(s, OtherAdds));
    }
  }

  lemma OtherDeletesInjective(s: State, h: nat)
    requires Injective(s)
    ensures Injective(Step(s, OtherDeletes(h))) && (NoneLost(s) ==> NoneLost(Step(s, OtherDeletes(h))))
  {
    hide NoneLost;
    if NoneLost(s) {
      NoneLostElsewhere(s, Step(s, OtherDeletes(h)));
    }
  }

  /** The one way to lose a discovery entry: a registration that runs short of them. */
  predicate Loses(s: State, op: Op)
    requires Sized(s)
  {
    op.Register? && !op.refused &&
    var k := FreeListen(s.listen, 1);
    k < |s.listen| && RunsShort(s, k, op.kind, op.active)
  }

  lemma StepInjective(s: State, op: Op)
    requires Injective(s)
    ensures Injective(Step(s, op))
    ensures NoneLost(s) ==> (NoneLost(Step(s, op)) <==> !Loses(s, op))
  {
    hide Injective, NoneLost, StartListening, DetachFrom, Detach, NewHandle, RunsShort;
    InjectiveSized(s);
    match op
    case ConfigureTag(changed, listens, active) => ConfigureInjective(s, changed, listens, active);
    case DisableTag => if s.listen[NDEF_IDX].inUse { RemoveInjective(s, NDEF_IDX); }
    case Restart(active) => StartListeningInjective(s, active);
    case Register(kind, refused, active) =>
      var k := FreeListen(s.listen, 1);
      if k < |s.listen| { RegisterLosesExactly(s, k, kind, refused, active); }
    case Deregister(i) => if i < |s.listen| && s.listen[i].inUse { RemoveInjective(s, i); }
    case StartPolling => PollingInjective(s);
    case StopPolling(_) => PollingInjective(s);
    case OtherAdds => OtherAddsInjective(s);
    case OtherDeletes(h) => OtherDeletesInjective(s, h);
    case DetachAll => DetachFromInjective(s, 0);
  }

  lemma InjectiveSized(s: State)
    requires Injective(s)
    ensures Sized(s)
  {
  }

  /** Over every run of requests each handle has one holder, whose discovery entry is in use; and every entry in
      use keeps its holder up to the first registration that loses one. */
  lemma {:induction false} RunInjective(s: State, ops: seq<Op>)
    requires Injective(s)
    ensures Injective(Run(s, ops))
    ensures NoneLost(s) && (forall n :: 0 <= n < |ops| ==> !Loses(Run(s, ops[..n]), ops[n])) ==> NoneLost(Run(s, ops))
  {
    hide Step, Loses, Injective, NoneLost;
    if ops != [] {
      var before := ops[..|ops| - 1];
      InjectiveSized(s);
      RunInjective(s, before);
      assert forall n :: 0 <= n < |before| ==> before[..n] == ops[..n];
      StepInjective(Run(s, before), ops[|ops| - 1]);
    }
  }

  // ---- what each request does ----------------------------------------------------------------------

  /** From `s` to `t` only the listen entries in `which` change, and discovery entries. */
  ghost predicate OnlyListen(s: State, t: State, which: set<nat>) {
    && Sized(s) && Sized(t) && t.poll == s.poll && t.others == s.others
    && forall j :: 0 <= j < |s.listen| && j !in which ==> t.listen[j] == s.listen[j]
  }

  /** The discovery entry that `h` stands for, if any, is free now; all others are as before. */
  ghost predicate GivenBack(s: State, t: State, h: Option<nat>) {
    |t.entries| == |s.entries| && forall g :: 0 <= g < |s.entries| ==> (t.entries[g] <==> s.entries[g] && h != Some(g))
  }

  /** Removing a listen entry, or the local tag, frees it and the discovery entry it holds. */
  lemma RemovalFrees(s: State, i: nat)
    requires Sized(s)
    ensures Step(s, DisableTag) == Step(s, Deregister(NDEF_IDX))
    ensures var t := Step(s, Deregister(i));
            if i < |s.listen| && s.listen[i].inUse
            then OnlyListen(s, t, {i}) && t.listen[i] == Listen(false, s.listen[i].kind, None)
                 && GivenBack(s, t, s.listen[i].handle)
            else t == s
  {
  }

  /** Polling gets a discovery entry that was free, if there is one and it has none, and gives it back unless that has
      to wait. */
  lemma PollingTakesAndGives(s: State, waits: bool)
    requires Sized(s)
    ensures var t := Step(s, StartPolling);
            && t.listen == s.listen && t.others == s.others
            && (t.poll.Some? <==> s.poll.Some? || 0 < Free(s.entries))
            && (if s.poll.Some? || t.poll == None then t == s else !Live(s, t.poll.value) && GivenBack(t, s, t.poll))
    ensures var t := Step(s, StopPolling(waits));
            if waits then t == s
            else t.listen == s.listen && t.others == s.others && t.poll == None && GivenBack(s, t, s.poll)
  {
    NewHandleExactly(s);
    hide FirstFree, Free;
  }

  lemma NewHandleExactly(s: State)
    ensures NewHandle(s).Some? <==> 0 < Free(s.entries)
    ensures NewHandle(s).Some? ==> forall g :: 0 <= g < NewHandle(s).value ==> s.entries[g]
  {
    FirstFreeSkips(s.entries, 0);
    if NewHandle(s).Some? {
      FreeAfter(s.entries, NewHandle(s).value);
    } else {
      NoneFree(s.entries);
    }
  }

  /** Other modules likewise. */
  lemma OthersTakeAndGive(s: State, h: nat)
    requires Sized(s)
    ensures var t := Step(s, OtherAdds);
            && t.listen == s.listen && t.poll == s.poll
            && (if 0 < Free(s.entries)
                then exists g: nat ::
                       g < NUM_ENTRIES && !s.entries[g] && t.others == s.others + {g} && GivenBack(t, s, Some(g))
                else t == s)
    ensures var t := Step(s, OtherDeletes(h));
            if h !in s.others then t == s
            else t.listen == s.listen && t.poll == s.poll && t.others == s.others - {h} && GivenBack(s, t, Some(h))
  {
    NewHandleExactly(s);
    hide FirstFree, Free;
    if NewHandle(s).Some? {
      var g := NewHandle(s).value;
      assert !s.entries[g] && GivenBack(Step(s, OtherAdds), s, Some(g));
    }
  }

  /** Shutting down gives back exactly what the listen entries in use hold, from entry `i` on. */
  lemma {:induction false} DetachFromIs(s: State, i: nat)
    requires Injective(s) && i <= |s.listen|
    ensures var t := DetachFrom(s, i);
            && Sized(t) && t.poll == s.poll && t.others == s.others
            && (forall j :: 0 <= j < |s.listen| ==>
                  t.listen[j] == if j >= i && s.listen[j].inUse then s.listen[j].(handle := None) else s.listen[j])
            && (forall g :: 0 <= g < |s.entries| ==>
                  (t.entries[g] <==> s.entries[g] && forall j :: i <= j < |s.listen| ==> !Holds(s.listen[j], g)))
    decreases |s.listen| - i
  {
    if i < |s.listen| {
      if s.listen[i].inUse && s.listen[i].handle.Some? {
        var d := Detach(s, i);
        DetachInjective(s, i);
        DetachFromIs(d, i + 1);
        var t := DetachFrom(s, i);
      } else {
        DetachFromIs(s, i + 1);
      }
    }
  }

  lemma ShutdownGivesBack(s: State)
    requires Injective(s)
    ensures var t := Step(s, DetachAll);
            && Sized(t) && t.poll == s.poll && t.others == s.others
            && (forall j :: 0 <= j < |s.listen| ==>
                  t.listen[j] == if s.listen[j].inUse then s.listen[j].(handle := None) else s.listen[j])
            && (forall g :: 0 <= g < |s.entries| ==>
                  (t.entries[g] <==> s.entries[g] && forall j :: 0 <= j < |s.listen| ==> !Holds(s.listen[j], g)))
  {
    DetachFromIs(s, 0);
    hide Injective, DetachFrom, Holds;
  }

  /** From `s` to `t` listen entries only get discovery entries that were free; nothing else changes. */
  ghost predicate Extends(s: State, t: State) {
    && Sized(s) && Sized(t) && t.poll == s.poll && t.others == s.others
    && (forall j :: 0 <= j < |s.listen| ==>
          t.listen[j] == s.listen[j] || (s.listen[j].handle == None && GetsFree(s, t, j, t.listen[j].handle)))
    && (forall g: nat :: g < |s.entries| && s.entries[g] ==> t.entries[g])
    && (forall g: nat :: g < |s.entries| && t.entries[g] && !s.entries[g] ==>
          exists j :: 0 <= j < |s.listen| && s.listen[j].handle == None && t.listen[j].handle == Some(g))
  }

  ghost predicate GetsFree(s: State, t: State, j: nat, h: Option<nat>)
    requires Sized(s) && Sized(t) && j < |s.listen|
  {
    && h.Some? && h.value < |s.entries| && !s.entries[h.value] && t.entries[h.value]
    && t.listen[j] == s.listen[j].(handle := h)
  }

  lemma AttachExtends(s: State, i: nat)
    requires Sized(s) && i < |s.listen| && s.listen[i].handle == None
    ensures Extends(s, Attach(s, i).0)
  {
    var t := Attach(s, i).0;
    if NewHandle(s).Some? {
      var h := NewHandle(s).value;
      assert GetsFree(s, t, i, Some(h)) && t.listen[i].handle == Some(h);
    }
  }

  lemma ExtendsOn(s: State, t: State, u: State)
    requires Extends(s, t) && Extends(t, u)
    ensures Extends(s, u)
  {
    forall j | 0 <= j < |s.listen|
      ensures u.listen[j] == s.listen[j] || (s.listen[j].handle == None && GetsFree(s, u, j, u.listen[j].handle))
    {
      if t.listen[j] != s.listen[j] {
        assert GetsFree(s, t, j, t.listen[j].handle);
      } else if u.listen[j] != t.listen[j] {
        assert GetsFree(t, u, j, u.listen[j].handle);
      }
    }
    forall g: nat | g < |s.entries| && u.entries[g] && !s.entries[g]
      ensures exists j :: 0 <= j < |s.listen| && s.listen[j].handle == None && u.listen[j].handle == Some(g)
    {
      if t.entries[g] {
        var j :| 0 <= j < |s.listen| && s.listen[j].handle == None && t.listen[j].handle == Some(g);
        assert u.listen[j] == t.listen[j];
      } else {
        var j :| 0 <= j < |t.listen| && t.listen[j].handle == None && u.listen[j].handle == Some(g);
        assert t.listen[j] == s.listen[j];
      }
    }
  }

  lemma {:induction false} StartFromExtends(s: State, i: nat, active: set<nat>)
    requires Sized(s) && i <= |s.listen|
    ensures Extends(s, StartFrom(s, i, active).0)
    decreases |s.listen| - i
  {
    hide Attach;
    if i < |s.listen| {
      if Waits(s, i, active) {
        AttachExtends(s, i);
        var (t, ok) := Attach(s, i);
        if ok {
          StartFromExtends(t, i + 1, active);
          ExtendsOn(s, t, StartFrom(t, i + 1, active).0);
        }
        hide Extends;
      } else {
        StartFromExtends(s, i + 1, active);
      }
    }
  }

  /** Who listens afterwards: the local tag if there is a discovery entry at all, then whatever the host emulates and
      the active secure elements, in order, as long as there are any left. */
  ghost predicate Served(s: State, t: State, active: set<nat>)
    requires Sized(s) && Sized(t)
  {
    && (t.listen[NDEF_IDX].handle.Some? <==>
        s.listen[NDEF_IDX].handle.Some? || (s.listen[NDEF_IDX].inUse && 0 < Free(s.entries)))
    && forall k :: NDEF_IDX < k < |s.listen| && s.listen[k].handle == None ==>
         (t.listen[k].handle.Some? <==>
            && s.listen[k].inUse
            && (s.listen[k].kind == HostEmulated || (s.listen[k].kind == SecureElement && k in active))
            && DemandBefore(s, k, active) < Free(s.entries))
  }

  lemma StartListeningIs(s: State, active: set<nat>)
    requires Sized(s)
    ensures var (t, ok) := StartListening(s, active);
            Extends(s, t) && Served(s, t, active)
  {
    var (t, ok) := StartListening(s, active);
    StartListeningExtends(s, active);
    StartListeningServesTag(s, active);
    forall k | NDEF_IDX < k < |s.listen| && s.listen[k].handle == None
      ensures t.listen[k].handle.Some? <==> Waits(s, k, active) && DemandBefore(s, k, active) < Free(s.entries)
    {
      StartListeningServes(s, k, active);
    }
    hide Extends, StartListening, DemandBefore, Free;
  }

  lemma StartListeningExtends(s: State, active: set<nat>)
    requires Sized(s)
    ensures Extends(s, StartListening(s, active).0)
  {
    if TagWaits(s) {
      AttachExtends(s, NDEF_IDX);
      var (t, ok) := Attach(s, NDEF_IDX);
      if ok {
        StartFromExtends(t, 0, active);
        ExtendsOn(s, t, StartFrom(t, 0, active).0);
      }
    } else {
      StartFromExtends(s, 0, active);
    }
    hide Extends, Attach, StartFrom;
  }

  lemma StartListeningServesTag(s: State, active: set<nat>)
    requires Sized(s)
    ensures StartListening(s, active).0.listen[NDEF_IDX].handle.Some? <==>
            s.listen[NDEF_IDX].handle.Some? || (s.listen[NDEF_IDX].inUse && 0 < Free(s.entries))
  {
    if TagWaits(s) {
      AttachCounts(s, NDEF_IDX);
      var (t, ok) := Attach(s, NDEF_IDX);
      if ok {
        StartFromExtends(t, 0, active);
      }
    } else {
      StartFromExtends(s, 0, active);
      StartFromServes(s, 0, 0, active);
    }
    hide Attach, StartFrom, Free;
  }

  /** Listening is started again if anything at all is to be listened for. */
  lemma RestartServes(s: State, active: set<nat>)
    requires Sized(s)
    ensures var t := Step(s, Restart(active));
            if exists j :: 0 <= j < |s.listen| && s.listen[j].inUse then Extends(s, t) && Served(s, t, active)
            else t == s
  {
    AnyInUseExactly(s.listen, 0);
    StartListeningIs(s, active);
    hide Extends, Served, StartListening, AnyInUse;
  }

  lemma {:induction false} AnyInUseExactly(listen: seq<Listen>, i: nat)
    requires i <= |listen|
    ensures AnyInUse(listen, i) <==> exists j :: i <= j < |listen| && listen[j].inUse
    decreases |listen| - i
  {
    if i < |listen| {
      AnyInUseExactly(listen, i + 1);
    }
  }

  lemma {:induction false} FreeListenSkips(listen: seq<Listen>, i: nat)
    requires i <= |listen|
    ensures forall j :: i <= j < FreeListen(listen, i) ==> listen[j].inUse
    decreases |listen| - i
  {
    if i < |listen| && listen[i].inUse {
      FreeListenSkips(listen, i + 1);
    }
  }

  /** A registration takes the first listen entry that is free, other than that of the local tag. One that is refused
      leaves it free; otherwise listening is started, and the entry stays in use exactly if there are discovery
      entries for all that wait. */
  lemma RegistrationServes(s: State, kind: Kind, refused: bool, active: set<nat>)
    requires Sized(s)
    ensures var t, k := Step(s, Register(kind, refused, active)), FreeListen(s.listen, 1);
            && 1 <= k <= LISTEN_INFO_MAX && (forall j :: 1 <= j < k ==> s.listen[j].inUse)
            && if k == LISTEN_INFO_MAX then t == s
               else if refused then !s.listen[k].inUse && t == s.(listen := s.listen[k := Listen(false, kind, None)])
               else
                 var u := s.(listen := s.listen[k := Listen(true, kind, None)]);
                 && !s.listen[k].inUse && Sized(t)
                 && (t.listen[k].inUse <==> DemandBefore(u, LISTEN_INFO_MAX, active) <= Free(s.entries))
                 && var v := t.(listen := t.listen[k := t.listen[k].(inUse := true)]);
                 Extends(u, v) && Served(u, v, active)
  {
    FreeListenSkips(s.listen, 1);
    var t, k := Step(s, Register(kind, refused, active)), FreeListen(s.listen, 1);
    assert 1 <= k <= LISTEN_INFO_MAX && (k < LISTEN_INFO_MAX ==> !s.listen[k].inUse);
    assert t == if k == LISTEN_INFO_MAX then s else RegisterAt(s, k, kind, refused, active);
    if k < LISTEN_INFO_MAX && !refused {
      AcceptedServes(s, k, kind, active);
    }
    assert k < LISTEN_INFO_MAX && refused ==> t == s.(listen := s.listen[k := Listen(false, kind, None)]);
    hide *;
  }

  lemma AcceptedServes(s: State, k: nat, kind: Kind, active: set<nat>)
    requires Sized(s) && NDEF_IDX < k < |s.listen|
    ensures var t, u := RegisterAt(s, k, kind, false, active), s.(listen := s.listen[k := Listen(true, kind, None)]);
            && Sized(t) && (t.listen[k].inUse <==> DemandBefore(u, LISTEN_INFO_MAX, active) <= Free(s.entries))
            && var v := t.(listen := t.listen[k := t.listen[k].(inUse := true)]);
            Extends(u, v) && Served(u, v, active)
  {
    var u := s.(listen := s.listen[k := Listen(true, kind, None)]);
    StartListeningIs(u, active);
    StartListeningServes(u, k, active);
    StaysInUse(u, k, active);
    var (v, ok) := StartListening(u, active);
    var t := RegisterAt(s, k, kind, false, active);
    assert t == if ok then v else v.(listen := v.listen[k := v.listen[k].(inUse := false)]);
    assert t.listen[k := t.listen[k].(inUse := true)] == v.listen;
    hide *;
  }

  /** Configuring the local tag marks its entry in use. What it held is given back if its contents changed; then, if
      there is something to listen for, it is the first to be served. */
  lemma ConfigurationServes(s: State, changed: bool, listens: bool, active: set<nat>)
    requires Injective(s)
    ensures var t := Step(s, ConfigureTag(changed, listens, active));
            var h := if changed then None else s.listen[NDEF_IDX].handle;
            exists u ::
              && OnlyListen(s, u, {NDEF_IDX}) && u.listen[NDEF_IDX] == Listen(true, LocalTag, h)
              && GivenBack(s, u, if changed then s.listen[NDEF_IDX].handle else None)
              && if listens then Extends(u, t) && Served(u, t, active) else t == u
  {
    var t := if s.listen[NDEF_IDX].inUse && s.listen[NDEF_IDX].handle.Some? && changed then Detach(s, NDEF_IDX) else s;
    var u := t.(listen := t.listen[NDEF_IDX := t.listen[NDEF_IDX].(inUse := true, kind := LocalTag)]);
    assert OnlyListen(s, u, {NDEF_IDX});
    StartListeningIs(u, active);
    hide Extends, Served, StartListening;
  }

  // ---- the tables at work --------------------------------------------------------------------------

  class Tables {
    var entries: seq<bool>
    var listen: seq<Listen>
    var poll: Option<nat>
    ghost var others: set<nat>

    ghost function View(): State
      reads this
    {
      State(entries, listen, poll, others)
    }

    constructor ()
      ensures Injective(View()) && NoneLost(View())
    {
      entries := seq(NUM_ENTRIES, _ => false);
      listen := seq(LISTEN_INFO_MAX, _ => Listen(false, Unsettled, None));
      poll := None;
      others := {};
    }

    method AddRfDiscover() returns (h: Option<nat>)
      modifies this`entries
      ensures h == NewHandle(old(View()))
      ensures entries == if h.Some? then old(entries)[h.value := true] else old(entries)
    {
      var i := 0;
      while i < |entries| && entries[i]
        invariant i <= |entries| && FirstFree(entries, i) == FirstFree(entries, 0)
      {
        i := i + 1;
      }
      if i == |entries| {
        return None;
      }
      entries := entries[i := true];
      return Some(i);
    }

    method DeleteRfDiscover(h: Option<nat>)
      modifies this`entries
      ensures View() == Delete(old(View()), h)
    {
      if h.Some? && h.value < |entries| {
        entries := entries[h.value := false];
      }
    }

    method AttachListen(i: nat) returns (ok: bool)
      requires i < |listen|
      modifies this`entries, this`listen
      ensures (View(), ok) == Attach(old(View()), i)
    {
      var h := AddRfDiscover();
      if h == None {
        return false;
      }
      listen := listen[i := listen[i].(handle := h)];
      return true;
    }

    /** The local tag first, then all others in order, until an entry finds no room. */
    method StartListen(active: set<nat>) returns (ok: bool)
      requires Sized(View())
      modifies this`entries, this`listen
      ensures (View(), ok) == StartListening(old(View()), active)
    {
      if listen[NDEF_IDX].inUse && listen[NDEF_IDX].handle == None {
        ok := AttachListen(NDEF_IDX);
        if !ok {
          return;
        }
      }
      ok := StartOthers(active);
    }

    method StartOthers(active: set<nat>) returns (ok: bool)
      requires Sized(View())
      modifies this`entries, this`listen
      ensures (View(), ok) == StartFrom(old(View()), 0, active)
    {
      hide Attach, NewHandle;
      ghost var goal := StartFrom(View(), 0, active);
      var i := 0;
      while i < |listen|
        invariant i <= |listen| && others == old(others)
        invariant StartFrom(View(), i, active) == goal
      {
        if listen[i].inUse && listen[i].handle == None
           && (listen[i].kind == HostEmulated || (listen[i].kind == SecureElement && i in active)) {
          AttachSize(View(), i);
          ok := AttachListen(i);
          if !ok {
            return;
          }
        }
        i := i + 1;
      }
      return true;
    }

    method DetachListen(i: nat)
      requires i < |listen|
      modifies this`entries, this`listen
      ensures View() == Detach(old(View()), i)
    {
      if listen[i].handle.Some? {
        DeleteRfDiscover(listen[i].handle);
        listen := listen[i := listen[i].(handle := None)];
      }
    }

    /** Registers something to listen for, in the first listen entry that is free. */
    method RegisterListen(kind: Kind, refused: bool, active: set<nat>)
      requires Injective(View())
      modifies this`entries, this`listen
      ensures Injective(View()) && View() == Step(old(View()), Register(kind, refused, active))
    {
      StepInjective(View(), Register(kind, refused, active));
      hide Injective, RegisterAt;
      var k := 1;
      while k < |listen| && listen[k].inUse
        invariant 1 <= k <= |listen| && FreeListen(listen, k) == FreeListen(listen, 1)
      {
        k := k + 1;
      }
      if k < |listen| {
        RegisterIn(k, kind, refused, active);
      }
    }

    method RegisterIn(k: nat, kind: Kind, refused: bool, active: set<nat>)
      requires Sized(View()) && k < |listen|
      modifies this`entries, this`listen
      ensures View() == RegisterAt(old(View()), k, kind, refused, active)
    {
      hide StartListening;
      listen := listen[k := Listen(true, kind, None)];
      if refused {
        listen := listen[k := listen[k].(inUse := false)];
        return;
      }
      var ok := StartListen(active);
      if !ok {
        listen := listen[k := listen[k].(inUse := false)];
      }
    }

    /** Removes a listen entry. */
    method DeregisterListen(i: nat)
      requires Injective(View())
      modifies this`entries, this`listen
      ensures Injective(View()) && View() == Step(old(View()), Deregister(i))
      ensures
        if i < |listen| && old(listen)[i].inUse
        then OnlyListen(old(View()), View(), {i}) && listen[i] == Listen(false, old(listen)[i].kind, None)
             && GivenBack(old(View()), View(), old(listen)[i].handle)
        else View() == old(View())
    {
      InjectiveSized(View());
      StepInjective(View(), Deregister(i));
      hide Injective;
      if i < |listen| && listen[i].inUse {
        DetachListen(i);
        listen := listen[i := listen[i].(inUse := false)];
      }
    }

    /** Sets up the local tag, and listens for it if it has contents for a protocol. */
    method ConfigureLocalTag(changed: bool, listens: bool, active: set<nat>)
      requires Injective(View())
      modifies this`entries, this`listen
      ensures Injective(View()) && View() == Step(old(View()), ConfigureTag(changed, listens, active))
    {
      StepInjective(View(), ConfigureTag(changed, listens, active));
      hide Injective, StartListening, NewHandle;
      if listen[NDEF_IDX].inUse && listen[NDEF_IDX].handle.Some? && changed {
        DetachListen(NDEF_IDX);
      }
      listen := listen[NDEF_IDX := listen[NDEF_IDX].(inUse := true, kind := LocalTag)];
      if listens {
        var _ := StartListen(active);
      }
    }

    method DisableLocalTag()
      requires Injective(View())
      modifies this`entries, this`listen
      ensures Injective(View()) && View() == Step(old(View()), DisableTag)
      ensures
        if old(listen)[NDEF_IDX].inUse
        then OnlyListen(old(View()), View(), {NDEF_IDX}) && !listen[NDEF_IDX].inUse && listen[NDEF_IDX].handle == None
             && GivenBack(old(View()), View(), old(listen)[NDEF_IDX].handle)
        else View() == old(View())
    {
      InjectiveSized(View());
      StepInjective(View(), DisableTag);
      hide Injective;
      if listen[NDEF_IDX].inUse {
        DetachListen(NDEF_IDX);
        listen := listen[NDEF_IDX := listen[NDEF_IDX].(inUse := false)];
      }
    }

    /** Gives all discovery entries of listen entries back, when card emulation is shut down. */
    method DetachEverything()
      requires Injective(View())
      modifies this`entries, this`listen
      ensures Injective(View()) && View() == Step(old(View()), DetachAll)
    {
      StepInjective(View(), DetachAll);
      ghost var goal := DetachFrom(View(), 0);
      hide Injective;
      var i := 0;
      while i < |listen|
        invariant i <= |listen| && others == old(others) && DetachFrom(View(), i) == goal
      {
        if listen[i].inUse && listen[i].handle.Some? {
          DetachListen(i);
        }
        i := i + 1;
      }
    }

    method EnablePolling() returns (ok: bool)
      requires Injective(View())
      modifies this`entries, this`poll
      ensures Injective(View()) && View() == Step(old(View()), StartPolling) && ok == poll.Some?
      ensures ok <==> old(poll).Some? || 0 < Free(old(entries))
      ensures if old(poll).Some? || !ok then View() == old(View())
              else !Live(old(View()), poll.value) && GivenBack(View(), old(View()), poll)
    {
      InjectiveSized(View());
      PollingInjective(View());
      PollingTakesAndGives(View(), false);
      hide Injective;
      if poll == None {
        poll := AddRfDiscover();
      }
      ok := poll.Some?;
    }

    /** Gives the poll handle back, unless that has to wait for a deactivation, which then does it. */
    method DisablePolling(waits: bool)
      requires Injective(View())
      modifies this`entries, this`poll
      ensures Injective(View()) && View() == Step(old(View()), StopPolling(waits))
      ensures if waits then View() == old(View()) else poll == None && GivenBack(old(View()), View(), old(poll))
    {
      InjectiveSized(View());
      PollingInjective(View());
      hide Injective;
      if poll.Some? && !waits {
        DeleteRfDiscover(poll);
        poll := None;
      }
    }

    /** Starts listening again, after a deactivation, if any listen entry is in use. */
    method RestartListen(active: set<nat>)
      requires Injective(View())
      modifies this`entries, this`listen
      ensures Injective(View()) && View() == Step(old(View()), Restart(active))
    {
      StepInjective(View(), Restart(active));
      InjectiveSized(View());
      hide Injective, StartListening;
      var i := 0;
      while i < |listen| && !listen[i].inUse
        invariant i <= |listen| && AnyInUse(listen, i) == AnyInUse(listen, 0)
      {
        i := i + 1;
      }
      if i < |listen| {
        var _ := StartListen(active);
      }
    }
  }
}
