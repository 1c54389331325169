/** The table of NDEF handlers and how a message is dealt out to them (src/nfa/dm/nfa_dm_ndef.cc). */
module NdefDispatch {
  import opened Options

  const MAX_HANDLERS := 8
  const DEFAULT_SLOT := 0

  /** A registered handler: what it is for, the handle it was given, whether it wants messages as a whole, and
      whether it has been given the current one. */
  datatype Handler = Handler(id: nat, handle: nat, whole: bool, notified: bool)

  type Table = seq<Option<Handler>>

  /** One call of a handler: with a record, with the whole message, or with an empty one. */
  datatype Delivery = OfRecord(slot: nat, index: nat) | OfMessage(slot: nat) | OfNothing(slot: nat)

  /** Which handlers are for which records, as their type name formats, types and URI prefixes tell. */
  type Matching = set<(nat, nat)>

  ghost predicate ValidTable(t: Table) {
    && |t| == MAX_HANDLERS
    && forall i :: 0 <= i < |t| && t[i].Some? ==> t[i].value.handle == i
  }

  predicate IsFor(t: Table, m: Matching, slot: nat, record: nat)
    requires slot < |t|
  {
    t[slot].Some? && (t[slot].value.id, record) in m
  }

  // ---- what should happen --------------------------------------------------------------------------

  predicate Present(t: Table, slots: seq<nat>) {
    forall a :: 0 <= a < |slots| ==> slots[a] < |t| && t[slots[a]].Some?
  }

  /** The slots from `i` on that are for the record, in order. */
  function Matches(t: Table, m: Matching, record: nat, i: nat): (r: seq<nat>)
    requires i <= |t|
    ensures Present(t, r)
    decreases |t| - i
  {
    if i == |t| then []
    else if IsFor(t, m, i, record) then [i] + Matches(t, m, record, i + 1)
    else Matches(t, m, record, i + 1)
  }

  ghost predicate Rising(s: seq<nat>) {
    forall a, b :: 0 <= a < b < |s| ==> s[a] < s[b]
  }

  lemma {:induction false} MatchesAre(t: Table, m: Matching, record: nat, i: nat)
    requires i <= |t|
    ensures forall k :: k in Matches(t, m, record, i) <==> i <= k < |t| && IsFor(t, m, k, record)
    ensures Rising(Matches(t, m, record, i))
    decreases |t| - i
  {
    if i < |t| {
      MatchesAre(t, m, record, i + 1);
      var rest := Matches(t, m, record, i + 1);
      assert forall b :: 0 <= b < |rest| ==> rest[b] in rest;
    }
  }

  /** The handlers of a record: those registered for it, or else the default one. */
  function Targets(t: Table, m: Matching, record: nat): (r: seq<nat>)
    requires |t| == MAX_HANDLERS
    ensures Present(t, r)
  {
    var s := Matches(t, m, record, DEFAULT_SLOT + 1);
    if s == [] && t[DEFAULT_SLOT].Some? then [DEFAULT_SLOT] else s
  }

  /** Just the registered handlers that are for the record, each once and in the order of the slots; the
      default one exactly if there are none. */
  lemma TargetsAre(t: Table, m: Matching, record: nat)
    requires |t| == MAX_HANDLERS
    ensures var r := Targets(t, m, record);
            && Rising(r)
            && (forall k :: 1 <= k < |t| ==> (k in r <==> t[k].Some? && (t[k].value.id, record) in m))
            && (DEFAULT_SLOT in r <==>
                t[DEFAULT_SLOT].Some? && forall k :: 1 <= k < |t| && t[k].Some? ==> (t[k].value.id, record) !in m)
  {
    MatchesAre(t, m, record, DEFAULT_SLOT + 1);
    var s := Matches(t, m, record, DEFAULT_SLOT + 1);
    assert forall k :: 1 <= k < |t| ==> (k in s <==> IsFor(t, m, k, record));
    hide Matches;
    assert s != [] ==> s[0] in s;
  }

  function CallOf(h: Handler, slot: nat, index: nat): seq<Delivery> {
    if h.notified then [] else [if h.whole then OfMessage(slot) else OfRecord(slot, index)]
  }

  /** The calls for one record: its targets in turn, but those that have the message already. */
  function Calls(t: Table, targets: seq<nat>, index: nat): seq<Delivery>
    requires Present(t, targets)
  {
    if targets == [] then []
    else
      CallOf(t[targets[0]].value, targets[0], index) + Calls(t, targets[1..], index)
  }

  /** Those that want the message as a whole have it then. */
  function Marked(t: Table, targets: seq<nat>): (t': Table)
    requires Present(t, targets)
    ensures |t'| == |t|
  {
    seq(|t|, i requires 0 <= i < |t| => if i in targets && t[i].Some? then Some(Mark(t[i].value)) else t[i])
  }

  function Mark(h: Handler): Handler {
    if h.whole then h.(notified := true) else h
  }

  function Cleared(t: Table): (t': Table)
    ensures |t'| == |t|
  {
    seq(|t|, i requires 0 <= i < |t| => if t[i].Some? then Some(t[i].value.(notified := false)) else None)
  }

  /** The table after the first `n` records. */
  function TableAfter(t: Table, m: Matching, records: seq<nat>, n: nat): (t': Table)
    requires |t| == MAX_HANDLERS && n <= |records|
    ensures |t'| == |t|
  {
    if n == 0 then Cleared(t)
    else
      var before := TableAfter(t, m, records, n - 1);
      Marked(before, Targets(before, m, records[n - 1]))
  }

  /** The calls for the first `n` records. */
  function CallsFor(t: Table, m: Matching, records: seq<nat>, n: nat): seq<Delivery>
    requires |t| == MAX_HANDLERS && n <= |records|
  {
    if n == 0 then []
    else
      var before := TableAfter(t, m, records, n - 1);
      CallsFor(t, m, records, n - 1) + Calls(before, Targets(before, m, records[n - 1]), n - 1)
  }

  // ---- what that comes to --------------------------------------------------------------------------

  /** Two tables with the same handlers, whoever has been notified. */
  predicate SameHandlers(t: Table, t': Table) {
    && |t| == |t'|
    && forall i :: 0 <= i < |t| ==>
         (t[i].Some? <==> t'[i].Some?) && (t[i].Some? ==> t'[i].value == t[i].value.(notified := t'[i].value.notified))
  }

  lemma {:induction false} SameMatches(t: Table, t': Table, m: Matching, record: nat, i: nat)
    requires SameHandlers(t, t') && i <= |t|
    ensures Matches(t, m, record, i) == Matches(t', m, record, i)
    decreases |t| - i
  {
    if i < |t| {
      SameMatches(t, t', m, record, i + 1);
    }
  }

  /** One of the first `n` records is for slot `k`. */
  predicate TargetedBefore(t: Table, m: Matching, records: seq<nat>, n: nat, k: nat)
    requires |t| == MAX_HANDLERS && n <= |records|
  {
    n > 0 && (TargetedBefore(t, m, records, n - 1, k) || k in Targets(t, m, records[n - 1]))
  }

  lemma {:induction false} TargetedBeforeIs(t: Table, m: Matching, records: seq<nat>, n: nat, k: nat)
    requires |t| == MAX_HANDLERS && n <= |records|
    ensures TargetedBefore(t, m, records, n, k) <==> exists i :: 0 <= i < n && k in Targets(t, m, records[i])
  {
    hide Targets;
    if n > 0 {
      TargetedBeforeIs(t, m, records, n - 1, k);
    }
  }

  lemma SameTargets(t: Table, t': Table, m: Matching, record: nat)
    requires |t| == MAX_HANDLERS && SameHandlers(t, t')
    ensures Targets(t', m, record) == Targets(t, m, record)
  {
    SameMatches(t, t', m, record, DEFAULT_SLOT + 1);
    hide Matches;
  }

  lemma MarkedAre(t: Table, targets: seq<nat>)
    requires Present(t, targets)
    ensures forall i :: 0 <= i < |t| ==>
              Marked(t, targets)[i] == if i in targets && t[i].Some? then Some(Mark(t[i].value)) else t[i]
  {
  }

  lemma ClearedAre(t: Table)
    ensures forall i :: 0 <= i < |t| ==>
              Cleared(t)[i] == if t[i].Some? then Some(t[i].value.(notified := false)) else None
  {
  }

  /** After `n` records the handlers are the same, and those that want messages whole have this one exactly if
      one of the records was for them. */
  lemma {:induction false} NotifiedAfter(t: Table, m: Matching, records: seq<nat>, n: nat)
    requires |t| == MAX_HANDLERS && n <= |records|
    ensures SameHandlers(t, TableAfter(t, m, records, n))
    ensures forall k :: 0 <= k < |t| && t[k].Some? ==>
              (TableAfter(t, m, records, n)[k].value.notified <==>
               t[k].value.whole && TargetedBefore(t, m, records, n, k))
  {
    hide Matches, Targets, Marked, Cleared, Calls;
    if n > 0 {
      NotifiedAfter(t, m, records, n - 1);
      var t' := TableAfter(t, m, records, n - 1);
      SameTargets(t, t', m, records[n - 1]);
      assert TableAfter(t, m, records, n) == Marked(t', Targets(t, m, records[n - 1]));
      MarkedAre(t', Targets(t, m, records[n - 1]));
      hide TableAfter;
    } else {
      ClearedAre(t);
    }
  }

  /** How often a call is made. */
  function Count(log: seq<Delivery>, d: Delivery): nat {
    if log == [] then 0 else (if log[0] == d then 1 else 0) + Count(log[1..], d)
  }

  function Calling(t: Table, targets: seq<nat>, index: nat, d: Delivery): nat {
    if d.slot in targets && d.slot < |t| && t[d.slot].Some? && d in CallOf(t[d.slot].value, d.slot, index) then 1 else 0
  }

  /** Each target is called once, if it has not got the message already, and in the order of the slots. */
  lemma {:induction false} CallsAre(t: Table, targets: seq<nat>, index: nat, d: Delivery)
    requires Present(t, targets)
    requires Rising(targets)
    ensures Count(Calls(t, targets, index), d) == Calling(t, targets, index, d)
  {
    if targets != [] {
      var rest := targets[1..];
      CallsAre(t, rest, index, d);
      FirstCall(t, targets, index);
      var first := Calls(t, targets[..1], index);
      CountBoth(first, Calls(t, rest, index), d);
      OneCall(t, targets, index, d);
    }
  }

  lemma FirstCall(t: Table, targets: seq<nat>, index: nat)
    requires Present(t, targets) && targets != []
    ensures Calls(t, targets, index) == Calls(t, targets[..1], index) + Calls(t, targets[1..], index)
  {
    assert targets[..1][1..] == [] && targets[..1][0] == targets[0];
  }

  lemma OneCall(t: Table, targets: seq<nat>, index: nat, d: Delivery)
    requires Present(t, targets) && targets != [] && Rising(targets)
    ensures Count(Calls(t, targets[..1], index), d) + Calling(t, targets[1..], index, d)
            == Calling(t, targets, index, d)
  {
    var k := targets[0];
    assert targets == [k] + targets[1..] && k !in targets[1..];
    assert targets[..1] == [k] && [k][1..] == [];
    assert Calls(t, [k], index) == CallOf(t[k].value, k, index);
    hide Calls;
    var one := if t[k].value.whole then OfMessage(k) else OfRecord(k, index);
    assert [one][1..] == [];
  }

  /** How often a call should be made for the first `n` records. */
  function Due(t: Table, m: Matching, records: seq<nat>, n: nat, d: Delivery): nat
    requires |t| == MAX_HANDLERS && n <= |records|
  {
    match d
    case OfRecord(k, i) => if i < n && k in Targets(t, m, records[i]) && !t[k].value.whole then 1 else 0
    case OfMessage(k) =>
      if k < |t| && t[k].Some? && t[k].value.whole && TargetedBefore(t, m, records, n, k) then 1 else 0
    case OfNothing(_) => 0
  }

  lemma {:induction false} CountBoth(a: seq<Delivery>, b: seq<Delivery>, d: Delivery)
    ensures Count(a + b, d) == Count(a, d) + Count(b, d)
  {
    if a == [] {
      assert a + b == b;
    } else {
      CountBoth(a[1..], b, d);
      assert (a + b)[1..] == a[1..] + b;
    }
  }

  lemma DueStep(t: Table, t': Table, m: Matching, records: seq<nat>, n: nat, d: Delivery)
    requires |t| == MAX_HANDLERS && 0 < n <= |records| && SameHandlers(t, t')
    requires d.slot < |t| && t[d.slot].Some? ==>
               (t'[d.slot].value.notified <==> t[d.slot].value.whole && TargetedBefore(t, m, records, n - 1, d.slot))
    ensures var targets := Targets(t, m, records[n - 1]);
            Due(t, m, records, n, d) == Due(t, m, records, n - 1, d) + Calling(t', targets, n - 1, d)
  {
    match d
    case OfRecord(k, i) =>
      var targets := Targets(t, m, records[n - 1]);
      assert k in targets ==> k < |t| && t[k].Some?;
      hide Targets, TargetedBefore;
    case OfMessage(k) =>
      var targets := Targets(t, m, records[n - 1]);
      assert k in targets ==> k < |t| && t[k].Some?;
      assert TargetedBefore(t, m, records, n, k) <==> TargetedBefore(t, m, records, n - 1, k) || k in targets;
      hide Targets, TargetedBefore;
    case OfNothing(_) =>
  }

  /** A message of `n` records reaches everybody it is for: each handler for single records once with each
      record that is for it, each handler for whole messages once if some record is, and nobody else. The
      default handler stands in for a record that no other handler is for. */
  lemma {:induction false} EveryoneOnce(t: Table, m: Matching, records: seq<nat>, n: nat, d: Delivery)
    requires |t| == MAX_HANDLERS && n <= |records|
    ensures Count(CallsFor(t, m, records, n), d) == Due(t, m, records, n, d)
  {
    hide *;
    if n > 0 {
      EveryoneOnce(t, m, records, n - 1, d);
      NotifiedAfter(t, m, records, n - 1);
      var t', log := TableAfter(t, m, records, n - 1), CallsFor(t, m, records, n - 1);
      DueStep(t, t', m, records, n, d);
      SameTargets(t, t', m, records[n - 1]);
      var targets := Targets(t, m, records[n - 1]);
      TargetsAre(t, m, records[n - 1]);
      CallsAre(t', targets, n - 1, d);
      AfterOneMore(t, m, records, n - 1);
      CountBoth(log, Calls(t', targets, n - 1), d);
    } else {
      NothingYet(t, m, records, d);
    }
  }

  lemma NothingYet(t: Table, m: Matching, records: seq<nat>, d: Delivery)
    requires |t| == MAX_HANDLERS
    ensures Count(CallsFor(t, m, records, 0), d) == Due(t, m, records, 0, d) == 0
    ensures InOrder(CallsFor(t, m, records, 0)) && AllBelow(CallsFor(t, m, records, 0), 0)
  {
  }

  /** The record a call is about, if it is about one. */
  predicate Before(a: Delivery, b: Delivery) {
    a.OfRecord? && b.OfRecord? ==> a.index < b.index || (a.index == b.index && a.slot < b.slot)
  }

  ghost predicate InOrder(log: seq<Delivery>) {
    forall a, b :: 0 <= a < b < |log| ==> Before(log[a], log[b])
  }

  ghost predicate AllBelow(log: seq<Delivery>, n: nat) {
    forall a :: 0 <= a < |log| && log[a].OfRecord? ==> log[a].index < n
  }

  /** The calls for one record come in the order of the slots, whatever they are given. */
  ghost predicate SlotsRise(log: seq<Delivery>) {
    forall a, b :: 0 <= a < b < |log| ==> log[a].slot < log[b].slot
  }

  ghost predicate AllOf(log: seq<Delivery>, index: nat, targets: seq<nat>) {
    forall a :: 0 <= a < |log| ==> log[a].slot in targets && (log[a].OfRecord? ==> log[a].index == index)
  }

  lemma {:induction false} CallsInOrder(t: Table, targets: seq<nat>, index: nat)
    requires Present(t, targets) && Rising(targets)
    ensures AllOf(Calls(t, targets, index), index, targets) && InOrder(Calls(t, targets, index))
    ensures SlotsRise(Calls(t, targets, index))
  {
    if targets != [] {
      var rest := targets[1..];
      CallsInOrder(t, rest, index);
      var first := CallOf(t[targets[0]].value, targets[0], index);
      var later := Calls(t, rest, index);
      assert Calls(t, targets, index) == first + later;
      hide Calls;
      assert forall b :: 0 <= b < |rest| ==> targets[0] < rest[b];
    }
  }

  lemma AppendInOrder(log: seq<Delivery>, calls: seq<Delivery>, n: nat, targets: seq<nat>)
    requires InOrder(log) && AllBelow(log, n) && InOrder(calls) && AllOf(calls, n, targets)
    ensures InOrder(log + calls) && AllBelow(log + calls, n + 1)
  {
  }

  /** The calls with records come in the order of the records, and for each in the order of the slots. */
  lemma {:induction false} RecordsInOrder(t: Table, m: Matching, records: seq<nat>, n: nat)
    requires |t| == MAX_HANDLERS && n <= |records|
    ensures InOrder(CallsFor(t, m, records, n)) && AllBelow(CallsFor(t, m, records, n), n)
  {
    hide *;
    if n > 0 {
      RecordsInOrder(t, m, records, n - 1);
      var t', log := TableAfter(t, m, records, n - 1), CallsFor(t, m, records, n - 1);
      var targets := Targets(t', m, records[n - 1]);
      TargetsAre(t', m, records[n - 1]);
      CallsInOrder(t', targets, n - 1);
      AfterOneMore(t, m, records, n - 1);
      AppendInOrder(log, Calls(t', targets, n - 1), n - 1, targets);
    } else {
      NothingYet(t, m, records, OfNothing(0));
    }
  }

  /** One more target is one more call, or none. */
  lemma {:induction false} CallsNext(t: Table, targets: seq<nat>, index: nat, k: nat)
    requires Present(t, targets) && k < |t| && t[k].Some?
    ensures Present(t, targets + [k]) && Present(t, [k])
    ensures Calls(t, targets + [k], index) == Calls(t, targets, index) + Calls(t, [k], index)
  {
    if targets == [] {
      assert targets + [k] == [k];
    } else {
      var rest := targets[1..];
      CallsNext(t, rest, index, k);
      assert (targets + [k])[1..] == rest + [k];
    }
  }

  lemma {:induction false} MatchesFrom(t: Table, m: Matching, record: nat, i: nat, p: nat)
    requires i <= |t| && p < |Matches(t, m, record, i)|
    ensures var s := Matches(t, m, record, i);
            s[p] < |t| && Matches(t, m, record, s[p] + 1) == s[p + 1..]
    decreases |t| - i
  {
    var s := Matches(t, m, record, i);
    if IsFor(t, m, i, record) {
      var rest := Matches(t, m, record, i + 1);
      assert s == [i] + rest && s[1..] == rest;
      if p > 0 {
        MatchesFrom(t, m, record, i + 1, p - 1);
        assert s[p + 1..] == rest[p..];
      }
    } else {
      MatchesFrom(t, m, record, i + 1, p);
    }
  }

  // ---- the table at work ---------------------------------------------------------------------------

  function FirstFree(t: Table, i: nat): (r: nat)
    requires i <= |t|
    ensures i <= r <= |t| && (r < |t| ==> t[r] == None) && forall k :: i <= k < r ==> t[k].Some?
    decreases |t| - i
  {
    if i == |t| || t[i] == None then i else FirstFree(t, i + 1)
  }

  lemma AfterNone(t: Table, m: Matching, records: seq<nat>)
    requires |t| == MAX_HANDLERS
    ensures TableAfter(t, m, records, 0) == Cleared(t) && CallsFor(t, m, records, 0) == []
  {
  }

  lemma AfterOneMore(t: Table, m: Matching, records: seq<nat>, i: nat)
    requires |t| == MAX_HANDLERS && i < |records|
    ensures var before := TableAfter(t, m, records, i);
            var targets := Targets(before, m, records[i]);
            && TableAfter(t, m, records, i + 1) == Marked(before, targets)
            && CallsFor(t, m, records, i + 1) == CallsFor(t, m, records, i) + Calls(before, targets, i)
  {
  }

  class Handlers {
    const slots: array<Option<Handler>>
    const matching: Matching

    ghost predicate Valid()
      reads slots
    {
      slots.Length == MAX_HANDLERS && ValidTable(slots[..])
    }

    constructor (matching: Matching)
      ensures Valid() && fresh(slots) && this.matching == matching
      ensures forall i :: 0 <= i < MAX_HANDLERS ==> slots[i] == None
    {
      this.matching := matching;
      slots := new Option<Handler>[MAX_HANDLERS](_ => None);
    }

    /** Registers a handler: the default one in its own slot, any other in the first that is free. */
    method Register(id: nat, whole: bool, isDefault: bool) returns (handle: Option<nat>)
      requires Valid()
      modifies slots
      ensures Valid()
      ensures var slot := if isDefault then DEFAULT_SLOT else FirstFree(old(slots[..]), DEFAULT_SLOT + 1);
              if slot < MAX_HANDLERS then
                handle == Some(slot) && slots[..] == old(slots[..])[slot := Some(Handler(id, slot, whole, false))]
              else handle == None && slots[..] == old(slots[..])
    {
      var slot := DEFAULT_SLOT;
      if !isDefault {
        slot := DEFAULT_SLOT + 1;
        while slot < MAX_HANDLERS && slots[slot].Some?
          invariant slot <= MAX_HANDLERS
          invariant FirstFree(slots[..], slot) == FirstFree(slots[..], DEFAULT_SLOT + 1)
        {
          slot := slot + 1;
        }
        if slot == MAX_HANDLERS {
          return None;
        }
      }
      slots[slot] := Some(Handler(id, slot, whole, false));
      return Some(slot);
    }

    method Deregister(handle: nat)
      requires Valid()
      modifies slots
      ensures Valid()
      ensures slots[..] == if handle < MAX_HANDLERS then old(slots[..])[handle := None] else old(slots[..])
    {
      if handle < MAX_HANDLERS {
        slots[handle] := None;
      }
    }

    /** The next slot after that of `from`, or after the default one, whose handler is for the record. */
    method FindNext(from: Option<Handler>, record: nat) returns (slot: Option<nat>)
      requires Valid() && (from.Some? ==> from.value.handle < MAX_HANDLERS)
      ensures var start := if from.Some? then from.value.handle + 1 else DEFAULT_SLOT + 1;
              var s := Matches(slots[..], matching, record, start);
              slot == if s == [] then None else Some(s[0])
    {
      var i := if from.Some? then from.value.handle + 1 else DEFAULT_SLOT + 1;
      ghost var start := i;
      while i < MAX_HANDLERS
        invariant start <= i <= MAX_HANDLERS
        invariant Matches(slots[..], matching, record, i) == Matches(slots[..], matching, record, start)
      {
        if slots[i].Some? && (slots[i].value.id, record) in matching {
          return Some(i);
        }
        i := i + 1;
      }
      return None;
    }

    method ClearNotified()
      requires Valid()
      modifies slots
      ensures Valid() && slots[..] == Cleared(old(slots[..]))
    {
      for i := 0 to MAX_HANDLERS
        invariant forall k :: 0 <= k < i ==> slots[k] == Cleared(old(slots[..]))[k]
        invariant forall k :: i <= k < MAX_HANDLERS ==> slots[k] == old(slots[k])
      {
        if slots[i].Some? {
          slots[i] := Some(slots[i].value.(notified := false));
        }
      }
    }

    /** Deals one record out. */
    method DealOut(record: nat, index: nat) returns (calls: seq<Delivery>)
      requires Valid()
      modifies slots
      ensures Valid()
      ensures var targets := Targets(old(slots[..]), matching, record);
              slots[..] == Marked(old(slots[..]), targets) && calls == Calls(old(slots[..]), targets, index)
    {
      ghost var t := slots[..];
      ghost var targets := Targets(t, matching, record);
      FirstOf(t, targets, record);
      var slot := FindNext(None, record);
      if slot == None && slots[DEFAULT_SLOT].Some? {
        slot := Some(DEFAULT_SLOT);
      }
      assert slot == if targets == [] then None else Some(targets[0]);
      assert targets[..0] == [] && Marked(t, []) == t && Calls(t, [], index) == [];
      hide Targets, Matches, Calls, Marked, ValidTable;
      ghost var p := 0;
      calls := [];
      while slot.Some?
        invariant p <= |targets| && slot == (if p < |targets| then Some(targets[p]) else None)
        invariant slots[..] == Marked(t, targets[..p]) && calls == Calls(t, targets[..p], index)
        decreases |targets| - p
      {
        var call;
        slot, call := CallOne(slot.value, record, index, t, targets, p);
        calls := calls + call;
        p := p + 1;
      }
      assert targets[..p] == targets;
      StillValid(t, targets);
    }

    lemma StillValid(t: Table, targets: seq<nat>)
      requires ValidTable(t) && Present(t, targets)
      ensures ValidTable(Marked(t, targets))
    {
    }

    lemma FirstOf(t: Table, targets: seq<nat>, record: nat)
      requires |t| == MAX_HANDLERS && targets == Targets(t, matching, record)
      ensures var s := Matches(t, matching, record, DEFAULT_SLOT + 1);
              targets == if s == [] then if t[DEFAULT_SLOT].Some? then [DEFAULT_SLOT] else [] else s
    {
    }

    /** Calls the handler in a slot, unless it has the message already, and finds the next one. */
    method CallOne(slot: nat, record: nat, index: nat, ghost t: Table, ghost targets: seq<nat>, ghost p: nat)
      returns (next: Option<nat>, call: seq<Delivery>)
      requires ValidTable(t) && targets == Targets(t, matching, record) && p < |targets| && slot == targets[p]
      requires slots.Length == MAX_HANDLERS && slots[..] == Marked(t, targets[..p])
      modifies slots
      ensures slots[..] == Marked(t, targets[..p + 1])
      ensures Calls(t, targets[..p + 1], index) == Calls(t, targets[..p], index) + call
      ensures next == if p + 1 < |targets| then Some(targets[p + 1]) else None
    {
      OneTarget(t, targets, record, index, p);
      hide *;
      call := CallHandler(slot, index);
      next := FindNext(slots[slot], record);
    }

    /** What becomes of the table, the calls and the search with one target. */
    lemma OneTarget(t: Table, targets: seq<nat>, record: nat, index: nat, p: nat)
      requires ValidTable(t) && targets == Targets(t, matching, record) && p < |targets|
      ensures var k := targets[p];
              var before, after := Marked(t, targets[..p]), Marked(t, targets[..p + 1]);
              && k < |t| && t[k].Some? && before[k] == t[k] && t[k].value.handle == k
              && after == before[k := Some(Mark(t[k].value))] && ValidTable(after)
              && Mark(t[k].value).handle == k
              && Calls(t, targets[..p + 1], index) == Calls(t, targets[..p], index) + CallOf(t[k].value, k, index)
              && Matches(after, matching, record, k + 1) == targets[p + 1..]
    {
      var k := targets[p];
      assert targets[..p + 1] == targets[..p] + [k];
      TargetsAre(t, matching, record);
      CallsNext(t, targets[..p], index, k);
      MarkedNext(t, targets[..p], k);
      NextOf(t, targets, record, p);
      StillValid(t, targets[..p + 1]);
      MarkedAre(t, targets[..p + 1]);
      SameMatches(t, Marked(t, targets[..p + 1]), matching, record, k + 1);
      assert Calls(t, [k], index) == CallOf(t[k].value, k, index);
      hide Targets, Matches, Calls, Marked;
    }

    method CallHandler(slot: nat, index: nat) returns (call: seq<Delivery>)
      requires slot < slots.Length && slots[slot].Some?
      modifies slots
      ensures slots[..] == old(slots[..])[slot := Some(Mark(old(slots[slot]).value))]
      ensures call == CallOf(old(slots[slot]).value, slot, index)
    {
      var h := slots[slot].value;
      call := [];
      if !h.notified {
        if h.whole {
          slots[slot] := Some(h.(notified := true));
          call := [OfMessage(slot)];
        } else {
          call := [OfRecord(slot, index)];
        }
      }
    }

    lemma MarkedNext(t: Table, targets: seq<nat>, k: nat)
      requires Present(t, targets) && k < |t| && t[k].Some? && k !in targets
      ensures Present(t, targets + [k]) && Marked(t, targets)[k] == t[k]
      ensures Marked(t, targets + [k]) == Marked(t, targets)[k := Some(Mark(t[k].value))]
    {
    }

    /** The search after a target finds the next one. */
    lemma NextOf(t: Table, targets: seq<nat>, record: nat, p: nat)
      requires |t| == MAX_HANDLERS && targets == Targets(t, matching, record) && p < |targets|
      ensures Matches(t, matching, record, targets[p] + 1) == targets[p + 1..]
    {
      if Matches(t, matching, record, DEFAULT_SLOT + 1) != [] {
        MatchesFrom(t, matching, record, DEFAULT_SLOT + 1, p);
      }
    }

    /** The outcome of reading a message. One that could not be read is dropped. While somebody has exclusive
        control and takes messages, it goes to that owner alone. Otherwise an empty one goes to the default
        handler, one that is not valid is dropped, and the records of any other are dealt out in turn. */
    method HandleMessage(read: bool, exclusive: bool, empty: bool, valid: bool, records: seq<nat>)
      returns (calls: seq<Delivery>, toOwner: bool)
      requires Valid()
      modifies slots
      ensures Valid() && (toOwner <==> read && exclusive)
      ensures !read || exclusive ==> calls == [] && slots[..] == old(slots[..])
      ensures read && !exclusive ==>
                if empty then
                  && slots[..] == old(slots[..])
                  && calls == if slots[DEFAULT_SLOT].Some? then [OfNothing(DEFAULT_SLOT)] else []
                else if !valid then slots[..] == old(slots[..]) && calls == []
                else
                  && slots[..] == TableAfter(old(slots[..]), matching, records, |records|)
                  && calls == CallsFor(old(slots[..]), matching, records, |records|)
    {
      hide TableAfter, CallsFor;
      calls, toOwner := [], false;
      if !read {
        return;
      }
      if exclusive {
        toOwner := true;
        return;
      }
      if empty {
        calls := if slots[DEFAULT_SLOT].Some? then [OfNothing(DEFAULT_SLOT)] else [];
        return;
      }
      if !valid {
        return;
      }
      calls := DealMessage(records);
    }

    method DealMessage(records: seq<nat>) returns (calls: seq<Delivery>)
      requires Valid()
      modifies slots
      ensures Valid()
      ensures slots[..] == TableAfter(old(slots[..]), matching, records, |records|)
      ensures calls == CallsFor(old(slots[..]), matching, records, |records|)
    {
      ghost var t := slots[..];
      ClearNotified();
      AfterNone(t, matching, records);
      hide *;
      var i := 0;
      calls := [];
      while i < |records|
        invariant i <= |records| && Valid()
        invariant slots[..] == TableAfter(t, matching, records, i) && calls == CallsFor(t, matching, records, i)
      {
        AfterOneMore(t, matching, records, i);
        var more := DealOut(records[i], i);
        calls := calls + more;
        i := i + 1;
      }
    }
  }
}
