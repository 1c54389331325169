/** Delta sequences: every entry holds the ticks left after the entry before it. */
module Deltas {

  ghost predicate NonNegative(ds: seq<int>) {
    forall i :: 0 <= i < |ds| ==> 0 <= ds[i]
  }

  function Max(a: int, b: int): int {
    if a < b then b else a
  }

  /** The ticks of the first `i` entries together. */
  function Before(ds: seq<int>, i: nat): int
    requires i <= |ds|
  {
    if i == 0 then 0 else Before(ds, i - 1) + ds[i - 1]
  }

  /** The absolute number of ticks until entry `i` is due. */
  function Due(ds: seq<int>, i: nat): int
    requires i < |ds|
  {
    Before(ds, i) + ds[i]
  }

  function Sum(ds: seq<int>): int {
    Before(ds, |ds|)
  }

  /** The deltas after `n` ticks have been taken from the front. */
  function Charge(ds: seq<int>, n: int): (r: seq<int>)
    ensures |r| == |ds|
    ensures forall j :: 0 <= j < |ds| ==> r[j] == ChargedAt(ds, n, j)
  {
    ChargeFrom(ds, n, 0)
  }

  function ChargeFrom(ds: seq<int>, n: int, i: nat): (r: seq<int>)
    requires i <= |ds|
    ensures |r| == |ds| - i
    ensures forall j :: i <= j < |ds| ==> r[j - i] == ChargedAt(ds, n, j)
    decreases |ds| - i
  {
    if i == |ds| then [] else [ChargedAt(ds, n, i)] + ChargeFrom(ds, n, i + 1)
  }

  function ChargedAt(ds: seq<int>, n: int, j: nat): int
    requires j < |ds|
  {
    var rest := n - Before(ds, j);
    if rest <= 0 then ds[j] else Max(0, ds[j] - rest)
  }

  /** Where an entry due at `t` goes: last if nothing is due later, else in front of the first
      entry that is due no earlier. */
  function Place(ds: seq<int>, t: int): (p: nat)
    ensures p <= |ds|
  {
    if Sum(ds) <= t then |ds| else Search(ds, t, 0)
  }

  function Search(ds: seq<int>, t: int, i: nat): (p: nat)
    requires i <= |ds|
    ensures i <= p <= |ds|
    ensures forall j :: i <= j < p ==> Due(ds, j) < t
    ensures p < |ds| ==> t <= Due(ds, p)
    decreases |ds| - i
  {
    if i == |ds| || t <= Due(ds, i) then i else Search(ds, t, i + 1)
  }

  /** A new entry at `p`, due at `t`; its successor gives up what it takes. */
  function InsertAt(ds: seq<int>, t: int, p: nat): (r: seq<int>)
    requires p <= |ds|
    ensures |r| == |ds| + 1
  {
    var d := t - Before(ds, p);
    if p == |ds| then ds + [d] else ds[..p] + [d, ds[p] - d] + ds[p + 1..]
  }

  /** The deltas without entry `k`, whose ticks go to its successor. */
  function RemoveAt(ds: seq<int>, k: nat): (r: seq<int>)
    requires k < |ds|
    ensures |r| == |ds| - 1
  {
    if k + 1 == |ds| then ds[..k] else ds[..k] + [ds[k] + ds[k + 1]] + ds[k + 2..]
  }

  lemma {:induction false} BeforeMonotone(ds: seq<int>, i: nat, j: nat)
    requires NonNegative(ds) && i <= j <= |ds|
    ensures 0 <= Before(ds, i) <= Before(ds, j)
    decreases i + j
  {
    if i < j {
      BeforeMonotone(ds, i, j - 1);
    } else if 0 < i {
      BeforeMonotone(ds, i - 1, i - 1);
    }
  }

  /** Entries are due in list order. */
  lemma DueMonotone(ds: seq<int>, i: nat, j: nat)
    requires NonNegative(ds) && i <= j < |ds|
    ensures 0 <= Due(ds, i) <= Due(ds, j) <= Sum(ds)
  {
    BeforeMonotone(ds, i, i);
    BeforeMonotone(ds, i + 1, j + 1);
    BeforeMonotone(ds, j + 1, |ds|);
  }

  /** A new entry goes behind all that are due before it and in front of all that are due after it. Among entries due
      at the same time it goes first, unless nothing is due later; then it goes last. */
  lemma PlaceExactly(ds: seq<int>, t: int)
    requires NonNegative(ds)
    ensures var p := Place(ds, t);
            && (p == |ds| <==> forall j :: 0 <= j < |ds| ==> Due(ds, j) <= t)
            && (p < |ds| ==> forall j :: 0 <= j < |ds| ==> (j < p <==> Due(ds, j) < t))
  {
    var p := Place(ds, t);
    forall j | 0 <= j < |ds|
      ensures Due(ds, j) <= Sum(ds) && (p <= j && p < |ds| ==> Due(ds, p) <= Due(ds, j))
    {
      DueMonotone(ds, j, |ds| - 1);
      if p <= j {
        DueMonotone(ds, p, j);
      }
    }
    if ds != [] {
      assert Due(ds, |ds| - 1) == Sum(ds);
    }
  }

  lemma {:induction false} SamePrefix(ds: seq<int>, es: seq<int>, i: nat)
    requires i <= |ds| && i <= |es| && forall j :: 0 <= j < i ==> ds[j] == es[j]
    ensures Before(ds, i) == Before(es, i)
  {
    if i > 0 {
      SamePrefix(ds, es, i - 1);
    }
  }

  /** Beyond a place where the sums agree, equal deltas keep them in step. */
  lemma {:induction false} SameSuffix(ds: seq<int>, es: seq<int>, i: nat, j: nat, n: nat)
    requires i + n <= |ds| && j + n <= |es| && Before(ds, i) == Before(es, j)
    requires forall k {:trigger ds[k]} :: i <= k < i + n ==> ds[k] == es[k - i + j]
    ensures Before(ds, i + n) == Before(es, j + n)
  {
    if n > 0 {
      SameSuffix(ds, es, i, j, n - 1);
      assert ds[i + n - 1] == es[j + n - 1];
    }
  }

  /** Charging `n` ticks takes `n` off every absolute time, stopping at zero. */
  lemma {:induction false} ChargeBefore(ds: seq<int>, n: nat, i: nat)
    requires NonNegative(ds) && i <= |ds|
    ensures Before(Charge(ds, n), i) == Max(0, Before(ds, i) - n)
  {
    if i > 0 {
      ChargeBefore(ds, n, i - 1);
      assert Charge(ds, n)[i - 1] == ChargedAt(ds, n, i - 1);
    }
  }

  lemma ChargeSum(ds: seq<int>, n: nat)
    requires NonNegative(ds)
    ensures NonNegative(Charge(ds, n)) && 0 <= Sum(ds) && Sum(Charge(ds, n)) == Max(0, Sum(ds) - n)
  {
    ChargeBefore(ds, n, |ds|);
    BeforeMonotone(ds, |ds|, |ds|);
  }

  lemma ChargeDue(ds: seq<int>, n: nat)
    requires NonNegative(ds)
    ensures forall i :: 0 <= i < |ds| ==> Due(Charge(ds, n), i) == Max(0, Due(ds, i) - n)
  {
    forall i | 0 <= i < |ds|
      ensures Due(Charge(ds, n), i) == Max(0, Due(ds, i) - n)
    {
      ChargeBefore(ds, n, i + 1);
    }
  }

  lemma InsertBefore(ds: seq<int>, t: int, p: nat, i: nat)
    requires p <= |ds| && i <= |ds|
    ensures i <= p ==> Before(InsertAt(ds, t, p), i) == Before(ds, i)
    ensures Before(InsertAt(ds, t, p), p + 1) == t
    ensures p < i ==> Before(InsertAt(ds, t, p), i + 1) == Before(ds, i)
  {
    var r := InsertAt(ds, t, p);
    SamePrefix(r, ds, p);
    if i <= p {
      SamePrefix(r, ds, i);
    } else {
      assert Before(r, p + 2) == Before(r, p) + r[p] + r[p + 1] == Before(ds, p + 1);
      SameSuffix(r, ds, p + 2, p + 1, i - p - 1);
    }
  }

  /** A new entry gets exactly its time and every other entry keeps its own. */
  lemma InsertDue(ds: seq<int>, t: nat, i: nat)
    requires NonNegative(ds) && i < |ds|
    ensures
      var p, r := Place(ds, t), InsertAt(ds, t, Place(ds, t));
      Due(r, p) == t && Due(r, if i < p then i else i + 1) == Due(ds, i)
  {
    var p := Place(ds, t);
    InsertBefore(ds, t, p, i);
    InsertBefore(ds, t, p, i + 1);
    InsertBefore(ds, t, p, p);
  }

  lemma InsertShape(ds: seq<int>, t: nat)
    requires NonNegative(ds)
    ensures
      var r := InsertAt(ds, t, Place(ds, t));
      NonNegative(r) && Sum(r) == Max(Sum(ds), t)
  {
    var p, r := Place(ds, t), InsertAt(ds, t, Place(ds, t));
    InsertBefore(ds, t, p, |ds|);
    assert Before(ds, p) <= t by {
      if 0 < p && t < Sum(ds) {
        assert Before(ds, p) == Due(ds, p - 1) < t;
      }
    }
    if p < |ds| {
      assert t <= Due(ds, p);
      BeforeMonotone(ds, p + 1, |ds|);
    }
    forall i | 0 <= i < |r|
      ensures 0 <= r[i]
    {
      if i == p {
        assert r[p] == t - Before(ds, p);
      } else if i == p + 1 {
        assert r[p + 1] == ds[p] - (t - Before(ds, p));
      } else if p < i {
        assert r[i] == ds[i - 1];
      }
    }
  }

  lemma RemoveBefore(ds: seq<int>, k: nat, i: nat)
    requires k < |ds| && i <= |ds|
    ensures i <= k ==> Before(RemoveAt(ds, k), i) == Before(ds, i)
    ensures k + 2 <= i ==> Before(RemoveAt(ds, k), i - 1) == Before(ds, i)
  {
    var r := RemoveAt(ds, k);
    SamePrefix(r, ds, k);
    if i <= k {
      SamePrefix(r, ds, i);
    } else if k + 2 <= i {
      assert Before(r, k + 1) == Before(r, k) + r[k] == Before(ds, k + 2);
      SameSuffix(r, ds, k + 1, k + 2, i - k - 2);
    }
  }

  /** Removing an entry leaves every other absolute time as it was. */
  lemma RemoveDue(ds: seq<int>, k: nat, i: nat)
    requires k < |ds| && i < |ds| && i != k
    ensures Due(RemoveAt(ds, k), if i < k then i else i - 1) == Due(ds, i)
  {
    RemoveBefore(ds, k, i);
    RemoveBefore(ds, k, i + 1);
  }

  lemma RemoveShape(ds: seq<int>, k: nat)
    requires NonNegative(ds) && k < |ds|
    ensures NonNegative(RemoveAt(ds, k))
    ensures Sum(RemoveAt(ds, k)) == if k + 1 == |ds| then Sum(ds) - ds[k] else Sum(ds)
    ensures 0 <= Sum(RemoveAt(ds, k)) <= Sum(ds)
  {
    var r := RemoveAt(ds, k);
    RemoveBefore(ds, k, |ds|);
    RemoveBefore(ds, k, k);
    forall i | 0 <= i < |r|
      ensures 0 <= r[i]
    {
      if k < i {
        assert r[i] == ds[i + 1];
      }
    }
    BeforeMonotone(r, |r|, |r|);
  }

  /** The way the list does it: first the ticks move, then the entry goes. */
  lemma RemoveInSteps(ds: seq<int>, es: seq<int>, k: nat)
    requires k < |ds| && es == if k + 1 < |ds| then ds[k + 1 := ds[k] + ds[k + 1]] else ds
    ensures es[..k] + es[k + 1..] == RemoveAt(ds, k)
  {
    var l, r := es[..k] + es[k + 1..], RemoveAt(ds, k);
    forall i | 0 <= i < |r|
      ensures l[i] == r[i]
    {
    }
  }

  /** How many of the first `i` entries are due once `n` ticks have passed. */
  function Expired(ds: seq<int>, n: int, i: nat): nat
    requires i <= |ds|
  {
    if i == 0 then 0 else Expired(ds, n, i - 1) + (if Due(ds, i - 1) <= n then 1 else 0)
  }

  /** How many of the first `i` share their time with a predecessor that a step of `n` hits exactly. */
  function Ties(ds: seq<int>, n: int, i: nat): nat
    requires i <= |ds|
  {
    if i == 0 then 0
    else Ties(ds, n, i - 1) + (if 0 < n && ds[i - 1] == 0 && Due(ds, i - 1) == n then 1 else 0)
  }

  /** How many of the first `i` the update reports: those already due, and those it reaches with
      ticks to spare. */
  function Reported(ds: seq<int>, n: int, i: nat): nat
    requires i <= |ds|
  {
    if i == 0 then 0
    else Reported(ds, n, i - 1) +
         (if Due(ds, i - 1) <= 0 || (Before(ds, i - 1) < n && Due(ds, i - 1) <= n) then 1 else 0)
  }

  lemma {:induction false} ReportedStep(ds: seq<int>, n: nat, i: nat)
    requires NonNegative(ds) && i <= |ds|
    ensures Reported(ds, n, i) + Ties(ds, n, i) == Expired(ds, n, i)
    ensures 0 < Expired(ds, n, i) ==> 0 < Reported(ds, n, i)
  {
    if i > 0 {
      ReportedStep(ds, n, i - 1);
      BeforeMonotone(ds, 0, i - 1);
      if Due(ds, i - 1) <= n {
        DueMonotone(ds, 0, i - 1);
        FirstIsReported(ds, n, i);
      }
    }
  }

  lemma {:induction false} FirstIsReported(ds: seq<int>, n: nat, i: nat)
    requires NonNegative(ds) && 0 < i <= |ds| && Due(ds, 0) <= n
    ensures 0 < Reported(ds, n, i)
  {
    if i > 1 {
      FirstIsReported(ds, n, i - 1);
    }
  }

  /** The update reports every expired entry except those tied to an exact hit. */
  lemma ReportedCount(ds: seq<int>, n: nat)
    requires NonNegative(ds)
    ensures Reported(ds, n, |ds|) + Ties(ds, n, |ds|) == Expired(ds, n, |ds|)
    ensures 0 < Reported(ds, n, |ds|) <==> 0 < Expired(ds, n, |ds|)
    ensures Reported(ds, n, |ds|) == Expired(ds, n, |ds|) <==> Ties(ds, n, |ds|) == 0
    ensures |ds| < 0x1_0000 ==> Reported(ds, n, |ds|) % 0x1_0000 == Reported(ds, n, |ds|)
  {
    ReportedStep(ds, n, |ds|);
    ReportedFits(ds, n, |ds|);
  }

  lemma {:induction false} ReportedFits(ds: seq<int>, n: nat, i: nat)
    requires i <= |ds|
    ensures Reported(ds, n, i) <= i
  {
    if i > 0 {
      ReportedFits(ds, n, i - 1);
    }
  }

  /** Nothing beyond the point where the ticks run out is charged or reported. */
  lemma ChargeTail(ds: seq<int>, n: nat, i: nat)
    requires NonNegative(ds) && i <= |ds| && (i == |ds| || n <= Before(ds, i))
    requires n == 0 && i < |ds| ==> 0 < ds[i]
    ensures forall j :: i <= j < |ds| ==> ChargedAt(ds, n, j) == ds[j]
    ensures Reported(ds, n, |ds|) == Reported(ds, n, i)
    decreases |ds| - i
  {
    if i < |ds| {
      BeforeMonotone(ds, i, i);
      if i + 1 < |ds| {
        BeforeMonotone(ds, i + 1, i + 1);
        LaterDue(ds, n, i + 1);
      }
    }
  }

  lemma {:induction false} LaterDue(ds: seq<int>, n: nat, i: nat)
    requires NonNegative(ds) && i <= |ds| && n <= Before(ds, i) && 0 < Before(ds, i)
    ensures forall j :: i <= j < |ds| ==> ChargedAt(ds, n, j) == ds[j]
    ensures Reported(ds, n, |ds|) == Reported(ds, n, i)
    decreases |ds| - i
  {
    if i < |ds| {
      LaterDue(ds, n, i + 1);
    }
  }

  /** Two entries due at the same time: a step that hits them exactly reports one of them. */
  lemma TieIsNotReported()
    ensures Reported([5, 0], 5, 2) == 1 && Expired([5, 0], 5, 2) == 2
  {
    var ds := [5, 0];
    assert Before(ds, 1) == 5 && Due(ds, 0) == 5 && Due(ds, 1) == 5;
    assert Reported(ds, 5, 1) == 1 && Expired(ds, 5, 1) == 1;
  }
}

/** The timer lists of the kernel (src/gki/common/gki_time.cc): doubly linked delta queues. */
module TimerList {
  import opened Deltas

  const MAX_INT32 := 0x7fff_ffff
  const UNUSED_LIST_ENTRY := -0x8000_0000

  class TimerEntry {
    var next: TimerEntry?
    var prev: TimerEntry?
    var ticks: int
    var inUse: bool

    constructor ()
      ensures next == null && prev == null && ticks == UNUSED_LIST_ENTRY && !inUse
    {
      next, prev, ticks, inUse := null, null, UNUSED_LIST_ENTRY, false;
    }
  }

  /** No entry is listed twice. */
  ghost predicate Distinct(entries: seq<TimerEntry>) {
    forall i, j :: 0 <= i < j < |entries| ==> entries[i] != entries[j]
  }

  function IndexOf(entries: seq<TimerEntry>, e: TimerEntry): (i: nat)
    requires e in entries
    ensures i < |entries| && entries[i] == e
  {
    if entries[0] == e then 0 else 1 + IndexOf(entries[1..], e)
  }

  /** The absolute ticks until entry `x` of a list is due. */
  function Remaining(entries: seq<TimerEntry>, deltas: seq<int>, x: TimerEntry): int
    requires |deltas| == |entries| && x in entries
  {
    Due(deltas, IndexOf(entries, x))
  }

  lemma RemainingAt(entries: seq<TimerEntry>, ds: seq<int>, i: nat)
    requires Distinct(entries) && |ds| == |entries| && i < |entries|
    ensures Remaining(entries, ds, entries[i]) == Due(ds, i)
  {
    assert IndexOf(entries, entries[i]) == i;
  }

  /** Time passes for every entry alike, down to zero. */
  lemma UpdateElapses(entries: seq<TimerEntry>, ds: seq<int>, n: nat, x: TimerEntry)
    requires |ds| == |entries| && NonNegative(ds) && x in entries
    ensures Remaining(entries, Charge(ds, n), x) == Max(0, Remaining(entries, ds, x) - n)
  {
    ChargeDue(ds, n);
  }

  /** A new entry is due at its own time and changes nobody else's. */
  lemma AddKeepsOthers(entries: seq<TimerEntry>, ds: seq<int>, e: TimerEntry, t: nat, x: TimerEntry)
    requires Distinct(entries) && |ds| == |entries| && NonNegative(ds) && e !in entries && (x in entries || x == e)
    ensures
      var p := Place(ds, t);
      var es := entries[..p] + [e] + entries[p..];
      && Distinct(es) && x in es
      && Remaining(es, InsertAt(ds, t, p), x) == if x == e then t else Remaining(entries, ds, x)
  {
    var p := Place(ds, t);
    var es, r := entries[..p] + [e] + entries[p..], InsertAt(ds, t, p);
    hide InsertAt, Place, NonNegative;
    if x == e {
      InsertBefore(ds, t, p, 0);
      RemainingAt(es, r, p);
    } else {
      var i := IndexOf(entries, x);
      var j := if i < p then i else i + 1;
      InsertDue(ds, t, i);
      assert es[j] == x;
      RemainingAt(es, r, j);
    }
  }

  /** Removing an entry changes nobody else's time. */
  lemma RemoveKeepsOthers(entries: seq<TimerEntry>, ds: seq<int>, k: nat, x: TimerEntry)
    requires Distinct(entries) && |ds| == |entries| && k < |entries| && x in entries && x != entries[k]
    ensures
      var es := entries[..k] + entries[k + 1..];
      && Distinct(es) && x in es && entries[k] !in es
      && Remaining(es, RemoveAt(ds, k), x) == Remaining(entries, ds, x)
  {
    var es, r := entries[..k] + entries[k + 1..], RemoveAt(ds, k);
    hide RemoveAt;
    var i := IndexOf(entries, x);
    var j := if i < k then i else i - 1;
    RemoveDue(ds, k, i);
    assert es[j] == x;
    RemainingAt(es, r, j);
  }

  /** A charge of `n` ticks in progress: `now` is done up to `i`, `rem` ticks are left. */
  ghost predicate Underway(ds: seq<int>, now: seq<int>, n: nat, i: int, rem: int, count: nat) {
    && 0 <= i <= |ds| == |now|
    && rem == n - Before(ds, i) && (n == 0 && i < |ds| ==> 0 < ds[i])
    && (forall j :: 0 <= j < i ==> now[j] == ChargedAt(ds, n, j))
    && (forall j :: i <= j < |ds| ==> now[j] == ds[j])
    && count == Reported(ds, n, i)
  }

  lemma UnderwayStep(ds: seq<int>, now: seq<int>, n: nat, i: nat, rem: int, count: nat)
    requires NonNegative(ds) && Underway(ds, now, n, i, rem, count) && i < |ds| && 0 < rem
    ensures ds[i] == now[i]
    ensures Underway(ds, now[i := Max(0, ds[i] - rem)], n, i + 1, rem - ds[i],
                     if ds[i] <= rem then count + 1 else count)
  {
    BeforeMonotone(ds, i, i);
  }

  lemma UnderwayDone(ds: seq<int>, now: seq<int>, n: nat, i: nat, rem: int, count: nat)
    requires NonNegative(ds) && Underway(ds, now, n, i, rem, count) && (i == |ds| || rem <= 0)
    ensures now == Charge(ds, n) && count == Reported(ds, n, |ds|)
  {
    ChargeTail(ds, n, i);
  }

  class TimerListQ {
    var first: TimerEntry?
    var last: TimerEntry?
    var lastTicks: int
    ghost var entries: seq<TimerEntry>
    ghost var deltas: seq<int>
    ghost var nodes: set<TimerEntry>

    /** The links spell out `entries`, in both directions. */
    ghost predicate Linked()
      reads this`first, this`last, this`entries, this`nodes, nodes`next, nodes`prev
    {
      && Distinct(entries)
      && (forall i :: 0 <= i < |entries| ==> entries[i] in nodes)
      && first == (if entries == [] then null else entries[0])
      && last == (if entries == [] then null else entries[|entries| - 1])
      && (forall i {:trigger entries[i].next} :: 0 <= i < |entries| ==>
            entries[i].next == if i + 1 < |entries| then entries[i + 1] else null)
      && (forall i {:trigger entries[i].prev} :: 0 <= i < |entries| ==>
            entries[i].prev == if i > 0 then entries[i - 1] else null)
    }

    /** The entries hold `deltas`. */
    ghost predicate Mirrors()
      reads this`entries, this`deltas, this`nodes, nodes`ticks
    {
      && |deltas| == |entries|
      && forall i :: 0 <= i < |entries| ==> entries[i] in nodes && entries[i].ticks == deltas[i]
    }

    ghost predicate AllInUse()
      reads this`entries, this`nodes, nodes`inUse
    {
      forall i :: 0 <= i < |entries| ==> entries[i] in nodes && entries[i].inUse
    }

    ghost predicate Valid()
      reads this, nodes
    {
      Linked() && Mirrors() && AllInUse() && NonNegative(deltas) && lastTicks == Sum(deltas) <= MAX_INT32
    }

    constructor ()
      ensures Valid() && entries == [] && deltas == [] && nodes == {}
    {
      first, last, lastTicks := null, null, 0;
      entries, deltas, nodes := [], [], {};
    }

    /** Charges `n` ticks and reports how many entries are due, modulo the 16-bit counter. */
    method Update(n: nat) returns (numTimeOut: nat)
      requires Valid() && n <= MAX_INT32
      modifies this, nodes
      ensures Valid() && entries == old(entries) && nodes == old(nodes) && deltas == Charge(old(deltas), n)
      ensures numTimeOut == Reported(old(deltas), n, |old(deltas)|) % 0x1_0000
    {
      var count := UpdateEntries(n);
      numTimeOut := count % 0x1_0000;
    }

    method UpdateEntries(n: nat) returns (count: nat)
      requires Valid() && n <= MAX_INT32
      modifies this, nodes
      ensures Valid() && entries == old(entries) && nodes == old(nodes) && deltas == Charge(old(deltas), n)
      ensures count == Reported(old(deltas), n, |old(deltas)|)
    {
      hide Underway, Reported, Charge, Sum, NonNegative, Linked, Mirrors, AllInUse;
      ghost var ds := deltas;
      ChargeSum(ds, n);
      var p;
      ghost var i;
      p, count, i := SkipExpired(n);
      count := ChargeRest(p, i, n, count);
      if lastTicks > 0 {
        lastTicks := lastTicks - n;
        if lastTicks < 0 {
          lastTicks := 0;
        }
      }
    }

    /** Takes the ticks from the entries that are not due yet, until none are left. */
    method ChargeRest(start: TimerEntry?, ghost from: nat, n: nat, count: nat) returns (count': nat)
      requires Valid() && from <= |entries| && Underway(deltas, deltas, n, from, n, count)
      requires start == if from < |entries| then entries[from] else null
      modifies this`deltas, nodes`ticks
      ensures Linked() && Mirrors() && AllInUse() && deltas == Charge(old(deltas), n)
      ensures count' == Reported(old(deltas), n, |old(deltas)|)
    {
      hide Underway, Reported, Charge, Sum;
      ghost var ds, i := deltas, from;
      var p, rem := start, n;
      count' := count;
      while p != null && rem > 0
        invariant 0 <= i <= |entries|
        invariant p == if i < |entries| then entries[i] else null
        invariant Linked() && Mirrors() && AllInUse()
        invariant Underway(ds, deltas, n, i, rem, count')
        decreases |entries| - i
      {
        UnderwayStep(ds, deltas, n, i, rem, count');
        var temp := p.ticks;
        count' := ChargeEntry(p, i, rem, count');
        rem := rem - temp;
        p := p.next;
        i := i + 1;
      }
      UnderwayDone(ds, deltas, n, i, rem, count');
    }

    /** Takes `rem` ticks from one entry, and counts it if that makes it due. */
    method ChargeEntry(p: TimerEntry, ghost i: nat, rem: int, count: nat) returns (count': nat)
      requires Linked() && Mirrors() && i < |entries| && p == entries[i] && 0 < rem
      modifies this`deltas, p`ticks
      ensures Linked() && Mirrors() && deltas == old(deltas)[i := Max(0, old(p.ticks) - rem)]
      ensures old(AllInUse()) ==> AllInUse()
      ensures count' == if old(p.ticks) <= rem then count + 1 else count
    {
      count' := count;
      p.ticks := p.ticks - rem;
      if p.ticks <= 0 {
        p.ticks := 0;
        count' := count' + 1;
      }
      deltas := deltas[i := p.ticks];
    }

    /** The entries that are due already are counted first. */
    method SkipExpired(ghost n: nat) returns (p: TimerEntry?, count: nat, ghost i: nat)
      requires Valid()
      ensures i <= |entries| && p == if i < |entries| then entries[i] else null
      ensures Underway(deltas, deltas, n, i, n, count)
    {
      count, i := 0, 0;
      p := first;
      while p != null && p.ticks <= 0
        invariant 0 <= i <= |entries|
        invariant p == if i < |entries| then entries[i] else null
        invariant Before(deltas, i) == 0 && count == Reported(deltas, n, i)
        invariant forall j :: 0 <= j < i ==> deltas[j] == 0 && ChargedAt(deltas, n, j) == 0
        decreases |entries| - i
      {
        count := count + 1;
        p := p.next;
        i := i + 1;
      }
    }

    /** The absolute ticks left for an entry of this list, 0 for an entry that is in no list. */
    method GetRemainingTicks(target: TimerEntry) returns (ticks: int)
      requires Valid()
      ensures ticks == if target in entries then Remaining(entries, deltas, target) else 0
    {
      ticks := 0;
      if target.inUse {
        var p := first;
        ghost var i := 0;
        while p != null && p != target
          invariant 0 <= i <= |entries|
          invariant p == if i < |entries| then entries[i] else null
          invariant ticks == Before(deltas, i) && target !in entries[..i]
          decreases |entries| - i
        {
          ticks := ticks + p.ticks;
          p := p.next;
          i := i + 1;
        }
        if p != null {
          RemainingAt(entries, deltas, i);
          ticks := ticks + p.ticks;
        } else {
          return 0;
        }
      }
    }

    /** At the end of the list, when nothing is due later. */
    method Append(e: TimerEntry)
      requires Valid() && e !in nodes && e.prev == null && lastTicks <= e.ticks <= MAX_INT32
      modifies this, nodes`next, e`next, e`prev, e`ticks
      ensures Linked() && Mirrors() && entries == old(entries) + [e] && lastTicks == old(e.ticks)
      ensures deltas == InsertAt(old(deltas), old(e.ticks), |old(deltas)|) && nodes == old(nodes) + {e}
    {
      if first == null {
        first := e;
      } else {
        if last != null {
          last.next := e;
        }
        e.prev := last;
      }
      e.next := null;
      last := e;
      var total := e.ticks;
      e.ticks := e.ticks - lastTicks;
      lastTicks := total;
      entries, deltas, nodes := entries + [e], deltas + [e.ticks], nodes + {e};
    }

    /** In front of the first entry that is due no earlier. */
    method InsertInside(e: TimerEntry)
      requires Valid() && e !in nodes && e.prev == null && 0 <= e.ticks < lastTicks
      modifies this`first, this`entries, this`deltas, this`nodes
      modifies nodes`next, nodes`prev, nodes`ticks, e`next, e`prev, e`ticks
      ensures Linked() && Mirrors() && nodes == old(nodes) + {e}
      ensures var p := Place(old(deltas), old(e.ticks)); entries == old(entries)[..p] + [e] + old(entries)[p..]
      ensures deltas == InsertAt(old(deltas), old(e.ticks), Place(old(deltas), old(e.ticks)))
    {
      hide Place, Sum, NonNegative;
      ghost var ds, t := deltas, e.ticks;
      var p;
      ghost var i;
      p, i := FindSuccessor(e);
      LinkBefore(e, p, i);
      p.ticks := p.ticks - e.ticks;
      deltas := ds[..i] + [e.ticks, p.ticks] + ds[i + 1..];
      assert deltas == InsertAt(ds, t, i);
    }

    /** Links `e` in front of entry `p`. */
    method LinkBefore(e: TimerEntry, p: TimerEntry, ghost i: nat)
      requires Linked() && e !in nodes && e.prev == null && i < |entries| && p == entries[i]
      modifies this`first, this`entries, this`nodes, nodes`next, nodes`prev, e`next, e`prev
      ensures Linked() && entries == old(entries)[..i] + [e] + old(entries)[i..] && nodes == old(nodes) + {e}
    {
      if p == first {
        e.next := first;
        first.prev := e;
        first := e;
      } else {
        p.prev.next := e;
        e.prev := p.prev;
        p.prev := e;
        e.next := p;
      }
      entries, nodes := entries[..i] + [e] + entries[i..], nodes + {e};
    }

    /** Walks to the first entry that is due no earlier, taking the ticks passed off `e`. */
    method FindSuccessor(e: TimerEntry) returns (p: TimerEntry, ghost i: nat)
      requires Valid() && e !in nodes && 0 <= e.ticks < lastTicks
      modifies e`ticks
      ensures i < |entries| && p == entries[i] && i == Place(deltas, old(e.ticks))
      ensures e.ticks == old(e.ticks) - Before(deltas, i) && Valid()
    {
      ghost var t := e.ticks;
      i := 0;
      BeforeMonotone(deltas, 0, 0);
      p := first;
      while e.ticks > p.ticks
        invariant 0 <= i < |entries| && p == entries[i]
        invariant e.ticks == t - Before(deltas, i) && Search(deltas, t, 0) == Search(deltas, t, i)
        decreases |entries| - i
      {
        if p.ticks > 0 {
          e.ticks := e.ticks - p.ticks;
        }
        assert i + 1 < |entries|;
        p := p.next;
        i := i + 1;
      }
    }

    /** Files an entry under its absolute time; a negative time is ignored. */
    method Add(e: TimerEntry)
      requires Valid() && e !in nodes && e.prev == null && e.ticks <= MAX_INT32
      modifies this, nodes, e
      ensures Valid()
      ensures old(e.ticks) < 0 ==> unchanged(this) && unchanged(e)
      ensures old(e.ticks) >= 0 ==>
                var t, p := old(e.ticks), Place(old(deltas), old(e.ticks));
                && entries == old(entries)[..p] + [e] + old(entries)[p..]
                && deltas == InsertAt(old(deltas), t, p)
                && nodes == old(nodes) + {e}
    {
      if e.ticks >= 0 {
        hide InsertAt, Sum, NonNegative, Linked;
        InsertShape(deltas, e.ticks);
        if e.ticks >= lastTicks {
          Append(e);
        } else {
          InsertInside(e);
        }
        e.inUse := true;
      }
    }

    /** Takes an entry out of the list and hands its remaining ticks to its successor. */
    method Remove(e: TimerEntry?)
      requires Valid() && (e != null && e.inUse ==> e in entries)
      modifies this, nodes
      ensures Valid()
      ensures e == null || !old(e.inUse) ==> unchanged(this) && unchanged(old(nodes))
      ensures e != null && old(e.inUse) ==>
                var k := IndexOf(old(entries), e);
                && entries == old(entries)[..k] + old(entries)[k + 1..]
                && deltas == RemoveAt(old(deltas), k)
                && nodes == old(nodes) - {e}
                && e.next == null && e.prev == null && e.ticks == UNUSED_LIST_ENTRY && !e.inUse
    {
      if e == null || !e.inUse || first == null {
        return;
      }
      TakeOut(e, IndexOf(entries, e));
    }

    method TakeOut(e: TimerEntry, ghost k: nat)
      requires Valid() && k < |entries| && e == entries[k]
      modifies this, nodes
      ensures Valid() && entries == old(entries)[..k] + old(entries)[k + 1..]
      ensures deltas == RemoveAt(old(deltas), k) && nodes == old(nodes) - {e}
      ensures e.next == null && e.prev == null && e.ticks == UNUSED_LIST_ENTRY && !e.inUse
    {
      assert e in nodes && |deltas| == |entries|;
      hide Sum, RemoveAt, NonNegative, Linked, Mirrors, AllInUse;
      RemoveShape(deltas, k);
      TakeAway(e, k);
      e.ticks, e.inUse := UNUSED_LIST_ENTRY, false;
    }

    method TakeAway(e: TimerEntry, ghost k: nat)
      requires Linked() && Mirrors() && AllInUse() && k < |entries| && e == entries[k]
      modifies this, nodes`next, nodes`prev, nodes`ticks
      ensures Linked() && Mirrors() && AllInUse()
      ensures entries == old(entries)[..k] + old(entries)[k + 1..] && nodes == old(nodes) - {e}
      ensures deltas == RemoveAt(old(deltas), k)
      ensures lastTicks == if k + 1 == |old(deltas)| then old(lastTicks) - old(deltas)[k] else old(lastTicks)
      ensures e.next == null && e.prev == null
    {
      hide RemoveAt;
      ghost var ds := deltas;
      BequeathTicks(e, k);
      Unlink(e, k);
      RemoveInSteps(ds, deltas, k);
      deltas := deltas[..k] + deltas[k + 1..];
    }

    /** The ticks an entry still had go to the next one, or off the end of the list. */
    method BequeathTicks(e: TimerEntry, ghost k: nat)
      requires Linked() && Mirrors() && k < |entries| && e == entries[k]
      modifies this`lastTicks, this`deltas, nodes`ticks
      ensures Linked() && Mirrors()
      ensures
        var ds := old(deltas);
        if k + 1 < |ds| then deltas == ds[k + 1 := ds[k] + ds[k + 1]] && lastTicks == old(lastTicks)
        else deltas == ds && lastTicks == old(lastTicks) - ds[k]
    {
      if e.next != null {
        e.next.ticks := e.next.ticks + e.ticks;
        deltas := deltas[k + 1 := e.next.ticks];
      } else {
        lastTicks := lastTicks - e.ticks;
      }
    }

    method Unlink(e: TimerEntry, ghost k: nat)
      requires Linked() && k < |entries| && e == entries[k]
      modifies this`first, this`last, this`entries, this`nodes, nodes`next, nodes`prev
      ensures Linked() && entries == old(entries)[..k] + old(entries)[k + 1..] && nodes == old(nodes) - {e}
      ensures e.next == null && e.prev == null
    {
      if first == e {
        first := e.next;
        if first != null {
          first.prev := null;
        }
        if last == e {
          last := null;
        }
      } else if last == e {
        last := e.prev;
        if last != null {
          last.next := null;
        }
      } else {
        assert e.next == entries[k + 1] && e.prev == entries[k - 1];
        e.next.prev := e.prev;
        e.prev.next := e.next;
      }
      e.next, e.prev := null, null;
      entries, nodes := entries[..k] + entries[k + 1..], nodes - {e};
    }
  }
}
