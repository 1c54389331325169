/** The buffer pools, mailboxes and queues of the kernel (src/gki/common/gki_buffer.cc): intrusive
    singly linked lists through the buffer headers, and one status byte per buffer. */
module Buffers {
  import opened Options
  import opened PoolList

  const MAX_TASKS := 15
  const NUM_TASK_MBOX := 4
  const INVALID_TASK := 0xF0

  datatype Status = FREE | UNLINKED | QUEUED

  /** What a pair of first and last pointers belongs to. */
  datatype Kind = FreeQueue(pool: nat) | TaskMailbox(slot: nat) | UserQueue

  class Buffer {
    const qId: nat
    var next: Buffer?
    var taskId: nat
    var status: Status
    ghost var home: List?  // the list that holds the buffer, null while a caller has it

    constructor (qId: nat)
      ensures this.qId == qId && next == null && status == UNLINKED && home == null
    {
      this.qId := qId;
      next, status, home := null, UNLINKED, null;
    }
  }

  /** A first and a last pointer; user queues also count. */
  class List {
    ghost const kind: Kind
    var first: Buffer?
    var last: Buffer?
    var count: nat

    constructor (ghost kind: Kind)
      ensures this.kind == kind && first == null && last == null && count == 0
    {
      this.kind := kind;
      first, last, count := null, null, 0;
    }
  }

  /** No buffer twice. */
  ghost predicate NoneTwice(s: seq<Buffer>) {
    forall i, j :: 0 <= i < j < |s| ==> s[i] != s[j]
  }

  ghost predicate DistinctLists(s: seq<List>) {
    forall i, j :: 0 <= i < j < |s| ==> s[i] != s[j]
  }

  lemma {:induction false} TakenSize(s: seq<Buffer>, t: set<Buffer>)
    requires NoneTwice(s) && forall b :: b in s ==> b in t
    ensures |s| <= |t|
  {
    if s != [] {
      var n := |s| - 1;
      forall b | b in s[..n]
        ensures b in t - {s[n]}
      {
      }
      TakenSize(s[..n], t - {s[n]});
    }
  }

  class Kernel {
    const free: seq<List>
    const mailbox: seq<List>
    const size: seq<nat>
    const total: seq<nat>
    var curCnt: seq<nat>
    var maxCnt: seq<nat>
    var ready: seq<bool>
    const poolList: seq<nat>
    var restricted: set<nat>
    ghost var lists: map<List, seq<Buffer>>
    ghost var buffers: set<Buffer>

    /** The links of list `l` spell out `lists[l]`, whose buffers call it home. */
    ghost predicate Chained(l: List)
      requires l in lists
      reads this`lists, this`buffers, l`first, l`last, buffers`next, buffers`home
    {
      var s := lists[l];
      && l.first == (if s == [] then null else s[0])
      && (s != [] ==> l.last == s[|s| - 1])
      && NoneTwice(s)
      && (forall i :: 0 <= i < |s| ==> s[i] in buffers && s[i].home == l)
      && (forall i {:trigger s[i].next} :: 0 <= i < |s| ==> s[i].next == if i + 1 < |s| then s[i + 1] else null)
    }

    ghost predicate Homed()
      reads this`lists, this`buffers, buffers`home
    {
      forall b :: b in buffers && b.home != null ==> b.home in lists && b in lists[b.home]
    }

    /** Every buffer is at most in one list, and in that one only once. */
    ghost predicate Linked()
      reads this`lists, this`buffers, lists.Keys`first, lists.Keys`last, buffers`next, buffers`home
    {
      (forall l :: l in lists ==> Chained(l)) && Homed()
    }

    /** At the tail of a list. */
    method Append(l: List, b: Buffer, occupied: bool)
      requires Linked() && l in lists && b in buffers && b.home == null && occupied == (l.first != null)
      modifies this`lists, l`first, l`last, buffers`next, buffers`home
      ensures Linked() && lists == old(lists)[l := old(lists)[l] + [b]]
      ensures b.home == l && l.last == b
      ensures forall c :: c in buffers && c != b ==> c.home == old(c.home)
    {
      LinkLast(l, b, occupied);
      forall k | k in lists && k != l
        ensures Chained(k)
      {
        assert old(Chained(k));
      }
    }

    method LinkLast(l: List, b: Buffer, occupied: bool)
      requires l in lists && Chained(l) && b in buffers && b.home == null && occupied == (l.first != null)
      modifies this`lists, l`first, l`last, buffers`next, b`home
      ensures lists == old(lists)[l := old(lists)[l] + [b]] && Chained(l) && b.home == l && l.last == b
      ensures forall c :: c in buffers && c != b && c.home != l ==> c.next == old(c.next)
    {
      if occupied {
        l.last.next := b;
      } else {
        l.first := b;
      }
      l.last := b;
      b.next := null;
      b.home := l;
      lists := lists[l := lists[l] + [b]];
    }

    /** At the head of a list. */
    method Prepend(l: List, b: Buffer)
      requires Linked() && l in lists && b in buffers && b.home == null
      modifies this`lists, l`first, l`last, buffers`next, buffers`home
      ensures Linked() && lists == old(lists)[l := [b] + old(lists)[l]]
      ensures b.home == l && forall c :: c in buffers && c != b ==> c.home == old(c.home)
    {
      LinkFirst(l, b);
      forall k | k in lists && k != l
        ensures Chained(k)
      {
        assert old(Chained(k));
      }
    }

    method LinkFirst(l: List, b: Buffer)
      requires l in lists && Chained(l) && b in buffers && b.home == null
      modifies this`lists, l`first, l`last, b`next, b`home
      ensures lists == old(lists)[l := [b] + old(lists)[l]] && Chained(l) && b.home == l
    {
      if l.first != null {
        b.next := l.first;
        l.first := b;
      } else {
        l.first, l.last := b, b;
        b.next := null;
      }
      b.home := l;
      lists := lists[l := [b] + lists[l]];
    }

    /** Takes the first buffer off a list. */
    method TakeFirst(l: List) returns (b: Buffer)
      requires Linked() && l in lists && lists[l] != []
      modifies this`lists, l`first, buffers`next, buffers`home
      ensures Linked() && b == old(lists)[l][0] && lists == old(lists)[l := old(lists)[l][1..]]
      ensures b in buffers && b.home == null && b.next == null
      ensures forall c :: c in buffers && c != b ==> c.home == old(c.home)
    {
      b := l.first;
      assert Chained(l) && b == lists[l][0];
      UnlinkFirst(l, b);
      forall k | k in lists && k != l
        ensures Chained(k)
      {
        assert old(Chained(k));
      }
    }

    method UnlinkFirst(l: List, b: Buffer)
      requires l in lists && Chained(l) && lists[l] != [] && b == lists[l][0]
      modifies this`lists, l`first, b`next, b`home
      ensures lists == old(lists)[l := old(lists)[l][1..]] && Chained(l)
      ensures b.home == null && b.next == null
    {
      l.first := b.next;
      b.next := null;
      b.home := null;
      lists := lists[l := lists[l][1..]];
    }

    /** Takes `b`, which follows `prev`, out of the middle or the end of a list. */
    method TakeAfter(l: List, prev: Buffer, b: Buffer, ghost i: nat, ghost s: seq<Buffer>)
      requires Linked() && l in lists && i + 1 < |lists[l]| && lists[l][i] == prev && lists[l][i + 1] == b
      requires s == lists[l][..i + 1] + lists[l][i + 2..]
      modifies this`lists, l`last, buffers`next, buffers`home
      ensures Linked() && lists == old(lists)[l := s]
      ensures b in buffers && b.home == null && b.next == null
      ensures forall c :: c in buffers && c != b ==> c.home == old(c.home)
    {
      UnlinkAfter(l, prev, b, i);
      forall k | k in lists && k != l
        ensures Chained(k)
      {
        assert old(Chained(k));
      }
    }

    method UnlinkAfter(l: List, prev: Buffer, b: Buffer, ghost i: nat)
      requires l in lists && Chained(l) && i + 1 < |lists[l]| && lists[l][i] == prev && lists[l][i + 1] == b
      modifies this`lists, l`last, prev`next, b`next, b`home
      ensures lists == old(lists)[l := old(lists)[l][..i + 1] + old(lists)[l][i + 2..]] && Chained(l)
      ensures b.home == null && b.next == null
    {
      prev.next := b.next;
      if b == l.last {
        l.last := prev;
      }
      b.next := null;
      b.home := null;
      lists := lists[l := lists[l][..i + 1] + lists[l][i + 2..]];
    }

    // ---- the kernel's invariant ---------------------------------------------------------------

    ghost predicate Layout(lists: set<List>) {
      && |free| == |size| == |total| == NUM_POOLS && |mailbox| == MAX_TASKS * NUM_TASK_MBOX
      && (forall p :: 0 <= p < NUM_POOLS ==> free[p] in lists && free[p].kind == FreeQueue(p))
      && (forall k :: 0 <= k < |mailbox| ==> mailbox[k] in lists && mailbox[k].kind == TaskMailbox(k))
      && (forall l :: l in lists && l.kind.FreeQueue? ==> l.kind.pool < NUM_POOLS && l == free[l.kind.pool])
    }

    /** The status byte says where the buffer is. */
    ghost predicate Told(b: Buffer)
      reads b`status, b`home
    {
      && b.qId < NUM_POOLS
      && (b.status == UNLINKED <==> b.home == null)
      && (b.status == FREE <==> b.home != null && b.home.kind.FreeQueue?)
      && (b.home != null && b.home.kind.FreeQueue? ==> b.home.kind.pool == b.qId)
    }

    ghost predicate StatusOk()
      reads this`buffers, buffers`status, buffers`home
    {
      forall b :: b in buffers ==> Told(b)
    }

    ghost function PoolBuffers(all: set<Buffer>, p: nat): set<Buffer> {
      set b | b in all && b.qId == p
    }

    /** What is free and what is taken adds up to the pool. */
    ghost predicate CountOk(p: nat, lists: map<List, seq<Buffer>>, all: set<Buffer>, cur: seq<nat>, max: seq<nat>) {
      && p < |free| && p < |total| && p < |cur| && p < |max| && free[p] in lists
      && |lists[free[p]]| + cur[p] == total[p] == |PoolBuffers(all, p)|
      && cur[p] <= max[p]
    }

    ghost predicate CountsOk(lists: map<List, seq<Buffer>>, all: set<Buffer>, cur: seq<nat>, max: seq<nat>) {
      forall p: nat :: p < NUM_POOLS ==> CountOk(p, lists, all, cur, max)
    }

    /** Free queues and user queues reset their last pointer; user queues count. */
    ghost predicate EndOk(l: List)
      requires l in lists
      reads this`lists, l`last, l`count
    {
      && (!l.kind.TaskMailbox? && lists[l] == [] ==> l.last == null)
      && (l.kind.UserQueue? ==> l.count == |lists[l]|)
    }

    ghost predicate EndsOk()
      reads this`lists, lists.Keys`last, lists.Keys`count
    {
      forall l :: l in lists ==> EndOk(l)
    }

    ghost predicate EndsExcept(x: List)
      reads this`lists, (lists.Keys - {x})`last, (lists.Keys - {x})`count
    {
      forall l :: l in lists.Keys - {x} ==> EndOk(l)
    }

    /** The links, the status bytes and the list heads agree with `lists`. */
    ghost predicate Sound()
      reads this`lists, this`buffers, lists.Keys`first, lists.Keys`last, lists.Keys`count
      reads buffers`next, buffers`home, buffers`status
    {
      Linked() && Layout(lists.Keys) && StatusOk() && EndsOk()
    }

    /** The same while the head of `l` is being brought up to date. */
    ghost predicate SoundBut(l: List)
      reads this`lists, this`buffers, lists.Keys`first, lists.Keys`last, (lists.Keys - {l})`count
      reads buffers`next, buffers`home, buffers`status
    {
      Linked() && Layout(lists.Keys) && StatusOk() && EndsExcept(l)
    }

    /** The tables have their sizes. */
    ghost predicate Shape(cnt: seq<nat>, max: seq<nat>)
      reads this`ready
    {
      && |cnt| == |max| == NUM_POOLS && |ready| == MAX_TASKS && |mailbox| == MAX_TASKS * NUM_TASK_MBOX
      && Listed(poolList, size, total, cnt)
    }

    ghost predicate Valid()
      reads this, lists.Keys, buffers`next, buffers`home, buffers`status
    {
      Sound() && Shape(curCnt, maxCnt) && CountsOk(lists, buffers, curCnt, maxCnt)
    }

    /** A buffer in a caller's hands is one of those its pool counts as taken. */
    lemma TakenIsCounted(b: Buffer)
      requires Valid() && b in buffers && b.status != FREE
      ensures Told(b) && 0 < curCnt[b.qId]
    {
      var l := free[b.qId];
      assert Told(b) && CountOk(b.qId, lists, buffers, curCnt, maxCnt) && Chained(l);
      forall c | c in lists[l]
        ensures c in PoolBuffers(buffers, b.qId) - {b}
      {
        assert Told(c);
      }
      TakenSize(lists[l], PoolBuffers(buffers, b.qId) - {b});
    }

    /** Pool `p` gains or loses one free buffer, and counts one less or more as taken. */
    lemma CountMoves(p: nat, s: seq<Buffer>, n: nat, lists: map<List, seq<Buffer>>, all: set<Buffer>,
                     cur: seq<nat>, max: seq<nat>, max': seq<nat>)
      requires DistinctLists(free) && p < |free| == |cur| == |max| == |max'| == NUM_POOLS
      requires CountsOk(lists, all, cur, max)
      requires free[p] in lists && |s| + n == |lists[free[p]]| + cur[p] && n <= max'[p]
      requires forall q: nat :: q < NUM_POOLS && q != p ==> max'[q] == max[q]
      ensures CountsOk(lists[free[p] := s], all, cur[p := n], max')
    {
      var lists', cur' := lists[free[p] := s], cur[p := n];
      forall q: nat | q < NUM_POOLS
        ensures CountOk(q, lists', all, cur', max')
      {
        assert CountOk(q, lists, all, cur, max) && CountOk(p, lists, all, cur, max);
      }
    }

    lemma FreeDistinct()
      requires Layout(lists.Keys)
      ensures DistinctLists(free)
    {
      forall i, j | 0 <= i < j < |free|
        ensures free[i] != free[j]
      {
        assert free[i].kind == FreeQueue(i) && free[j].kind == FreeQueue(j);
      }
    }

    /** Another list than a free queue changes; the pools' counts do not notice. */
    lemma CountsStay(l: List, s: seq<Buffer>)
      requires Valid() && l in lists && !l.kind.FreeQueue?
      ensures CountsOk(lists[l := s], buffers, curCnt, maxCnt)
    {
      var lists' := lists[l := s];
      forall p: nat | p < NUM_POOLS
        ensures CountOk(p, lists', buffers, curCnt, maxCnt)
      {
        assert CountOk(p, lists, buffers, curCnt, maxCnt);
        assert free[p].kind == FreeQueue(p);
      }
    }

    // ---- entering and leaving a list ----------------------------------------------------------

    ghost predicate Fits(b: Buffer, l: List, status: Status) {
      && b.qId < NUM_POOLS && (status == FREE <==> l.kind.FreeQueue?) && status != UNLINKED
      && (l.kind.FreeQueue? ==> l.kind.pool == b.qId)
    }

    /** Appends `b`; the other buffers keep their places, so their status bytes stay right. */
    method Enter(l: List, b: Buffer, status: Status, occupied: bool)
      requires Sound() && l in lists && b in buffers && b.home == null && Fits(b, l, status)
      requires occupied == (l.first != null)
      modifies this`lists, l`first, l`last, buffers`next, buffers`home, b`status
      ensures SoundBut(l) && (!l.kind.UserQueue? ==> Sound())
      ensures lists == old(lists)[l := old(lists)[l] + [b]] && lists.Keys == old(lists).Keys
      ensures b.home == l && l.last == b && b.status == status
    {
      hide Linked;
      Append(l, b, occupied);
      b.status := status;
      forall c | c in buffers - {b}
        ensures Told(c)
      {
        assert old(Told(c));
      }
      forall k | k in lists.Keys - {l}
        ensures EndOk(k)
      {
        assert old(EndOk(k));
      }
    }

    /** Puts `b` at the head. */
    method EnterFirst(l: List, b: Buffer, status: Status)
      requires Sound() && l in lists && b in buffers && b.home == null && Fits(b, l, status)
      modifies this`lists, l`first, l`last, buffers`next, buffers`home, b`status
      ensures SoundBut(l)
      ensures lists == old(lists)[l := [b] + old(lists)[l]] && lists.Keys == old(lists).Keys
      ensures b.home == l && b.status == status
    {
      hide Linked;
      Prepend(l, b);
      b.status := status;
      forall c | c in buffers - {b}
        ensures Told(c)
      {
        assert old(Told(c));
      }
      forall k | k in lists.Keys - {l}
        ensures EndOk(k)
      {
        assert old(EndOk(k));
      }
    }

    /** Takes the head off; all but the mailboxes then reset the pointer to the last buffer. */
    method Leave(l: List, reset: bool) returns (b: Buffer)
      requires Sound() && l in lists && lists[l] != [] && reset == !l.kind.TaskMailbox?
      modifies this`lists, l`first, l`last, buffers`next, buffers`home, buffers`status
      ensures SoundBut(l) && (!l.kind.UserQueue? ==> Sound())
      ensures lists == old(lists)[l := old(lists)[l][1..]] && lists.Keys == old(lists).Keys
      ensures lists[l] == [] ==> l.last == null || l.kind.TaskMailbox?
      ensures b == old(lists)[l][0] && b in buffers && b.home == null && b.next == null && b.status == UNLINKED
    {
      assert l in lists.Keys;
      b := LeaveFirst(l);
      hide Linked, Layout, StatusOk, EndsExcept;
      ResetLast(l, reset);
      assert !l.kind.UserQueue? ==> EndOk(l);
    }

    method LeaveFirst(l: List) returns (b: Buffer)
      requires Sound() && l in lists && lists[l] != []
      modifies this`lists, l`first, buffers`next, buffers`home, buffers`status
      ensures SoundBut(l)
      ensures lists == old(lists)[l := old(lists)[l][1..]] && lists.Keys == old(lists).Keys
      ensures b == old(lists)[l][0] && b in buffers && b.home == null && b.next == null && b.status == UNLINKED
    {
      hide Linked;
      assert StatusOk() && EndsOk();
      b := TakeFirst(l);
      b.status := UNLINKED;
      forall c | c in buffers
        ensures Told(c)
      {
        assert old(Told(c));
      }
      forall k | k in lists.Keys - {l}
        ensures EndOk(k)
      {
        assert old(EndOk(k));
      }
    }

    method ResetLast(l: List, reset: bool)
      requires SoundBut(l) && l in lists
      modifies l`last
      ensures SoundBut(l) && l.last == if reset && lists[l] == [] then null else old(l.last)
    {
      assert Chained(l);
      if reset && l.first == null {
        l.last := null;
        hide Layout, StatusOk, EndOk;
        forall k | k in lists && k != l
          ensures Chained(k)
        {
          assert old(Chained(k));
        }
        forall k | k in lists.Keys - {l}
          ensures EndOk(k)
        {
          assert old(EndOk(k));
        }
      }
    }

    /** Returns a buffer to the tail of its free queue; a buffer that is free or linked already stays
        where it is. */
    method Freebuf(b: Buffer)
      requires Valid() && b in buffers
      modifies this`lists, this`curCnt, free, buffers`next, buffers`home, b`status, b`taskId
      ensures Valid()
      ensures old(b.status) != UNLINKED ==>
                lists == old(lists) && b.status == old(b.status) && curCnt == old(curCnt)
      ensures old(b.status) == UNLINKED ==> Freed(b, old(lists), old(curCnt))
    {
      if b.status != UNLINKED {
        return;
      }
      Release(b);
    }

    ghost predicate Freed(b: Buffer, lists0: map<List, seq<Buffer>>, cnt0: seq<nat>)
      reads this, b
    {
      && b.qId < |free| && b.qId < |cnt0| && free[b.qId] in lists0
      && lists == lists0[free[b.qId] := lists0[free[b.qId]] + [b]]
      && b.status == FREE && 0 < cnt0[b.qId] && curCnt == cnt0[b.qId := cnt0[b.qId] - 1]
    }

    /** The pool of `b` gets a free buffer more and counts one less as taken. */
    lemma CountsReleased(b: Buffer)
      requires Valid() && b in buffers && b.status == UNLINKED
      ensures b.qId < NUM_POOLS == |free| == |curCnt| && 0 < curCnt[b.qId] && b.home == null
      ensures free[b.qId] in lists && free[b.qId].kind == FreeQueue(b.qId)
      ensures free[b.qId].first == null <==> free[b.qId].last == null
      ensures CountsOk(lists[free[b.qId] := lists[free[b.qId]] + [b]], buffers,
                       curCnt[b.qId := curCnt[b.qId] - 1], maxCnt)
    {
      TakenIsCounted(b);
      FreeDistinct();
      var l := free[b.qId];
      assert Chained(l) && EndOk(l);
      hide Linked, EndsOk;
      assert CountOk(b.qId, lists, buffers, curCnt, maxCnt);
      CountMoves(b.qId, lists[l] + [b], curCnt[b.qId] - 1, lists, buffers, curCnt, maxCnt, maxCnt);
    }

    method Release(b: Buffer)
      requires Valid() && b in buffers && b.status == UNLINKED
      modifies this`lists, this`curCnt, free, buffers`next, buffers`home, b`status, b`taskId
      ensures Valid() && Freed(b, old(lists), old(curCnt))
    {
      CountsReleased(b);
      hide Sound, CountsOk, Layout;
      var p, n := b.qId, curCnt[b.qId];
      PutLast(free[p], b, FREE, INVALID_TASK, free[p].last != null, curCnt[p := if n > 0 then n - 1 else n]);
    }

    method PutLast(l: List, b: Buffer, status: Status, task: nat, occupied: bool, cnt: seq<nat>)
      requires Sound() && l in lists && !l.kind.UserQueue? && b in buffers && b.home == null && Fits(b, l, status)
      requires occupied == (l.first != null) && Shape(cnt, maxCnt)
      requires CountsOk(lists[l := lists[l] + [b]], buffers, cnt, maxCnt)
      modifies this`lists, this`curCnt, l`first, l`last, buffers`next, buffers`home, b`status, b`taskId
      ensures Valid() && lists == old(lists)[l := old(lists)[l] + [b]] && curCnt == cnt
      ensures b.status == status && b.taskId == task
    {
      hide Sound, SoundBut, CountsOk, Shape;
      Enter(l, b, status, occupied);
      b.taskId, curCnt := task, cnt;
    }

    // ---- getting a buffer ------------------------------------------------------------------------

    /** The first free buffer of pool `p` has been taken. */
    ghost predicate Taken(b: Buffer, p: nat, lists0: map<List, seq<Buffer>>, cnt0: seq<nat>, max0: seq<nat>,
                          lists1: map<List, seq<Buffer>>, cnt1: seq<nat>, max1: seq<nat>)
    {
      && p < |free| && p < |cnt0| && p < |max0| && free[p] in lists0 && lists0[free[p]] != []
      && b == lists0[free[p]][0] && b.qId == p && lists1 == lists0[free[p] := lists0[free[p]][1..]]
      && cnt1 == cnt0[p := cnt0[p] + 1]
      && max1 == max0[p := if cnt1[p] <= max0[p] then max0[p] else cnt1[p]]
    }

    ghost predicate Handed(b: Buffer, task: nat)
      reads b
    {
      b.status == UNLINKED && b.next == null && b.taskId == task
    }

    static function Max(a: nat, b: nat): nat {
      if a < b then b else a
    }

    /** A pool that counts fewer buffers as taken than it has holds a free one: its memory never has to
        be allocated late. */
    lemma CountsTaken(p: nat)
      requires Valid() && p < NUM_POOLS && curCnt[p] < total[p]
      ensures |free| == NUM_POOLS && free[p] in lists && free[p].kind == FreeQueue(p) && lists[free[p]] != []
      ensures free[p].first != null && free[p].first == lists[free[p]][0] && free[p].first.qId == p
      ensures CountsOk(lists[free[p] := lists[free[p]][1..]], buffers, curCnt[p := curCnt[p] + 1],
                       maxCnt[p := Max(maxCnt[p], curCnt[p] + 1)])
    {
      FreeDistinct();
      assert Chained(free[p]) && CountOk(p, lists, buffers, curCnt, maxCnt);
      assert Told(lists[free[p]][0]);
      hide Linked, EndsOk;
      CountMoves(p, lists[free[p]][1..], curCnt[p] + 1, lists, buffers, curCnt, maxCnt,
                 maxCnt[p := Max(maxCnt[p], curCnt[p] + 1)]);
    }

    method TakeFree(p: nat, task: nat) returns (b: Buffer)
      requires Valid() && p < NUM_POOLS && curCnt[p] < total[p]
      modifies this`lists, this`curCnt, this`maxCnt, free, buffers`next, buffers`home, buffers`status, buffers`taskId
      ensures Valid() && b in buffers && Handed(b, task)
      ensures Taken(b, p, old(lists), old(curCnt), old(maxCnt), lists, curCnt, maxCnt)
    {
      CountsTaken(p);
      assert free[p].first != null;
      hide Sound, CountsOk, Layout;
      var n := curCnt[p] + 1;
      b := TakeOff(free[p], true, curCnt[p := n], maxCnt[p := Max(maxCnt[p], n)], Some(task));
    }

    method TakeOff(l: List, reset: bool, cnt: seq<nat>, max: seq<nat>, owner: Option<nat>) returns (b: Buffer)
      requires Sound() && l in lists && lists[l] != [] && !l.kind.UserQueue? && reset == !l.kind.TaskMailbox?
      requires Shape(cnt, max) && CountsOk(lists[l := lists[l][1..]], buffers, cnt, max)
      modifies this`lists, this`curCnt, this`maxCnt, l`first, l`last
      modifies buffers`next, buffers`home, buffers`status, buffers`taskId
      ensures Valid() && b in buffers && b == old(lists)[l][0] && lists == old(lists)[l := old(lists)[l][1..]]
      ensures b.status == UNLINKED && b.next == null && curCnt == cnt && maxCnt == max
      ensures b.taskId == if owner.Some? then owner.value else old(b.taskId)
    {
      hide Sound, SoundBut, CountsOk, Shape;
      b := Leave(l, reset);
      if owner.Some? {
        b.taskId := owner.value;
      }
      curCnt, maxCnt := cnt, max;
    }

    /** A free buffer of the first public pool with one left, from the first large enough. */
    method Getbuf(request: nat, task: nat) returns (b: Buffer?)
      requires Valid()
      modifies this`lists, this`curCnt, this`maxCnt, free, buffers`next, buffers`home, buffers`status, buffers`taskId
      ensures Valid() && Listed(poolList, size, total, old(curCnt))
      ensures var r := if request == 0 then None else Choose(poolList, size, total, old(curCnt), restricted, request);
              match r
              case None => b == null && lists == old(lists) && curCnt == old(curCnt) && maxCnt == old(maxCnt)
              case Some(p) =>
                b != null && Handed(b, task) && Taken(b, p, old(lists), old(curCnt), old(maxCnt), lists, curCnt, maxCnt)
      ensures b != null && Ascending(poolList, size, Exempt(total, restricted)) ==>
                b.qId !in restricted && b.qId < |size| && request <= size[b.qId]
    {
      hide Sound, CountsOk, Ascending;
      if request == 0 {
        return null;
      }
      if Ascending(poolList, size, Exempt(total, restricted)) {
        ChoiceIsBestFit(poolList, size, total, curCnt, restricted, request);
      }
      var r := Search(request);
      if r == None {
        return null;
      }
      b := TakeFree(r.value, task);
    }

    method Search(request: nat) returns (r: Option<nat>)
      requires Listed(poolList, size, total, curCnt)
      ensures r == Choose(poolList, size, total, curCnt, restricted, request)
    {
      var i := 0;
      while i < |poolList| && request > size[poolList[i]]
        invariant i <= |poolList|
        invariant FirstLargeEnough(poolList, size, request, i) == FirstLargeEnough(poolList, size, request, 0)
      {
        i := i + 1;
      }
      while i < |poolList| && (poolList[i] in restricted || curCnt[poolList[i]] >= total[poolList[i]])
        invariant i <= |poolList|
        invariant FirstAvailable(poolList, total, curCnt, restricted, i) ==
                  Choose(poolList, size, total, curCnt, restricted, request)
      {
        i := i + 1;
      }
      r := if i == |poolList| then None else Some(poolList[i]);
    }

    /** A buffer of the pool, or else of the public ones that hold as much. */
    method Getpoolbuf(pool: nat, task: nat) returns (b: Buffer?)
      requires Valid()
      modifies this`lists, this`curCnt, this`maxCnt, free, buffers`next, buffers`home, buffers`status, buffers`taskId
      ensures Valid() && Listed(poolList, size, total, old(curCnt)) && |size| == NUM_POOLS
      ensures var r := if pool >= NUM_POOLS then None
                       else if old(curCnt)[pool] < total[pool] then Some(pool)
                       else if size[pool] == 0 then None
                       else Choose(poolList, size, total, old(curCnt), restricted, size[pool]);
              match r
              case None => b == null && lists == old(lists) && curCnt == old(curCnt) && maxCnt == old(maxCnt)
              case Some(p) =>
                b != null && Handed(b, task) && Taken(b, p, old(lists), old(curCnt), old(maxCnt), lists, curCnt, maxCnt)
      ensures b != null && Ascending(poolList, size, Exempt(total, restricted)) ==>
                && pool < NUM_POOLS && b.qId < NUM_POOLS && size[pool] <= size[b.qId]
                && (b.qId == pool || b.qId !in restricted)
    {
      hide Sound, CountsOk, Choose, Ascending;
      if pool >= NUM_POOLS {
        return null;
      }
      if curCnt[pool] < total[pool] {
        b := TakeFree(pool, task);
        return;
      }
      b := Getbuf(size[pool], task);
    }

    // ---- mailboxes ---------------------------------------------------------------------------------

    /** Nothing but `l` changes, and of that only the contents. */
    ghost predicate Only(l: List, s: seq<Buffer>, lists0: map<List, seq<Buffer>>, cnt0: seq<nat>)
      reads this
    {
      lists == lists0[l := s] && curCnt == cnt0
    }

    /** Sends `b` to mailbox `mbox` of task `dest` and tells whether the task's event is to be set; to a
        task that cannot get it, the buffer is freed instead, and a linked buffer stays where it is. */
    method SendMsg(dest: nat, mbox: nat, b: Buffer) returns (signal: bool)
      requires Valid() && b in buffers
      modifies this`lists, this`curCnt, free, mailbox, buffers`next, buffers`home, b`status, b`taskId
      ensures Valid() && |mailbox| == MAX_TASKS * NUM_TASK_MBOX && |ready| == MAX_TASKS
      ensures signal == (dest < MAX_TASKS && mbox < NUM_TASK_MBOX && ready[dest] && old(b.status) == UNLINKED)
      ensures old(b.status) != UNLINKED ==>
                lists == old(lists) && b.status == old(b.status) && curCnt == old(curCnt)
      ensures signal ==>
                && var l := mailbox[dest * NUM_TASK_MBOX + mbox];
                && l in old(lists) && Only(l, old(lists)[l] + [b], old(lists), old(curCnt))
                && b.status == QUEUED && b.taskId == dest
      ensures old(b.status) == UNLINKED && !signal ==> Freed(b, old(lists), old(curCnt))
    {
      hide Sound, CountsOk, Freed;
      if dest >= MAX_TASKS || mbox >= NUM_TASK_MBOX || !ready[dest] {
        Freebuf(b);
        return false;
      }
      if b.status != UNLINKED {
        return false;
      }
      Deliver(dest, dest * NUM_TASK_MBOX + mbox, b);
      return true;
    }

    /** A buffer that says it is unlinked is in no list. */
    lemma Loose(b: Buffer)
      requires Valid() && b in buffers && b.status == UNLINKED
      ensures b.home == null && b.qId < NUM_POOLS
    {
      assert Told(b);
    }

    lemma MailboxIs(k: nat)
      requires Valid() && k < MAX_TASKS * NUM_TASK_MBOX
      ensures |mailbox| == MAX_TASKS * NUM_TASK_MBOX && mailbox[k] in lists && mailbox[k].kind == TaskMailbox(k)
      ensures mailbox[k].first == null <==> lists[mailbox[k]] == []
    {
      assert Chained(mailbox[k]);
    }

    method Deliver(dest: nat, k: nat, b: Buffer)
      requires Valid() && b in buffers && b.status == UNLINKED && k < MAX_TASKS * NUM_TASK_MBOX
      modifies this`lists, this`curCnt, mailbox, buffers`next, buffers`home, b`status, b`taskId
      ensures Valid() && |mailbox| == MAX_TASKS * NUM_TASK_MBOX && mailbox[k] in old(lists)
      ensures Only(mailbox[k], old(lists)[mailbox[k]] + [b], old(lists), old(curCnt))
      ensures b.status == QUEUED && b.taskId == dest
    {
      MailboxIs(k);
      Loose(b);
      CountsStay(mailbox[k], lists[mailbox[k]] + [b]);
      hide Sound, CountsOk;
      PutLast(mailbox[k], b, QUEUED, dest, mailbox[k].first != null, curCnt);
    }

    /** The calling task reads one of its mailboxes. */
    method ReadMbox(task: nat, mbox: nat) returns (b: Buffer?)
      requires Valid()
      modifies this`lists, this`curCnt, this`maxCnt, mailbox, buffers`next, buffers`home, buffers`status, buffers`taskId
      ensures Valid() && |mailbox| == MAX_TASKS * NUM_TASK_MBOX && curCnt == old(curCnt)
      ensures b == null ==> lists == old(lists)
      ensures task >= MAX_TASKS || mbox >= NUM_TASK_MBOX ==> b == null
      ensures task < MAX_TASKS && mbox < NUM_TASK_MBOX ==>
                var l := mailbox[task * NUM_TASK_MBOX + mbox];
                && l in old(lists) && (b == null <==> old(lists)[l] == [])
                && (b != null ==> b == old(lists)[l][0] && b.status == UNLINKED && b.next == null
                                  && lists == old(lists)[l := old(lists)[l][1..]])
    {
      hide Sound, CountsOk;
      if task >= MAX_TASKS || mbox >= NUM_TASK_MBOX {
        return null;
      }
      var k := task * NUM_TASK_MBOX + mbox;
      MailboxIs(k);
      if mailbox[k].first == null {
        return null;
      }
      b := Fetch(k);
    }

    method Fetch(k: nat) returns (b: Buffer)
      requires Valid() && k < MAX_TASKS * NUM_TASK_MBOX == |mailbox| && mailbox[k] in lists && lists[mailbox[k]] != []
      modifies this`lists, this`curCnt, this`maxCnt, mailbox, buffers`next, buffers`home, buffers`status, buffers`taskId
      ensures Valid() && b == old(lists)[mailbox[k]][0] && b.status == UNLINKED && b.next == null
      ensures Only(mailbox[k], old(lists)[mailbox[k]][1..], old(lists), old(curCnt))
    {
      MailboxIs(k);
      CountsStay(mailbox[k], lists[mailbox[k]][1..]);
      hide Sound, CountsOk;
      b := TakeOff(mailbox[k], false, curCnt, maxCnt, None);
    }

    // ---- the queues of the callers ------------------------------------------------------------------

    lemma SoundAgain(q: List)
      requires SoundBut(q) && q in lists && EndOk(q)
      ensures Sound()
    {
      hide Linked, Layout, StatusOk;
      forall k | k in lists
        ensures EndOk(k)
      {
        assert k == q || k in lists.Keys - {q};
      }
    }

    /** A queue counts its buffers. */
    lemma QueueIs(q: List)
      requires Valid() && q in lists && q.kind.UserQueue?
      ensures q.count == |lists[q]| && (q.first == null <==> lists[q] == []) && (lists[q] == [] ==> q.last == null)
    {
      assert Chained(q) && EndOk(q);
    }

    /** A new queue, empty. */
    method InitQueue() returns (q: List)
      requires Valid()
      modifies this`lists
      ensures Valid() && fresh(q) && q.kind == UserQueue && lists == old(lists)[q := []] && curCnt == old(curCnt)
    {
      q := new List(UserQueue);
      CountsWithQueue(q);
      hide CountsOk;
      AddList(q);
    }

    lemma CountsWithQueue(q: List)
      requires CountsOk(lists, buffers, curCnt, maxCnt) && q !in lists
      ensures CountsOk(lists[q := []], buffers, curCnt, maxCnt)
    {
      var lists' := lists[q := []];
      forall p: nat | p < NUM_POOLS
        ensures CountOk(p, lists', buffers, curCnt, maxCnt)
      {
        assert CountOk(p, lists, buffers, curCnt, maxCnt);
      }
    }

    method AddList(q: List)
      requires Sound() && q !in lists && q.kind == UserQueue && q.first == null && q.last == null && q.count == 0
      modifies this`lists
      ensures Sound() && lists == old(lists)[q := []]
    {
      lists := lists[q := []];
      assert Layout(lists.Keys);
      forall k | k in lists
        ensures Chained(k) && EndOk(k)
      {
        assert k != q ==> old(Chained(k)) && old(EndOk(k));
      }
    }

    /** Adds `b` at the tail of a queue, unless it is free or linked already. */
    method Enqueue(q: List, b: Buffer)
      requires Valid() && q in lists && q.kind.UserQueue? && b in buffers
      modifies this`lists, q`first, q`last, q`count, buffers`next, buffers`home, b`status
      ensures Valid()
      ensures if old(b.status) == UNLINKED then
                Only(q, old(lists)[q] + [b], old(lists), old(curCnt)) && b.status == QUEUED
              else lists == old(lists) && b.status == old(b.status)
    {
      if b.status == UNLINKED {
        JoinLast(q, b);
      }
    }

    method JoinLast(q: List, b: Buffer)
      requires Valid() && q in lists && q.kind.UserQueue? && b in buffers && b.status == UNLINKED
      modifies this`lists, q`first, q`last, q`count, buffers`next, buffers`home, b`status
      ensures Valid() && Only(q, old(lists)[q] + [b], old(lists), old(curCnt)) && b.status == QUEUED
    {
      Loose(b);
      QueueIs(q);
      CountsStay(q, lists[q] + [b]);
      hide Sound, CountsOk;
      LinkIn(q, b);
    }

    method LinkIn(q: List, b: Buffer)
      requires Sound() && q in lists && q.kind.UserQueue? && q.count == |lists[q]|
      requires b in buffers && b.home == null && b.qId < NUM_POOLS
      modifies this`lists, q`first, q`last, q`count, buffers`next, buffers`home, b`status
      ensures Sound() && lists == old(lists)[q := old(lists)[q] + [b]] && b.status == QUEUED
    {
      hide Sound, SoundBut;
      Enter(q, b, QUEUED, q.first != null);
      q.count := q.count + 1;
      SoundAgain(q);
    }

    /** Adds `b` at the head of a queue, unless it is free or linked already. */
    method EnqueueHead(q: List, b: Buffer)
      requires Valid() && q in lists && q.kind.UserQueue? && b in buffers
      modifies this`lists, q`first, q`last, q`count, buffers`next, buffers`home, b`status
      ensures Valid()
      ensures if old(b.status) == UNLINKED then
                Only(q, [b] + old(lists)[q], old(lists), old(curCnt)) && b.status == QUEUED
              else lists == old(lists) && b.status == old(b.status)
    {
      if b.status == UNLINKED {
        JoinFirst(q, b);
      }
    }

    method JoinFirst(q: List, b: Buffer)
      requires Valid() && q in lists && q.kind.UserQueue? && b in buffers && b.status == UNLINKED
      modifies this`lists, q`first, q`last, q`count, buffers`next, buffers`home, b`status
      ensures Valid() && Only(q, [b] + old(lists)[q], old(lists), old(curCnt)) && b.status == QUEUED
    {
      Loose(b);
      QueueIs(q);
      CountsStay(q, [b] + lists[q]);
      hide Sound, CountsOk;
      LinkInFirst(q, b);
    }

    method LinkInFirst(q: List, b: Buffer)
      requires Sound() && q in lists && q.kind.UserQueue? && q.count == |lists[q]|
      requires lists[q] == [] ==> q.last == null
      requires b in buffers && b.home == null && b.qId < NUM_POOLS
      modifies this`lists, q`first, q`last, q`count, buffers`next, buffers`home, b`status
      ensures Sound() && lists == old(lists)[q := [b] + old(lists)[q]] && b.status == QUEUED
    {
      hide Sound, SoundBut;
      EnterFirst(q, b, QUEUED);
      q.count := q.count + 1;
      SoundAgain(q);
    }

    /** Takes the head of a queue, if it has one. */
    method Dequeue(q: List) returns (b: Buffer?)
      requires Valid() && q in lists && q.kind.UserQueue?
      modifies this`lists, q`first, q`last, q`count, buffers`next, buffers`home, buffers`status
      ensures Valid() && (b == null <==> old(lists)[q] == []) && (b == null ==> lists == old(lists))
      ensures b != null ==> b == old(lists)[q][0] && b.status == UNLINKED && b.next == null
                            && Only(q, old(lists)[q][1..], old(lists), old(curCnt))
    {
      QueueIs(q);
      if q.count == 0 {
        return null;
      }
      b := LeaveQueue(q);
    }

    method LeaveQueue(q: List) returns (b: Buffer)
      requires Valid() && q in lists && q.kind.UserQueue? && lists[q] != []
      modifies this`lists, q`first, q`last, q`count, buffers`next, buffers`home, buffers`status
      ensures Valid() && b == old(lists)[q][0] && b.status == UNLINKED && b.next == null
      ensures Only(q, old(lists)[q][1..], old(lists), old(curCnt))
    {
      QueueIs(q);
      CountsStay(q, lists[q][1..]);
      hide Sound, CountsOk;
      b := LinkOut(q);
    }

    method LinkOut(q: List) returns (b: Buffer)
      requires Sound() && q in lists && q.kind.UserQueue? && lists[q] != [] && q.count == |lists[q]|
      modifies this`lists, q`first, q`last, q`count, buffers`next, buffers`home, buffers`status
      ensures Sound() && lists == old(lists)[q := old(lists)[q][1..]]
      ensures b == old(lists)[q][0] && b.status == UNLINKED && b.next == null
    {
      hide Sound, SoundBut;
      b := Leave(q, true);
      q.count := q.count - 1;
      SoundAgain(q);
    }

    static ghost function Without(s: seq<Buffer>, b: Buffer): seq<Buffer>
      requires b in s
    {
      if s[0] == b then s[1..] else [s[0]] + Without(s[1..], b)
    }

    static lemma {:induction false} WithoutIs(s: seq<Buffer>, i: nat)
      requires NoneTwice(s) && i < |s|
      ensures Without(s, s[i]) == s[..i] + s[i + 1..]
    {
      if i > 0 {
        WithoutIs(s[1..], i - 1);
        assert s[1..][i - 1] == s[i] != s[0];
      }
    }

    /** Takes `b` out of a queue, wherever it is. In an empty queue the search starts in front of the null pointer,
        which is a fault. */
    method RemoveFromQueue(q: List, b: Buffer) returns (r: Buffer?, fault: bool)
      requires Valid() && q in lists && q.kind.UserQueue? && b in buffers
      modifies this`lists, q`first, q`last, q`count, buffers`next, buffers`home, buffers`status
      ensures Valid() && (fault <==> old(lists)[q] == [])
      ensures if b in old(lists)[q] then r == b && b.status == UNLINKED && b.next == null
                                         && Only(q, Without(old(lists)[q], b), old(lists), old(curCnt))
              else r == null && lists == old(lists) && b.status == old(b.status)
    {
      fault := false;
      QueueIs(q);
      assert Chained(q);
      if b == q.first {
        r := Dequeue(q);
        return;
      }
      if q.first == null {
        return null, true;
      }
      var prev, i := FindBefore(q, b);
      if prev == null {
        return null, false;
      }
      WithoutIs(lists[q], i + 1);
      LeaveMiddle(q, prev, b, i);
      r := b;
    }

    method FindBefore(q: List, b: Buffer) returns (prev: Buffer?, ghost i: nat)
      requires q in lists && Chained(q) && lists[q] != [] && b != lists[q][0]
      ensures prev == null <==> b !in lists[q]
      ensures prev != null ==> i + 1 < |lists[q]| && lists[q][i] == prev && lists[q][i + 1] == b
    {
      prev, i := q.first, 0;
      while prev != null && prev.next != b
        invariant prev != null ==> i < |lists[q]| && prev == lists[q][i]
        invariant prev == null ==> i == |lists[q]|
        invariant i <= |lists[q]| && forall j :: 0 <= j < |lists[q]| && j <= i ==> lists[q][j] != b
        decreases |lists[q]| - i
      {
        prev, i := prev.next, i + 1;
      }
    }

    method LeaveMiddle(q: List, prev: Buffer, b: Buffer, ghost i: nat)
      requires Valid() && q in lists && q.kind.UserQueue?
      requires i + 1 < |lists[q]| && lists[q][i] == prev && lists[q][i + 1] == b
      modifies this`lists, q`last, q`count, buffers`next, buffers`home, buffers`status
      ensures Valid() && b.status == UNLINKED && b.next == null
      ensures Only(q, old(lists)[q][..i + 1] + old(lists)[q][i + 2..], old(lists), old(curCnt))
    {
      QueueIs(q);
      ghost var s := lists[q][..i + 1] + lists[q][i + 2..];
      CountsStay(q, s);
      hide Sound, CountsOk;
      LinkOutAt(q, prev, b, i, s);
    }

    method LinkOutAt(q: List, prev: Buffer, b: Buffer, ghost i: nat, ghost s: seq<Buffer>)
      requires Sound() && q in lists && q.kind.UserQueue? && q.count == |lists[q]|
      requires i + 1 < |lists[q]| && lists[q][i] == prev && lists[q][i + 1] == b
      requires s == lists[q][..i + 1] + lists[q][i + 2..]
      modifies this`lists, q`last, q`count, buffers`next, buffers`home, buffers`status
      ensures Sound() && lists == old(lists)[q := s] && b.status == UNLINKED && b.next == null
    {
      hide Sound, SoundBut;
      LeaveAt(q, prev, b, i, s);
      q.count := q.count - 1;
      SoundAgain(q);
    }

    method LeaveAt(l: List, prev: Buffer, b: Buffer, ghost i: nat, ghost s: seq<Buffer>)
      requires Sound() && l in lists && i + 1 < |lists[l]| && lists[l][i] == prev && lists[l][i + 1] == b
      requires s == lists[l][..i + 1] + lists[l][i + 2..]
      modifies this`lists, l`last, buffers`next, buffers`home, buffers`status
      ensures SoundBut(l)
      ensures lists == old(lists)[l := s] && lists.Keys == old(lists).Keys
      ensures b in buffers && b.home == null && b.next == null && b.status == UNLINKED
    {
      assert Linked() && Layout(lists.Keys) && StatusOk() && EndsOk();
      hide Linked, Layout, StatusOk, EndsOk, EndsExcept;
      LeaveAfter(l, prev, b, i, s);
    }

    method LeaveAfter(l: List, prev: Buffer, b: Buffer, ghost i: nat, ghost s: seq<Buffer>)
      requires Linked() && StatusOk() && EndsOk() && l in lists
      requires i + 1 < |lists[l]| && lists[l][i] == prev && lists[l][i + 1] == b
      requires s == lists[l][..i + 1] + lists[l][i + 2..]
      modifies this`lists, l`last, buffers`next, buffers`home, buffers`status
      ensures Linked() && StatusOk() && EndsExcept(l)
      ensures lists == old(lists)[l := s] && lists.Keys == old(lists).Keys
      ensures b in buffers && b.home == null && b.next == null && b.status == UNLINKED
    {
      assert l in lists.Keys;
      hide Linked;
      TakeAfter(l, prev, b, i, s);
      b.status := UNLINKED;
      forall c | c in buffers
        ensures Told(c)
      {
        assert old(Told(c));
      }
      forall k | k in lists.Keys - {l}
        ensures EndOk(k)
      {
        assert old(EndOk(k));
      }
    }

    // ---- the start of the kernel ---------------------------------------------------------------------

    /** The tables, with nothing in any list and no buffers yet. */
    constructor (size: seq<nat>, total: seq<nat>, poolList: seq<nat>, restricted: set<nat>, ready: seq<bool>)
      requires |size| == NUM_POOLS && Listed(poolList, size, total, total) && |ready| == MAX_TASKS
      ensures AllEmpty() && fresh(lists.Keys)
      ensures this.size == size && this.total == total && this.poolList == poolList && this.restricted == restricted
      ensures this.ready == ready && curCnt == Zeros(NUM_POOLS) && maxCnt == Zeros(NUM_POOLS)
    {
      var free' := MakeFreeQueues();
      var mailbox' := MakeMailboxes();
      this.size, this.total, this.poolList, this.restricted, this.ready := size, total, poolList, restricted, ready;
      free, mailbox := free', mailbox';
      curCnt, maxCnt := Zeros(NUM_POOLS), Zeros(NUM_POOLS);
      lists := map l: List | l in Heads(free', mailbox') :: [];
      buffers := {};
    }

    /** Fills all pools; nothing is taken, nothing queued. */
    method BufferInit()
      requires AllEmpty() && Shape(curCnt, maxCnt) && |size| == NUM_POOLS && curCnt == Zeros(NUM_POOLS)
      modifies this`lists, this`buffers, free
      ensures Valid() && fresh(buffers) && lists.Keys == old(lists).Keys
      ensures forall l :: l in lists && !l.kind.FreeQueue? ==> lists[l] == []
    {
      StartSound();
      hide Sound, Filled, AllEmpty;
      FillAll();
      FilledCounts();
    }

    ghost predicate AllEmpty()
      reads this`lists, this`buffers, lists.Keys
    {
      && buffers == {} && |free| == NUM_POOLS && |mailbox| == MAX_TASKS * NUM_TASK_MBOX
      && lists.Keys == Heads(free, mailbox) && (forall l :: l in lists ==> lists[l] == [] && Empty(l))
      && (forall p :: 0 <= p < NUM_POOLS ==> free[p].kind == FreeQueue(p))
      && (forall p :: 0 <= p < |mailbox| ==> mailbox[p].kind == TaskMailbox(p))
    }

    static function Zeros(n: nat): (s: seq<nat>)
      ensures |s| == n && forall i :: 0 <= i < n ==> s[i] == 0
    {
      seq(n, _ => 0)
    }

    static ghost function Heads(s: seq<List>, t: seq<List>): set<List> {
      set l | l in s + t
    }

    static method MakeFreeQueues() returns (s: seq<List>)
      ensures |s| == NUM_POOLS && forall p :: 0 <= p < |s| ==> fresh(s[p]) && s[p].kind == FreeQueue(p) && Empty(s[p])
    {
      s := [];
      while |s| < NUM_POOLS
        invariant |s| <= NUM_POOLS
        invariant forall p :: 0 <= p < |s| ==> fresh(s[p]) && s[p].kind == FreeQueue(p) && Empty(s[p])
      {
        var l := new List(FreeQueue(|s|));
        s := s + [l];
      }
    }

    static method MakeMailboxes() returns (s: seq<List>)
      ensures |s| == MAX_TASKS * NUM_TASK_MBOX
      ensures forall p :: 0 <= p < |s| ==> fresh(s[p]) && s[p].kind == TaskMailbox(p) && Empty(s[p])
    {
      s := [];
      while |s| < MAX_TASKS * NUM_TASK_MBOX
        invariant |s| <= MAX_TASKS * NUM_TASK_MBOX
        invariant forall p :: 0 <= p < |s| ==> fresh(s[p]) && s[p].kind == TaskMailbox(p) && Empty(s[p])
      {
        var l := new List(TaskMailbox(|s|));
        s := s + [l];
      }
    }

    static ghost predicate Empty(l: List)
      reads l
    {
      l.first == null && l.last == null && l.count == 0
    }

    lemma StartSound()
      requires AllEmpty() && |size| == |total| == NUM_POOLS
      ensures Sound() && Filled(0, 0)
    {
      forall l | l in lists
        ensures Chained(l) && EndOk(l) && (l.kind.FreeQueue? ==> l.kind.pool < NUM_POOLS && l == free[l.kind.pool])
      {
      }
      forall p: nat | p < NUM_POOLS
        ensures free[p] in lists && FilledTo(p, 0, lists, buffers)
      {
        assert free[p] in free + mailbox;
        assert PoolBuffers(buffers, p) == {};
      }
      forall k | 0 <= k < |mailbox|
        ensures mailbox[k] in lists
      {
        assert mailbox[k] in free + mailbox;
      }
    }

    ghost predicate FilledTo(p: nat, n: nat, lists: map<List, seq<Buffer>>, all: set<Buffer>) {
      p < |free| && free[p] in lists && |lists[free[p]]| == n == |PoolBuffers(all, p)|
    }

    function Share(q: nat, p: nat, i: nat): nat
      requires q < |total|
    {
      if q < p then total[q] else if q == p then i else 0
    }

    /** The pools before `p` have all their buffers, pool `p` has `i`, the others none; all are free. */
    ghost predicate Filled(p: nat, i: nat)
      requires |total| == NUM_POOLS
      reads this`lists, this`buffers
    {
      forall q: nat :: q < NUM_POOLS ==>
        FilledTo(q, Share(q, p, i), lists, buffers)
    }

    lemma FilledCounts()
      requires |total| == |curCnt| == |maxCnt| == NUM_POOLS && Filled(NUM_POOLS, 0)
      requires forall p :: 0 <= p < NUM_POOLS ==> curCnt[p] == 0
      ensures CountsOk(lists, buffers, curCnt, maxCnt)
    {
      forall p: nat | p < NUM_POOLS
        ensures CountOk(p, lists, buffers, curCnt, maxCnt)
      {
        assert FilledTo(p, Share(p, NUM_POOLS, 0), lists, buffers);
      }
    }

    method FillAll()
      requires Sound() && |total| == NUM_POOLS && Filled(0, 0)
      modifies this`lists, this`buffers, free, buffers
      ensures Sound() && Filled(NUM_POOLS, 0) && fresh(buffers - old(buffers)) && lists.Keys == old(lists).Keys
      ensures forall l :: l in lists && !l.kind.FreeQueue? ==> lists[l] == old(lists)[l]
    {
      hide Sound;
      var p := 0;
      while p < NUM_POOLS
        invariant p <= NUM_POOLS && Sound() && Filled(p, 0)
        invariant fresh(buffers - old(buffers)) && lists.Keys == old(lists).Keys
        invariant forall l :: l in lists && !l.kind.FreeQueue? ==> lists[l] == old(lists)[l]
      {
        Fill(p);
        p := p + 1;
      }
    }

    /** Builds the free queue of pool `p`. */
    method Fill(p: nat)
      requires Sound() && p < NUM_POOLS == |total| && Filled(p, 0)
      modifies this`lists, this`buffers, free, buffers
      ensures Sound() && Filled(p + 1, 0) && fresh(buffers - old(buffers)) && lists.Keys == old(lists).Keys
      ensures forall l :: l in lists && !l.kind.FreeQueue? ==> lists[l] == old(lists)[l]
    {
      assert |free| == NUM_POOLS;
      hide Sound, Filled;
      var i := 0;
      while i < total[p]
        invariant i <= total[p] && Sound() && Filled(p, i)
        invariant fresh(buffers - old(buffers)) && lists.Keys == old(lists).Keys
        invariant forall l :: l in lists && !l.kind.FreeQueue? ==> lists[l] == old(lists)[l]
      {
        AddBuffer(p, i);
        i := i + 1;
      }
      NextPool(p);
    }

    lemma NextPool(p: nat)
      requires p < NUM_POOLS == |total| && Filled(p, total[p])
      ensures Filled(p + 1, 0)
    {
      var p' := p + 1;
      forall q: nat | q < NUM_POOLS
        ensures FilledTo(q, Share(q, p', 0), lists, buffers)
      {
        assert FilledTo(q, Share(q, p, total[p]), lists, buffers);
      }
    }

    method AddBuffer(p: nat, ghost i: nat)
      requires Sound() && p < NUM_POOLS == |total| && Filled(p, i)
      modifies this`lists, this`buffers, free, buffers
      ensures Sound() && Filled(p, i + 1) && fresh(buffers - old(buffers)) && lists.Keys == old(lists).Keys
      ensures forall l :: l in lists && !l.kind.FreeQueue? ==> lists[l] == old(lists)[l]
    {
      FreeDistinct();
      var l := free[p];
      assert l in lists && l.kind == FreeQueue(p);
      var b := Adopt(p);
      ghost var before := lists;
      hide Sound, Filled;
      Enter(l, b, FREE, l.first != null);
      MoreFilled(p, i, b, before, buffers - {b});
    }

    lemma MoreFilled(p: nat, i: nat, b: Buffer, lists0: map<List, seq<Buffer>>, all: set<Buffer>)
      requires p < NUM_POOLS == |total| == |free| && DistinctLists(free) && free[p] in lists0
      requires b !in all && b.qId == p && buffers == all + {b}
      requires forall q: nat :: q < NUM_POOLS ==>
                 FilledTo(q, Share(q, p, i), lists0, all)
      requires lists == lists0[free[p] := lists0[free[p]] + [b]]
      ensures Filled(p, i + 1)
    {
      var i' := i + 1;
      forall q: nat | q < NUM_POOLS
        ensures FilledTo(q, Share(q, p, i'), lists, buffers)
      {
        assert FilledTo(q, Share(q, p, i), lists0, all);
        assert PoolBuffers(buffers, q) == PoolBuffers(all, q) + if q == p then {b} else {};
      }
    }

    method Adopt(p: nat) returns (b: Buffer)
      requires Sound() && p < NUM_POOLS
      modifies this`buffers
      ensures Sound() && fresh(b) && buffers == old(buffers) + {b}
      ensures b.qId == p && b.home == null
    {
      b := new Buffer(p);
      buffers := buffers + {b};
    }

    // ---- where the buffers are -----------------------------------------------------------------------

    /** Buffer `b` is in list `l` exactly once and in no other. */
    ghost predicate OnlyIn(b: Buffer, l: List)
      reads this`lists
    {
      && l in lists && multiset(lists[l])[b] == 1
      && forall k :: k in lists && k != l ==> b !in lists[k]
    }

    /** Every buffer is in exactly one place, and its status byte tells which: in the free queue of its
        pool, with a caller, or in one mailbox or queue. */
    lemma ExactlyOnePlace(b: Buffer)
      requires Valid() && b in buffers
      ensures b.qId < |free|
      ensures match b.status
              case FREE => OnlyIn(b, free[b.qId])
              case UNLINKED => forall l :: l in lists ==> b !in lists[l]
              case QUEUED => exists l :: OnlyIn(b, l) && !l.kind.FreeQueue?
    {
      assert Told(b);
      forall l | l in lists && b in lists[l]
        ensures b.home == l
      {
        assert Chained(l);
      }
      if b.home != null {
        assert Chained(b.home);
        OnceIn(lists[b.home], b);
        assert OnlyIn(b, b.home);
      }
    }

    static lemma {:induction false} OnceIn(s: seq<Buffer>, b: Buffer)
      requires NoneTwice(s)
      ensures multiset(s)[b] == if b in s then 1 else 0
    {
      if s != [] {
        var n := |s| - 1;
        OnceIn(s[..n], b);
        assert s == s[..n] + [s[n]];
        assert b in s <==> b in s[..n] || b == s[n];
        assert b == s[n] ==> b !in s[..n];
      }
    }

    ghost function InUse(p: nat): set<Buffer>
      reads this`buffers, buffers`status
    {
      set b | b in buffers && b.qId == p && b.status != FREE
    }

    /** The free queue of a pool holds just its free buffers, and the rest is what it counts as taken. */
    lemma CurCntCountsInUse(p: nat)
      requires Valid() && p < NUM_POOLS
      ensures |free| == |total| == NUM_POOLS && free[p] in lists
      ensures forall b :: b in buffers ==> (b in lists[free[p]] <==> b.qId == p && b.status == FREE)
      ensures curCnt[p] == |InUse(p)| && |lists[free[p]]| + curCnt[p] == total[p]
    {
      var l := free[p];
      assert Chained(l) && l.kind == FreeQueue(p) && CountOk(p, lists, buffers, curCnt, maxCnt);
      forall b | b in buffers
        ensures b in lists[l] <==> b.qId == p && b.status == FREE
      {
        ExactlyOnePlace(b);
        assert Told(b);
      }
      SetSize(lists[l]);
      assert PoolBuffers(buffers, p) == (set b | b in lists[l]) + InUse(p);
    }

    static lemma {:induction false} SetSize(s: seq<Buffer>)
      requires NoneTwice(s)
      ensures |set b | b in s| == |s|
    {
      if s != [] {
        var n := |s| - 1;
        SetSize(s[..n]);
        assert (set b | b in s) == (set b | b in s[..n]) + {s[n]};
      }
    }
  }
}
