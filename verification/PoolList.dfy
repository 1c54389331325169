/** The list of buffer pools in order of size (src/gki/common/gki_buffer.cc): which pool serves a
    request, and how the list follows the creation and deletion of pools. */
module PoolList {
  import opened Options

  const NUM_POOLS := 10
  const INVALID_POOL := 0xff

  // ---- which pool serves a request ------------------------------------------------------------

  /** The entries of `list` are pools, described by the other sequences. */
  predicate Entries(list: seq<nat>, n: nat) {
    forall i :: 0 <= i < |list| ==> list[i] < n
  }

  ghost predicate Listed(list: seq<nat>, size: seq<nat>, total: seq<nat>, cur: seq<nat>) {
    && |size| == |total| == |cur|
    && Entries(list, |size|)
  }

  /** The pool that serves a request: the first public one with a free buffer, from the first in the
      list that is large enough. */
  function Choose(list: seq<nat>, size: seq<nat>, total: seq<nat>, cur: seq<nat>, restricted: set<nat>,
                  request: nat): Option<nat>
    requires Listed(list, size, total, cur)
  {
    FirstAvailable(list, total, cur, restricted, FirstLargeEnough(list, size, request, 0))
  }

  function FirstLargeEnough(list: seq<nat>, size: seq<nat>, request: nat, i: nat): (r: nat)
    requires i <= |list| && Entries(list, |size|)
    ensures i <= r <= |list|
    ensures forall j :: i <= j < r ==> size[list[j]] < request
    ensures r < |list| ==> request <= size[list[r]]
    decreases |list| - i
  {
    if i == |list| || request <= size[list[i]] then i else FirstLargeEnough(list, size, request, i + 1)
  }

  predicate Available(total: seq<nat>, cur: seq<nat>, restricted: set<nat>, p: nat)
    requires p < |total| == |cur|
  {
    p !in restricted && cur[p] < total[p]
  }

  function FirstAvailable(list: seq<nat>, total: seq<nat>, cur: seq<nat>, restricted: set<nat>, i: nat)
    : (r: Option<nat>)
    requires i <= |list| && |total| == |cur| && Entries(list, |total|)
    ensures r == None ==> forall j :: i <= j < |list| ==> !Available(total, cur, restricted, list[j])
    ensures r.Some? ==> r.value < |total| && Available(total, cur, restricted, r.value)
    ensures r.Some? ==> exists k :: i <= k < |list| && list[k] == r.value &&
                                    forall j :: i <= j < k ==> !Available(total, cur, restricted, list[j])
    decreases |list| - i
  {
    if i == |list| then None
    else if Available(total, cur, restricted, list[i]) then Some(list[i])
    else FirstAvailable(list, total, cur, restricted, i + 1)
  }

  /** Every pool of the list but the exempt ones is at least as large as all before it. */
  predicate Ascending(list: seq<nat>, size: seq<nat>, exempt: set<nat>)
    requires Entries(list, |size|)
  {
    forall i, j :: 0 <= i < j < |list| && list[j] !in exempt ==> size[list[i]] <= size[list[j]]
  }

  /** The pools that never serve a request by size: the restricted ones and those without buffers. */
  function Exempt(total: seq<nat>, restricted: set<nat>): set<nat> {
    restricted + set p: nat | p < |total| && total[p] == 0
  }

  /** In an ascending list the choice is the smallest available pool that is large enough, and there is
      none only if all large enough public pools are used up. */
  lemma ChoiceIsBestFit(list: seq<nat>, size: seq<nat>, total: seq<nat>, cur: seq<nat>, restricted: set<nat>,
                        request: nat)
    requires Listed(list, size, total, cur) && Ascending(list, size, Exempt(total, restricted))
    ensures match Choose(list, size, total, cur, restricted, request)
            case Some(p) => p in list && Available(total, cur, restricted, p) && request <= size[p]
                            && forall q :: q in list && Available(total, cur, restricted, q) && request <= size[q] ==>
                                 size[p] <= size[q]
            case None => forall q :: q in list && Available(total, cur, restricted, q) ==> size[q] < request
  {
    var i := FirstLargeEnough(list, size, request, 0);
    match FirstAvailable(list, total, cur, restricted, i)
    case Some(p) =>
      var k :| i <= k < |list| && list[k] == p &&
               forall j :: i <= j < k ==> !Available(total, cur, restricted, list[j]);
      assert p !in Exempt(total, restricted);
      forall q | q in list && Available(total, cur, restricted, q) && request <= size[q]
        ensures size[p] <= size[q]
      {
        var m :| 0 <= m < |list| && list[m] == q;
        assert q !in Exempt(total, restricted);
      }
    case None =>
  }

  /** No request is ever served by a pool that is too small, however full the pools are, exactly when
      the list is ascending over the public pools with buffers. */
  lemma ServedWellExactlyWhenAscending(list: seq<nat>, size: seq<nat>, total: seq<nat>, restricted: set<nat>)
    requires Listed(list, size, total, total)
    requires forall i, j :: 0 <= i < j < |list| ==> list[i] != list[j]
    ensures Ascending(list, size, Exempt(total, restricted)) <==>
            forall cur: seq<nat>, request: nat | |cur| == |total| ::
              var r := Choose(list, size, total, cur, restricted, request);
              r.Some? ==> request <= size[r.value]
  {
    if Ascending(list, size, Exempt(total, restricted)) {
      forall cur: seq<nat>, request: nat | |cur| == |total|
        ensures var r := Choose(list, size, total, cur, restricted, request); r.Some? ==> request <= size[r.value]
      {
        ChoiceIsBestFit(list, size, total, cur, restricted, request);
      }
    } else {
      var i, j :| 0 <= i < j < |list| && list[j] !in Exempt(total, restricted) && size[list[j]] < size[list[i]];
      OnlyOneLeft(list, size, total, restricted, i, j);
    }
  }

  /** With all pools used up but one that follows a larger one, a request for a byte more than its
      buffers hold is served from it. */
  lemma OnlyOneLeft(list: seq<nat>, size: seq<nat>, total: seq<nat>, restricted: set<nat>, i: nat, j: nat)
    requires Listed(list, size, total, total)
    requires forall i, j :: 0 <= i < j < |list| ==> list[i] != list[j]
    requires i < j < |list| && list[j] !in Exempt(total, restricted) && size[list[j]] < size[list[i]]
    ensures var p := list[j];
            Choose(list, size, total, total[p := total[p] - 1], restricted, size[p] + 1) == Some(p)
  {
    var p := list[j];
    var cur := total[p := total[p] - 1];
    var first := FirstLargeEnough(list, size, size[p] + 1, 0);
    assert first <= i;
    forall k | first <= k < |list| && k != j
      ensures !Available(total, cur, restricted, list[k])
    {
    }
    assert Available(total, cur, restricted, list[j]);
  }

  // ---- the list follows the pools --------------------------------------------------------------

  ghost predicate Distinct(s: seq<nat>) {
    forall i, j :: 0 <= i < j < |s| ==> s[i] != s[j]
  }

  /** Where pool `p` goes: before the first that is at least as large. */
  function Inserted(list: seq<nat>, size: seq<nat>, p: nat): seq<nat>
    requires p < |size| && Entries(list, |size|)
  {
    var i := FirstLargeEnough(list, size, size[p], 0);
    list[..i] + [p] + list[i..]
  }

  /** A new pool finds its place, whether or not it is exempt. */
  lemma InsertedAscending(list: seq<nat>, size: seq<nat>, p: nat, exempt: set<nat>, exempt': set<nat>)
    requires p < |size| && p !in list && Entries(list, |size|)
    requires Ascending(list, size, exempt) && forall q :: q != p ==> (q in exempt <==> q in exempt')
    ensures Entries(Inserted(list, size, p), |size|) && Ascending(Inserted(list, size, p), size, exempt')
  {
    var n := FirstLargeEnough(list, size, size[p], 0);
    var list' := Inserted(list, size, p);
    forall i, j | 0 <= i < j < |list'| && list'[j] !in exempt'
      ensures size[list'[i]] <= size[list'[j]]
    {
      if j > n {
        assert list'[j] == list[j - 1] && list'[j] in list;
        if i == n && j > n + 1 {
          assert size[list[n]] <= size[list[j - 1]];
        }
      } else if j < n {
        assert list'[j] == list[j] && list'[j] in list;
      }
    }
  }

  lemma AscendingElsewhere(list: seq<nat>, size: seq<nat>, size': seq<nat>, exempt: set<nat>)
    requires Entries(list, |size|) && |size'| == |size| && forall p :: p in list ==> size'[p] == size[p]
    requires Ascending(list, size, exempt)
    ensures Ascending(list, size', exempt)
  {
  }

  function IndexOf(list: seq<nat>, p: nat): (i: nat)
    ensures i <= |list| && (i < |list| ==> list[i] == p) && forall j :: 0 <= j < i ==> list[j] != p
  {
    if list == [] || list[0] == p then 0 else 1 + IndexOf(list[1..], p)
  }

  function Removed(list: seq<nat>, p: nat): seq<nat>
    requires p in list
  {
    var i := IndexOf(list, p);
    list[..i] + list[i + 1..]
  }

  lemma RemovedAgain(list: seq<nat>, p: nat, at: nat)
    requires p !in list && at <= |list|
    ensures p in list[..at] + [p] + list[at..] && Removed(list[..at] + [p] + list[at..], p) == list
  {
    var s := list[..at] + [p] + list[at..];
    assert s[at] == p && forall j :: 0 <= j < at ==> s[j] == list[j];
    assert s[..at] == list[..at] && s[at + 1..] == list[at..];
  }

  lemma RemovedMembers(list: seq<nat>, p: nat)
    requires Distinct(list) && p in list
    ensures Distinct(Removed(list, p))
    ensures forall q :: q in Removed(list, p) <==> q in list && q != p
  {
    var n := IndexOf(list, p);
    var list' := Removed(list, p);
    assert list[n] == p;
    assert forall i :: 0 <= i < |list'| ==> list'[i] == list[if i < n then i else i + 1];
    forall q | q in list && q != p
      ensures q in list'
    {
      var i :| 0 <= i < |list| && list[i] == q;
      assert list'[if i < n then i else i - 1] == q;
    }
  }

  lemma RemovedAscending(list: seq<nat>, size: seq<nat>, p: nat, exempt: set<nat>, size': seq<nat>, exempt': set<nat>)
    requires Distinct(list) && p in list && Entries(list, |size|) && |size'| == |size|
    requires Ascending(list, size, exempt)
    requires forall q: nat :: q < |size| && q != p ==> size'[q] == size[q] && (q in exempt <==> q in exempt')
    ensures Entries(Removed(list, p), |size|) && Ascending(Removed(list, p), size', exempt')
  {
    var n := IndexOf(list, p);
    var list' := Removed(list, p);
    assert list[n] == p;
    assert forall i :: 0 <= i < |list'| ==> list'[i] == list[if i < n then i else i + 1];
  }

  /** A list of pools has at most as many entries as there are pools. */
  lemma {:induction false} DistinctSize(list: seq<nat>, pools: set<nat>)
    requires Distinct(list) && forall p :: p in list ==> p in pools
    ensures |list| <= |pools|
  {
    if list != [] {
      var n := |list| - 1;
      forall p | p in list[..n]
        ensures p in pools - {list[n]}
      {
      }
      DistinctSize(list[..n], pools - {list[n]});
    }
  }

  function Below(n: nat): (s: set<nat>)
    ensures |s| == n && forall p: nat :: p in s <==> p < n
  {
    if n == 0 then {} else Below(n - 1) + {n - 1}
  }

  lemma RoomForOneMore(list: seq<nat>, n: nat, p: nat)
    requires Distinct(list) && Entries(list, n) && p < n && p !in list
    ensures |list| < n
  {
    DistinctSize(list, Below(n) - {p});
  }

  // ---- where the buffers of a pool lie ---------------------------------------------------------

  const BUFFER_HDR_SIZE := 16
  const BUFFER_PADDING_SIZE := BUFFER_HDR_SIZE + 4
  const MAX_USER_BUF_SIZE := 0xffff - BUFFER_PADDING_SIZE

  /** An even number of longwords. */
  function Align(size: nat): nat {
    (size + 3) / 4 * 4
  }

  /** The distance from a buffer to the next, kept in 16 bits. */
  function Stride(size: nat): nat {
    (Align(size) + BUFFER_PADDING_SIZE) % 0x1_0000
  }

  /** The size the pool records, also kept in 16 bits. */
  function SizeField(size: nat): nat {
    Align(size) % 0x1_0000
  }

  /** The size that is recorded is at least the one asked for. Together with header and trailer it fits the distance
      between buffers, but for the three largest sizes, for which that is 0. */
  lemma RecordedSizeFitsExactly(size: nat)
    requires size <= MAX_USER_BUF_SIZE
    ensures size <= SizeField(size) < size + 4 && SizeField(size) % 4 == 0
    ensures SizeField(size) + BUFFER_PADDING_SIZE <= Stride(size) <==> size <= MAX_USER_BUF_SIZE - 3
  {
  }

  /** What the search computes for an address in the pool. */
  function UserStart(start: nat, stride: nat, address: nat): nat
    requires start <= address && stride != 0
  {
    start + (address - start) / stride * stride + BUFFER_HDR_SIZE
  }

  function Find(start: seq<nat>, end: seq<nat>, stride: seq<nat>, address: nat, i: nat): Option<nat>
    requires |start| == |end| == |stride| && i <= |start|
    requires forall p :: 0 <= p < |start| && stride[p] == 0 ==> end[p] <= start[p]
    decreases |start| - i
  {
    if i == |start| then None
    else if start[i] < address < end[i] then Some(UserStart(start[i], stride[i], address))
    else Find(start, end, stride, address, i + 1)
  }

  /** The search answers exactly for the addresses inside a pool, after its first byte. */
  lemma {:induction false} FindAnswersExactly(start: seq<nat>, end: seq<nat>, stride: seq<nat>, address: nat, i: nat)
    requires |start| == |end| == |stride| && i <= |start|
    requires forall p :: 0 <= p < |start| && stride[p] == 0 ==> end[p] <= start[p]
    ensures Find(start, end, stride, address, i).Some? <==> exists p :: i <= p < |start| && start[p] < address < end[p]
    decreases |start| - i
  {
    if i < |start| {
      FindAnswersExactly(start, end, stride, address, i + 1);
    }
  }

  function Extent(stride: nat, total: nat): nat {
    stride * total
  }

  /** The list names exactly the pools with memory, each once. */
  ghost predicate Names(list: seq<nat>, start: seq<nat>) {
    && |start| == NUM_POOLS && Distinct(list) && Entries(list, NUM_POOLS)
    && forall p: nat :: p < NUM_POOLS ==> (start[p] != 0 <==> p in list)
  }

  /** Every pool lies where its start and size say, apart from the others. */
  ghost predicate Blocks(start: seq<nat>, end: seq<nat>, stride: seq<nat>, total: seq<nat>) {
    && |start| == |end| == |stride| == |total| == NUM_POOLS
    && (forall p: nat :: p < NUM_POOLS ==> end[p] == start[p] + Extent(stride[p], total[p]))
    && (forall p: nat :: p < NUM_POOLS && start[p] == 0 ==> end[p] == 0)
    && forall p: nat, q: nat :: p < NUM_POOLS && q < NUM_POOLS && p != q ==> Apart(start[p], end[p], start[q], end[q])
  }

  predicate Apart(start: nat, end: nat, start': nat, end': nat) {
    end <= start' || end' <= start
  }

  function FirstUnused(start: seq<nat>, i: nat): (p: nat)
    requires i <= |start|
    ensures i <= p <= |start| && (p < |start| ==> start[p] == 0) && forall q :: i <= q < p ==> start[q] != 0
    decreases |start| - i
  {
    if i == |start| || start[i] == 0 then i else FirstUnused(start, i + 1)
  }

  lemma InsertedNames(list: seq<nat>, start: seq<nat>, size: seq<nat>, p: nat, block: nat)
    requires Names(list, start) && p < NUM_POOLS == |size| && start[p] == 0 && block != 0
    ensures p !in list && |list| < NUM_POOLS && Names(Inserted(list, size, p), start[p := block])
  {
    RoomForOneMore(list, NUM_POOLS, p);
    var at := FirstLargeEnough(list, size, size[p], 0);
    var list' := Inserted(list, size, p);
    assert list' == list[..at] + [p] + list[at..];
    assert list'[at] == p;
    hide FirstLargeEnough, Inserted;
    forall q: nat | q < NUM_POOLS
      ensures start[p := block][q] != 0 <==> q in list'
    {
      assert q in list <==> q in list[..at] || q in list[at..];
    }
  }

  lemma RemovedNames(list: seq<nat>, start: seq<nat>, p: nat)
    requires Names(list, start) && p in list
    ensures Names(Removed(list, p), start[p := 0])
  {
    RemovedMembers(list, p);
    hide Removed;
  }

  lemma BlocksChanged(start: seq<nat>, end: seq<nat>, stride: seq<nat>, total: seq<nat>, p: nat, block: nat,
                      step: nat, count: nat)
    requires Blocks(start, end, stride, total) && p < NUM_POOLS && (block == 0 ==> Extent(step, count) == 0)
    requires forall q: nat :: q < NUM_POOLS && q != p ==> Apart(block, block + Extent(step, count), start[q], end[q])
    ensures Blocks(start[p := block], end[p := block + Extent(step, count)], stride[p := step], total[p := count])
  {
    hide Extent;
  }

  // ---- creating and deleting pools -------------------------------------------------------------

  /** All that the kernel records about its pools. */
  datatype Table = Table(list: seq<nat>, start: seq<nat>, end: seq<nat>, stride: seq<nat>,
                         size: seq<nat>, total: seq<nat>, cur: seq<nat>, restricted: set<nat>)

  ghost predicate Good(t: Table) {
    && |t.start| == |t.end| == |t.stride| == |t.size| == |t.total| == |t.cur| == NUM_POOLS
    && Names(t.list, t.start) && Blocks(t.start, t.end, t.stride, t.total)
  }

  ghost predicate Ordered(t: Table)
    requires Good(t)
  {
    Ascending(t.list, t.size, Exempt(t.total, t.restricted))
  }

  function Filled(t: Table, p: nat, bytes: nat, count: nat, block: nat): (t': Table)
    requires p < |t.start| == |t.end| == |t.stride| == |t.size| == |t.total| == |t.cur|
  {
    t.(start := t.start[p := block], end := t.end[p := block + Extent(Stride(bytes), count)],
       stride := t.stride[p := Stride(bytes)], size := t.size[p := SizeField(bytes)],
       total := t.total[p := count], cur := t.cur[p := 0])
  }

  function Permit(restricted: set<nat>, p: nat, restrict: bool): set<nat> {
    if restrict then restricted + {p} else restricted - {p}
  }

  function Created(t: Table, p: nat, bytes: nat, count: nat, restrict: bool, block: nat): Table
    requires p < NUM_POOLS && Good(t)
  {
    var filled := Filled(t, p, bytes, count, block);
    filled.(list := Inserted(t.list, filled.size, p), restricted := Permit(t.restricted, p, restrict))
  }

  /** The memory handed to pool `p` is not that of another pool. */
  ghost predicate Clear(t: Table, p: nat, block: nat, extent: nat) {
    forall q: nat :: q < |t.start| && q < |t.end| && q != p ==> Apart(block, block + extent, t.start[q], t.end[q])
  }

  lemma CreatedGood(t: Table, p: nat, bytes: nat, count: nat, restrict: bool, block: nat)
    requires Good(t) && p < NUM_POOLS && t.start[p] == 0 && block != 0
    requires Clear(t, p, block, Extent(Stride(bytes), count))
    ensures |t.list| < NUM_POOLS && Good(Created(t, p, bytes, count, restrict, block))
    ensures Ordered(t) ==> Ordered(Created(t, p, bytes, count, restrict, block))
  {
    var t' := Created(t, p, bytes, count, restrict, block);
    InsertedNames(t.list, t.start, t'.size, p, block);
    BlocksChanged(t.start, t.end, t.stride, t.total, p, block, Stride(bytes), count);
    hide Stride, SizeField, Extent, Inserted, Blocks;
    if Ordered(t) {
      var exempt, exempt' := Exempt(t.total, t.restricted), Exempt(t'.total, t'.restricted);
      AscendingElsewhere(t.list, t.size, t'.size, exempt);
      InsertedAscending(t.list, t'.size, p, exempt, exempt');
    }
  }

  function Deleted(t: Table, p: nat): Table
    requires Good(t) && p in t.list
  {
    Table(Removed(t.list, p), t.start[p := 0], t.end[p := 0], t.stride[p := 0], t.size[p := 0], t.total[p := 0],
          t.cur[p := 0], t.restricted)
  }

  lemma DeletedGood(t: Table, p: nat)
    requires Good(t) && p in t.list
    ensures Good(Deleted(t, p))
    ensures Ordered(t) ==> Ordered(Deleted(t, p))
  {
    var t' := Deleted(t, p);
    RemovedNames(t.list, t.start, p);
    assert Clear(t, p, 0, Extent(0, 0));
    BlocksChanged(t.start, t.end, t.stride, t.total, p, 0, 0, 0);
    if Ordered(t) {
      hide Blocks, Removed;
      RemovedAscending(t.list, t.size, p, Exempt(t.total, t.restricted), t'.size, Exempt(t'.total, t'.restricted));
    }
  }

  /** All that is recorded about pool `q` but its permission. */
  predicate SamePool(t: Table, t': Table, q: nat) {
    && q < |t.start| == |t'.start| && q < |t.end| == |t'.end| && q < |t.stride| == |t'.stride|
    && q < |t.size| == |t'.size| && q < |t.total| == |t'.total| && q < |t.cur| == |t'.cur|
    && t.start[q] == t'.start[q] && t.end[q] == t'.end[q] && t.stride[q] == t'.stride[q]
    && t.size[q] == t'.size[q] && t.total[q] == t'.total[q] && t.cur[q] == t'.cur[q]
  }

  /** A pool that is created has all its buffers free, with room for each at its size, header and trailer; no other
      pool changes. */
  lemma CreatedPool(t: Table, p: nat, bytes: nat, count: nat, restrict: bool, block: nat)
    requires Good(t) && p < NUM_POOLS && t.start[p] == 0 && bytes <= MAX_USER_BUF_SIZE - 3
    ensures var t' := Created(t, p, bytes, count, restrict, block);
            && t'.start[p] == block && t'.total[p] == count && t'.cur[p] == 0 && bytes <= t'.size[p]
            && t'.size[p] + BUFFER_PADDING_SIZE <= t'.stride[p] && t'.end[p] == block + Extent(t'.stride[p], count)
            && (p in t'.restricted <==> restrict)
            && forall q: nat :: q < NUM_POOLS && q != p ==>
                 SamePool(t, t', q) && (q in t'.restricted <==> q in t.restricted)
  {
    hide Inserted, Names, Blocks;
  }

  /** Deleting a pool leaves nothing of it, and undoes its creation but for the permission. */
  lemma DeletedPool(t: Table, p: nat)
    requires Good(t) && p in t.list
    ensures var t' := Deleted(t, p);
            && t'.start[p] == t'.end[p] == t'.stride[p] == t'.size[p] == t'.total[p] == t'.cur[p] == 0
            && t'.restricted == t.restricted && forall q: nat :: q < NUM_POOLS && q != p ==> SamePool(t, t', q)
  {
    hide Removed;
  }

  lemma DeletionUndoesCreation(t: Table, p: nat, bytes: nat, count: nat, restrict: bool, block: nat)
    requires Good(t) && p < NUM_POOLS && block != 0
    requires t.start[p] == t.stride[p] == t.size[p] == t.total[p] == t.cur[p] == 0
    requires Clear(t, p, block, Extent(Stride(bytes), count))
    ensures var t' := Created(t, p, bytes, count, restrict, block);
            && Good(t') && p in t'.list
            && Deleted(t', p) == t.(restricted := Permit(t.restricted, p, restrict))
  {
    var t' := Created(t, p, bytes, count, restrict, block);
    CreatedGood(t, p, bytes, count, restrict, block);
    InsertedNames(t.list, t.start, t'.size, p, block);
    var at := FirstLargeEnough(t.list, t'.size, t'.size[p], 0);
    assert t'.list == t.list[..at] + [p] + t.list[at..];
    assert t'.list[at] == p;
    assert Removed(t'.list, p) == t.list by {
      RemovedAgain(t.list, p, at);
    }
    assert t.end[p] == 0;
    hide FirstLargeEnough, Inserted, Removed, Stride, SizeField, Extent;
  }

  /** Making a pool public keeps the list in order exactly when the pool has no buffers or is at least
      as large as all before it; restricting one never hurts. */
  lemma PermissionKeepsOrderExactly(t: Table, p: nat, restrict: bool)
    requires Good(t) && Ordered(t) && p < NUM_POOLS
    ensures Good(t.(restricted := Permit(t.restricted, p, restrict)))
    ensures Ordered(t.(restricted := Permit(t.restricted, p, restrict))) <==>
            || restrict || t.total[p] == 0
            || forall i, j :: 0 <= i < j < |t.list| && t.list[j] == p ==> t.size[t.list[i]] <= t.size[p]
  {
    var exempt := Exempt(t.total, t.restricted);
    var exempt' := Exempt(t.total, Permit(t.restricted, p, restrict));
    assert forall q: nat :: q < NUM_POOLS && q != p ==> (q in exempt <==> q in exempt');
    assert p in exempt' <==> restrict || t.total[p] == 0;
  }

  // ---- the pools as configured -----------------------------------------------------------------

  const SHIPPED_LIST: seq<nat> := [0, 1, 2, 3, 4]
  const SHIPPED_SIZE: seq<nat> := [268, 128, 660, 0xFFB0, 268, 0, 0, 0, 0, 0]
  const SHIPPED_TOTAL: seq<nat> := [40, 0, 50, 30, 130, 0, 0, 0, 0, 0]
  const SHIPPED_RESTRICTED: set<nat> := {4, 5, 6, 7, 8, 9}

  /** The fixed pools are not sorted by size, but in order as far as requests can tell; opening the last
      one to the public would let a request for 269 bytes end up in a buffer of 268. */
  lemma ShippedPoolsAreOrdered()
    ensures Ascending(SHIPPED_LIST, SHIPPED_SIZE, Exempt(SHIPPED_TOTAL, SHIPPED_RESTRICTED))
    ensures !Ascending(SHIPPED_LIST, SHIPPED_SIZE, {})
    ensures Choose(SHIPPED_LIST, SHIPPED_SIZE, SHIPPED_TOTAL, SHIPPED_TOTAL[4 := 129], {}, 269) == Some(4)
  {
    assert 1 in Exempt(SHIPPED_TOTAL, SHIPPED_RESTRICTED) && 4 in Exempt(SHIPPED_TOTAL, SHIPPED_RESTRICTED);
    assert SHIPPED_SIZE[SHIPPED_LIST[0]] > SHIPPED_SIZE[SHIPPED_LIST[1]];
    OnlyOneLeft(SHIPPED_LIST, SHIPPED_SIZE, SHIPPED_TOTAL, {}, 3, 4);
  }

  const NUM_FIXED_POOLS := 5

  function Padded(s: seq<nat>): (r: seq<nat>)
    requires |s| == NUM_FIXED_POOLS
    ensures |r| == NUM_POOLS && (forall i :: 0 <= i < |s| ==> r[i] == s[i])
    ensures forall i :: |s| <= i < NUM_POOLS ==> r[i] == 0
  {
    s + [0, 0, 0, 0, 0]
  }

  function EndOf(start: seq<nat>, stride: seq<nat>, total: seq<nat>): (r: seq<nat>)
    requires |start| == |stride| == |total|
    ensures |r| == |start| && forall i :: 0 <= i < |r| ==> r[i] == start[i] + Extent(stride[i], total[i])
  {
    seq(|start|, i requires 0 <= i < |start| => start[i] + Extent(stride[i], total[i]))
  }

  /** The table at startup, with the fixed pools in memory at `block`. */
  function Startup(block: seq<nat>): Table
    requires |block| == NUM_FIXED_POOLS
  {
    var stride := Padded([Stride(268), Stride(128), Stride(660), Stride(0xFFB0), Stride(268)]);
    Table(SHIPPED_LIST, Padded(block), EndOf(Padded(block), stride, SHIPPED_TOTAL), stride, SHIPPED_SIZE,
          SHIPPED_TOTAL, seq(NUM_POOLS, _ => 0), SHIPPED_RESTRICTED)
  }

  lemma StartupNames(start: seq<nat>)
    requires |start| == NUM_POOLS
    requires forall p: nat :: p < NUM_POOLS ==> (start[p] != 0 <==> p < NUM_FIXED_POOLS)
    ensures Names(SHIPPED_LIST, start)
  {
    assert forall i: nat :: i < NUM_FIXED_POOLS ==> SHIPPED_LIST[i] == i;
  }

  lemma StartupBlocks(start: seq<nat>, end: seq<nat>, stride: seq<nat>)
    requires |start| == |stride| == NUM_POOLS && end == EndOf(start, stride, SHIPPED_TOTAL)
    requires forall p: nat :: p < NUM_POOLS ==> (start[p] != 0 <==> p < NUM_FIXED_POOLS)
    requires forall p: nat, q: nat :: p < NUM_FIXED_POOLS && q < NUM_FIXED_POOLS && p != q ==>
               Apart(start[p], end[p], start[q], end[q])
    ensures Blocks(start, end, stride, SHIPPED_TOTAL)
  {
    forall p: nat | p < NUM_POOLS && start[p] == 0
      ensures end[p] == 0
    {
      assert p >= NUM_FIXED_POOLS && SHIPPED_TOTAL[p] == 0;
    }
    hide Extent;
    forall p: nat, q: nat | p < NUM_POOLS && q < NUM_POOLS && p != q
      ensures Apart(start[p], end[p], start[q], end[q])
    {
      if p < NUM_FIXED_POOLS && q < NUM_FIXED_POOLS {
      }
    }
  }

  /** The buffers of the fixed pools are all free, as far apart as their size, header and trailer. */
  lemma StartupPools(block: seq<nat>, p: nat)
    requires |block| == NUM_FIXED_POOLS && p < NUM_FIXED_POOLS
    ensures var t := Startup(block);
            && t.start[p] == block[p] && t.size[p] == SHIPPED_SIZE[p] && t.total[p] == SHIPPED_TOTAL[p] && t.cur[p] == 0
            && t.stride[p] == SHIPPED_SIZE[p] + BUFFER_PADDING_SIZE
            && t.end[p] == block[p] + Extent(t.stride[p], t.total[p])
  {
    assert p == 0 || p == 1 || p == 2 || p == 3 || p == 4;
  }

  /** The pools start out well ordered and apart, if the memory given to them is. */
  lemma StartupGood(block: seq<nat>)
    requires |block| == NUM_FIXED_POOLS && forall i :: 0 <= i < |block| ==> block[i] != 0
    requires var t := Startup(block);
             forall p: nat, q: nat :: p < NUM_FIXED_POOLS && q < NUM_FIXED_POOLS && p != q ==>
               Apart(t.start[p], t.end[p], t.start[q], t.end[q])
    ensures Good(Startup(block)) && Ordered(Startup(block))
  {
    var t := Startup(block);
    assert |t.size| == |t.cur| == |t.total| == |t.end| == NUM_POOLS;
    hide Stride, Apart;
    StartupNames(t.start);
    StartupBlocks(t.start, t.end, t.stride);
    ShippedPoolsAreOrdered();
  }

  // ---- finding the start of a buffer -----------------------------------------------------------

  /** Where the user area of buffer `k` starts. */
  function UserArea(start: nat, step: nat, k: nat): nat {
    start + Extent(step, k) + BUFFER_HDR_SIZE
  }

  lemma ExtentMonotone(step: nat, k: nat, n: nat)
    ensures k < n ==> Extent(step, k) + step <= Extent(step, n)
  {
    if k < n {
      assert step * (k + 1) <= step * n;
    }
  }

  lemma QuotientOf(step: nat, k: nat, rest: nat)
    requires rest < step
    ensures (Extent(step, k) + rest) / step * step == Extent(step, k)
  {
    var n := Extent(step, k) + rest;
    var q := n / step;
    assert n == Extent(step, q) + n % step;
    ExtentMonotone(step, q, k);
    ExtentMonotone(step, k, q);
  }

  lemma StrideFits(bytes: nat)
    requires bytes <= MAX_USER_BUF_SIZE
    ensures bytes <= MAX_USER_BUF_SIZE - 3 ==> bytes + BUFFER_PADDING_SIZE <= Stride(bytes)
    ensures bytes > MAX_USER_BUF_SIZE - 3 ==> Stride(bytes) == 0
  {
  }

  /** Two buffers of a pool share no byte: not the header, the user area or the mark behind it. */
  predicate BuffersApart(start: nat, bytes: nat, j: nat, k: nat) {
    var step := Stride(bytes);
    UserArea(start, step, j) + Align(bytes) + 4 <= UserArea(start, step, k) - BUFFER_HDR_SIZE
  }

  /** The buffers of a new pool lie one behind the other exactly when the distance between them fits in 16 bits;
      with the three largest sizes they all lie on top of each other. */
  lemma BuffersApartExactly(start: nat, bytes: nat, total: nat)
    requires bytes <= MAX_USER_BUF_SIZE && 2 <= total
    ensures (forall j: nat, k: nat :: j < k < total ==> BuffersApart(start, bytes, j, k))
            <==> bytes <= MAX_USER_BUF_SIZE - 3
    ensures bytes > MAX_USER_BUF_SIZE - 3 ==>
              forall k: nat :: k < total ==> UserArea(start, Stride(bytes), k) == UserArea(start, Stride(bytes), 0)
  {
    StrideFits(bytes);
    if bytes <= MAX_USER_BUF_SIZE - 3 {
      assert Stride(bytes) == Align(bytes) + BUFFER_PADDING_SIZE;
      forall j: nat, k: nat | j < k < total
        ensures BuffersApart(start, bytes, j, k)
      {
        ExtentMonotone(Stride(bytes), j, k);
      }
    } else {
      assert !BuffersApart(start, bytes, 0, 1);
    }
  }

  /** The buffers of the fixed pools share no byte. */
  lemma ShippedBuffersApart(block: seq<nat>)
    requires |block| == NUM_FIXED_POOLS
    ensures forall p: nat, j: nat, k: nat :: p < NUM_FIXED_POOLS && j < k < SHIPPED_TOTAL[p] ==>
              BuffersApart(block[p], SHIPPED_SIZE[p], j, k)
  {
    forall p: nat, j: nat, k: nat | p < NUM_FIXED_POOLS && j < k < SHIPPED_TOTAL[p]
      ensures BuffersApart(block[p], SHIPPED_SIZE[p], j, k)
    {
      assert p == 0 || p == 1 || p == 2 || p == 3 || p == 4;
      BuffersApartExactly(block[p], SHIPPED_SIZE[p], SHIPPED_TOTAL[p]);
    }
  }

  /** An address in the user area of a buffer leads back to its start. */
  lemma AddressLeadsBack(start: nat, bytes: nat, total: nat, k: nat, offset: nat)
    requires bytes <= MAX_USER_BUF_SIZE - 3 && k < total && offset < bytes
    ensures var a := UserArea(start, Stride(bytes), k) + offset;
            && Stride(bytes) != 0 && start < a < start + Extent(Stride(bytes), total)
            && UserStart(start, Stride(bytes), a) == UserArea(start, Stride(bytes), k)
  {
    StrideFits(bytes);
    ExtentMonotone(Stride(bytes), k, total);
    QuotientOf(Stride(bytes), k, BUFFER_HDR_SIZE + offset);
    hide Stride, Extent;
  }

  /** The search leads from byte `offset` of buffer `k` to the start of that buffer. */
  ghost predicate LeadsBack(start: nat, bytes: nat, total: nat, k: nat, offset: nat) {
    var step := Stride(bytes);
    && (step == 0 ==> Extent(step, total) == 0)
    && Find([start], [start + Extent(step, total)], [step], UserArea(start, step, k) + offset, 0)
       == Some(UserArea(start, step, k))
  }

  /** The search inverts the layout of a pool exactly when the distance between its buffers fits in 16
      bits; the largest size admitted is three bytes more. */
  lemma FindInvertsExactlyWhenStrideFits(start: nat, bytes: nat, total: nat)
    requires 0 < bytes <= MAX_USER_BUF_SIZE && 0 < total
    ensures (forall k: nat, offset: nat :: k < total && offset < bytes ==> LeadsBack(start, bytes, total, k, offset))
            <==> bytes <= MAX_USER_BUF_SIZE - 3
  {
    StrideFits(bytes);
    if bytes <= MAX_USER_BUF_SIZE - 3 {
      forall k: nat, offset: nat | k < total && offset < bytes
        ensures LeadsBack(start, bytes, total, k, offset)
      {
        AddressLeadsBack(start, bytes, total, k, offset);
      }
    } else {
      var step := Stride(bytes);
      assert step == 0 && Extent(step, total) == 0;
      var a := UserArea(start, step, 0) + 0;
      assert Find([start], [start + Extent(step, total)], [step], a, 1) == None;
      assert Find([start], [start + Extent(step, total)], [step], a, 0) == None;
      assert !LeadsBack(start, bytes, total, 0, 0);
    }
  }

  /** Pools before the one that holds the address do not answer for it. */
  lemma {:induction false} FindSkips(start: seq<nat>, end: seq<nat>, stride: seq<nat>, address: nat, i: nat, p: nat)
    requires |start| == |end| == |stride| && i <= p < |start|
    requires forall q: nat :: q < |start| && stride[q] == 0 ==> end[q] <= start[q]
    requires forall q: nat :: q < |start| && q != p ==> Apart(start[p], end[p], start[q], end[q])
    requires start[p] < address < end[p]
    ensures stride[p] != 0 && Find(start, end, stride, address, i) == Some(UserStart(start[p], stride[p], address))
    decreases p - i
  {
    if i < p {
      assert Apart(start[p], end[p], start[i], end[i]);
      FindSkips(start, end, stride, address, i + 1, p);
    }
  }

  /** Among all pools, an address in a user area of a pool created with `bytes` leads back to its start. */
  lemma FindsEveryBuffer(t: Table, p: nat, bytes: nat, k: nat, offset: nat)
    requires Good(t) && p < NUM_POOLS && t.stride[p] == Stride(bytes) && bytes <= MAX_USER_BUF_SIZE - 3
    requires k < t.total[p] && offset < bytes
    ensures forall q: nat :: q < NUM_POOLS && t.stride[q] == 0 ==> t.end[q] <= t.start[q]
    ensures Find(t.start, t.end, t.stride, UserArea(t.start[p], t.stride[p], k) + offset, 0)
            == Some(UserArea(t.start[p], t.stride[p], k))
  {
    NoStrideNoExtent(t);
    AddressLeadsBack(t.start[p], bytes, t.total[p], k, offset);
    hide Stride, Extent;
    FindSkips(t.start, t.end, t.stride, UserArea(t.start[p], t.stride[p], k) + offset, 0, p);
  }

  lemma NoStrideNoExtent(t: Table)
    requires Good(t)
    ensures forall q: nat :: q < NUM_POOLS && t.stride[q] == 0 ==> t.end[q] <= t.start[q]
  {
    forall q: nat | q < NUM_POOLS && t.stride[q] == 0
      ensures t.end[q] <= t.start[q]
    {
      assert t.end[q] == t.start[q] + Extent(t.stride[q], t.total[q]);
    }
  }

  class Pools {
    const list: array<nat>
    var n: nat
    var start: seq<nat>  // 0 while the pool has no memory
    var end: seq<nat>
    var stride: seq<nat>
    var size: seq<nat>
    var total: seq<nat>
    var cur: seq<nat>
    var restricted: set<nat>

    ghost function View(): Table
      requires n <= list.Length
      reads this, list
    {
      Table(list[..n], start, end, stride, size, total, cur, restricted)
    }

    ghost predicate Valid()
      reads this, list
    {
      n <= list.Length == NUM_POOLS && Good(View())
    }

    /** The fixed pools in the memory at `block`. */
    constructor (block: seq<nat>)
      requires |block| == NUM_FIXED_POOLS && forall i :: 0 <= i < |block| ==> block[i] != 0
      requires var t := Startup(block);
               forall p: nat, q: nat :: p < NUM_FIXED_POOLS && q < NUM_FIXED_POOLS && p != q ==>
                 Apart(t.start[p], t.end[p], t.start[q], t.end[q])
      ensures Valid() && View() == Startup(block) && Ordered(View()) && fresh(list)
    {
      var t := Startup(block);
      n := NUM_FIXED_POOLS;
      start, end, stride, size := t.start, t.end, t.stride, t.size;
      total, cur, restricted := t.total, t.cur, t.restricted;
      list := new nat[NUM_POOLS](i => if 0 <= i < NUM_FIXED_POOLS then i else 0);
      new;
      assert list[..n] == SHIPPED_LIST;
      StartupGood(block);
      hide Good, Ordered, Apart;
    }

    /** Creates a pool of `count` buffers in the memory at `block`, which is 0 if there is none. */
    method CreatePool(bytes: nat, count: nat, restrict: bool, block: nat) returns (id: nat)
      requires Valid() && Clear(View(), FirstUnused(start, 0), block, Extent(Stride(bytes), count))
      modifies this, list
      ensures Valid() && (Ordered(old(View())) ==> Ordered(View()))
      ensures var p := FirstUnused(old(start), 0);
              id == if bytes > MAX_USER_BUF_SIZE || p == NUM_POOLS || block == 0 then INVALID_POOL else p
      ensures View() == if id == INVALID_POOL then old(View())
              else Created(old(View()), id, bytes, count, restrict, block)
    {
      if bytes > MAX_USER_BUF_SIZE {
        return INVALID_POOL;
      }
      id := Unused();
      if id == NUM_POOLS || block == 0 {
        return INVALID_POOL;
      }
      CreatedGood(View(), id, bytes, count, restrict, block);
      hide Good, Ordered;
      Install(id, bytes, count, restrict, block);
    }

    method Install(p: nat, bytes: nat, count: nat, restrict: bool, block: nat)
      requires Valid() && n < list.Length && p < NUM_POOLS
      modifies this, list
      ensures n <= list.Length && View() == Created(old(View()), p, bytes, count, restrict, block)
    {
      hide Stride, SizeField, Extent, Inserted, Blocks;
      InitFreeQueue(p, bytes, count, block);
      Add(size, p);
      var _ := SetPermission(p, restrict);
      n := n + 1;
    }

    method Unused() returns (p: nat)
      requires |start| == NUM_POOLS
      ensures p == FirstUnused(start, 0)
    {
      p := 0;
      while p < NUM_POOLS && start[p] != 0
        invariant p <= NUM_POOLS && FirstUnused(start, p) == FirstUnused(start, 0)
      {
        p := p + 1;
      }
    }

    method InitFreeQueue(p: nat, bytes: nat, count: nat, block: nat)
      requires n <= list.Length && p < |start| == |end| == |stride| == |size| == |total| == |cur|
      modifies this
      ensures n == old(n) && View() == Filled(old(View()), p, bytes, count, block)
    {
      start, end := start[p := block], end[p := block + Extent(Stride(bytes), count)];
      stride, size := stride[p := Stride(bytes)], size[p := SizeField(bytes)];
      total, cur := total[p := count], cur[p := 0];
    }

    method SetPermission(p: nat, restrict: bool) returns (ok: bool)
      requires n <= list.Length
      modifies this`restricted
      ensures ok == (p < NUM_POOLS)
      ensures restricted == if ok then Permit(old(restricted), p, restrict) else old(restricted)
    {
      if p >= NUM_POOLS {
        return false;
      }
      restricted := if restrict then restricted + {p} else restricted - {p};
      return true;
    }

    /** Gives up pool `p` if all its buffers are back. */
    method DeletePool(p: nat)
      requires Valid()
      modifies this, list
      ensures Valid() && (Ordered(old(View())) ==> Ordered(View()))
      ensures View() == if p < NUM_POOLS && old(start)[p] != 0 && old(cur)[p] == 0 then Deleted(old(View()), p)
                        else old(View())
    {
      if p >= NUM_POOLS || start[p] == 0 {
        return;
      }
      if cur[p] == 0 {
        DeletedGood(View(), p);
        Discard(p);
      }
    }

    method Discard(p: nat)
      requires Valid() && p in list[..n]
      modifies this, list
      ensures n <= list.Length && View() == Deleted(old(View()), p)
    {
      hide Removed, Blocks;
      size, total, cur := size[p := 0], total[p := 0], cur[p := 0];
      start, end, stride := start[p := 0], end[p := 0], stride[p := 0];
      Remove(p);
      n := n - 1;
    }

    method FindBufStart(address: nat) returns (r: Option<nat>)
      requires Valid()
      ensures forall q: nat :: q < NUM_POOLS && stride[q] == 0 ==> end[q] <= start[q]
      ensures r == Find(start, end, stride, address, 0)
    {
      NoStrideNoExtent(View());
      hide UserStart;
      var i := 0;
      while i < NUM_POOLS
        invariant i <= NUM_POOLS && Find(start, end, stride, address, i) == Find(start, end, stride, address, 0)
      {
        if start[i] < address < end[i] {
          return Some(UserStart(start[i], stride[i], address));
        }
        i := i + 1;
      }
      return None;
    }

    /** The caller counts the new entry afterwards. */
    method Add(size: seq<nat>, p: nat)
      requires n < list.Length && p < |size| && Entries(list[..n], |size|)
      modifies list
      ensures list[..n + 1] == Inserted(old(list[..n]), size, p)
    {
      ghost var before := list[..n];
      hide FirstLargeEnough;
      var i := FindPlace(size, p);
      assert Inserted(before, size, p) == before[..i] + [p] + before[i..];
      assert before[..i] == list[..i] && before[i..] == list[i..n];
      hide *;
      MakeRoom(i);
      list[i] := p;
      Spliced(list[..], i, n, p, before[..i], before[i..]);
    }

    static lemma Spliced(s: seq<nat>, i: nat, n: nat, p: nat, front: seq<nat>, back: seq<nat>)
      requires i <= n < |s| && s[..i] == front && s[i] == p && s[i + 1..n + 1] == back
      ensures s[..n + 1] == front + [p] + back
    {
    }

    method FindPlace(size: seq<nat>, p: nat) returns (i: nat)
      requires n <= list.Length && p < |size| && Entries(list[..n], |size|)
      ensures i == FirstLargeEnough(list[..n], size, size[p], 0)
    {
      i := 0;
      while i < n && size[p] > size[list[i]]
        invariant i <= n
        invariant FirstLargeEnough(list[..n], size, size[p], 0) == FirstLargeEnough(list[..n], size, size[p], i)
      {
        i := i + 1;
      }
    }

    method MakeRoom(i: nat)
      requires i <= n < list.Length
      modifies list
      ensures list[..i] == old(list[..i]) && list[i + 1..n + 1] == old(list[i..n])
    {
      var j := n;
      while j > i
        invariant i <= j <= n
        invariant list[..j] == old(list[..j])
        invariant list[j + 1..n + 1] == old(list[j..n])
      {
        list[j] := list[j - 1];
        j := j - 1;
      }
    }

    method Remove(p: nat)
      requires 0 < n <= list.Length && p in list[..n]
      modifies list
      ensures list[..n - 1] == Removed(old(list[..n]), p)
    {
      var i := 0;
      while i < n && p != list[i]
        invariant i <= n && forall k :: 0 <= k < i ==> list[k] != p
      {
        i := i + 1;
      }
      assert i == IndexOf(list[..n], p);
      CloseGap(i);
    }

    method CloseGap(gap: nat)
      requires gap < n <= list.Length
      modifies list
      ensures list[..n - 1] == old(list[..gap] + list[gap + 1..n])
    {
      ghost var was := list[..];
      var i := gap;
      while i < n - 1
        invariant gap <= i <= n - 1
        invariant forall k :: 0 <= k < gap ==> list[k] == was[k]
        invariant forall k :: gap <= k < i ==> list[k] == was[k + 1]
        invariant forall k :: i < k < n ==> list[k] == was[k]
      {
        list[i] := list[i + 1];
        i := i + 1;
      }
      assert list[..n - 1] == was[..gap] + was[gap + 1..n];
    }
  }
}
