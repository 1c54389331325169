/** The cache of controller parameters and the lists that are sent to change them (src/nfa/dm/nfa_dm_main.cc). */
module SetConfig {
  import opened Options

  /** One entry of a list: type, length and value, the length being that of the value. */
  datatype Tlv = Tlv(kind: nat, value: seq<nat>)

  // ---- lists as bytes ------------------------------------------------------------------------------

  function Encode(s: seq<Tlv>): seq<nat> {
    if s == [] then [] else EncodeOne(s[0]) + Encode(s[1..])
  }

  function EncodeOne(t: Tlv): seq<nat> {
    [t.kind, |t.value|] + t.value
  }

  /** The entries are complete; a single byte may be left over. */
  predicate WellFormed(b: seq<nat>) {
    |b| < 2 || (b[1] + 2 <= |b| && WellFormed(b[b[1] + 2..]))
  }

  function Parse(b: seq<nat>): seq<Tlv>
    requires WellFormed(b)
  {
    if |b| < 2 then [] else [Tlv(b[0], b[2..b[1] + 2])] + Parse(b[b[1] + 2..])
  }

  // ---- the cache -----------------------------------------------------------------------------------

  const PF_RC := 0x19
  const TOTAL_DURATION := 0x00
  const LA_BIT_FRAME_SDD := 0x30
  const LA_PLATFORM_CONFIG := 0x31
  const LA_SEL_INFO := 0x32
  const LA_NFCID1 := 0x33
  const LA_HIST_BY := 0x59
  const LB_SENSB_INFO := 0x38
  const LB_NFCID0 := 0x39
  const LB_APPDATA := 0x3A
  const LB_ADC_FO := 0x3C
  const LB_H_INFO := 0x5A
  const LF_PROTOCOL := 0x50
  const LF_T3T_FLAGS2 := 0x53
  const LF_T3T_PMM := 0x51
  const FWI := 0x58
  const WT := 0x60
  const ATR_REQ_GEN_BYTES := 0x29
  const ATR_RES_GEN_BYTES := 0x61
  const LF_T3T_ID1 := 0x40
  const LISTEN_INFO_MAX := 10

  predicate IsT3tId(kind: nat) {
    LF_T3T_ID1 <= kind < LF_T3T_ID1 + LISTEN_INFO_MAX
  }

  /** Types stored with their length. */
  predicate Sized(kind: nat) {
    kind in {LA_BIT_FRAME_SDD, LA_PLATFORM_CONFIG, LA_SEL_INFO, LA_NFCID1, LA_HIST_BY, LB_SENSB_INFO, LB_NFCID0,
             LB_APPDATA, LB_ADC_FO, LB_H_INFO, LF_PROTOCOL, LF_T3T_FLAGS2, ATR_REQ_GEN_BYTES, ATR_RES_GEN_BYTES}
  }

  predicate Tracked(kind: nat) {
    Sized(kind) || kind in {PF_RC, TOTAL_DURATION, LF_T3T_PMM, FWI, WT} || IsT3tId(kind)
  }

  /** The longest value of a type; that of the T3T identifiers depends on the controller interface. */
  function MaxLen(kind: nat, nci2: bool): nat {
    if kind == LA_NFCID1 then 10
    else if kind == LA_HIST_BY then 50
    else if kind == LB_NFCID0 || kind == LB_APPDATA then 4
    else if kind == LB_H_INFO then 58
    else if kind == LF_T3T_FLAGS2 || kind == TOTAL_DURATION then 2
    else if kind == LF_T3T_PMM then 8
    else if kind == ATR_REQ_GEN_BYTES || kind == ATR_RES_GEN_BYTES then 48
    else if IsT3tId(kind) then if nci2 then 0x12 else 0x0A
    else 1
  }

  /** A stored value: its memory, and how much of it is in use. */
  datatype Store = Store(memory: seq<nat>, len: nat)

  type Cache = map<nat, Store>

  ghost predicate ValidCache(c: Cache, nci2: bool) {
    forall k: nat :: Tracked(k) ==> k in c && ValidStore(c[k], k, nci2)
  }

  ghost predicate ValidStore(s: Store, k: nat, nci2: bool) {
    s.len <= MaxLen(k, nci2) <= |s.memory| && (!Sized(k) ==> s.len == MaxLen(k, nci2))
  }

  function Value(c: Cache, k: nat): seq<nat>
    requires k in c && c[k].len <= |c[k].memory|
  {
    c[k].memory[..c[k].len]
  }

  // ---- one entry -----------------------------------------------------------------------------------

  /** Whether the value is compared with the store at all: not if it is too long, nor if it is not as long
      as a type without length needs. */
  predicate Fits(t: Tlv, slot: nat, sized: bool, nci2: bool) {
    if sized then |t.value| <= MaxLen(slot, nci2) else |t.value| == MaxLen(slot, nci2)
  }

  /** The store an entry is compared with. The application type of Listen B, when the manager itself sets it,
      has none of its own; the pointer is left at that of the entry before. */
  function Slot(t: Tlv, app: bool, last: Option<nat>): Option<nat> {
    if t.kind == LB_SENSB_INFO && !app then last
    else if Tracked(t.kind) then Some(t.kind)
    else None
  }

  predicate ComparesLength(t: Tlv, app: bool) {
    Sized(t.kind) && !(t.kind == LB_SENSB_INFO && !app)
  }

  ghost predicate Ready(c: Cache, last: Option<nat>, nci2: bool) {
    ValidCache(c, nci2) && (last.Some? ==> Tracked(last.value))
  }

  /** Whether the entry is to be sent, and the cache afterwards. */
  function Update(c: Cache, last: Option<nat>, t: Tlv, app: bool, nci2: bool): (bool, Cache)
    requires Ready(c, last, nci2)
  {
    match Slot(t, app, last)
    case None => (t.kind != LB_SENSB_INFO, c)
    case Some(k) =>
      var sized, n := ComparesLength(t, app), |t.value|;
      if !Fits(t, k, sized, nci2) then (false, c)
      else if (sized && c[k].len != n) || c[k].memory[..n] != t.value then
        (true, c[k := Store(t.value + c[k].memory[n..], if sized then n else c[k].len)])
      else (false, c)
  }

  lemma UpdateReady(c: Cache, last: Option<nat>, t: Tlv, app: bool, nci2: bool)
    requires Ready(c, last, nci2)
    ensures Ready(Update(c, last, t, app, nci2).1, Slot(t, app, last), nci2)
  {
    hide MaxLen, Tracked;
  }

  // ---- a whole list --------------------------------------------------------------------------------

  /** The cache after a list, and the entries to be sent. */
  datatype Outcome = Outcome(cache: Cache, kept: seq<Tlv>)

  function Filter(c: Cache, last: Option<nat>, s: seq<Tlv>, app: bool, nci2: bool): Outcome
    requires Ready(c, last, nci2)
    decreases |s|
  {
    if s == [] then Outcome(c, [])
    else
      UpdateReady(c, last, s[0], app, nci2);
      var (update, c') := Update(c, last, s[0], app, nci2);
      var rest := Filter(c', Slot(s[0], app, last), s[1..], app, nci2);
      Outcome(rest.cache, (if update then [s[0]] else []) + rest.kept)
  }

  // ---- the controller ------------------------------------------------------------------------------

  /** The controller takes over the values of a list. */
  function Apply(controller: map<nat, seq<nat>>, s: seq<Tlv>): map<nat, seq<nat>>
    decreases |s|
  {
    if s == [] then controller else Apply(controller[s[0].kind := s[0].value], s[1..])
  }

  ghost predicate Agree(c: Cache, controller: map<nat, seq<nat>>, nci2: bool)
    requires ValidCache(c, nci2)
  {
    forall k: nat :: Tracked(k) ==> k in controller && controller[k] == Value(c, k)
  }

  /** The manager sets everything but the application type of Listen B. */
  ghost predicate Ordinary(s: seq<Tlv>, app: bool) {
    forall i :: 0 <= i < |s| ==> s[i].kind != LB_SENSB_INFO || app
  }

  /** What an ordinary entry does: an untracked one is sent; a tracked one is sent exactly if its value is
      one that can be stored and differs from the stored one, and is stored then. */
  lemma UpdateIs(c: Cache, last: Option<nat>, t: Tlv, app: bool, nci2: bool)
    requires Ready(c, last, nci2) && (t.kind != LB_SENSB_INFO || app)
    ensures var (update, c') := Update(c, last, t, app, nci2);
            && ValidCache(c', nci2)
            && (update <==> !Tracked(t.kind) || (Fits(t, t.kind, Sized(t.kind), nci2) && Value(c, t.kind) != t.value))
            && (forall k: nat :: Tracked(k) ==> Value(c', k) == if update && k == t.kind then t.value else Value(c, k))
  {
    UpdateReady(c, last, t, app, nci2);
    hide MaxLen;
    if Tracked(t.kind) {
      var n := |t.value|;
      assert Slot(t, app, last) == Some(t.kind) && (ComparesLength(t, app) <==> Sized(t.kind));
      if n <= |c[t.kind].memory| {
        assert (t.value + c[t.kind].memory[n..])[..n] == t.value;
      }
    }
  }

  lemma FilterStep(c: Cache, last: Option<nat>, s: seq<Tlv>, app: bool, nci2: bool)
    requires Ready(c, last, nci2) && s != []
    ensures var (update, c') := Update(c, last, s[0], app, nci2);
            && Ready(c', Slot(s[0], app, last), nci2)
            && var rest := Filter(c', Slot(s[0], app, last), s[1..], app, nci2);
            Filter(c, last, s, app, nci2) == Outcome(rest.cache, if update then [s[0]] + rest.kept else rest.kept)
  {
    UpdateReady(c, last, s[0], app, nci2);
    hide Update, Slot;
  }

  /** If the list is sent, the cache agrees with the controller afterwards as before. */
  lemma {:induction false} FilterKeepsAgreement(c: Cache, last: Option<nat>, s: seq<Tlv>, app: bool, nci2: bool,
                                                controller: map<nat, seq<nat>>)
    requires Ready(c, last, nci2) && Ordinary(s, app) && Agree(c, controller, nci2)
    ensures var r := Filter(c, last, s, app, nci2);
            ValidCache(r.cache, nci2) && Agree(r.cache, Apply(controller, r.kept), nci2)
    decreases |s|
  {
    if s != [] {
      UpdateReady(c, last, s[0], app, nci2);
      UpdateIs(c, last, s[0], app, nci2);
      var (update, c') := Update(c, last, s[0], app, nci2);
      var controller' := if update then controller[s[0].kind := s[0].value] else controller;
      hide Update, Slot, Tracked, Value;
      FilterKeepsAgreement(c', Slot(s[0], app, last), s[1..], app, nci2, controller');
      var rest := Filter(c', Slot(s[0], app, last), s[1..], app, nci2);
      FilterStep(c, last, s, app, nci2);
      var kept := Filter(c, last, s, app, nci2).kept;
      assert update ==> kept[0] == s[0] && kept[1..] == rest.kept;
    }
  }

  /** Every tracked entry has a value that can be stored. */
  ghost predicate Settable(s: seq<Tlv>, nci2: bool) {
    forall i :: 0 <= i < |s| && Tracked(s[i].kind) ==> Fits(s[i], s[i].kind, Sized(s[i].kind), nci2)
  }

  /** What is left out makes no difference to the controller. */
  lemma {:induction false} FilterKeepsEffect(c: Cache, last: Option<nat>, s: seq<Tlv>, app: bool, nci2: bool,
                                             controller: map<nat, seq<nat>>)
    requires Ready(c, last, nci2) && Ordinary(s, app) && Settable(s, nci2) && Agree(c, controller, nci2)
    ensures Apply(controller, Filter(c, last, s, app, nci2).kept) == Apply(controller, s)
    decreases |s|
  {
    if s != [] {
      FilterStep(c, last, s, app, nci2);
      UpdateIs(c, last, s[0], app, nci2);
      var (update, c') := Update(c, last, s[0], app, nci2);
      hide Update, Slot, Tracked, Value, Fits;
      var controller' := controller[s[0].kind := s[0].value];
      if !update {
        assert controller' == controller;
      }
      FilterKeepsEffect(c', Slot(s[0], app, last), s[1..], app, nci2, controller');
      var kept, rest := Filter(c, last, s, app, nci2).kept, Filter(c', Slot(s[0], app, last), s[1..], app, nci2);
      assert update ==> kept[0] == s[0] && kept[1..] == rest.kept;
    }
  }

  // ---- the same list again -------------------------------------------------------------------------

  predicate Stored(t: Tlv, nci2: bool) {
    Tracked(t.kind) && Fits(t, t.kind, Sized(t.kind), nci2)
  }

  /** The types that are stored, and the lengths that they may have: up to the longest for those stored with their
      length, and just that for the others. */
  lemma StoredExactly(t: Tlv, nci2: bool)
    ensures var n := |t.value|;
            Stored(t, nci2) <==>
            || (t.kind in {0x30, 0x31, 0x32, 0x38, 0x3C, 0x50} && n <= 1)
            || (t.kind == 0x53 && n <= 2)
            || (t.kind in {0x39, 0x3A} && n <= 4)
            || (t.kind == 0x33 && n <= 10)
            || (t.kind in {0x29, 0x61} && n <= 48)
            || (t.kind == 0x59 && n <= 50)
            || (t.kind == 0x5A && n <= 58)
            || (t.kind in {0x19, 0x58, 0x60} && n == 1)
            || (t.kind == 0x00 && n == 2)
            || (t.kind == 0x51 && n == 8)
            || (0x40 <= t.kind <= 0x49 && n == if nci2 then 18 else 10)
  {
  }

  /** The entry has nothing new for the cache. */
  ghost predicate NothingNew(c: Cache, t: Tlv, nci2: bool)
    requires ValidCache(c, nci2)
  {
    Tracked(t.kind) && (Stored(t, nci2) ==> Value(c, t.kind) == t.value)
  }

  lemma {:induction false} NothingKept(c: Cache, last: Option<nat>, s: seq<Tlv>, app: bool, nci2: bool)
    requires Ready(c, last, nci2) && Ordinary(s, app)
    ensures Filter(c, last, s, app, nci2).kept == [] <==> forall t :: t in s ==> NothingNew(c, t, nci2)
    decreases |s|
  {
    if s != [] {
      FilterStep(c, last, s, app, nci2);
      UpdateIs(c, last, s[0], app, nci2);
      var (update, c') := Update(c, last, s[0], app, nci2);
      assert !update ==> c' == c;
      assert update <==> !NothingNew(c, s[0], nci2);
      hide *;
      assert Ordinary(s[1..], app) by { OrdinaryRest(s, app); }
      if !update {
        var rest := s[1..];
        NothingKept(c', Slot(s[0], app, last), rest, app, nci2);
        assert s == [s[0]] + rest;
      }
    }
  }

  lemma OrdinaryRest(s: seq<Tlv>, app: bool)
    requires Ordinary(s, app) && s != []
    ensures Ordinary(s[1..], app)
  {
  }

  /** The value of `k` after a list: one the list gives it, or the old one if it gives none. */
  ghost predicate FromList(c: Cache, c': Cache, s: seq<Tlv>, k: nat, nci2: bool)
    requires k in c && c[k].len <= |c[k].memory| && k in c' && c'[k].len <= |c'[k].memory|
  {
    || (exists i :: 0 <= i < |s| && Stored(s[i], nci2) && s[i].kind == k && Value(c', k) == s[i].value)
    || (Value(c', k) == Value(c, k) && forall i :: 0 <= i < |s| && Stored(s[i], nci2) ==> s[i].kind != k)
  }

  lemma {:induction false} FinalValue(c: Cache, last: Option<nat>, s: seq<Tlv>, app: bool, nci2: bool, k: nat)
    requires Ready(c, last, nci2) && Ordinary(s, app) && Tracked(k)
    ensures var c' := Filter(c, last, s, app, nci2).cache;
            ValidCache(c', nci2) && FromList(c, c', s, k, nci2)
    decreases |s|
  {
    if s != [] {
      FilterStep(c, last, s, app, nci2);
      UpdateIs(c, last, s[0], app, nci2);
      var (update, c1) := Update(c, last, s[0], app, nci2);
      hide Update, Slot, Tracked, Value, Fits;
      FinalValue(c1, Slot(s[0], app, last), s[1..], app, nci2, k);
      FromListStep(c, c1, Filter(c, last, s, app, nci2).cache, s, k, nci2);
    }
  }

  lemma FromListStep(c: Cache, c1: Cache, c': Cache, s: seq<Tlv>, k: nat, nci2: bool)
    requires s != [] && ValidCache(c, nci2) && ValidCache(c1, nci2) && ValidCache(c', nci2) && Tracked(k)
    requires Value(c1, k) == if Stored(s[0], nci2) && s[0].kind == k then s[0].value else Value(c, k)
    requires FromList(c1, c', s[1..], k, nci2)
    ensures FromList(c, c', s, k, nci2)
  {
    hide Tracked, Value, Stored, MaxLen;
    var t := s[1..];
    assert forall i :: 0 < i < |s| ==> s[i] == t[i - 1];
    if i :| 0 <= i < |t| && Stored(t[i], nci2) && t[i].kind == k && Value(c', k) == t[i].value {
      assert s[i + 1] == t[i];
    }
  }

  /** Sent again, a list is dropped altogether exactly when all its types are tracked and it gives no type
      two different values. */
  lemma SentAgainIsDroppedExactly(c: Cache, s: seq<Tlv>, app: bool, nci2: bool)
    requires ValidCache(c, nci2) && Ordinary(s, app)
    ensures var c' := Filter(c, None, s, app, nci2).cache;
            && ValidCache(c', nci2)
            && (Filter(c', None, s, app, nci2).kept == [] <==>
                (forall i :: 0 <= i < |s| ==> Tracked(s[i].kind)) &&
                forall i, j :: 0 <= i < j < |s| && Stored(s[i], nci2) && Stored(s[j], nci2)
                               && s[i].kind == s[j].kind ==>
                  s[i].value == s[j].value)
  {
    var c' := Filter(c, None, s, app, nci2).cache;
    FinalValue(c, None, s, app, nci2, FWI);
    NothingKept(c', None, s, app, nci2);
    forall i | 0 <= i < |s| && Stored(s[i], nci2)
      ensures FromList(c, c', s, s[i].kind, nci2)
    {
      FinalValue(c, None, s, app, nci2, s[i].kind);
    }
    hide *;
    NothingNewExactly(c, c', s, nci2);
  }

  lemma NothingNewExactly(c: Cache, c': Cache, s: seq<Tlv>, nci2: bool)
    requires ValidCache(c, nci2) && ValidCache(c', nci2)
    requires forall i :: 0 <= i < |s| && Stored(s[i], nci2) ==> FromList(c, c', s, s[i].kind, nci2)
    ensures (forall t :: t in s ==> NothingNew(c', t, nci2)) <==>
            (forall i :: 0 <= i < |s| ==> Tracked(s[i].kind)) &&
            forall i, j :: 0 <= i < j < |s| && Stored(s[i], nci2) && Stored(s[j], nci2) && s[i].kind == s[j].kind ==>
              s[i].value == s[j].value
  {
    assert forall i :: 0 <= i < |s| ==> s[i] in s;
    assert forall i :: 0 <= i < |s| && Stored(s[i], nci2) ==> Tracked(s[i].kind);
    hide Tracked, Value, Fits, ValidCache, Stored;
  }

  // ---- lists that are not accepted -----------------------------------------------------------------

  /** The last value that a list gives a type, of those that can be stored. */
  function LastStored(s: seq<Tlv>, k: nat, nci2: bool): Option<seq<nat>> {
    if s == [] then None
    else
      var later := LastStored(s[1..], k, nci2);
      if later.Some? then later
      else if Stored(s[0], nci2) && s[0].kind == k then Some(s[0].value)
      else None
  }

  lemma {:induction false} LastValue(c: Cache, last: Option<nat>, s: seq<Tlv>, app: bool, nci2: bool, k: nat)
    requires Ready(c, last, nci2) && Ordinary(s, app) && Tracked(k)
    ensures var c' := Filter(c, last, s, app, nci2).cache;
            ValidCache(c', nci2) &&
            Value(c', k) == match LastStored(s, k, nci2) case Some(v) => v case None => Value(c, k)
    decreases |s|
  {
    if s != [] {
      FilterStep(c, last, s, app, nci2);
      UpdateIs(c, last, s[0], app, nci2);
      var c' := Update(c, last, s[0], app, nci2).1;
      hide Update, Slot, Tracked, Value, Fits;
      LastValue(c', Slot(s[0], app, last), s[1..], app, nci2, k);
    }
  }

  /** The cache takes a list over before the controller does. If the controller does not accept it, they still
      agree exactly if the list ends with the stored value for every type that it gives one. */
  lemma RejectedListExactly(c: Cache, s: seq<Tlv>, app: bool, nci2: bool, controller: map<nat, seq<nat>>)
    requires ValidCache(c, nci2) && Ordinary(s, app) && Agree(c, controller, nci2)
    ensures var c' := Filter(c, None, s, app, nci2).cache;
            && ValidCache(c', nci2)
            && (Agree(c', controller, nci2) <==>
                forall k: nat :: Tracked(k) && LastStored(s, k, nci2).Some? ==>
                  LastStored(s, k, nci2).value == Value(c, k))
  {
    var c' := Filter(c, None, s, app, nci2).cache;
    LastValue(c, None, s, app, nci2, FWI);
    forall k: nat | Tracked(k)
      ensures Value(c', k) == match LastStored(s, k, nci2) case Some(v) => v case None => Value(c, k)
    {
      LastValue(c, None, s, app, nci2, k);
    }
    hide Filter, LastStored, Tracked, Value;
  }

  /** For a list that names no type twice: exactly if it changes nothing that is stored. */
  lemma RejectedDistinctListExactly(c: Cache, s: seq<Tlv>, app: bool, nci2: bool, controller: map<nat, seq<nat>>)
    requires ValidCache(c, nci2) && Ordinary(s, app) && Agree(c, controller, nci2)
    requires forall i, j :: 0 <= i < j < |s| ==> s[i].kind != s[j].kind
    ensures var c' := Filter(c, None, s, app, nci2).cache;
            && ValidCache(c', nci2)
            && (Agree(c', controller, nci2) <==>
                forall i :: 0 <= i < |s| && Stored(s[i], nci2) ==> s[i].value == Value(c, s[i].kind))
  {
    RejectedListExactly(c, s, app, nci2, controller);
    forall k: nat
      ensures LastStored(s, k, nci2).Some? ==>
                exists i :: 0 <= i < |s| && Stored(s[i], nci2) && s[i].kind == k
                            && LastStored(s, k, nci2) == Some(s[i].value)
    {
      LastStoredIsStored(s, k, nci2);
    }
    forall i | 0 <= i < |s| && Stored(s[i], nci2)
      ensures LastStored(s, s[i].kind, nci2) == Some(s[i].value)
    {
      OnlyStored(s, i, nci2);
    }
    hide Filter, LastStored, Value, Tracked, Fits;
  }

  lemma {:induction false} LastStoredIsStored(s: seq<Tlv>, k: nat, nci2: bool)
    ensures LastStored(s, k, nci2).Some? ==>
              exists i :: 0 <= i < |s| && Stored(s[i], nci2) && s[i].kind == k
                          && LastStored(s, k, nci2) == Some(s[i].value)
  {
    if s != [] {
      LastStoredIsStored(s[1..], k, nci2);
      hide Stored;
      if i :| 0 <= i < |s| - 1 && Stored(s[1..][i], nci2) && s[1..][i].kind == k
              && LastStored(s[1..], k, nci2) == Some(s[1..][i].value) {
        assert s[i + 1] == s[1..][i];
      }
    }
  }

  lemma {:induction false} OnlyStored(s: seq<Tlv>, i: nat, nci2: bool)
    requires i < |s| && Stored(s[i], nci2) && forall j :: 0 <= j < |s| && j != i ==> s[j].kind != s[i].kind
    ensures LastStored(s, s[i].kind, nci2) == Some(s[i].value)
  {
    hide Stored;
    if i > 0 {
      OnlyStored(s[1..], i - 1, nci2);
    } else {
      LastStoredIsStored(s[1..], s[0].kind, nci2);
    }
  }

  // ---- lists of the application --------------------------------------------------------------------

  /** Once an entry is left out, none after it is kept. */
  ghost predicate ChangesFirst(c: Cache, last: Option<nat>, s: seq<Tlv>, app: bool, nci2: bool)
    requires Ready(c, last, nci2)
    decreases |s|
  {
    s == [] ||
    (UpdateReady(c, last, s[0], app, nci2);
     var (update, c') := Update(c, last, s[0], app, nci2);
     if update then ChangesFirst(c', Slot(s[0], app, last), s[1..], app, nci2)
     else Filter(c', Slot(s[0], app, last), s[1..], app, nci2).kept == [])
  }

  /** The list of an application is not compacted: as many bytes are sent as the changes take, from the start
      of the list. */
  function CutOff(s: seq<Tlv>, kept: seq<Tlv>): seq<nat>
    requires |Encode(kept)| <= |Encode(s)|
  {
    Encode(s)[..|Encode(kept)|]
  }

  lemma {:induction false} KeptIsNoLonger(c: Cache, last: Option<nat>, s: seq<Tlv>, app: bool, nci2: bool)
    requires Ready(c, last, nci2)
    ensures |Encode(Filter(c, last, s, app, nci2).kept)| <= |Encode(s)|
    decreases |s|
  {
    if s != [] {
      FilterStep(c, last, s, app, nci2);
      var (update, c') := Update(c, last, s[0], app, nci2);
      hide Update, Slot;
      KeptIsNoLonger(c', Slot(s[0], app, last), s[1..], app, nci2);
      var rest := Filter(c', Slot(s[0], app, last), s[1..], app, nci2).kept;
      assert ([s[0]] + rest)[1..] == rest;
    }
  }

  /** An entry that is left out is not what is kept next. */
  lemma {:induction false} NextKeptDiffers(c: Cache, last: Option<nat>, s: seq<Tlv>, t: Tlv, last': Option<nat>,
                                           nci2: bool)
    requires Ready(c, last, nci2) && Ready(c, last', nci2) && !Update(c, last', t, true, nci2).0
    ensures var kept := Filter(c, last, s, true, nci2).kept; kept != [] ==> kept[0] != t
    decreases |s|
  {
    if s != [] {
      FilterStep(c, last, s, true, nci2);
      var (update, c') := Update(c, last, s[0], true, nci2);
      assert !update ==> c' == c;
      assert s[0] == t ==> !update;
      hide Update, Slot;
      if !update {
        NextKeptDiffers(c', Slot(s[0], true, last), s[1..], t, last', nci2);
      }
    }
  }

  lemma FirstEncodes(s: seq<Tlv>)
    requires s != []
    ensures 2 <= |Encode(s)| && 2 + |s[0].value| <= |Encode(s)|
    ensures Encode(s)[0] == s[0].kind && Encode(s)[1] == |s[0].value| && Encode(s)[2..2 + |s[0].value|] == s[0].value
  {
    var e := EncodeOne(s[0]);
    assert Encode(s) == e + Encode(s[1..]);
    assert Encode(s)[..|e|] == e && e[2..] == s[0].value;
    assert Encode(s)[2..|e|] == Encode(s)[..|e|][2..];
  }

  /** So the application's changes are what is sent exactly when they come first in its list. */
  lemma {:induction false} ApplicationChangesSentExactly(c: Cache, last: Option<nat>, s: seq<Tlv>, nci2: bool)
    requires Ready(c, last, nci2)
    ensures var kept := Filter(c, last, s, true, nci2).kept;
            && |Encode(kept)| <= |Encode(s)|
            && (CutOff(s, kept) == Encode(kept) <==> ChangesFirst(c, last, s, true, nci2))
    decreases |s|
  {
    KeptIsNoLonger(c, last, s, true, nci2);
    if s != [] {
      FilterStep(c, last, s, true, nci2);
      var (update, c') := Update(c, last, s[0], true, nci2);
      var last1 := Slot(s[0], true, last);
      var rest := Filter(c', last1, s[1..], true, nci2).kept;
      if update {
        ApplicationChangesSentExactly(c', last1, s[1..], nci2);
        HeadKept(s, rest);
      } else {
        assert c' == c;
        NextKeptDiffers(c, last1, s[1..], s[0], last, nci2);
        HeadLeftOut(s, rest);
      }
    }
  }

  lemma HeadKept(s: seq<Tlv>, rest: seq<Tlv>)
    requires s != [] && |Encode(rest)| <= |Encode(s[1..])|
    ensures var kept := [s[0]] + rest;
            |Encode(kept)| <= |Encode(s)| && (CutOff(s, kept) == Encode(kept) <==> CutOff(s[1..], rest) == Encode(rest))
  {
    var kept, e := [s[0]] + rest, EncodeOne(s[0]);
    assert kept[1..] == rest;
    assert Encode(kept) == e + Encode(rest) && Encode(s) == e + Encode(s[1..]);
    assert CutOff(s, kept) == e + CutOff(s[1..], rest);
    assert CutOff(s, kept)[|e|..] == CutOff(s[1..], rest) && Encode(kept)[|e|..] == Encode(rest);
  }

  lemma SameBytesSameHead(s: seq<Tlv>, t: seq<Tlv>)
    requires s != [] && t != [] && |Encode(t)| <= |Encode(s)| && Encode(s)[..|Encode(t)|] == Encode(t)
    ensures s[0] == t[0]
  {
    FirstEncodes(s);
    FirstEncodes(t);
    var e := Encode(t);
    hide Encode;
    assert e[0] == s[0].kind && e[1] == |s[0].value|;
    var n := 2 + |s[0].value|;
    assert e[2..n] == Encode(s)[2..n];
  }

  lemma HeadLeftOut(s: seq<Tlv>, kept: seq<Tlv>)
    requires s != [] && |Encode(kept)| <= |Encode(s)| && (kept != [] ==> kept[0] != s[0])
    ensures CutOff(s, kept) == Encode(kept) <==> kept == []
  {
    if kept != [] && CutOff(s, kept) == Encode(kept) {
      SameBytesSameHead(s, kept);
    }
  }

  lemma PlatformFirst(c: Cache, x: nat, nci2: bool)
    requires ValidCache(c, nci2)
    ensures var (update, c') := Update(c, None, Tlv(LA_PLATFORM_CONFIG, [x]), false, nci2);
            && Ready(c', Some(LA_PLATFORM_CONFIG), nci2) && c'[LA_PLATFORM_CONFIG].len == 1
            && c'[LA_PLATFORM_CONFIG].memory[0] == x && (!update ==> c' == c)
  {
    var t := Tlv(LA_PLATFORM_CONFIG, [x]);
    UpdateReady(c, None, t, false, nci2);
    UpdateIs(c, None, t, false, nci2);
    var c' := Update(c, None, t, false, nci2).1;
    assert Value(c', LA_PLATFORM_CONFIG) == [x];
    hide Update;
    assert Value(c', LA_PLATFORM_CONFIG)[0] == c'[LA_PLATFORM_CONFIG].memory[0];
  }

  lemma ApplicationTypeSecond(c: Cache, y: nat, nci2: bool)
    requires Ready(c, Some(LA_PLATFORM_CONFIG), nci2) && c[LA_PLATFORM_CONFIG].len == 1
    requires c[LA_PLATFORM_CONFIG].memory[0] != y
    ensures var (update, c') := Update(c, Some(LA_PLATFORM_CONFIG), Tlv(LB_SENSB_INFO, [y]), false, nci2);
            update && ValidCache(c', nci2) && Value(c', LA_PLATFORM_CONFIG) == [y]
  {
    var t := Tlv(LB_SENSB_INFO, [y]);
    UpdateReady(c, Some(LA_PLATFORM_CONFIG), t, false, nci2);
    hide ValidCache;
    assert ([y] + c[LA_PLATFORM_CONFIG].memory[1..])[..1] == [y];
  }

  lemma FilterPair(c: Cache, a: Tlv, b: Tlv, app: bool, nci2: bool)
    requires ValidCache(c, nci2)
    ensures var (update, c') := Update(c, None, a, app, nci2);
            && Ready(c', Slot(a, app, None), nci2)
            && var (update2, c2) := Update(c', Slot(a, app, None), b, app, nci2);
            Filter(c, None, [a, b], app, nci2)
            == Outcome(c2, (if update then [a] else []) + if update2 then [b] else [])
  {
    FilterStep(c, None, [a, b], app, nci2);
    var (update, c') := Update(c, None, a, app, nci2);
    assert [a, b][1..] == [b];
    FilterStep(c', Slot(a, app, None), [b], app, nci2);
    var (update2, c2) := Update(c', Slot(a, app, None), b, app, nci2);
    assert Filter(c2, Slot(b, app, Slot(a, app, None)), [], app, nci2) == Outcome(c2, []);
    hide Update, Slot, Ready, Filter;
    assert [b][1..] == [];
  }

  /** The manager's own entry for the application type of Listen B is taken for one of the type before it: the
      cache then holds a value for that type that the controller was never sent. */
  lemma ApplicationTypeClobbersItsNeighbour(c: Cache, x: nat, y: nat, nci2: bool, controller: map<nat, seq<nat>>)
    requires ValidCache(c, nci2) && Agree(c, controller, nci2) && x != y
    ensures var r := Filter(c, None, [Tlv(LA_PLATFORM_CONFIG, [x]), Tlv(LB_SENSB_INFO, [y])], false, nci2);
            && ValidCache(r.cache, nci2) && Value(r.cache, LA_PLATFORM_CONFIG) == [y]
            && var after := Apply(controller, r.kept); LA_PLATFORM_CONFIG in after && after[LA_PLATFORM_CONFIG] == [x]
  {
    var a, b := Tlv(LA_PLATFORM_CONFIG, [x]), Tlv(LB_SENSB_INFO, [y]);
    PlatformFirst(c, x, nci2);
    var (update, c') := Update(c, None, a, false, nci2);
    assert Slot(a, false, None) == Some(LA_PLATFORM_CONFIG);
    assert Value(c', LA_PLATFORM_CONFIG) == [x];
    ApplicationTypeSecond(c', y, nci2);
    FilterPair(c, a, b, false, nci2);
    assert controller[LA_PLATFORM_CONFIG] == Value(c, LA_PLATFORM_CONFIG);
    hide Update, Filter, Slot, ValidCache, Apply;
    assert [a] + [b] == [a, b] && [] + [b] == [b];
    ApplyOne(controller, b);
    ApplyPair(controller, a, b);
  }

  lemma ApplyOne(controller: map<nat, seq<nat>>, a: Tlv)
    ensures Apply(controller, [a]) == controller[a.kind := a.value]
  {
    assert [a][1..] == [];
    assert Apply(controller[a.kind := a.value], []) == controller[a.kind := a.value];
  }

  lemma ApplyPair(controller: map<nat, seq<nat>>, a: Tlv, b: Tlv)
    ensures Apply(controller, [a, b]) == controller[a.kind := a.value][b.kind := b.value]
  {
    assert [a, b][1..] == [b];
    ApplyOne(controller[a.kind := a.value], b);
  }

  /** The manager's own entry for the application type of Listen B makes no difference to the cache: there is no
      value before it, or one of another length, or its bytes are those in memory already, or it only writes bytes
      beyond the value before and brings the value that is stored for its own type. */
  predicate Harmless(c: Cache, last: Option<nat>, t: Tlv, nci2: bool)
    requires LB_SENSB_INFO in c && c[LB_SENSB_INFO].len <= |c[LB_SENSB_INFO].memory|
    requires last.Some? ==> last.value in c && c[last.value].len <= MaxLen(last.value, nci2) <= |c[last.value].memory|
  {
    last.Some? && |t.value| == MaxLen(last.value, nci2) ==>
      || c[last.value].memory[..|t.value|] == t.value
      || (t.value[..c[last.value].len] == Value(c, last.value) && t.value == Value(c, LB_SENSB_INFO))
  }

  /** Cache and controller still agree after such an entry exactly if it is harmless, whatever the type before. */
  lemma OneEntryKeepsAgreementExactly(c: Cache, last: Option<nat>, t: Tlv, nci2: bool, controller: map<nat, seq<nat>>)
    requires Ready(c, last, nci2) && last != Some(LB_SENSB_INFO) && Agree(c, controller, nci2)
    requires t.kind == LB_SENSB_INFO
    ensures var (update, c') := Update(c, last, t, false, nci2);
            var controller' := if update then controller[t.kind := t.value] else controller;
            && ValidCache(c', nci2)
            && (Agree(c', controller', nci2) <==> Harmless(c, last, t, nci2))
            && (!Harmless(c, last, t, nci2) ==>
                last.Some? && (Value(c', last.value) != controller'[last.value]
                               || Value(c', LB_SENSB_INFO) != controller'[LB_SENSB_INFO]))
  {
    UpdateReady(c, last, t, false, nci2);
    var (update, c') := Update(c, last, t, false, nci2);
    var controller' := if update then controller[t.kind := t.value] else controller;
    assert ValidStore(c[LB_SENSB_INFO], LB_SENSB_INFO, nci2);
    if last.Some? {
      var k := last.value;
      assert ValidStore(c[k], k, nci2);
      hide MaxLen, Tracked;
      if update {
        StoredOver(c[k].memory, t.value, c[k].len);
        assert Value(c', k) == t.value[..c[k].len];
        assert forall j: nat :: Tracked(j) && j != k ==> Value(c', j) == Value(c, j);
      }
    }
  }

  lemma StoredOver(memory: seq<nat>, value: seq<nat>, len: nat)
    requires len <= |value| <= |memory|
    ensures (value + memory[|value|..])[..len] == value[..len]
  {
  }

  /** All such entries of a list are harmless when they are reached. */
  ghost predicate AllHarmless(c: Cache, last: Option<nat>, s: seq<Tlv>, nci2: bool)
    requires Ready(c, last, nci2)
    decreases |s|
  {
    s == [] ||
    (UpdateReady(c, last, s[0], false, nci2);
     && (s[0].kind == LB_SENSB_INFO ==> Harmless(c, last, s[0], nci2))
     && AllHarmless(Update(c, last, s[0], false, nci2).1, Slot(s[0], false, last), s[1..], nci2))
  }

  /** The store of a type after an entry for it. */
  function StoreAfter(store: Store, t: Tlv, nci2: bool): Store
    requires Stored(t, nci2) ==> |t.value| <= |store.memory|
  {
    if Stored(t, nci2) then
      Store(t.value + store.memory[|t.value|..], if Sized(t.kind) then |t.value| else store.len)
    else store
  }

  /** Whether an entry is harmless shows in the cache beforehand and in the entry in front of it. */
  lemma {:induction false} HarmShowsBeforehand(c: Cache, last: Option<nat>, s: seq<Tlv>, i: nat, nci2: bool)
    requires Ready(c, last, nci2) && 0 < i < |s| && s[i].kind == LB_SENSB_INFO
    requires forall j :: 0 <= j < |s| && j != i ==> s[j].kind != LB_SENSB_INFO
    requires forall j :: 0 <= j < i - 1 ==> s[j].kind != s[i - 1].kind
    ensures var p := s[i - 1];
            AllHarmless(c, last, s, nci2) <==>
            (Tracked(p.kind) ==>
               var store := StoreAfter(c[p.kind], p, nci2);
               ValidStore(store, p.kind, nci2) && Harmless(c[p.kind := store], Some(p.kind), s[i], nci2))
    decreases i
  {
    UpdateReady(c, last, s[0], false, nci2);
    UpdateStores(c, last, s[0], nci2);
    var c' := Update(c, last, s[0], false, nci2).1;
    hide Update, Slot, Harmless, MaxLen;
    if i == 1 {
      HarmIsNext(c', Slot(s[0], false, last), s[1..], nci2);
    } else {
      HarmShowsBeforehand(c', Slot(s[0], false, last), s[1..], i - 1, nci2);
    }
  }

  lemma HarmIsNext(c: Cache, last: Option<nat>, s: seq<Tlv>, nci2: bool)
    requires Ready(c, last, nci2) && s != [] && s[0].kind == LB_SENSB_INFO && Ordinary(s[1..], false)
    ensures AllHarmless(c, last, s, nci2) <==> Harmless(c, last, s[0], nci2)
  {
    UpdateReady(c, last, s[0], false, nci2);
    var c' := Update(c, last, s[0], false, nci2).1;
    OrdinaryIsHarmless(c', Slot(s[0], false, last), s[1..], nci2);
    hide Update, Slot, Harmless;
  }

  lemma UpdateStores(c: Cache, last: Option<nat>, t: Tlv, nci2: bool)
    requires Ready(c, last, nci2) && t.kind != LB_SENSB_INFO
    ensures Slot(t, false, last) == if Tracked(t.kind) then Some(t.kind) else None
    ensures var c' := Update(c, last, t, false, nci2).1;
            && ValidCache(c', nci2)
            && if Tracked(t.kind) then
                 && ValidStore(c[t.kind], t.kind, nci2) && (Stored(t, nci2) ==> |t.value| <= |c[t.kind].memory|)
                 && c' == c[t.kind := StoreAfter(c[t.kind], t, nci2)]
               else c' == c
  {
    UpdateReady(c, last, t, false, nci2);
    hide MaxLen;
    if Tracked(t.kind) {
      var memory := c[t.kind].memory;
      assert ValidStore(c[t.kind], t.kind, nci2);
      if Stored(t, nci2) && memory[..|t.value|] == t.value {
        assert t.value + memory[|t.value|..] == memory;
      }
    }
  }

  /** No entry comes after one of that type to set it, or the type before it, once more; in particular no type
      comes twice. */
  ghost predicate Unrepaired(last: Option<nat>, s: seq<Tlv>)
    decreases |s|
  {
    s == [] ||
    (&& (s[0].kind == LB_SENSB_INFO ==>
           forall i :: 0 < i < |s| ==> s[i].kind != LB_SENSB_INFO && Some(s[i].kind) != last)
     && Unrepaired(Slot(s[0], false, last), s[1..]))
  }

  lemma {:induction false} DistinctIsUnrepaired(last: Option<nat>, s: seq<Tlv>)
    requires forall i, j :: 0 <= i < j < |s| ==> s[i].kind != s[j].kind
    requires forall i :: 0 <= i < |s| ==> Some(s[i].kind) != last
    ensures Unrepaired(last, s)
    decreases |s|
  {
    if s != [] {
      if s[0].kind == LB_SENSB_INFO {
        SensbIsLast(last, s);
      } else {
        DistinctIsUnrepaired(Slot(s[0], false, last), s[1..]);
      }
    }
  }

  lemma {:induction false} SensbIsLast(last: Option<nat>, s: seq<Tlv>)
    requires forall i :: 0 < i < |s| ==> s[i].kind != LB_SENSB_INFO && Some(s[i].kind) != last
    ensures Unrepaired(last, s)
    decreases |s|
  {
    if s != [] {
      UnrepairedWithout(Slot(s[0], false, last), s[1..]);
    }
  }

  lemma {:induction false} UnrepairedWithout(last: Option<nat>, s: seq<Tlv>)
    requires forall i :: 0 <= i < |s| ==> s[i].kind != LB_SENSB_INFO
    ensures Unrepaired(last, s)
    decreases |s|
  {
    if s != [] {
      UnrepairedWithout(Slot(s[0], false, last), s[1..]);
    }
  }

  /** A type that an ordinary list leaves alone keeps its stored value, and its value in the controller. */
  lemma {:induction false} AppliesOthers(controller: map<nat, seq<nat>>, s: seq<Tlv>, k: nat)
    requires k in controller && forall i :: 0 <= i < |s| ==> s[i].kind != k
    ensures k in Apply(controller, s) && Apply(controller, s)[k] == controller[k]
    decreases |s|
  {
    if s != [] {
      AppliesOthers(controller[s[0].kind := s[0].value], s[1..], k);
    }
  }

  lemma {:induction false} KeptComesFromList(c: Cache, last: Option<nat>, s: seq<Tlv>, app: bool, nci2: bool)
    requires Ready(c, last, nci2)
    ensures forall t :: t in Filter(c, last, s, app, nci2).kept ==> t in s
    decreases |s|
  {
    if s != [] {
      FilterStep(c, last, s, app, nci2);
      var (update, c') := Update(c, last, s[0], app, nci2);
      hide Update, Slot;
      KeptComesFromList(c', Slot(s[0], app, last), s[1..], app, nci2);
    }
  }

  lemma Untouched(c: Cache, last: Option<nat>, s: seq<Tlv>, nci2: bool, controller: map<nat, seq<nat>>, k: nat)
    requires Ready(c, last, nci2) && Ordinary(s, false) && Tracked(k) && k in controller
    requires forall i :: 0 <= i < |s| ==> s[i].kind != k
    ensures var r := Filter(c, last, s, false, nci2);
            var after := Apply(controller, r.kept);
            && ValidCache(r.cache, nci2) && Value(r.cache, k) == Value(c, k)
            && k in after && after[k] == controller[k]
  {
    FinalValue(c, last, s, false, nci2, k);
    KeptComesFromList(c, last, s, false, nci2);
    var kept := Filter(c, last, s, false, nci2).kept;
    assert forall i :: 0 <= i < |kept| ==> kept[i] in kept;
    hide Filter, Tracked, Value;
    AppliesOthers(controller, kept, k);
  }

  /** So a list of the manager's that is sent keeps cache and controller in agreement exactly if its entry for the
      application type of Listen B is harmless. */
  lemma {:induction false} AgreementKeptExactly(c: Cache, last: Option<nat>, s: seq<Tlv>, nci2: bool,
                                                controller: map<nat, seq<nat>>)
    requires Ready(c, last, nci2) && last != Some(LB_SENSB_INFO) && Agree(c, controller, nci2) && Unrepaired(last, s)
    ensures var r := Filter(c, last, s, false, nci2);
            && ValidCache(r.cache, nci2)
            && (Agree(r.cache, Apply(controller, r.kept), nci2) <==> AllHarmless(c, last, s, nci2))
    decreases |s|
  {
    if s != [] {
      UpdateReady(c, last, s[0], false, nci2);
      var (update, c') := Update(c, last, s[0], false, nci2);
      var last' := Slot(s[0], false, last);
      var controller' := if update then controller[s[0].kind := s[0].value] else controller;
      AgreementStep(c, last, s, nci2, controller);
      hide Update, Slot, Filter, Apply, Tracked, Value, Harmless;
      if s[0].kind == LB_SENSB_INFO {
        SensbStep(c, last, s, nci2, controller);
      } else {
        OrdinaryStep(c, last, s[0], nci2, controller);
        AgreementKeptExactly(c', last', s[1..], nci2, controller');
      }
    }
  }

  /** If that entry does harm, the rest of the list does not make up for it. */
  lemma SensbStep(c: Cache, last: Option<nat>, s: seq<Tlv>, nci2: bool, controller: map<nat, seq<nat>>)
    requires Ready(c, last, nci2) && last != Some(LB_SENSB_INFO) && Agree(c, controller, nci2)
    requires s != [] && s[0].kind == LB_SENSB_INFO && Unrepaired(last, s)
    ensures var (update, c') := Update(c, last, s[0], false, nci2);
            var last' := Slot(s[0], false, last);
            && Ready(c', last', nci2) && AllHarmless(c', last', s[1..], nci2)
            && var rest := Filter(c', last', s[1..], false, nci2);
            && ValidCache(rest.cache, nci2)
            && var controller' := if update then controller[s[0].kind := s[0].value] else controller;
            (Agree(rest.cache, Apply(controller', rest.kept), nci2) <==> Harmless(c, last, s[0], nci2))
  {
    UpdateReady(c, last, s[0], false, nci2);
    var (update, c') := Update(c, last, s[0], false, nci2);
    var last' := Slot(s[0], false, last);
    var controller' := if update then controller[s[0].kind := s[0].value] else controller;
    OneEntryKeepsAgreementExactly(c, last, s[0], nci2, controller);
    hide Update, Slot, Filter, Apply, Value, Harmless;
    AgreementAfter(c', last', s[1..], nci2, controller');
    if !Harmless(c, last, s[0], nci2) {
      var k := if Value(c', last.value) != controller'[last.value] then last.value else LB_SENSB_INFO;
      Untouched(c', last', s[1..], nci2, controller', k);
    }
  }

  /** Whatever comes after them: if all these entries are harmless, cache and controller agree afterwards. */
  lemma {:induction false} HarmlessKeepsAgreement(c: Cache, last: Option<nat>, s: seq<Tlv>, nci2: bool,
                                                  controller: map<nat, seq<nat>>)
    requires Ready(c, last, nci2) && last != Some(LB_SENSB_INFO) && Agree(c, controller, nci2)
    requires AllHarmless(c, last, s, nci2)
    ensures var r := Filter(c, last, s, false, nci2);
            ValidCache(r.cache, nci2) && Agree(r.cache, Apply(controller, r.kept), nci2)
    decreases |s|
  {
    if s != [] {
      UpdateReady(c, last, s[0], false, nci2);
      var (update, c') := Update(c, last, s[0], false, nci2);
      var last' := Slot(s[0], false, last);
      var controller' := if update then controller[s[0].kind := s[0].value] else controller;
      AgreementStep(c, last, s, nci2, controller);
      assert s[0].kind == LB_SENSB_INFO ==> last' == last;
      hide Update, Slot, Filter, Apply, Tracked, Value, Harmless;
      if s[0].kind == LB_SENSB_INFO {
        OneEntryKeepsAgreementExactly(c, last, s[0], nci2, controller);
      } else {
        OrdinaryStep(c, last, s[0], nci2, controller);
      }
      HarmlessKeepsAgreement(c', last', s[1..], nci2, controller');
    }
  }

  lemma AgreementStep(c: Cache, last: Option<nat>, s: seq<Tlv>, nci2: bool, controller: map<nat, seq<nat>>)
    requires Ready(c, last, nci2) && s != []
    ensures var (update, c') := Update(c, last, s[0], false, nci2);
            var last' := Slot(s[0], false, last);
            && Ready(c', last', nci2)
            && var r, rest := Filter(c, last, s, false, nci2), Filter(c', last', s[1..], false, nci2);
            && r.cache == rest.cache
            && Apply(controller, r.kept)
               == Apply(if update then controller[s[0].kind := s[0].value] else controller, rest.kept)
  {
    FilterStep(c, last, s, false, nci2);
    var (update, c') := Update(c, last, s[0], false, nci2);
    var kept := Filter(c, last, s, false, nci2).kept;
    var rest := Filter(c', Slot(s[0], false, last), s[1..], false, nci2).kept;
    hide Update, Slot, Filter;
    assert update ==> kept[0] == s[0] && kept[1..] == rest;
  }

  lemma OrdinaryStep(c: Cache, last: Option<nat>, t: Tlv, nci2: bool, controller: map<nat, seq<nat>>)
    requires Ready(c, last, nci2) && t.kind != LB_SENSB_INFO && Agree(c, controller, nci2)
    ensures var (update, c') := Update(c, last, t, false, nci2);
            && Ready(c', Slot(t, false, last), nci2) && Slot(t, false, last) != Some(LB_SENSB_INFO)
            && Agree(c', if update then controller[t.kind := t.value] else controller, nci2)
  {
    UpdateReady(c, last, t, false, nci2);
    UpdateIs(c, last, t, false, nci2);
    hide Update, Tracked, Value;
  }

  /** After the entry for the application type of Listen B nothing is left that could do harm. */
  lemma AgreementAfter(c: Cache, last: Option<nat>, s: seq<Tlv>, nci2: bool, controller: map<nat, seq<nat>>)
    requires Ready(c, last, nci2) && Ordinary(s, false)
    ensures AllHarmless(c, last, s, nci2)
    ensures Agree(c, controller, nci2) ==>
              var r := Filter(c, last, s, false, nci2);
              ValidCache(r.cache, nci2) && Agree(r.cache, Apply(controller, r.kept), nci2)
  {
    OrdinaryIsHarmless(c, last, s, nci2);
    if Agree(c, controller, nci2) {
      FilterKeepsAgreement(c, last, s, false, nci2, controller);
    }
  }

  lemma {:induction false} OrdinaryIsHarmless(c: Cache, last: Option<nat>, s: seq<Tlv>, nci2: bool)
    requires Ready(c, last, nci2) && Ordinary(s, false)
    ensures AllHarmless(c, last, s, nci2)
    decreases |s|
  {
    if s != [] {
      UpdateReady(c, last, s[0], false, nci2);
      var (update, c') := Update(c, last, s[0], false, nci2);
      OrdinaryIsHarmless(c', Slot(s[0], false, last), s[1..], nci2);
      hide Update, Slot;
    }
  }

  // ---- the requests that await a response ----------------------------------------------------------

  const PENDING_MAX := 32

  /** The mask as a number: bit `i` tells whether the application asked for the `i`th pending request. */
  function MaskOf(pending: seq<bool>): nat {
    if pending == [] then 0 else (if pending[0] then 1 else 0) + 2 * MaskOf(pending[1..])
  }

  function Power2(n: nat): nat {
    if n == 0 then 1 else 2 * Power2(n - 1)
  }

  function SetBit(mask: nat, n: nat): nat {
    if n == 0 then mask / 2 * 2 + 1 else mask % 2 + 2 * SetBit(mask / 2, n - 1)
  }

  function ClearBit(mask: nat, n: nat): nat {
    if n == 0 then mask / 2 * 2 else mask % 2 + 2 * ClearBit(mask / 2, n - 1)
  }

  /** Bit `k` of a number. */
  predicate Bit(mask: nat, k: nat) {
    if k == 0 then mask % 2 == 1 else Bit(mask / 2, k - 1)
  }

  /** Setting or clearing a bit of any number changes that bit and no other. */
  lemma {:induction false} OneBitChanges(mask: nat, n: nat, k: nat)
    ensures Bit(SetBit(mask, n), k) <==> k == n || Bit(mask, k)
    ensures Bit(ClearBit(mask, n), k) <==> k != n && Bit(mask, k)
    ensures SetBit(mask, n) == if Bit(mask, n) then mask else mask + Power2(n)
    ensures mask == if Bit(mask, n) then ClearBit(mask, n) + Power2(n) else ClearBit(mask, n)
  {
    if n == 0 {
      assert SetBit(mask, 0) / 2 == ClearBit(mask, 0) / 2 == mask / 2;
    } else {
      OneBitChanges(mask / 2, n - 1, if k == 0 then 0 else k - 1);
      assert SetBit(mask, n) / 2 == SetBit(mask / 2, n - 1) && ClearBit(mask, n) / 2 == ClearBit(mask / 2, n - 1);
    }
  }

  /** A power of two as the sum of all smaller ones and one. */
  lemma {:induction false} PowersOfTwo(n: nat)
    ensures MaskOf(seq(n, _ => true)) + 1 == Power2(n)
  {
    if n > 0 {
      PowersOfTwo(n - 1);
      assert seq(n, _ => true)[1..] == seq(n - 1, _ => true);
    } else {
      assert seq(0, _ => true) == [];
    }
  }

  /** The mask never has a bit beyond the pending requests. */
  lemma {:induction false} MaskBelow(pending: seq<bool>)
    ensures MaskOf(pending) < Power2(|pending|)
  {
    if pending != [] {
      MaskBelow(pending[1..]);
    }
  }

  /** Writing the bit after the last appends a request. */
  lemma {:induction false} MaskAppend(pending: seq<bool>, app: bool)
    ensures (if app then SetBit(MaskOf(pending), |pending|) else ClearBit(MaskOf(pending), |pending|))
            == MaskOf(pending + [app])
  {
    if pending == [] {
      assert (pending + [app])[1..] == [];
      assert MaskOf(pending) == 0;
    } else {
      MaskAppend(pending[1..], app);
      assert (pending + [app])[1..] == pending[1..] + [app];
      var m := MaskOf(pending);
      assert m / 2 == MaskOf(pending[1..]) && m % 2 == if pending[0] then 1 else 0;
    }
  }

  /** What happens to the queue: a list is sent, or a response comes in. */
  datatype Op = Sent(app: bool) | Response

  /** The mask and the counter; whose requests have been accepted so far; and for each response, whether the
      application was told, those that nobody waited for apart. */
  datatype Queue = Queue(mask: nat, num: nat, accepted: seq<bool>, told: seq<bool>, strays: seq<bool>)

  function Push(q: Queue, app: bool): Queue {
    q.(mask := if app then SetBit(q.mask, q.num) else ClearBit(q.mask, q.num), num := q.num + 1,
       accepted := q.accepted + [app])
  }

  function Pop(q: Queue): Queue {
    var told := q.mask % 2 == 1;
    if q.num > 0 then q.(mask := q.mask / 2, num := q.num - 1, told := q.told + [told])
    else q.(strays := q.strays + [told])
  }

  function Run(ops: seq<Op>): Queue {
    if ops == [] then Queue(0, 0, [], [], [])
    else
      var q := Run(ops[..|ops| - 1]);
      match ops[|ops| - 1]
      case Sent(app) => if q.num < PENDING_MAX then Push(q, app) else q
      case Response => Pop(q)
  }

  /** The mask is a queue of what is still to be answered, and the answers so far are those of the requests in
      their order; a stray response tells the application nothing. */
  ghost predicate InOrder(q: Queue) {
    && q.told <= q.accepted && q.num == |q.accepted| - |q.told| <= PENDING_MAX
    && q.mask == MaskOf(q.accepted[|q.told|..])
    && forall i :: 0 <= i < |q.strays| ==> !q.strays[i]
  }

  lemma PushInOrder(q: Queue, app: bool)
    requires InOrder(q) && q.num < PENDING_MAX
    ensures InOrder(Push(q, app)) && Push(q, app).mask < Power2(q.num + 1)
  {
    var pending := q.accepted[|q.told|..];
    MaskAppend(pending, app);
    MaskBelow(pending + [app]);
    assert (q.accepted + [app])[|q.told|..] == pending + [app];
  }

  lemma PopInOrder(q: Queue)
    requires InOrder(q)
    ensures InOrder(Pop(q))
  {
    var pending := q.accepted[|q.told|..];
    if q.num > 0 {
      assert pending[1..] == q.accepted[|q.told| + 1..];
    }
  }

  /** Over every run of requests and responses. */
  lemma {:induction false} RunInOrder(ops: seq<Op>)
    ensures InOrder(Run(ops))
  {
    hide InOrder, Push, Pop;
    if ops != [] {
      RunInOrder(ops[..|ops| - 1]);
      var q := Run(ops[..|ops| - 1]);
      match ops[|ops| - 1]
      case Sent(app) => if q.num < PENDING_MAX { PushInOrder(q, app); }
      case Response => PopInOrder(q);
    } else {
      assert InOrder(Queue(0, 0, [], [], [])) by { EmptyInOrder(); }
    }
  }

  /** A list that is sent is queued exactly if fewer than 32 are pending, and a response answers the oldest that is. */
  lemma QueueStep(ops: seq<Op>, app: bool)
    ensures var q, r := Run(ops), Run(ops + [Sent(app)]);
            && q.told <= q.accepted && r.told == q.told && r.strays == q.strays
            && r.accepted == q.accepted + if |q.accepted| < |q.told| + 32 then [app] else []
    ensures var q, r := Run(ops), Run(ops + [Response]);
            && r.accepted == q.accepted
            && if q.told < q.accepted then r.told == q.told + [q.accepted[|q.told|]] && r.strays == q.strays
               else r.told == q.told && r.strays == q.strays + [false]
  {
    RunInOrder(ops);
    var q := Run(ops);
    PopStep(q);
    assert (ops + [Sent(app)])[..|ops|] == ops && (ops + [Response])[..|ops|] == ops;
    var r := Run(ops + [Sent(app)]);
    assert r == if q.num < PENDING_MAX then Push(q, app) else q;
    assert r.accepted == q.accepted + if q.num < PENDING_MAX then [app] else [];
    assert Run(ops + [Response]) == Pop(q);
    assert q.told <= q.accepted && q.num == |q.accepted| - |q.told|;
    hide *;
  }

  lemma PopStep(q: Queue)
    requires InOrder(q)
    ensures var r := Pop(q);
            && r.accepted == q.accepted
            && if q.told < q.accepted then r.told == q.told + [q.accepted[|q.told|]] && r.strays == q.strays
               else r.told == q.told && r.strays == q.strays + [false]
  {
    var pending := q.accepted[|q.told|..];
    assert q.num == |pending| && (q.told < q.accepted <==> 0 < q.num);
    assert q.mask % 2 == 1 <==> pending != [] && pending[0];
    hide MaskOf, InOrder;
  }

  lemma EmptyInOrder()
    ensures InOrder(Queue(0, 0, [], [], []))
  {
  }

  // ---- the manager ---------------------------------------------------------------------------------

  lemma KeptSize(kept: seq<Tlv>)
    ensures |Encode(kept)| == 0 <==> kept == []
  {
    if kept != [] {
      FirstEncodes(kept);
    }
  }

  lemma {:induction false} EncodeAppend(s: seq<Tlv>, t: Tlv)
    ensures Encode(s + [t]) == Encode(s) + EncodeOne(t)
    decreases |s|
  {
    hide EncodeOne;
    if s == [] {
      assert s + [t] == [t] && [t][1..] == [];
      assert Encode([]) == [];
    } else {
      EncodeAppend(s[1..], t);
      assert (s + [t])[0] == s[0] && (s + [t])[1..] == s[1..] + [t];
      assert EncodeOne(s[0]) + (Encode(s[1..]) + EncodeOne(t)) == (EncodeOne(s[0]) + Encode(s[1..])) + EncodeOne(t);
    }
  }

  /** Writing a parsed list out again gives its bytes, but for one left over. */
  lemma {:induction false} EncodeParsed(b: seq<nat>)
    requires WellFormed(b)
    ensures Encode(Parse(b)) <= b
    decreases |b|
  {
    if |b| >= 2 {
      var n := b[1] + 2;
      EncodeParsed(b[n..]);
      var s := Parse(b);
      assert s[1..] == Parse(b[n..]);
      assert EncodeOne(s[0]) == b[..n];
    }
  }

  /** And the bytes of any list are parsed as that list. */
  lemma {:induction false} ParseEncoded(s: seq<Tlv>)
    ensures WellFormed(Encode(s)) && Parse(Encode(s)) == s
    decreases |s|
  {
    if s != [] {
      ParseEncoded(s[1..]);
      var b, n := Encode(s), |s[0].value| + 2;
      assert b == EncodeOne(s[0]) + Encode(s[1..]);
      assert b[n..] == Encode(s[1..]) && b[2..n] == s[0].value && b[0] == s[0].kind && b[1] == |s[0].value|;
    }
  }

  lemma PrefixOfList(b: seq<nat>, m: nat)
    requires WellFormed(b) && m <= |Encode(Parse(b))|
    ensures m <= |b| && b[..m] == Encode(Parse(b))[..m]
  {
    EncodeParsed(b);
  }

  /** One step through the bytes of a list is one entry of it. */
  lemma ParseStep(b: seq<nat>, xx: nat)
    requires xx + 2 <= |b| && WellFormed(b[xx..])
    ensures var next := xx + b[xx + 1] + 2;
            && next <= |b| && WellFormed(b[next..])
            && Parse(b[xx..]) == [Tlv(b[xx], b[xx + 2..next])] + Parse(b[next..])
  {
    var next := xx + b[xx + 1] + 2;
    assert b[xx..][b[xx + 1] + 2..] == b[next..];
    assert b[xx..][2..b[xx + 1] + 2] == b[xx + 2..next];
  }

  /** What remains to be done with the rest `s` of a list, when `kept` has been kept of it so far. */
  ghost predicate Halfway(r: Outcome, c: Cache, last: Option<nat>, s: seq<Tlv>, kept: seq<Tlv>, app: bool, nci2: bool) {
    Ready(c, last, nci2) &&
    var rest := Filter(c, last, s, app, nci2);
    r == Outcome(rest.cache, kept + rest.kept)
  }

  lemma HalfwayStep(r: Outcome, c: Cache, last: Option<nat>, s: seq<Tlv>, kept: seq<Tlv>, app: bool, nci2: bool,
                    t: Tlv, rest: seq<Tlv>)
    requires s == [t] + rest && Halfway(r, c, last, s, kept, app, nci2)
    ensures var (update, c') := Update(c, last, t, app, nci2);
            Halfway(r, c', Slot(t, app, last), rest, if update then kept + [t] else kept, app, nci2)
  {
    FilterStep(c, last, s, app, nci2);
    assert s[1..] == rest && s[0] == t;
    hide Filter, Update, Slot, Ready;
  }

  class Manager {
    const nci2: bool
    var cache: Cache
    var queue: Queue

    ghost predicate Valid()
      reads this
    {
      ValidCache(cache, nci2) && InOrder(queue)
    }

    /** All values are zero, those with a length are empty, and nothing is pending. */
    constructor (nci2: bool)
      ensures Valid() && this.nci2 == nci2 && queue == Queue(0, 0, [], [], [])
      ensures forall k: nat :: Tracked(k) ==>
                && k in cache && |Value(cache, k)| == (if Sized(k) then 0 else MaxLen(k, nci2))
                && forall x :: x in Value(cache, k) ==> x == 0
    {
      this.nci2 := nci2;
      queue := Queue(0, 0, [], [], []);
      cache := map k: nat | k < 0x100 && Tracked(k) :: Blank(k, nci2);
    }

    static function Blank(k: nat, nci2: bool): (s: Store)
      ensures |s.memory| == MaxLen(k, nci2) && s.len == (if Sized(k) then 0 else MaxLen(k, nci2))
      ensures forall i :: 0 <= i < |s.memory| ==> s.memory[i] == 0
    {
      Store(seq(MaxLen(k, nci2), _ => 0), if Sized(k) then 0 else MaxLen(k, nci2))
    }

    /** Once the version of the controller interface is known, the values that it has at the start are stored. */
    method StoreDefaults()
      requires Valid()
      modifies this`cache
      ensures Valid()
      ensures Value(cache, FWI) == [0x04] && Value(cache, WT) == [14]
      ensures forall k :: IsT3tId(k) ==> k in cache && Value(cache, k) == T3tId(nci2)
      ensures LF_T3T_PMM in cache && (!nci2 ==> Value(cache, LF_T3T_PMM) == Repeated(0xFF, 8))
      ensures forall k: nat :: Tracked(k) && k != FWI && k != WT && !IsT3tId(k) && (nci2 || k != LF_T3T_PMM) ==>
                Value(cache, k) == Value(old(cache), k)
    {
      ghost var before := cache;
      var xx := 0;
      while xx < LISTEN_INFO_MAX
        invariant xx <= LISTEN_INFO_MAX && ValidCache(cache, nci2)
        invariant forall k: nat :: Tracked(k) ==>
                    Value(cache, k) == if LF_T3T_ID1 <= k < LF_T3T_ID1 + xx then T3tId(nci2) else Value(before, k)
      {
        StoreValue(LF_T3T_ID1 + xx, T3tId(nci2));
        xx := xx + 1;
      }
      if !nci2 {
        StoreValue(LF_T3T_PMM, Repeated(0xFF, 8));
      }
      StoreValue(FWI, [0x04]);
      StoreValue(WT, [14]);
    }

    method StoreValue(k: nat, value: seq<nat>)
      requires ValidCache(cache, nci2) && Tracked(k) && !Sized(k) && |value| == MaxLen(k, nci2)
      modifies this`cache
      ensures ValidCache(cache, nci2)
      ensures forall j: nat :: Tracked(j) ==> Value(cache, j) == if j == k then value else Value(old(cache), j)
    {
      hide MaxLen, Tracked;
      assert ValidStore(cache[k], k, nci2);
      cache := cache[k := Store(value, |value|)];
    }

    static function Repeated(x: nat, n: nat): (s: seq<nat>)
      ensures |s| == n && forall i :: 0 <= i < n ==> s[i] == x
    {
      seq(n, _ => x)
    }

    /** The identifier of a type 3 tag: no system code, no NFCID2, and with NCI 2.0 no parameters. */
    static function T3tId(nci2: bool): (s: seq<nat>)
      ensures |s| == if nci2 then 0x12 else 0x0A
    {
      [0xFF, 0xFF, 0x02, 0xFE] + Repeated(0, 6) + if nci2 then Repeated(0xFF, 8) else []
    }

    /** A response: tells the application if the request was its own. */
    method OnResponse() returns (told: bool)
      requires Valid()
      modifies this`queue
      ensures Valid() && queue == Pop(old(queue))
      ensures told <==> old(queue.num) > 0 && old(queue.accepted)[|old(queue.told)|]
    {
      PopInOrder(queue);
      told := queue.mask % 2 == 1;
      if queue.num > 0 {
        queue := queue.(mask := queue.mask / 2, num := queue.num - 1, told := queue.told + [told]);
      } else {
        queue := queue.(strays := queue.strays + [told]);
      }
    }

    /** Sends what is new in the first `n` bytes of a list, compacting it unless it is the application's, and
        returns what was handed to the controller, which may or may not accept it. */
    method CheckSetConfig(list: array<nat>, n: nat, app: bool, accepts: bool) returns (ok: bool, sent: Option<seq<nat>>)
      requires Valid() && n <= list.Length && n <= 0xff && WellFormed(list[..n])
      modifies this`cache, this`queue, list
      ensures Valid()
      ensures old(queue).num >= PENDING_MAX ==>
                !ok && sent == None && cache == old(cache) && queue == old(queue) && list[..] == old(list[..])
      ensures old(queue).num < PENDING_MAX ==>
                && var s := Parse(old(list[..n]));
                && var r := Filter(old(cache), None, s, app, nci2);
                && cache == r.cache && |Encode(r.kept)| <= |Encode(s)|
                && (app ==> list[..] == old(list[..]))
                && sent == (if r.kept == [] then None
                            else if app then Some(CutOff(s, r.kept))
                            else Some(Encode(r.kept)))
                && ok == (sent == None || accepts)
                && queue == if sent.Some? && accepts then Push(old(queue), app) else old(queue)
    {
      if queue.num >= PENDING_MAX {
        return false, None;
      }
      ghost var s := Parse(list[..n]);
      ghost var r := Filter(cache, None, s, app, nci2);
      var updated := Scan(list, n, app);
      KeptIsNoLonger(old(cache), None, s, app, nci2);
      KeptSize(r.kept);
      PrefixOfList(old(list[..n]), |Encode(r.kept)|);
      if updated == 0 {
        return true, None;
      }
      assert list[..updated] == if app then CutOff(s, r.kept) else Encode(r.kept);
      sent := Some(list[..updated]);
      ok := accepts;
      if accepts {
        PushInOrder(queue, app);
        queue := Push(queue, app);
      }
    }

    method Scan(list: array<nat>, n: nat, app: bool) returns (updated: nat)
      requires ValidCache(cache, nci2) && n <= list.Length && WellFormed(list[..n])
      modifies this`cache, list
      ensures var r := Filter(old(cache), None, Parse(old(list[..n])), app, nci2);
              && ValidCache(cache, nci2) && cache == r.cache && updated == |Encode(r.kept)| <= n
              && if app then list[..] == old(list[..]) else list[..updated] == Encode(r.kept)
    {
      ghost var b := list[..n];
      ghost var r := Filter(cache, None, Parse(b), app, nci2);
      ghost var kept: seq<Tlv> := [];
      var xx, last: Option<nat> := 0, None;
      updated := 0;
      assert b[0..] == b && Encode([]) == [];
      hide Ready, ValidCache, Filter, EncodeOne, Halfway, Parse, WellFormed;
      assert Halfway(r, cache, last, Parse(b[0..]), kept, app, nci2) by { HalfwayAtStart(cache, Parse(b), app); }
      while n - xx >= 2
        invariant xx <= n && Underway(list, list[..], b, xx, updated, kept, app, old(list[..]))
        invariant Halfway(r, cache, last, Parse(b[xx..]), kept, app, nci2)
      {
        updated, xx, last, kept := ScanOne(list, app, updated, xx, last, b, r, kept, old(list[..]));
      }
      Finished(r, cache, last, b[xx..], kept, app);
    }

    /** The bytes from `xx` on are still those of the list; before them is what is sent, or the list as it was. */
    ghost predicate Underway(list: array<nat>, bytes: seq<nat>, b: seq<nat>, xx: nat, updated: nat, kept: seq<Tlv>,
                             app: bool, before: seq<nat>) {
      && updated == |Encode(kept)| <= xx <= |b| <= |bytes| == list.Length
      && WellFormed(b[xx..]) && (forall i :: xx <= i < |b| ==> bytes[i] == b[i])
      && if app then bytes == before else bytes[..updated] == Encode(kept)
    }

    method ScanOne(list: array<nat>, app: bool, updated: nat, xx: nat, last: Option<nat>, ghost b: seq<nat>,
                   ghost r: Outcome, ghost kept: seq<Tlv>, ghost before: seq<nat>)
      returns (updated': nat, xx': nat, slot: Option<nat>, ghost kept': seq<Tlv>)
      requires xx + 2 <= |b| && Underway(list, list[..], b, xx, updated, kept, app, before)
      requires Halfway(r, cache, last, Parse(b[xx..]), kept, app, nci2)
      modifies this`cache, list
      ensures xx < xx' <= |b| && Underway(list, list[..], b, xx', updated', kept', app, before)
      ensures Halfway(r, cache, slot, Parse(b[xx'..]), kept', app, nci2)
    {
      var t, next := ReadEntry(list, xx, b);
      hide Ready, Filter, Encode, EncodeOne, Halfway, Parse, WellFormed, Update, Slot;
      HalfwayStep(r, cache, last, Parse(b[xx..]), kept, app, nci2, t, Parse(b[next..]));
      ReadyHalfway(r, cache, last, Parse(b[xx..]), kept, app);
      hide Underway;
      var update;
      update, slot := Examine(t, app, last);
      updated', kept' := KeepIf(update, list, app, updated, xx, next, t, kept, b, before);
      xx' := next;
    }

    method KeepIf(update: bool, list: array<nat>, app: bool, updated: nat, xx: nat, next: nat, ghost t: Tlv,
                  ghost kept: seq<Tlv>, ghost b: seq<nat>, ghost before: seq<nat>)
      returns (updated': nat, ghost kept': seq<Tlv>)
      requires xx + 2 <= next <= |b| && Underway(list, list[..], b, xx, updated, kept, app, before)
      requires WellFormed(b[next..]) && EncodeOne(t) == list[xx..next]
      modifies list
      ensures kept' == (if update then kept + [t] else kept)
      ensures Underway(list, list[..], b, next, updated', kept', app, before)
    {
      hide Encode, EncodeOne, WellFormed;
      updated', kept' := updated, kept;
      if update {
        Keep(list, app, updated, xx, next, t, kept);
        updated' := updated + (next - xx);
        kept' := kept + [t];
      }
    }

    /** The entry at `xx`, and where the next one starts. */
    method ReadEntry(list: array<nat>, xx: nat, ghost b: seq<nat>) returns (t: Tlv, next: nat)
      requires xx + 2 <= |b| <= list.Length && WellFormed(b[xx..]) && forall i :: xx <= i < |b| ==> list[i] == b[i]
      ensures xx + 2 <= next <= |b| && WellFormed(b[next..]) && Parse(b[xx..]) == [t] + Parse(b[next..])
      ensures EncodeOne(t) == list[xx..next]
    {
      ParseStep(b, xx);
      hide Parse, WellFormed;
      next := xx + list[xx + 1] + 2;
      t := Tlv(list[xx], list[xx + 2..next]);
      assert list[xx + 2..next] == b[xx + 2..next];
    }

    lemma ReadyHalfway(r: Outcome, c: Cache, last: Option<nat>, s: seq<Tlv>, kept: seq<Tlv>, app: bool)
      requires Halfway(r, c, last, s, kept, app, nci2)
      ensures Ready(c, last, nci2)
    {
    }

    lemma HalfwayAtStart(c: Cache, s: seq<Tlv>, app: bool)
      requires ValidCache(c, nci2)
      ensures Halfway(Filter(c, None, s, app, nci2), c, None, s, [], app, nci2)
    {
      var r := Filter(c, None, s, app, nci2);
      hide Filter;
      assert [] + r.kept == r.kept;
    }

    lemma Finished(r: Outcome, c: Cache, last: Option<nat>, b: seq<nat>, kept: seq<Tlv>, app: bool)
      requires WellFormed(b) && |b| < 2 && Halfway(r, c, last, Parse(b), kept, app, nci2)
      ensures ValidCache(c, nci2) && r == Outcome(c, kept)
    {
    }

    /** Adds the entry at `xx` to those that are sent, closing the gap before it in a list of the manager's. */
    method Keep(list: array<nat>, app: bool, updated: nat, xx: nat, next: nat, ghost t: Tlv, ghost kept: seq<Tlv>)
      requires updated == |Encode(kept)| <= xx < next <= list.Length && EncodeOne(t) == list[xx..next]
      requires app || list[..updated] == Encode(kept)
      modifies list
      ensures updated + (next - xx) == |Encode(kept + [t])|
      ensures forall i :: next <= i < list.Length ==> list[i] == old(list[i])
      ensures if app then list[..] == old(list[..]) else list[..updated + (next - xx)] == Encode(kept + [t])
    {
      EncodeAppend(kept, t);
      hide Encode, EncodeOne;
      if updated != xx && !app {
        CopyDown(list, updated, xx, next);
      }
    }

    /** Compares an entry with its store and brings the store up to date. */
    method Examine(t: Tlv, app: bool, last: Option<nat>) returns (update: bool, slot: Option<nat>)
      requires Ready(cache, last, nci2)
      modifies this`cache
      ensures (update, cache) == Update(old(cache), last, t, app, nci2) && slot == Slot(t, app, last)
    {
      var len, sized := |t.value|, false;
      slot, update := last, false;
      if t.kind == LB_SENSB_INFO {
        if app {
          slot, sized := Some(t.kind), true;
        }
      } else if Tracked(t.kind) {
        slot, sized := Some(t.kind), Sized(t.kind);
      } else {
        update, slot := true, None;
      }
      assert slot == Slot(t, app, last) && (slot.Some? ==> Tracked(slot.value) && sized == ComparesLength(t, app));
      hide Tracked, MaxLen, Slot, ComparesLength;
      if slot.Some? {
        var k := slot.value;
        assert ValidStore(cache[k], k, nci2);
        var store := cache[k];
        if len <= MaxLen(k, nci2) {
          if sized {
            if store.len != len {
              store := store.(len := len);
              update := true;
            } else if t.value != store.memory[..len] {
              update := true;
            }
          } else if len == MaxLen(k, nci2) {
            if t.value != store.memory[..len] {
              update := true;
            }
          }
        }
        if update {
          cache := cache[k := store.(memory := t.value + store.memory[len..])];
        }
      }
    }

    /** Moves the bytes from `from` up to `next` down to `to`. */
    method CopyDown(list: array<nat>, to: nat, from: nat, next: nat)
      requires to < from <= next <= list.Length
      modifies list
      ensures list[..to] == old(list[..to]) && list[to..to + (next - from)] == old(list[from..next])
      ensures forall i :: next <= i < list.Length ==> list[i] == old(list[i])
    {
      var i := 0;
      while from + i < next
        invariant from + i <= next && list[..to] == old(list[..to])
        invariant forall j :: to + i <= j < list.Length ==> list[j] == old(list[j])
        invariant list[to..to + i] == old(list[from..from + i])
      {
        list[to + i] := list[from + i];
        assert old(list[from..from + i + 1]) == old(list[from..from + i]) + [list[to + i]];
        i := i + 1;
      }
    }
  }
}
