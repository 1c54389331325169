/** How the modules' requests for RF discovery are reconciled (src/nfa/dm/nfa_dm_discover.cc): each entry of
    the table is granted a part of its mask, so that no two of them get in each other's way. */
module Arbitration {
  const NUM_ENTRIES := 8

  /** A bit of a discovery mask: one of the poll bits, or a technology and protocol to listen for. The bit
      for active-mode NFC-DEP on NFC-A is the same in both versions of the controller interface. */
  datatype Bit =
    | Poll(n: nat) | LaT1t | LaT2t | LaIsoDep | LaNfcDep | LbIsoDep | LfT3t | LfNfcDep | LIso15693 | LBPrime
    | LaActive | LfActive | LLegacy

  /** A mask is the set of its bits. */
  type Mask = set<Bit>

  /** An entry of the table: what a module asks for on behalf of a host, and what it is granted. */
  datatype Entry = Entry(inUse: bool, requested: Mask, host: nat, selected: Mask)

  /** The hosts that listen on NFC-A and NFC-B Prime, and the version of the controller interface. */
  datatype Routing = Routing(nfcA: nat, nfcBPrime: nat, nci2: bool)

  function PollBits(m: Mask): Mask {
    set b | b in m && b.Poll?
  }

  const TAGS: Mask := {LaT1t, LaT2t}
  const ISO_NFC_DEP: Mask := {LaIsoDep, LaNfcDep}
  const NFC_DEP: Mask := {LaNfcDep, LaActive}

  /** A mask has one of the bits. */
  predicate Meets(m: Mask, bits: Mask) {
    m * bits != {}
  }

  /** The listen bits that routing lets the entry ask for. */
  function Routed(e: Entry, r: Routing): Mask {
    (e.requested * if e.host == r.nfcA then TAGS + ISO_NFC_DEP + {LaActive} else ISO_NFC_DEP + {LaActive})
    + (e.requested * {LbIsoDep})
    + (e.requested * {LfT3t, LfNfcDep})
    + (e.requested * if r.nci2 then {} else {LfActive})
    + (e.requested * if e.host == r.nfcBPrime then {LBPrime} else {})
  }

  /** T1T and T2T listening goes to the first that asks, and takes NFC-A from everybody after it. */
  function YieldToTags(listen: Mask, mask: Mask): Mask {
    if Meets(mask, TAGS) then listen - TAGS - ISO_NFC_DEP else listen
  }

  function MakeWayForTags(listen: Mask, mask: Mask): Mask {
    if Meets(mask, ISO_NFC_DEP) && Meets(listen, TAGS) then mask - ISO_NFC_DEP else mask
  }

  /** NFC-DEP listening on NFC-A goes to the first that asks. */
  function YieldNfcDep(listen: Mask, mask: Mask): Mask {
    if Meets(mask, NFC_DEP) then listen - NFC_DEP else listen
  }

  /** What entry `e` is granted when `mask` has been granted before. */
  function Granted(e: Entry, r: Routing, mask: Mask): Mask {
    var listen := YieldToTags(Routed(e, r), mask);
    (PollBits(e.requested) - PollBits(mask)) + YieldNfcDep(listen, MakeWayForTags(listen, mask))
  }

  function Next(e: Entry, r: Routing, mask: Mask): Mask {
    if e.inUse then MakeWayForTags(YieldToTags(Routed(e, r), mask), mask) + Granted(e, r, mask) else mask
  }

  /** The mask after the first `n` entries. */
  function After(s: seq<Entry>, r: Routing, n: nat): Mask
    requires n <= |s|
  {
    if n == 0 then {} else Next(s[n - 1], r, After(s, r, n - 1))
  }

  function Selected(s: seq<Entry>, r: Routing, i: nat): Mask
    requires i < |s|
  {
    Granted(s[i], r, After(s, r, i))
  }

  // ---- polling -------------------------------------------------------------------------------------

  /** What the first `n` entries ask to poll for. */
  function PollRequests(s: seq<Entry>, n: nat): Mask
    requires n <= |s|
  {
    if n == 0 then {} else PollRequests(s, n - 1) + if s[n - 1].inUse then PollBits(s[n - 1].requested) else {}
  }

  lemma PollStep(e: Entry, r: Routing, mask: Mask)
    ensures PollBits(Granted(e, r, mask)) == PollBits(e.requested) - PollBits(mask)
    ensures PollBits(Next(e, r, mask)) == PollBits(mask) + if e.inUse then PollBits(e.requested) else {}
  {
  }

  /** Everything anybody wants to poll for is polled for, and nothing else. */
  lemma {:induction false} PollMask(s: seq<Entry>, r: Routing, n: nat)
    requires n <= |s|
    ensures PollBits(After(s, r, n)) == PollRequests(s, n)
  {
    if n > 0 {
      PollMask(s, r, n - 1);
      PollStep(s[n - 1], r, After(s, r, n - 1));
      hide Next, PollBits;
    } else {
    }
  }

  lemma {:induction false} PollRequestsGrow(s: seq<Entry>, i: nat, n: nat)
    requires i < n <= |s| && s[i].inUse
    ensures PollBits(s[i].requested) <= PollRequests(s, n)
  {
    if i < n - 1 {
      PollRequestsGrow(s, i, n - 1);
    }
  }

  /** No two modules poll for the same. */
  lemma PollGrantsAreDisjoint(s: seq<Entry>, r: Routing, i: nat, j: nat)
    requires i < j < |s| && s[i].inUse
    ensures PollBits(Selected(s, r, i)) !! PollBits(Selected(s, r, j))
  {
    PollStep(s[i], r, After(s, r, i));
    PollStep(s[j], r, After(s, r, j));
    PollMask(s, r, j);
    PollRequestsGrow(s, i, j);
    hide Granted, PollBits, After;
  }

  // ---- listening on NFC-A --------------------------------------------------------------------------

  /** Tag emulation and ISO-DEP or NFC-DEP at once, which NFC-A cannot do. */
  predicate Clashes(m: Mask) {
    Meets(m, TAGS) && Meets(m, ISO_NFC_DEP)
  }

  predicate AsksForTags(e: Entry, r: Routing) {
    e.inUse && e.host == r.nfcA && Meets(e.requested, TAGS)
  }

  predicate AsksForNfcDep(e: Entry) {
    e.inUse && Meets(e.requested, NFC_DEP)
  }

  function FirstTagAsker(s: seq<Entry>, r: Routing, n: nat): (k: nat)
    requires n <= |s|
    ensures k <= n && (k < n ==> AsksForTags(s[k], r)) && forall i :: 0 <= i < k ==> !AsksForTags(s[i], r)
  {
    if n == 0 then 0
    else
      var k := FirstTagAsker(s, r, n - 1);
      if k < n - 1 || AsksForTags(s[n - 1], r) then k else n
  }

  function FirstNfcDepAsker(s: seq<Entry>, n: nat): (k: nat)
    requires n <= |s|
    ensures k <= n && (k < n ==> AsksForNfcDep(s[k])) && forall i :: 0 <= i < k ==> !AsksForNfcDep(s[i])
  {
    if n == 0 then 0
    else
      var k := FirstNfcDepAsker(s, n - 1);
      if k < n - 1 || AsksForNfcDep(s[n - 1]) then k else n
  }

  lemma TagsStep(e: Entry, r: Routing, mask: Mask)
    ensures Meets(Next(e, r, mask), TAGS) <==> Meets(mask, TAGS) || AsksForTags(e, r)
    ensures e.inUse ==> (Meets(Granted(e, r, mask), TAGS) <==> !Meets(mask, TAGS) && AsksForTags(e, r))
  {
  }

  /** With tags granted already nothing more is granted on NFC-A but active mode. */
  lemma AfterTagsStep(e: Entry, r: Routing, mask: Mask)
    requires Meets(mask, TAGS)
    ensures LaIsoDep !in Granted(e, r, mask) && LaNfcDep !in Granted(e, r, mask)
    ensures Meets(Next(e, r, mask), ISO_NFC_DEP) <==> Meets(mask, ISO_NFC_DEP)
  {
  }

  /** The entry that is granted tags takes what it wants of ISO-DEP and NFC-DEP too, and nobody else keeps
      any of it. */
  lemma TagGrantStep(e: Entry, r: Routing, mask: Mask)
    requires !Meets(mask, TAGS) && AsksForTags(e, r)
    ensures LaIsoDep in Granted(e, r, mask) <==> LaIsoDep in e.requested
    ensures LaNfcDep in Granted(e, r, mask) <==> LaNfcDep in e.requested && LaActive !in mask
    ensures Next(e, r, mask) * ISO_NFC_DEP == Granted(e, r, mask) * ISO_NFC_DEP
  {
  }

  lemma NoTagStep(e: Entry, r: Routing, mask: Mask)
    requires !Meets(mask, TAGS) && e.inUse && !AsksForTags(e, r)
    ensures LaNfcDep in Granted(e, r, mask) <==> LaNfcDep in e.requested && !Meets(mask, NFC_DEP)
    ensures Next(e, r, mask) * NFC_DEP == if Meets(mask, NFC_DEP) then mask * NFC_DEP else e.requested * NFC_DEP
  {
  }

  /** Before anybody is granted tags, NFC-DEP on NFC-A is as the first that asks for it wants it. */
  lemma {:induction false} BeforeTags(s: seq<Entry>, r: Routing, n: nat)
    requires n <= FirstTagAsker(s, r, |s|)
    ensures !Meets(After(s, r, n), TAGS)
    ensures var d := FirstNfcDepAsker(s, n);
            After(s, r, n) * NFC_DEP == if d < n then s[d].requested * NFC_DEP else {}
  {
    if n > 0 {
      BeforeTags(s, r, n - 1);
      TagsStep(s[n - 1], r, After(s, r, n - 1));
      if s[n - 1].inUse {
        NoTagStep(s[n - 1], r, After(s, r, n - 1));
      }
      hide Next, FirstTagAsker;
    } else {
    }
  }

  lemma {:induction false} OnceTagsAlwaysTags(s: seq<Entry>, r: Routing, k: nat, n: nat)
    requires k < n <= |s| && AsksForTags(s[k], r)
    ensures Meets(After(s, r, n), TAGS)
  {
    TagsStep(s[n - 1], r, After(s, r, n - 1));
    if k < n - 1 {
      OnceTagsAlwaysTags(s, r, k, n - 1);
    }
    hide Next, Meets;
  }

  /** Whether the first that asks for tags asks for what clashes with them and can have it: ISO-DEP, or
      NFC-DEP unless active mode is taken by an entry before. */
  predicate FirstTagAskerClashes(s: seq<Entry>, r: Routing) {
    var k := FirstTagAsker(s, r, |s|);
    k < |s| && (LaIsoDep in s[k].requested || (LaNfcDep in s[k].requested && !ActiveTaken(s, k)))
  }

  /** The first of the entries before `k` to ask for NFC-DEP asks for active mode. */
  predicate ActiveTaken(s: seq<Entry>, k: nat)
    requires k <= |s|
  {
    var d := FirstNfcDepAsker(s, k);
    d < k && LaActive in s[d].requested
  }

  lemma ActiveTakenIs(s: seq<Entry>, r: Routing, k: nat)
    requires k == FirstTagAsker(s, r, |s|)
    ensures LaActive in After(s, r, k) <==> ActiveTaken(s, k)
  {
    BeforeTags(s, r, k);
    hide After, FirstNfcDepAsker;
    assert LaActive in After(s, r, k) <==> LaActive in After(s, r, k) * NFC_DEP;
  }

  /** What the tag asker leaves on NFC-A stays as it is. */
  lemma {:induction false} ClashFrom(s: seq<Entry>, r: Routing, k: nat, n: nat)
    requires k < n <= |s| && AsksForTags(s[k], r)
    ensures Clashes(After(s, r, n)) <==> Clashes(After(s, r, k + 1))
  {
    if k + 1 < n {
      ClashFrom(s, r, k, n - 1);
      OnceTagsAlwaysTags(s, r, k, n - 1);
      OnceTagsAlwaysTags(s, r, k, n);
      AfterTagsStep(s[n - 1], r, After(s, r, n - 1));
      hide Next, Meets;
    } else {
    }
  }

  /** The mask holds a clash exactly when the entry granted tags asked for one and could have it. In
      particular it holds none if no entry asks for one. */
  lemma ClashExactlyWhenAskedFor(s: seq<Entry>, r: Routing)
    ensures Clashes(After(s, r, |s|)) <==> FirstTagAskerClashes(s, r)
    ensures (forall e :: e in s && e.inUse ==> !Clashes(e.requested)) ==> !Clashes(After(s, r, |s|))
  {
    var k := FirstTagAsker(s, r, |s|);
    BeforeTags(s, r, k);
    if k < |s| {
      ClashFrom(s, r, k, |s|);
      TagGrantStep(s[k], r, After(s, r, k));
      OnceTagsAlwaysTags(s, r, k, k + 1);
      ActiveTakenIs(s, r, k);
      var granted, next := Granted(s[k], r, After(s, r, k)), After(s, r, k + 1);
      assert next == Next(s[k], r, After(s, r, k));
      hide Next, Granted, FirstTagAsker, ActiveTaken, After;
      assert Meets(next, ISO_NFC_DEP) <==> LaIsoDep in granted || LaNfcDep in granted by {
        assert forall b :: b in next * ISO_NFC_DEP <==> b in granted * ISO_NFC_DEP;
        assert Meets(next, ISO_NFC_DEP) == Meets(granted, ISO_NFC_DEP);
        assert LaIsoDep in granted <==> LaIsoDep in granted * ISO_NFC_DEP;
        assert LaNfcDep in granted <==> LaNfcDep in granted * ISO_NFC_DEP;
        assert forall b :: b in granted * ISO_NFC_DEP ==> b == LaIsoDep || b == LaNfcDep;
      }
      if LaIsoDep in s[k].requested || LaNfcDep in s[k].requested {
        assert LaIsoDep in s[k].requested * ISO_NFC_DEP || LaNfcDep in s[k].requested * ISO_NFC_DEP;
        assert Clashes(s[k].requested);
      }
    }
  }

  // ---- NFC-DEP listeners ---------------------------------------------------------------------------

  predicate ListensNfcDep(s: seq<Entry>, r: Routing, i: nat)
    requires i < |s|
  {
    s[i].inUse && LaNfcDep in Selected(s, r, i)
  }

  /** Who is granted NFC-DEP listening on NFC-A: before the first that asks for tags, the first that asks for
      NFC-DEP; then perhaps the one that asks for tags; after it nobody. */
  lemma ListenerIs(s: seq<Entry>, r: Routing, i: nat)
    requires i < |s|
    ensures var k := FirstTagAsker(s, r, |s|);
            ListensNfcDep(s, r, i) <==>
            s[i].inUse && LaNfcDep in s[i].requested &&
            ((i < k && i == FirstNfcDepAsker(s, |s|)) || (i == k && !ActiveTaken(s, k)))
  {
    var k := FirstTagAsker(s, r, |s|);
    var m := After(s, r, i);
    if s[i].inUse {
      if i > k {
        OnceTagsAlwaysTags(s, r, k, i);
        AfterTagsStep(s[i], r, m);
        hide Granted, After;
      } else if i == k {
        BeforeTags(s, r, k);
        TagGrantStep(s[k], r, m);
        ActiveTakenIs(s, r, k);
        hide Granted, After, ActiveTaken;
      } else {
        BeforeTags(s, r, i);
        NoTagStep(s[i], r, m);
        hide Granted, After;
        if LaNfcDep in s[i].requested {
          FirstAskerBefore(s, i);
        }
      }
    }
  }

  /** Whether an entry is the first that asks shows in the entries before it. */
  lemma FirstAskerBefore(s: seq<Entry>, i: nat)
    requires i < |s| && s[i].inUse && LaNfcDep in s[i].requested
    ensures i == FirstNfcDepAsker(s, |s|) <==> FirstNfcDepAsker(s, i) == i
    ensures FirstNfcDepAsker(s, i) < i ==> Meets(s[FirstNfcDepAsker(s, i)].requested, NFC_DEP)
  {
    assert LaNfcDep in s[i].requested * NFC_DEP;
    hide FirstNfcDepAsker;
  }

  /** At most one entry is granted NFC-DEP listening on NFC-A, except exactly when the first that asks for tags
      wants it too and the first to ask for it before wants it without active mode. */
  lemma OneNfcDepListenerExactly(s: seq<Entry>, r: Routing)
    ensures var k := FirstTagAsker(s, r, |s|);
            (forall i, j :: 0 <= i < j < |s| && ListensNfcDep(s, r, i) ==> !ListensNfcDep(s, r, j)) <==>
            !(k < |s| && LaNfcDep in s[k].requested && var d := FirstNfcDepAsker(s, k);
              d < k && LaNfcDep in s[d].requested && LaActive !in s[d].requested)
  {
    var k, first := FirstTagAsker(s, r, |s|), FirstNfcDepAsker(s, |s|);
    forall i | 0 <= i < |s|
      ensures ListensNfcDep(s, r, i) <==>
              s[i].inUse && LaNfcDep in s[i].requested && ((i < k && i == first) || (i == k && !ActiveTaken(s, k)))
    {
      ListenerIs(s, r, i);
    }
    hide ListensNfcDep;
    if k < |s| && LaNfcDep in s[k].requested {
      assert LaNfcDep in s[k].requested * NFC_DEP;
      var d := FirstNfcDepAsker(s, k);
      hide FirstNfcDepAsker, FirstTagAsker;
      if d < k {
        assert first == d;
      }
    }
  }

  // ---- every other bit -----------------------------------------------------------------------------

  /** Whether the entry asks for the bit on behalf of a host that may have it. */
  predicate Asks(e: Entry, b: Bit) {
    e.inUse && b in e.requested
  }

  predicate AsksBefore(s: seq<Entry>, b: Bit, n: nat)
    requires n <= |s|
  {
    exists j :: 0 <= j < n && Asks(s[j], b)
  }

  /** Listening on NFC-B and NFC-F is granted to all that ask, but active mode on NFC-F only under the older
      version and NFC-B Prime only to the host that it is routed to; listening for vicinity cards and the legacy
      bit are granted to nobody. */
  lemma OpenBitsExactly(s: seq<Entry>, r: Routing, i: nat)
    requires i < |s| && s[i].inUse
    ensures LbIsoDep in Selected(s, r, i) <==> LbIsoDep in s[i].requested
    ensures LfT3t in Selected(s, r, i) <==> LfT3t in s[i].requested
    ensures LfNfcDep in Selected(s, r, i) <==> LfNfcDep in s[i].requested
    ensures LfActive in Selected(s, r, i) <==> LfActive in s[i].requested && !r.nci2
    ensures LBPrime in Selected(s, r, i) <==> LBPrime in s[i].requested && s[i].host == r.nfcBPrime
    ensures LIso15693 !in Selected(s, r, i) && LLegacy !in Selected(s, r, i)
  {
    var m := After(s, r, i);
    OpenStep(s[i], r, m);
    RestrictedStep(s[i], r, m);
    assert Selected(s, r, i) == Granted(s[i], r, m);
    hide *;
  }

  lemma OpenStep(e: Entry, r: Routing, mask: Mask)
    ensures LbIsoDep in Granted(e, r, mask) <==> LbIsoDep in e.requested
    ensures LfT3t in Granted(e, r, mask) <==> LfT3t in e.requested
    ensures LfNfcDep in Granted(e, r, mask) <==> LfNfcDep in e.requested
  {
    hide Meets;
  }

  lemma RestrictedStep(e: Entry, r: Routing, mask: Mask)
    ensures LfActive in Granted(e, r, mask) <==> LfActive in e.requested && !r.nci2
    ensures LBPrime in Granted(e, r, mask) <==> LBPrime in e.requested && e.host == r.nfcBPrime
    ensures LIso15693 !in Granted(e, r, mask) && LLegacy !in Granted(e, r, mask)
  {
    hide Meets;
  }

  /** A technology is polled for on behalf of the first that asks for it. */
  lemma PollGrantExactly(s: seq<Entry>, r: Routing, i: nat, n: nat)
    requires i < |s| && s[i].inUse
    ensures Poll(n) in Selected(s, r, i) <==> Poll(n) in s[i].requested && !AsksBefore(s, Poll(n), i)
  {
    PollStep(s[i], r, After(s, r, i));
    PollMask(s, r, i);
    RequestedBefore(s, i, n);
    assert Poll(n) in Selected(s, r, i) <==> Poll(n) in PollBits(Selected(s, r, i));
    hide After, Granted, AsksBefore;
  }

  lemma {:induction false} RequestedBefore(s: seq<Entry>, i: nat, n: nat)
    requires i <= |s|
    ensures Poll(n) in PollRequests(s, i) <==> AsksBefore(s, Poll(n), i)
  {
    if i > 0 {
      RequestedBefore(s, i - 1, n);
    }
  }

  /** Tag emulation is granted to the first that asks for it on behalf of the host that NFC-A is routed to; ISO-DEP
      on NFC-A to all that ask for it up to that entry, and to nobody after it. */
  lemma NfcAGrantExactly(s: seq<Entry>, r: Routing, i: nat)
    requires i < |s| && s[i].inUse
    ensures var k := FirstTagAsker(s, r, |s|);
            && (LaIsoDep in Selected(s, r, i) <==> LaIsoDep in s[i].requested && i <= k)
            && (LaT1t in Selected(s, r, i) <==> LaT1t in s[i].requested && i == k)
            && (LaT2t in Selected(s, r, i) <==> LaT2t in s[i].requested && i == k)
  {
    var k, m := FirstTagAsker(s, r, |s|), After(s, r, i);
    if i > k {
      OnceTagsAlwaysTags(s, r, k, i);
      AfterTagsStep(s[i], r, m);
    } else {
      BeforeTags(s, r, i);
    }
    hide After, FirstTagAsker;
    if LaT1t in s[i].requested || LaT2t in s[i].requested {
      assert LaT1t in s[i].requested * TAGS || LaT2t in s[i].requested * TAGS;
    }
    NfcAStep(s[i], r, m);
    hide Granted, Meets;
  }

  lemma NfcAStep(e: Entry, r: Routing, mask: Mask)
    requires e.inUse
    ensures LaIsoDep in Granted(e, r, mask) <==> LaIsoDep in e.requested && !Meets(mask, TAGS)
    ensures LaT1t in Granted(e, r, mask) <==> LaT1t in e.requested && e.host == r.nfcA && !Meets(mask, TAGS)
    ensures LaT2t in Granted(e, r, mask) <==> LaT2t in e.requested && e.host == r.nfcA && !Meets(mask, TAGS)
  {
  }

  /** But for ISO-DEP and NFC-DEP on NFC-A, which make way for tags, the mask for the controller is all that has
      been granted. */
  lemma {:induction false} MaskIsGranted(s: seq<Entry>, r: Routing, n: nat, b: Bit)
    requires n <= |s| && b !in ISO_NFC_DEP
    ensures b in After(s, r, n) <==> exists j :: 0 <= j < n && s[j].inUse && b in Selected(s, r, j)
  {
    hide Next, Granted;
    if n > 0 {
      MaskIsGranted(s, r, n - 1, b);
      NextAdds(s[n - 1], r, After(s, r, n - 1), b);
    }
  }

  lemma NextAdds(e: Entry, r: Routing, mask: Mask, b: Bit)
    requires b !in ISO_NFC_DEP
    ensures b in Next(e, r, mask) <==> b in mask || (e.inUse && b in Granted(e, r, mask))
  {
  }

  /** So the controller listens on NFC-B and NFC-F if any entry asks for it and may have it. */
  lemma OpenBitsOfMask(s: seq<Entry>, r: Routing)
    ensures var m := After(s, r, |s|);
            && (LbIsoDep in m <==> AsksBefore(s, LbIsoDep, |s|))
            && (LfT3t in m <==> AsksBefore(s, LfT3t, |s|))
            && (LfNfcDep in m <==> AsksBefore(s, LfNfcDep, |s|))
            && (LfActive in m <==> AsksBefore(s, LfActive, |s|) && !r.nci2)
            && (LBPrime in m <==> exists j :: 0 <= j < |s| && Asks(s[j], LBPrime) && s[j].host == r.nfcBPrime)
            && LIso15693 !in m && LLegacy !in m
  {
    OpenBitOfMask(s, r, LbIsoDep);
    OpenBitOfMask(s, r, LfT3t);
    OpenBitOfMask(s, r, LfNfcDep);
    RestrictedBitsOfMask(s, r);
    hide After, AsksBefore;
  }

  lemma OpenBitOfMask(s: seq<Entry>, r: Routing, b: Bit)
    requires b == LbIsoDep || b == LfT3t || b == LfNfcDep
    ensures b in After(s, r, |s|) <==> AsksBefore(s, b, |s|)
  {
    hide After, Selected;
    MaskIsGranted(s, r, |s|, b);
    forall i | 0 <= i < |s| && s[i].inUse
      ensures b in Selected(s, r, i) <==> b in s[i].requested
    {
      OpenBitsExactly(s, r, i);
    }
  }

  lemma RestrictedBitsOfMask(s: seq<Entry>, r: Routing)
    ensures var m := After(s, r, |s|);
            && (LfActive in m <==> AsksBefore(s, LfActive, |s|) && !r.nci2)
            && (LBPrime in m <==> exists j :: 0 <= j < |s| && Asks(s[j], LBPrime) && s[j].host == r.nfcBPrime)
            && LIso15693 !in m && LLegacy !in m
  {
    hide After, Selected;
    MaskIsGranted(s, r, |s|, LfActive);
    MaskIsGranted(s, r, |s|, LBPrime);
    MaskIsGranted(s, r, |s|, LIso15693);
    MaskIsGranted(s, r, |s|, LLegacy);
    forall i | 0 <= i < |s| && s[i].inUse
      ensures LfActive in Selected(s, r, i) <==> LfActive in s[i].requested && !r.nci2
      ensures LBPrime in Selected(s, r, i) <==> LBPrime in s[i].requested && s[i].host == r.nfcBPrime
      ensures LIso15693 !in Selected(s, r, i) && LLegacy !in Selected(s, r, i)
    {
      OpenBitsExactly(s, r, i);
    }
  }

  /** On NFC-A it emulates the tags that the first to ask for any asks for, and then only that entry's ISO-DEP counts;
      with no tags asked for, anybody's does. */
  lemma NfcABitsOfMask(s: seq<Entry>, r: Routing)
    ensures var k, m := FirstTagAsker(s, r, |s|), After(s, r, |s|);
            && (LaT1t in m <==> k < |s| && LaT1t in s[k].requested)
            && (LaT2t in m <==> k < |s| && LaT2t in s[k].requested)
            && (LaIsoDep in m <==> if k < |s| then LaIsoDep in s[k].requested else AsksBefore(s, LaIsoDep, |s|))
  {
    var k := FirstTagAsker(s, r, |s|);
    MaskIsGranted(s, r, |s|, LaT1t);
    MaskIsGranted(s, r, |s|, LaT2t);
    forall i | 0 <= i < |s| && s[i].inUse
      ensures LaT1t in Selected(s, r, i) <==> LaT1t in s[i].requested && i == k
      ensures LaT2t in Selected(s, r, i) <==> LaT2t in s[i].requested && i == k
    {
      NfcAGrantExactly(s, r, i);
    }
    IsoDepOfMask(s, r, |s|);
    hide After, Selected, FirstTagAsker;
  }

  /** ISO-DEP on NFC-A in the mask after the first `n` entries. */
  lemma {:induction false} IsoDepOfMask(s: seq<Entry>, r: Routing, n: nat)
    requires n <= |s|
    ensures var k := FirstTagAsker(s, r, |s|);
            LaIsoDep in After(s, r, n) <==> if k < n then LaIsoDep in s[k].requested else AsksBefore(s, LaIsoDep, n)
  {
    hide Next, Meets;
    var k := FirstTagAsker(s, r, |s|);
    if n == 0 {
      assert LaIsoDep !in After(s, r, 0) && !AsksBefore(s, LaIsoDep, 0);
    } else {
      IsoDepOfMask(s, r, n - 1);
      var e, m := s[n - 1], After(s, r, n - 1);
      assert After(s, r, n) == Next(e, r, m);
      OneMoreAsks(s, LaIsoDep, n);
      if k < n - 1 {
        OnceTagsAlwaysTags(s, r, k, n - 1);
        AfterTagsKeepsIsoDep(e, r, m);
      } else {
        BeforeTags(s, r, n - 1);
        BeforeTagsIsoDep(e, r, m);
        assert AsksForTags(e, r) <==> k == n - 1;
        assert Asks(e, LaIsoDep) <==> e.inUse && LaIsoDep in e.requested;
        assert AsksForTags(e, r) ==> e.inUse;
      }
    }
    hide *;
  }

  lemma OneMoreAsks(s: seq<Entry>, b: Bit, n: nat)
    requires 0 < n <= |s|
    ensures AsksBefore(s, b, n) <==> AsksBefore(s, b, n - 1) || Asks(s[n - 1], b)
  {
  }

  lemma AfterTagsKeepsIsoDep(e: Entry, r: Routing, mask: Mask)
    requires Meets(mask, TAGS)
    ensures LaIsoDep in Next(e, r, mask) <==> LaIsoDep in mask
  {
  }

  lemma BeforeTagsIsoDep(e: Entry, r: Routing, mask: Mask)
    requires !Meets(mask, TAGS)
    ensures LaIsoDep in Next(e, r, mask) <==> Asks(e, LaIsoDep) || (LaIsoDep in mask && !AsksForTags(e, r))
  {
    if LaIsoDep in mask {
      assert LaIsoDep in mask * ISO_NFC_DEP;
    }
  }

  /** NFC-DEP on NFC-A in the mask for the controller: what the first tag asker wants of it and can have, or with no
      tags asked for what the first to ask for any NFC-DEP wants. */
  lemma NfcDepOfMask(s: seq<Entry>, r: Routing)
    ensures var k, d := FirstTagAsker(s, r, |s|), FirstNfcDepAsker(s, |s|);
            LaNfcDep in After(s, r, |s|) <==>
            if k < |s| then LaNfcDep in s[k].requested && !ActiveTaken(s, k)
            else d < |s| && LaNfcDep in s[d].requested
  {
    var k, d := FirstTagAsker(s, r, |s|), FirstNfcDepAsker(s, |s|);
    BeforeTags(s, r, k);
    if k < |s| {
      NfcDepStays(s, r, k, |s|);
      TagGrantStep(s[k], r, After(s, r, k));
      ActiveTakenIs(s, r, k);
      var granted, next := Granted(s[k], r, After(s, r, k)), After(s, r, k + 1);
      assert LaNfcDep in next <==> LaNfcDep in next * ISO_NFC_DEP;
      assert LaNfcDep in granted <==> LaNfcDep in granted * ISO_NFC_DEP;
    } else {
      assert LaNfcDep in After(s, r, |s|) <==> LaNfcDep in After(s, r, |s|) * NFC_DEP;
    }
    hide *;
  }

  lemma {:induction false} NfcDepStays(s: seq<Entry>, r: Routing, k: nat, n: nat)
    requires k < n <= |s| && AsksForTags(s[k], r)
    ensures LaNfcDep in After(s, r, n) <==> LaNfcDep in After(s, r, k + 1)
  {
    if k + 1 < n {
      NfcDepStays(s, r, k, n - 1);
      OnceTagsAlwaysTags(s, r, k, n - 1);
      NfcDepStaysStep(s[n - 1], r, After(s, r, n - 1));
      hide Next, Meets;
    }
  }

  lemma NfcDepStaysStep(e: Entry, r: Routing, mask: Mask)
    requires Meets(mask, TAGS)
    ensures LaNfcDep in Next(e, r, mask) <==> LaNfcDep in mask
  {
  }

  /** Active-mode NFC-DEP on NFC-A: up to the first that asks for tags it goes to the first that asks for any
      NFC-DEP, or to the tag asker if no entry before has active mode; after that to the first that asks for it, if
      there was no NFC-DEP granted until then. */
  lemma ActiveGrantExactly(s: seq<Entry>, r: Routing, i: nat)
    requires i < |s| && s[i].inUse
    ensures var k := FirstTagAsker(s, r, |s|);
            LaActive in Selected(s, r, i) <==>
            LaActive in s[i].requested &&
            if i < k then FirstNfcDepAsker(s, i) == i
            else if i == k then !ActiveTaken(s, k)
            else !ActiveTaken(s, k) && !Meets(s[k].requested, NFC_DEP)
                 && forall j :: k < j < i ==> !Asks(s[j], LaActive)
  {
    var k, m := FirstTagAsker(s, r, |s|), After(s, r, i);
    assert i <= k ==> !Meets(m, TAGS) by {
      if i <= k {
        BeforeTags(s, r, i);
      }
    }
    assert Selected(s, r, i) == Granted(s[i], r, m);
    if i < k {
      BeforeTags(s, r, i);
      assert !AsksForTags(s[i], r);
      ActiveStep(s[i], r, m);
      assert Meets(m, NFC_DEP) <==> FirstNfcDepAsker(s, i) < i;
    } else if i == k {
      ActiveTakenIs(s, r, k);
      ActiveTagStep(s[i], r, m);
    } else {
      NfcDepAfterTags(s, r, k, i);
      OnceTagsAlwaysTags(s, r, k, i);
      ActiveStep(s[i], r, m);
    }
    hide *;
  }

  lemma ActiveStep(e: Entry, r: Routing, mask: Mask)
    requires e.inUse && (Meets(mask, TAGS) || !AsksForTags(e, r))
    ensures LaActive in Granted(e, r, mask) <==> LaActive in e.requested && !Meets(mask, NFC_DEP)
  {
  }

  lemma ActiveTagStep(e: Entry, r: Routing, mask: Mask)
    requires !Meets(mask, TAGS) && AsksForTags(e, r)
    ensures LaActive in Granted(e, r, mask) <==> LaActive in e.requested && LaActive !in mask
    ensures Meets(Next(e, r, mask), NFC_DEP) <==> LaActive in mask || Meets(e.requested, NFC_DEP)
  {
    var listen := YieldToTags(Routed(e, r), mask);
    assert Meets(listen, TAGS) && listen * NFC_DEP == e.requested * NFC_DEP;
    var way := MakeWayForTags(listen, mask);
    assert way * NFC_DEP == mask * {LaActive} by {
      if LaNfcDep in mask {
        assert LaNfcDep in mask * ISO_NFC_DEP;
      }
    }
    assert Meets(way, NFC_DEP) <==> LaActive in mask by {
      assert LaActive in way * NFC_DEP <==> LaActive in mask;
    }
    var next := Next(e, r, mask);
    assert next * NFC_DEP == way * NFC_DEP + Granted(e, r, mask) * NFC_DEP;
    assert Granted(e, r, mask) * NFC_DEP == if LaActive in mask then {} else e.requested * NFC_DEP;
  }

  /** Once tags are granted, what there is of NFC-DEP comes from before, from that entry, or from active mode after. */
  lemma {:induction false} NfcDepAfterTags(s: seq<Entry>, r: Routing, k: nat, n: nat)
    requires k == FirstTagAsker(s, r, |s|) && k < n <= |s|
    ensures Meets(After(s, r, n), NFC_DEP) <==>
            || ActiveTaken(s, k)
            || Meets(s[k].requested, NFC_DEP)
            || exists j :: k < j < n && Asks(s[j], LaActive)
  {
    var m := After(s, r, n - 1);
    hide FirstTagAsker, ActiveTaken;
    if n == k + 1 {
      BeforeTags(s, r, k);
      ActiveTakenIs(s, r, k);
      ActiveTagStep(s[k], r, m);
      hide Next, Meets;
    } else {
      NfcDepAfterTags(s, r, k, n - 1);
      OnceTagsAlwaysTags(s, r, k, n - 1);
      LaterNfcDep(s[n - 1], r, m);
      hide Next, Meets;
    }
  }

  lemma LaterNfcDep(e: Entry, r: Routing, mask: Mask)
    requires Meets(mask, TAGS)
    ensures Meets(Next(e, r, mask), NFC_DEP) <==> Meets(mask, NFC_DEP) || Asks(e, LaActive)
  {
    var next := Next(e, r, mask);
    if !Meets(mask, NFC_DEP) {
      assert next * NFC_DEP == if Asks(e, LaActive) then {LaActive} else {};
    } else {
      assert mask * NFC_DEP <= next * NFC_DEP;
    }
  }

  // ---- the loop ------------------------------------------------------------------------------------

  /** Grants every entry in use its part, and returns the mask for the controller. */
  method Arbitrate(entries: array<Entry>, r: Routing) returns (mask: Mask)
    requires entries.Length == NUM_ENTRIES
    modifies entries
    ensures var s := old(entries[..]);
            && mask == After(s, r, |s|)
            && forall i :: 0 <= i < |s| ==>
                 entries[i] == if s[i].inUse then s[i].(selected := Selected(s, r, i)) else s[i]
  {
    ghost var s := entries[..];
    mask := {};
    for i := 0 to NUM_ENTRIES
      invariant mask == After(s, r, i)
      invariant forall j :: 0 <= j < i ==>
                  entries[j] == if s[j].inUse then s[j].(selected := Selected(s, r, j)) else s[j]
      invariant forall j :: i <= j < |s| ==> entries[j] == s[j]
    {
      if entries[i].inUse {
        var selected, next := GrantOne(entries[i], r, mask);
        entries[i] := entries[i].(selected := selected);
        mask := next;
      }
    }
  }

  /** The body of the loop for one entry. */
  method GrantOne(e: Entry, r: Routing, before: Mask) returns (selected: Mask, mask: Mask)
    requires e.inUse
    ensures selected == Granted(e, r, before) && mask == Next(e, r, before)
  {
    mask := before;
    var poll := PollBits(e.requested);
    poll := poll - PollBits(mask);
    var listen: Mask := {};
    if e.host == r.nfcA {
      listen := listen + e.requested * (TAGS + ISO_NFC_DEP);
      listen := listen + e.requested * {LaActive};
    } else {
      listen := listen + e.requested * {LaIsoDep};
      listen := listen + e.requested * {LaNfcDep};
      listen := listen + e.requested * {LaActive};
    }
    listen := listen + e.requested * {LbIsoDep};
    listen := listen + e.requested * {LfT3t, LfNfcDep};
    if !r.nci2 {
      listen := listen + e.requested * {LfActive};
    }
    if e.host == r.nfcBPrime {
      listen := listen + e.requested * {LBPrime};
    }
    assert listen == Routed(e, r);
    if mask * TAGS != {} {
      listen := listen - (TAGS + ISO_NFC_DEP);
    }
    assert listen == YieldToTags(Routed(e, r), before);
    hide Routed, YieldToTags;
    if mask * ISO_NFC_DEP != {} && listen * TAGS != {} {
      mask := mask - ISO_NFC_DEP;
    }
    if mask * NFC_DEP != {} {
      listen := listen - NFC_DEP;
    }
    selected := poll + listen;
    mask := mask + selected;
  }
}
