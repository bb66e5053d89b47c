/**
 The BR/EDR link keys: sixteen slots searched linearly, with a write index that moves past every
 slot it was used for. Address 0 marks an empty slot.
 */
module LinkKeyRing {
  import opened Options
  import opened BondSlots

  type Bdaddr = int
  type LinkKey = int

  type LinkEntry = Entry<LinkKey>
  type LinkRing = Ring<LinkKey>

  function Load(r: LinkRing, addr: Bdaddr): Option<LinkKey> {
    var i := LastMatch(r.slots, addr);
    if i < 0 then None else Some(r.slots[i].bond)
  }

  function Store(r: LinkRing, e: LinkEntry): (r': LinkRing)
    requires r.Valid()
    ensures r'.Valid()
  {
    var at := Target(r, e.addr);
    Ring(NextIndex(r, at), r.slots[at := e])
  }

  // ----- the ring on an array

  class LinkKeys {
    var index: nat
    const linkKeys: array<LinkEntry>

    ghost predicate Valid()
      reads this, linkKeys
    {
      View().Valid()
    }

    ghost function View(): LinkRing
      reads this, linkKeys
    {
      Ring(index, linkKeys[..])
    }

    constructor ()
      ensures Valid() && fresh(linkKeys) && View() == Empty()
    {
      index := 0;
      linkKeys := new LinkEntry[SLOTS](_ => Entry(0, 0));
    }

    method LoadLinkKey(addr: Bdaddr) returns (key: Option<LinkKey>)
      requires Valid()
      ensures key == Load(View(), addr)
    {
      key := None;
      for i := 0 to SLOTS
        invariant key == Load(Ring(index, linkKeys[..i]), addr)
      {
        assert linkKeys[..i + 1][..i] == linkKeys[..i];
        if addr == linkKeys[i].addr {
          key := Some(linkKeys[i].bond);
        }
      }
      assert linkKeys[..SLOTS] == linkKeys[..];
    }

    method StoreLinkKey(e: LinkEntry)
      requires Valid()
      modifies this`index, linkKeys
      ensures Valid() && View() == Store(old(View()), e)
    {
      var at := index;
      for i := 0 to SLOTS
        invariant at == if LastMatch(linkKeys[..i], e.addr) < 0 then index else LastMatch(linkKeys[..i], e.addr)
      {
        assert linkKeys[..i + 1][..i] == linkKeys[..i];
        if e.addr == linkKeys[i].addr {
          at := i;
        }
      }
      assert linkKeys[..SLOTS] == linkKeys[..];
      linkKeys[at] := e;
      if at == index {
        index := (index + 1) % SLOTS;
      }
    }
  }

  // ----- what a run of stores does

  function Empty(): LinkRing {
    Ring(0, seq(SLOTS, _ => Entry(0, 0)))
  }

  ghost predicate Unique(r: LinkRing) {
    forall i, j :: 0 <= i < j < |r.slots| && r.slots[i].addr != 0 ==> r.slots[i].addr != r.slots[j].addr
  }

  lemma StoreKeepsUnique(r: LinkRing, e: LinkEntry)
    requires r.Valid() && Unique(r) && e.addr != 0
    ensures Unique(Store(r, e))
  {
  }

  /** The newest entry for an address is the one a load returns. */
  lemma LoadsWhatWasStored(r: LinkRing, e: LinkEntry)
    requires r.Valid() && Unique(r) && e.addr != 0
    ensures Load(Store(r, e), e.addr) == Some(e.bond)
  {
    var i := LastMatch(r.slots, e.addr);
    StoreKeepsUnique(r, e);
    assert Store(r, e).slots[if i < 0 then r.index else i] == e;
  }

  function Stores(r: LinkRing, es: seq<LinkEntry>): (r': LinkRing)
    requires r.Valid()
    ensures r'.Valid()
    decreases |es|
  {
    if es == [] then r else Stores(Store(r, es[0]), es[1..])
  }

  /** How often the write index moves during the stores. */
  function Moves(r: LinkRing, es: seq<LinkEntry>): nat
    requires r.Valid()
    decreases |es|
  {
    if es == [] then 0
    else (if Store(r, es[0]).index != r.index then 1 else 0) + Moves(Store(r, es[0]), es[1..])
  }

  /** How often the write index moves before it stands at slot `i`. */
  function Distance(r: LinkRing, i: nat): nat
    requires r.Valid() && i < SLOTS
  {
    if i >= r.index then i - r.index else i + SLOTS - r.index
  }

  predicate Others(es: seq<LinkEntry>, addr: Bdaddr) {
    forall k :: 0 <= k < |es| ==> es[k].addr != 0 && es[k].addr != addr
  }

  lemma {:induction false} AbsentStaysAbsent(r: LinkRing, addr: Bdaddr, es: seq<LinkEntry>)
    requires r.Valid() && Others(es, addr) && LastMatch(r.slots, addr) < 0
    ensures LastMatch(Stores(r, es).slots, addr) < 0
    decreases |es|
  {
    if es != [] {
      AbsentStaysAbsent(Store(r, es[0]), addr, es[1..]);
    }
  }

  /** Under stores for other addresses an entry is kept, unchanged, exactly as long as the write index
      has not moved past its slot. */
  lemma {:induction false} SurvivalIsExact(r: LinkRing, i: nat, es: seq<LinkEntry>)
    requires r.Valid() && Unique(r) && i < SLOTS && r.slots[i].addr != 0
    requires Others(es, r.slots[i].addr)
    ensures Load(Stores(r, es), r.slots[i].addr) ==
            if Moves(r, es) <= Distance(r, i) then Some(r.slots[i].bond) else None
    decreases |es|
  {
    var addr := r.slots[i].addr;
    if es == [] {
      assert LastMatch(r.slots, addr) == i;
    } else {
      var t := Store(r, es[0]);
      StoreKeepsUnique(r, es[0]);
      if t.slots[i] == r.slots[i] {
        SurvivalIsExact(t, i, es[1..]);
      } else {
        assert LastMatch(t.slots, addr) < 0;
        AbsentStaysAbsent(t, addr, es[1..]);
      }
    }
  }

  lemma {:induction false} MovesAtMostOncePerStore(r: LinkRing, es: seq<LinkEntry>)
    requires r.Valid()
    ensures Moves(r, es) <= |es|
    decreases |es|
  {
    if es != [] {
      MovesAtMostOncePerStore(Store(r, es[0]), es[1..]);
    }
  }

  /** Every store is for an address the ring does not hold at that point. */
  predicate AllFresh(r: LinkRing, es: seq<LinkEntry>)
    requires r.Valid()
    decreases |es|
  {
    es == [] || (LastMatch(r.slots, es[0].addr) < 0 && AllFresh(Store(r, es[0]), es[1..]))
  }

  lemma {:induction false} FreshStoresMove(r: LinkRing, es: seq<LinkEntry>)
    requires r.Valid() && AllFresh(r, es)
    ensures Moves(r, es) == |es|
    decreases |es|
  {
    if es != [] {
      FreshStoresMove(Store(r, es[0]), es[1..]);
    }
  }

  /** A key stored for a new device survives any fifteen stores for other devices. */
  lemma NewKeySurvivesFifteen(r: LinkRing, e: LinkEntry, es: seq<LinkEntry>)
    requires r.Valid() && Unique(r) && e.addr != 0 && LastMatch(r.slots, e.addr) < 0
    requires Others(es, e.addr) && |es| <= SLOTS - 1
    ensures Load(Stores(Store(r, e), es), e.addr) == Some(e.bond)
  {
    var t := Store(r, e);
    StoreKeepsUnique(r, e);
    MovesAtMostOncePerStore(t, es);
    SurvivalIsExact(t, r.index, es);
  }

  /** It is gone after sixteen further new devices. */
  lemma NewKeyGoneAfterSixteen(r: LinkRing, e: LinkEntry, es: seq<LinkEntry>)
    requires r.Valid() && Unique(r) && e.addr != 0 && LastMatch(r.slots, e.addr) < 0
    requires Others(es, e.addr) && AllFresh(Store(r, e), es) && |es| >= SLOTS
    ensures Load(Stores(Store(r, e), es), e.addr) == None
  {
    var t := Store(r, e);
    StoreKeepsUnique(r, e);
    FreshStoresMove(t, es);
    SurvivalIsExact(t, r.index, es);
  }

  lemma {:induction false} EveryRunIsUnique(r: LinkRing, es: seq<LinkEntry>)
    requires r.Valid() && Unique(r) && forall k :: 0 <= k < |es| ==> es[k].addr != 0
    ensures Unique(Stores(r, es))
    decreases |es|
  {
    if es != [] {
      StoreKeepsUnique(r, es[0]);
      EveryRunIsUnique(Store(r, es[0]), es[1..]);
    }
  }

  predicate Distinct(es: seq<LinkEntry>) {
    && (forall k :: 0 <= k < |es| ==> es[k].addr != 0)
    && forall j, k :: 0 <= j < k < |es| ==> es[j].addr != es[k].addr
  }

  lemma {:induction false} AllAreLoaded(r: LinkRing, es: seq<LinkEntry>, k: nat)
    requires r.Valid() && Unique(r) && Distinct(es) && k < |es| <= 16
    requires forall j :: 0 <= j < |es| ==> LastMatch(r.slots, es[j].addr) < 0
    ensures Load(Stores(r, es), es[k].addr) == Some(es[k].bond)
    decreases k
  {
    var t := Store(r, es[0]);
    StoreKeepsUnique(r, es[0]);
    if k == 0 {
      NewKeySurvivesFifteen(r, es[0], es[1..]);
    } else {
      assert forall j :: 0 <= j < |es[1..]| ==> es[1..][j] == es[j + 1];
      AllAreLoaded(t, es[1..], k - 1);
    }
  }

  /** Nothing is loaded from the empty ring, and of sixteen keys stored in it every one. */
  lemma SixteenKeysAreLoaded(es: seq<LinkEntry>, k: nat, addr: Bdaddr)
    requires Distinct(es) && k < |es| <= 16 && addr != 0
    ensures Load(Empty(), addr) == None && Load(Stores(Empty(), es), es[k].addr) == Some(es[k].bond)
  {
    AllAreLoaded(Empty(), es, k);
  }
}
