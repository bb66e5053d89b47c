/**
 The LE bonds: sixteen slots holding an address, a long term key and its identification, which
 arrive in two messages. Address 0 marks an empty slot. From the outside the ring is a map of at
 most sixteen addresses.
 */
module LeKeyRing {
  import opened Options
  import opened BondSlots

  type Address = int
  type Ltk = int
  type Ident = int

  type Bond = (Ltk, Ident)
  type LeEntry = Entry<Bond>
  type LeRing = Ring<Bond>

  const EMPTY: LeEntry := Entry(0, (0, 0))

  function Load(r: LeRing, addr: Address): Option<Bond> {
    var i := LastMatch(r.slots, addr);
    if i < 0 then None else Some(r.slots[i].bond)
  }

  function StoreLtk(r: LeRing, addr: Address, ltk: Ltk): (r': LeRing)
    requires r.Valid()
    ensures r'.Valid()
  {
    var at := Target(r, addr);
    Ring(NextIndex(r, at), r.slots[at := Entry(addr, (ltk, r.slots[at].bond.1))])
  }

  function StoreIdent(r: LeRing, addr: Address, ident: Ident): (r': LeRing)
    requires r.Valid()
    ensures r'.Valid()
  {
    var at := Target(r, addr);
    Ring(NextIndex(r, at), r.slots[at := Entry(addr, (r.slots[at].bond.0, ident))])
  }

  function Clear(r: LeRing, addr: Address): (r': LeRing)
    requires r.Valid()
    ensures r'.Valid()
  {
    Ring(r.index, seq(SLOTS, i requires 0 <= i < SLOTS => if r.slots[i].addr == addr then EMPTY else r.slots[i]))
  }

  // ----- the ring on an array

  class LeKeys {
    var index: nat
    const keys: array<LeEntry>

    ghost predicate Valid()
      reads this, keys
    {
      View().Valid()
    }

    ghost function View(): LeRing
      reads this, keys
    {
      Ring(index, keys[..])
    }

    constructor ()
      ensures Valid() && fresh(keys) && View() == NoBonds()
    {
      index := 0;
      keys := new LeEntry[SLOTS](_ => EMPTY);
    }

    method ClearLeLtk(addr: Address)
      requires Valid()
      modifies keys
      ensures Valid() && View() == Clear(old(View()), addr)
    {
      for i := 0 to SLOTS
        invariant forall k :: 0 <= k < i ==> keys[k] == (if old(keys[k]).addr == addr then EMPTY else old(keys[k]))
        invariant forall k :: i <= k < SLOTS ==> keys[k] == old(keys[k])
      {
        if keys[i].addr == addr {
          keys[i] := EMPTY;
        }
      }
    }

    method LoadLeLtk(addr: Address) returns (bond: Option<Bond>)
      requires Valid()
      ensures bond == Load(View(), addr)
    {
      bond := None;
      for i := 0 to SLOTS
        invariant bond == Load(Ring(index, keys[..i]), addr)
      {
        assert keys[..i + 1][..i] == keys[..i];
        if addr == keys[i].addr {
          bond := Some(keys[i].bond);
        }
      }
      assert keys[..SLOTS] == keys[..];
    }

    method FindTarget(addr: Address) returns (at: nat)
      requires Valid()
      ensures at == Target(View(), addr)
    {
      at := index;
      for i := 0 to SLOTS
        invariant at == if LastMatch(keys[..i], addr) < 0 then index else LastMatch(keys[..i], addr)
      {
        assert keys[..i + 1][..i] == keys[..i];
        if addr == keys[i].addr {
          at := i;
        }
      }
      assert keys[..SLOTS] == keys[..];
    }

    method StoreLeLtk(addr: Address, ltk: Ltk)
      requires Valid()
      modifies this`index, keys
      ensures Valid() && View() == StoreLtk(old(View()), addr, ltk)
    {
      var at := FindTarget(addr);
      keys[at] := keys[at].(bond := (ltk, keys[at].bond.1));
      keys[at] := keys[at].(addr := addr);
      if at == index {
        index := (index + 1) % SLOTS;
      }
    }

    method StoreLeIdent(addr: Address, ident: Ident)
      requires Valid()
      modifies this`index, keys
      ensures Valid() && View() == StoreIdent(old(View()), addr, ident)
    {
      var at := FindTarget(addr);
      keys[at] := keys[at].(bond := (keys[at].bond.0, ident));
      keys[at] := keys[at].(addr := addr);
      if at == index {
        index := (index + 1) % SLOTS;
      }
    }
  }

  // ----- the bounded map behind the ring

  function NoBonds(): LeRing {
    Ring(0, seq(SLOTS, _ => EMPTY))
  }

  ghost predicate Unique(r: LeRing) {
    forall i, j :: 0 <= i < j < |r.slots| && r.slots[i].addr != 0 ==> r.slots[i].addr != r.slots[j].addr
  }

  ghost function Addresses(slots: seq<LeEntry>): (s: set<Address>)
    ensures forall a :: a in s <==> a != 0 && exists i :: 0 <= i < |slots| && slots[i].addr == a
    ensures |s| <= |slots|
  {
    if slots == [] then {}
    else
      var rest, a := Addresses(slots[1..]), slots[0].addr;
      assert slots == [slots[0]] + slots[1..];
      if a == 0 then rest else rest + {a}
  }

  /** What a load would return, for every stored address. */
  ghost function Bonds(r: LeRing): map<Address, Bond>
    requires r.Valid()
  {
    map a | a in Addresses(r.slots) :: r.slots[Target(r, a)].bond
  }

  lemma LoadIsLookup(r: LeRing, addr: Address)
    requires r.Valid() && addr != 0
    ensures Load(r, addr) == if addr in Bonds(r) then Some(Bonds(r)[addr]) else None
    ensures |Bonds(r)| <= SLOTS
  {
    assert Bonds(r).Keys == Addresses(r.slots);
  }

  /** Storing half a bond changes that half for a known address. A new address takes the place of the
      entry under the write index and inherits the other half from it. */
  lemma StoreLtkUpdatesMap(r: LeRing, addr: Address, ltk: Ltk)
    requires r.Valid() && Unique(r) && addr != 0
    ensures var t := StoreLtk(r, addr, ltk);
            && Unique(t)
            && Bonds(t) == if addr in Bonds(r) then Bonds(r)[addr := (ltk, Bonds(r)[addr].1)]
                           else (Bonds(r) - {r.slots[r.index].addr})[addr := (ltk, r.slots[r.index].bond.1)]
  {
    var t, at := StoreLtk(r, addr, ltk), Target(r, addr);
    StoreUpdatesMap(r, t, addr, at);
  }

  lemma StoreIdentUpdatesMap(r: LeRing, addr: Address, ident: Ident)
    requires r.Valid() && Unique(r) && addr != 0
    ensures var t := StoreIdent(r, addr, ident);
            && Unique(t)
            && Bonds(t) == if addr in Bonds(r) then Bonds(r)[addr := (Bonds(r)[addr].0, ident)]
                           else (Bonds(r) - {r.slots[r.index].addr})[addr := (r.slots[r.index].bond.0, ident)]
  {
    var t, at := StoreIdent(r, addr, ident), Target(r, addr);
    StoreUpdatesMap(r, t, addr, at);
  }

  /** The map entry by entry. */
  ghost predicate BondIs(r: LeRing, a: Address, bond: Option<Bond>)
    requires r.Valid()
  {
    match bond
    case None => a !in Bonds(r)
    case Some(b) => a in Bonds(r) && Bonds(r)[a] == b
  }

  lemma BondAt(r: LeRing, a: Address)
    requires r.Valid()
    ensures BondIs(r, a, if a == 0 then None else Load(r, a))
  {
    assert a in Bonds(r) <==> a in Addresses(r.slots);
  }

  lemma SameBonds(r: LeRing, m: map<Address, Bond>)
    requires r.Valid()
    requires forall a :: BondIs(r, a, if a in m then Some(m[a]) else None)
    ensures Bonds(r) == m
  {
    var b := Bonds(r);
    assert forall a :: (a in b <==> a in m) && (a in b ==> b[a] == m[a]) by {
      forall a ensures (a in b <==> a in m) && (a in b ==> b[a] == m[a]) {
        assert BondIs(r, a, if a in m then Some(m[a]) else None);
      }
    }
  }

  lemma MatchAfterStore(r: LeRing, t: LeRing, addr: Address, at: nat, a: Address)
    requires r.Valid() && Unique(r) && addr != 0 && a != 0 && at == Target(r, addr)
    requires t.Valid() && t.slots[at].addr == addr && t.slots == r.slots[at := t.slots[at]]
    ensures LastMatch(t.slots, a) ==
            if a == addr then at else if a == r.slots[at].addr then -1 else LastMatch(r.slots, a)
  {
    var m := LastMatch(r.slots, a);
    if m >= 0 && m != at {
      assert t.slots[m].addr == a;
    }
  }

  lemma StoreKeepsUnique(r: LeRing, t: LeRing, addr: Address, at: nat)
    requires r.Valid() && Unique(r) && addr != 0 && at == Target(r, addr)
    requires t.Valid() && t.slots[at].addr == addr && t.slots == r.slots[at := t.slots[at]]
    ensures Unique(t)
  {
  }

  lemma BondAfterStore(r: LeRing, t: LeRing, addr: Address, at: nat, a: Address)
    requires r.Valid() && Unique(r) && addr != 0 && at == Target(r, addr)
    requires t.Valid() && t.slots[at].addr == addr && t.slots == r.slots[at := t.slots[at]]
    ensures a == addr ==> BondIs(t, a, Some(t.slots[at].bond))
    ensures a != addr && a == r.slots[at].addr ==> a !in Bonds(t)
    ensures a != addr && a != r.slots[at].addr ==> BondIs(t, a, if a in Bonds(r) then Some(Bonds(r)[a]) else None)
  {
    BondAt(t, a);
    BondAt(r, a);
    if a != 0 {
      MatchAfterStore(r, t, addr, at, a);
    }
  }

  lemma StoreReplaces(r: LeRing, t: LeRing, addr: Address, at: nat)
    requires r.Valid() && Unique(r) && addr != 0 && at == Target(r, addr)
    requires t.Valid() && t.slots[at].addr == addr && t.slots == r.slots[at := t.slots[at]]
    ensures Bonds(t) == (Bonds(r) - {r.slots[at].addr})[addr := t.slots[at].bond]
  {
    var b, was, bond := Bonds(r), r.slots[at].addr, t.slots[at].bond;
    forall a
      ensures BondIs(t, a, Replaced(b, was, addr, bond, a))
    {
      BondAfterStore(r, t, addr, at, a);
    }
    BondsReplaced(t, b, was, addr, bond);
  }

  lemma BondsReplaced(t: LeRing, b: map<Address, Bond>, was: Address, addr: Address, bond: Bond)
    requires t.Valid() && forall a :: BondIs(t, a, Replaced(b, was, addr, bond, a))
    ensures Bonds(t) == (b - {was})[addr := bond]
  {
    var m := (b - {was})[addr := bond];
    forall a
      ensures BondIs(t, a, if a in m then Some(m[a]) else None)
    {
      assert BondIs(t, a, Replaced(b, was, addr, bond, a));
    }
    SameBonds(t, m);
  }

  function Replaced(b: map<Address, Bond>, was: Address, addr: Address, bond: Bond, a: Address): Option<Bond> {
    if a == addr then Some(bond) else if a != was && a in b then Some(b[a]) else None
  }

  lemma StoreUpdatesMap(r: LeRing, t: LeRing, addr: Address, at: nat)
    requires r.Valid() && Unique(r) && addr != 0 && at == Target(r, addr)
    requires t.Valid() && t.slots[at].addr == addr && t.slots == r.slots[at := t.slots[at]]
    ensures Unique(t)
    ensures Bonds(t) == (if addr in Bonds(r) then Bonds(r) else Bonds(r) - {r.slots[r.index].addr})
                        [addr := t.slots[at].bond]
  {
    StoreKeepsUnique(r, t, addr, at);
    StoreReplaces(r, t, addr, at);
    TargetOf(r, addr);
    ReplaceKey(Bonds(r), addr, t.slots[at].bond);
  }

  lemma TargetOf(r: LeRing, addr: Address)
    requires r.Valid() && addr != 0
    ensures if addr in Bonds(r) then r.slots[Target(r, addr)].addr == addr else Target(r, addr) == r.index
  {
    BondAt(r, addr);
  }

  lemma ReplaceKey<K, V>(m: map<K, V>, k: K, v: V)
    ensures (m - {k})[k := v] == m[k := v]
  {
  }

  lemma MatchAfterClear(r: LeRing, addr: Address, a: Address)
    requires r.Valid() && addr != 0 && a != 0
    ensures LastMatch(Clear(r, addr).slots, a) == if a == addr then -1 else LastMatch(r.slots, a)
  {
    var t, m := Clear(r, addr), LastMatch(r.slots, a);
    if m >= 0 && a != addr {
      assert t.slots[m].addr == a;
    }
  }

  lemma BondAfterClear(r: LeRing, addr: Address, a: Address)
    requires r.Valid() && addr != 0
    ensures BondIs(Clear(r, addr), a, if a == 0 || a == addr then None else Load(r, a))
  {
    BondAt(Clear(r, addr), a);
    if a != 0 {
      MatchAfterClear(r, addr, a);
    }
  }

  /** Clearing an address removes it and nothing else. */
  lemma ClearRemovesFromMap(r: LeRing, addr: Address)
    requires r.Valid() && Unique(r) && addr != 0
    ensures var t := Clear(r, addr); Unique(t) && Bonds(t) == Bonds(r) - {addr} && Load(t, addr) == None
  {
    var t, m := Clear(r, addr), Bonds(r) - {addr};
    MatchAfterClear(r, addr, addr);
    forall a
      ensures BondIs(t, a, if a in m then Some(m[a]) else None)
    {
      BondAfterClear(r, addr, a);
      BondAt(r, a);
    }
    SameBonds(t, m);
  }

  /** The two halves of a bond stored back to back are loaded as a pair, for a new address as well. */
  lemma PairIsLoadedBack(r: LeRing, addr: Address, ltk: Ltk, ident: Ident)
    requires r.Valid() && Unique(r) && addr != 0
    ensures Load(StoreIdent(StoreLtk(r, addr, ltk), addr, ident), addr) == Some((ltk, ident))
  {
    var t := StoreLtk(r, addr, ltk);
    StoreLtkUpdatesMap(r, addr, ltk);
    StoreIdentUpdatesMap(t, addr, ident);
    LoadIsLookup(StoreIdent(t, addr, ident), addr);
  }

  // ----- runs

  datatype Op = OpLtk(addr: Address, ltk: Ltk) | OpIdent(addr: Address, ident: Ident) | OpClear(addr: Address)

  function Apply(r: LeRing, op: Op): (r': LeRing)
    requires r.Valid()
    ensures r'.Valid()
  {
    match op
    case OpLtk(addr, ltk) => StoreLtk(r, addr, ltk)
    case OpIdent(addr, ident) => StoreIdent(r, addr, ident)
    case OpClear(addr) => Clear(r, addr)
  }

  function Run(r: LeRing, ops: seq<Op>): (r': LeRing)
    requires r.Valid()
    ensures r'.Valid()
    decreases |ops|
  {
    if ops == [] then r else Run(Apply(r, ops[0]), ops[1..])
  }

  lemma NoBondsAtFirst()
    ensures Unique(NoBonds()) && Bonds(NoBonds()) == map[]
  {
    assert Addresses(NoBonds().slots) == {};
  }

  /** Addresses stay unique over every run; the ring starts without bonds. */
  lemma {:induction false} RunKeepsUnique(r: LeRing, ops: seq<Op>)
    requires r.Valid() && Unique(r) && forall k :: 0 <= k < |ops| ==> ops[k].addr != 0
    ensures Unique(Run(r, ops))
    decreases |ops|
  {
    if ops != [] {
      match ops[0] {
        case OpLtk(addr, ltk) => StoreLtkUpdatesMap(r, addr, ltk);
        case OpIdent(addr, ident) => StoreIdentUpdatesMap(r, addr, ident);
        case OpClear(addr) => ClearRemovesFromMap(r, addr);
      }
      RunKeepsUnique(Apply(r, ops[0]), ops[1..]);
    }
  }

  /** A cleared address stays unknown until something is stored for it again. */
  lemma {:induction false} ClearedStaysCleared(r: LeRing, addr: Address, ops: seq<Op>)
    requires r.Valid() && Unique(r) && addr != 0 && LastMatch(r.slots, addr) < 0
    requires forall k :: 0 <= k < |ops| ==> ops[k].addr != 0 && (ops[k].addr != addr || ops[k].OpClear?)
    ensures Load(Run(r, ops), addr) == None
    decreases |ops|
  {
    if ops != [] {
      var t := Apply(r, ops[0]);
      assert forall i :: 0 <= i < SLOTS ==> t.slots[i].addr != addr;
      RunKeepsUnique(r, ops[..1]);
      assert ops[..1][1..] == [];
      assert Run(r, ops[..1]) == t;
      ClearedStaysCleared(t, addr, ops[1..]);
    }
  }
}
