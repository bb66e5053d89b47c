/**
 How long an LE bond is kept: exactly until the write index has moved past its slot.
 */
module LeKeySurvival {
  import opened Options
  import opened BondSlots
  import opened LeKeyRing

  predicate ForOthers(ops: seq<Op>, addr: Address) {
    forall k :: 0 <= k < |ops| ==> ops[k].addr != 0 && ops[k].addr != addr
  }

  /** How often the write index moves during the operations. */
  function Moves(r: LeRing, ops: seq<Op>): nat
    requires r.Valid()
    decreases |ops|
  {
    if ops == [] then 0
    else (if Apply(r, ops[0]).index != r.index then 1 else 0) + Moves(Apply(r, ops[0]), ops[1..])
  }

  /** How often it moves before it stands at slot `i`. */
  function Distance(r: LeRing, i: nat): nat
    requires r.Valid() && i < SLOTS
  {
    if i >= r.index then i - r.index else i + 16 - r.index
  }

  lemma OpKeepsUnique(r: LeRing, op: Op)
    requires r.Valid() && Unique(r) && op.addr != 0
    ensures Unique(Apply(r, op))
  {
    match op
    case OpLtk(addr, ltk) => StoreLtkUpdatesMap(r, addr, ltk);
    case OpIdent(addr, ident) => StoreIdentUpdatesMap(r, addr, ident);
    case OpClear(addr) => ClearRemovesFromMap(r, addr);
  }

  /** An operation for another address keeps a slot, unless it takes it over because the index stands there. */
  lemma OpKeepsSlot(r: LeRing, op: Op, i: nat)
    requires r.Valid() && i < SLOTS && r.slots[i].addr != 0 && op.addr != 0 && op.addr != r.slots[i].addr
    ensures var t := Apply(r, op);
            if t.slots[i] == r.slots[i] then t.index == r.index || (t.index == (r.index + 1) % 16 && r.index != i)
            else t.index == (r.index + 1) % 16 && r.index == i && t.slots[i].addr == op.addr
  {
  }

  lemma {:induction false} AbsentStaysAbsent(r: LeRing, addr: Address, ops: seq<Op>)
    requires r.Valid() && addr != 0 && ForOthers(ops, addr) && LastMatch(r.slots, addr) < 0
    ensures LastMatch(Run(r, ops).slots, addr) < 0
    decreases |ops|
  {
    if ops != [] {
      assert LastMatch(Apply(r, ops[0]).slots, addr) < 0;
      AbsentStaysAbsent(Apply(r, ops[0]), addr, ops[1..]);
    }
  }

  lemma OnlyMatch(r: LeRing, i: nat)
    requires r.Valid() && Unique(r) && i < SLOTS && r.slots[i].addr != 0
    ensures LastMatch(r.slots, r.slots[i].addr) == i
  {
  }

  lemma TakenOver(r: LeRing, op: Op, i: nat)
    requires r.Valid() && Unique(r) && i < SLOTS && r.slots[i].addr != 0 && op.addr != 0 && op.addr != r.slots[i].addr
    requires Apply(r, op).slots[i] != r.slots[i]
    ensures LastMatch(Apply(r, op).slots, r.slots[i].addr) < 0
  {
    OpKeepsSlot(r, op, i);
    OnlyMatch(r, i);
  }

  lemma DistanceShrinks(r: LeRing, t: LeRing, i: nat)
    requires r.Valid() && t.Valid() && i < SLOTS && t.index == (r.index + 1) % 16
    ensures Distance(t, i) == if r.index == i then 15 else Distance(r, i) - 1
  {
  }

  /** Whatever is stored and cleared for other addresses, a bond is kept, unchanged, exactly as long as the
      write index has not moved past its slot. */
  lemma {:induction false} SurvivalIsExact(r: LeRing, i: nat, ops: seq<Op>)
    requires r.Valid() && Unique(r) && i < SLOTS && r.slots[i].addr != 0
    requires ForOthers(ops, r.slots[i].addr)
    ensures Load(Run(r, ops), r.slots[i].addr) ==
            if Moves(r, ops) <= Distance(r, i) then Some(r.slots[i].bond) else None
    decreases |ops|
  {
    var addr := r.slots[i].addr;
    OnlyMatch(r, i);
    if ops != [] {
      var t := Apply(r, ops[0]);
      OpKeepsUnique(r, ops[0]);
      OpKeepsSlot(r, ops[0], i);
      if t.index != r.index { DistanceShrinks(r, t, i); }
      if t.slots[i] == r.slots[i] {
        SurvivalIsExact(t, i, ops[1..]);
      } else {
        TakenOver(r, ops[0], i);
        AbsentStaysAbsent(t, addr, ops[1..]);
      }
    }
  }

  /** A bond that is cleared is gone, whatever is stored and cleared for other addresses afterwards. */
  lemma ClearedIsGone(r: LeRing, addr: Address, ops: seq<Op>)
    requires r.Valid() && Unique(r) && addr != 0 && ForOthers(ops, addr)
    ensures Load(Run(r, [OpClear(addr)] + ops), addr) == None
  {
    ClearRemovesFromMap(r, addr);
    assert ([OpClear(addr)] + ops)[1..] == ops;
    AbsentStaysAbsent(Clear(r, addr), addr, ops);
  }

  // ----- bonds as they are stored, key and identification together

  datatype Pair = Pair(addr: Address, ltk: Ltk, ident: Ident)

  function Stores(ps: seq<Pair>): seq<Op> {
    if ps == [] then []
    else [OpLtk(ps[0].addr, ps[0].ltk), OpIdent(ps[0].addr, ps[0].ident)] + Stores(ps[1..])
  }

  function StorePair(r: LeRing, p: Pair): (t: LeRing)
    requires r.Valid()
    ensures t.Valid()
  {
    Apply(Apply(r, OpLtk(p.addr, p.ltk)), OpIdent(p.addr, p.ident))
  }

  predicate Absent(r: LeRing, addr: Address) {
    forall i :: 0 <= i < |r.slots| ==> r.slots[i].addr != addr
  }

  /** A new address takes the slot under the index, which moves on by one. */
  lemma NewPairTakesSlot(r: LeRing, p: Pair)
    requires r.Valid() && Unique(r) && p.addr != 0 && Absent(r, p.addr)
    ensures var t := StorePair(r, p);
            && Unique(t) && t.index == (r.index + 1) % 16
            && t.slots == r.slots[r.index := Entry(p.addr, (p.ltk, p.ident))]
  {
    var s := Apply(r, OpLtk(p.addr, p.ltk));
    OpKeepsUnique(r, OpLtk(p.addr, p.ltk));
    assert s.slots[r.index].addr == p.addr;
    OnlyMatch(s, r.index);
    OpKeepsUnique(s, OpIdent(p.addr, p.ident));
  }

  /** Storing the two halves moves the index once at most, and once for a new address. */
  lemma PairMoves(r: LeRing, p: Pair, rest: seq<Op>)
    requires r.Valid() && Unique(r) && p.addr != 0
    ensures var t, ops := StorePair(r, p), [OpLtk(p.addr, p.ltk), OpIdent(p.addr, p.ident)] + rest;
            && Unique(t) && Run(r, ops) == Run(t, rest)
            && Moves(t, rest) <= Moves(r, ops) <= 1 + Moves(t, rest)
            && (Absent(r, p.addr) ==> Moves(r, ops) == 1 + Moves(t, rest))
  {
    var ops := [OpLtk(p.addr, p.ltk), OpIdent(p.addr, p.ident)] + rest;
    assert ops[1..] == [OpIdent(p.addr, p.ident)] + rest && ops[1..][1..] == rest;
    var s := Apply(r, ops[0]);
    OpKeepsUnique(r, ops[0]);
    OpKeepsUnique(s, ops[1]);
    OnlyMatch(s, Target(r, p.addr));
  }

  predicate PairsForOthers(ps: seq<Pair>, addr: Address) {
    forall k :: 0 <= k < |ps| ==> ps[k].addr != 0 && ps[k].addr != addr
  }

  lemma {:induction false} StoresForOthers(ps: seq<Pair>, addr: Address)
    requires PairsForOthers(ps, addr)
    ensures ForOthers(Stores(ps), addr)
  {
    if ps != [] { StoresForOthers(ps[1..], addr); }
  }

  lemma {:induction false} StoresMove(r: LeRing, ps: seq<Pair>)
    requires r.Valid() && Unique(r) && forall k :: 0 <= k < |ps| ==> ps[k].addr != 0
    ensures Moves(r, Stores(ps)) <= |ps|
    decreases |ps|
  {
    if ps != [] {
      PairMoves(r, ps[0], Stores(ps[1..]));
      StoresMove(StorePair(r, ps[0]), ps[1..]);
    }
  }

  /** Every pair is for an address that the ring does not hold at that point. */
  predicate AllNew(r: LeRing, ps: seq<Pair>)
    requires r.Valid()
    decreases |ps|
  {
    ps == [] || (Absent(r, ps[0].addr) && AllNew(StorePair(r, ps[0]), ps[1..]))
  }

  lemma {:induction false} NewStoresMove(r: LeRing, ps: seq<Pair>)
    requires r.Valid() && Unique(r) && AllNew(r, ps) && forall k :: 0 <= k < |ps| ==> ps[k].addr != 0
    ensures Moves(r, Stores(ps)) == |ps|
    decreases |ps|
  {
    if ps != [] {
      PairMoves(r, ps[0], Stores(ps[1..]));
      NewStoresMove(StorePair(r, ps[0]), ps[1..]);
    }
  }

  /** A new bond is loaded as it was stored after pairs for any fifteen other addresses; after sixteen
      further new ones it is gone. */
  lemma NewBondSurvivesFifteen(r: LeRing, p: Pair, ps: seq<Pair>)
    requires r.Valid() && Unique(r) && p.addr != 0 && Absent(r, p.addr) && PairsForOthers(ps, p.addr)
    ensures |ps| <= 15 ==> Load(Run(StorePair(r, p), Stores(ps)), p.addr) == Some((p.ltk, p.ident))
    ensures |ps| >= 16 && AllNew(StorePair(r, p), ps) ==> Load(Run(StorePair(r, p), Stores(ps)), p.addr) == None
  {
    var t := StorePair(r, p);
    NewPairTakesSlot(r, p);
    StoresForOthers(ps, p.addr);
    StoresMove(t, ps);
    if AllNew(t, ps) { NewStoresMove(t, ps); }
    DistanceShrinks(r, t, r.index);
    SurvivalIsExact(t, r.index, Stores(ps));
  }

  predicate Distinct(ps: seq<Pair>) {
    && (forall k :: 0 <= k < |ps| ==> ps[k].addr != 0)
    && forall j, k :: 0 <= j < k < |ps| ==> ps[j].addr != ps[k].addr
  }

  lemma {:induction false} AllAreLoaded(r: LeRing, ps: seq<Pair>, k: nat)
    requires r.Valid() && Unique(r) && Distinct(ps) && k < |ps| <= 16
    requires forall j :: 0 <= j < |ps| ==> Absent(r, ps[j].addr)
    ensures Load(Run(r, Stores(ps)), ps[k].addr) == Some((ps[k].ltk, ps[k].ident))
    decreases k
  {
    var t := StorePair(r, ps[0]);
    PairMoves(r, ps[0], Stores(ps[1..]));
    NewPairTakesSlot(r, ps[0]);
    if k == 0 {
      NewBondSurvivesFifteen(r, ps[0], ps[1..]);
    } else {
      assert forall j :: 0 <= j < |ps[1..]| ==> ps[1..][j] == ps[j + 1];
      AllAreLoaded(t, ps[1..], k - 1);
    }
  }

  /** Sixteen bonds fit: of as many devices stored one after the other every one is loaded as it was stored. */
  lemma SixteenBondsAreLoaded(ps: seq<Pair>, k: nat)
    requires Distinct(ps) && k < |ps| <= 16
    ensures Load(Run(NoBonds(), Stores(ps)), ps[k].addr) == Some((ps[k].ltk, ps[k].ident))
  {
    NoBondsAtFirst();
    AllAreLoaded(NoBonds(), ps, k);
  }
}
