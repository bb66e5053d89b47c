/** What the two bond stores share: sixteen slots searched linearly, and a write index. */
module BondSlots {
  const SLOTS := 16

  /** Address 0 marks an empty slot. */
  datatype Entry<B> = Entry(addr: int, bond: B)

  datatype Ring<B> = Ring(index: nat, slots: seq<Entry<B>>) {
    predicate Valid() {
      index < SLOTS && |slots| == SLOTS
    }
  }

  /** The search does not stop at a match, so the last one counts; -1 if there is none. */
  function LastMatch<B>(slots: seq<Entry<B>>, addr: int): (i: int)
    ensures -1 <= i < |slots|
    ensures i >= 0 ==> slots[i].addr == addr && forall k :: i < k < |slots| ==> slots[k].addr != addr
    ensures i < 0 ==> forall k :: 0 <= k < |slots| ==> slots[k].addr != addr
  {
    if slots == [] then -1
    else if slots[|slots| - 1].addr == addr then |slots| - 1
    else LastMatch(slots[..|slots| - 1], addr)
  }

  /** The slot a store for `addr` writes to. */
  function Target<B>(r: Ring<B>, addr: int): (at: nat)
    requires r.Valid()
    ensures at < SLOTS
  {
    var i := LastMatch(r.slots, addr);
    if i < 0 then r.index else i
  }

  /** The write index moves past the slot it was used for. */
  function NextIndex<B>(r: Ring<B>, at: nat): nat {
    if at == r.index then (r.index + 1) % SLOTS else r.index
  }
}
