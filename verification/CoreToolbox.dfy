/**
 The confirm function c1 and the key function s1 as the Bluetooth Core Specification, Vol 3 Part H,
 sections 2.2.3 and 2.2.4, writes them, most significant octet first, and the proof that the
 host's little-endian buffers compute them.
 */
module CoreToolbox {
  import opened Octets
  import opened PairingProtocol

  /** c1(k, r, preq, pres, iat, rat, ia, ra) = e(k, e(k, r xor p1) xor p2) with
      p1 = pres || preq || rat' || iat' and p2 = padding || ia || ra. */
  function C1(e: Cipher, k: Block, r: Block, preq: Octets7, pres: Octets7,
              iat: Octet, rat: Octet, ia: Octets6, ra: Octets6): Block {
    var p1: Block := pres + preq + [rat] + [iat];
    var p2: Block := [0, 0, 0, 0] + ia + ra;
    e(k, Xor(e(k, Xor(r, p1)), p2))
  }

  /** s1(k, r1, r2) = e(k, r1' || r2'), keeping the least significant 64 bits of each random. */
  function S1(e: Cipher, k: Block, r1: Block, r2: Block): Block {
    e(k, r1[8..] + r2[8..])
  }

  /** `big` is the cipher `e` for callers that hold their blocks most significant octet first. */
  ghost predicate SameCipher(e: Cipher, big: Cipher) {
    forall k: Block, x: Block :: big(Reverse(k), Reverse(x)) == Reverse(e(k, x))
  }

  lemma ReverseXor(p: Block, q: Block)
    ensures Reverse(Xor(p, q)) == Xor(Reverse(p), Reverse(q))
  {
  }

  lemma ConfirmValueIsC1(e: Cipher, big: Cipher, local: Address, m: Material)
    requires SameCipher(e, big)
    ensures Reverse(ConfirmValue(e, local, m)) ==
            C1(big, ZERO, Reverse(m.rand), Reverse(m.preq), Reverse(m.pres),
               local.kind, m.addr.kind, Reverse(local.val), Reverse(m.addr.val))
  {
    var p1 := P1(local.kind, m.addr.kind, m.preq, m.pres);
    var p2 := P2(m.addr.val, local.val);
    var first := e(ZERO, ConfirmText1(local, m));
    assert Reverse(ZERO) == ZERO;
    assert Reverse(p1) == Reverse(m.pres) + Reverse(m.preq) + [m.addr.kind] + [local.kind];
    assert Reverse(p2) == [0, 0, 0, 0] + Reverse(local.val) + Reverse(m.addr.val);
    ReverseXor(m.rand, p1);
    ReverseXor(first, p2);
    assert big(Reverse(ZERO), Reverse(ConfirmText1(local, m))) == Reverse(first);
    assert big(Reverse(ZERO), Reverse(ConfirmText2(local, m, first))) == Reverse(ConfirmValue(e, local, m));
  }

  /** The host passes the peer's random as r1 and its own as r2. */
  lemma ShortTermKeyIsS1(e: Cipher, big: Cipher, m: Material)
    requires SameCipher(e, big)
    ensures Reverse(ShortTermKey(e, m)) == S1(big, ZERO, Reverse(m.rrand), Reverse(m.rand))
  {
    assert Reverse(ZERO) == ZERO;
    assert Reverse(StkText(m)) == Reverse(m.rrand)[8..] + Reverse(m.rand)[8..];
    assert big(Reverse(ZERO), Reverse(StkText(m))) == Reverse(ShortTermKey(e, m));
  }
}
