/**
 One pairing from its request to the keys, message by message.
 */
module PairingStory {
  import opened Octets
  import opened PairingProtocol

  /** The states that a list of events leads through. */
  ghost predicate Leads(e: Cipher, local: Address, states: seq<State>, evs: seq<Event>) {
    && |states| == |evs| + 1
    && forall i :: 0 <= i < |evs| ==>
         InTable(states[i]) && Allowed(states[i], evs[i]) && states[i + 1] == Step(e, local, states[i], evs[i])
  }

  predicate Idle(s: State) {
    s.randq == [] && s.encq == [] && s.randCmds == [] && s.encCmds == []
  }

  /** The material once the request, the response and the random are there. */
  function Agreed(m: Material, rsp: Octets6, r1: Octets8, r2: Octets8): Material {
    m.(preq := [0x01, 0x03, 0x00, 0x01, 0x10, 0x02, 0x01], pres := [0x02] + rsp, rand := r1 + r2)
  }

  function Others(s: State, d: nat): seq<Device>
    requires d < |s.devs|
  {
    s.devs[..d] + s.devs[d + 1..]
  }

  // ----- the four parts of a pairing

  function Drawing(d: nat, rsp: Octets6, r1: Octets8, r2: Octets8): seq<Event> {
    [EvStart(d), EvRsp(d, rsp, true, true), EvRandDone(r1, true), EvRandDone(r2, true)]
  }

  function Revealing(d: nat): seq<Event> {
    [EvEncDone(true), EvEncDone(true), EvPeerConfirm(d)]
  }

  function Encrypting(d: nat, val: Block): seq<Event> {
    [EvPeerRandom(d, val, true), EvEncDone(true)]
  }

  function Storing(d: nat, ltk: Block, ident: Octets10): seq<Event> {
    [EvPeerLtk(d, ltk), EvPeerIdent(d, ident)]
  }

  /** The request is sent and the response draws the random. */
  lemma RandomIsDrawn(e: Cipher, local: Address, t: seq<State>, d: nat, rsp: Octets6, r1: Octets8, r2: Octets8)
    requires |t| > 0 && Idle(t[0]) && d < |t[0].devs|
    requires Leads(e, local, t, Drawing(d, rsp, r1, r2))
    ensures var m := Agreed(t[0].devs[d].now, rsp, r1, r2);
            && d < |t[4].devs| && t[4].devs[d].now == m && t[4].devs[d].ltk == ConfirmText1(local, m)
            && t[4].devs[d].sent == t[0].devs[d].sent + [PairingRequest([0x01, 0x03, 0x00, 0x01, 0x10, 0x02, 0x01])]
            && t[4].devs[d].ldist == rsp[4] && t[4].devs[d].rdist == rsp[5]
            && t[4].randq == [] && t[4].randCmds == [] && t[4].encq == [EncContext(d, ConfirmHalf)]
            && t[4].encCmds == [EncCommand(ZERO, ConfirmText1(local, m), d, m)]
            && Others(t[4], d) == Others(t[0], d)
  {
    var evs := Drawing(d, rsp, r1, r2);
    assert t[1] == Step(e, local, t[0], evs[0]);
    assert t[2] == Step(e, local, t[1], evs[1]);
    assert t[2].randq == [RandContext(d, MrandHalf), RandContext(d, MrandComplete)];
    assert t[3] == Step(e, local, t[2], evs[2]);
    assert t[3].randq == [RandContext(d, MrandComplete)];
    assert t[4] == Step(e, local, t[3], evs[3]);
    assert t[3].devs[d].now.rand[..8] + r2 == r1 + r2;
  }

  /** The two answers make the confirm value; the peer's one is answered with the random. */
  lemma RandomIsRevealed(e: Cipher, local: Address, t: seq<State>, d: nat, m: Material)
    requires |t| > 0 && d < |t[0].devs| && t[0].devs[d].now == m && t[0].randq == [] && t[0].randCmds == []
    requires t[0].encq == [EncContext(d, ConfirmHalf)] && t[0].encCmds == [EncCommand(ZERO, ConfirmText1(local, m), d, m)]
    requires Leads(e, local, t, Revealing(d))
    ensures && d < |t[3].devs| && t[3].devs[d].now == m && t[3].devs[d].ltk == ConfirmValue(e, local, m) && Idle(t[3])
            && t[3].devs[d].sent == t[0].devs[d].sent + [PairingConfirm(ConfirmValue(e, local, m), m), PairingRandom(m.rand)]
            && t[3].devs[d].ldist == t[0].devs[d].ldist && t[3].devs[d].rdist == t[0].devs[d].rdist
            && Others(t[3], d) == Others(t[0], d)
  {
    var evs := Revealing(d);
    assert t[1] == Step(e, local, t[0], evs[0]);
    assert t[2] == Step(e, local, t[1], evs[1]);
    assert t[3] == Step(e, local, t[2], evs[2]);
  }

  /** What the host sends when no key is outstanding. */
  function Distribution(owing: Octet, ldist: Octet): seq<Message> {
    if owing == 0 then [KeyDistribution(ldist)] else []
  }

  /** The peer's random makes the short term key. */
  lemma EncryptionStarts(e: Cipher, local: Address, t: seq<State>, d: nat, val: Block)
    requires |t| > 0 && Idle(t[0]) && d < |t[0].devs|
    requires Leads(e, local, t, Encrypting(d, val))
    ensures var m, was := t[0].devs[d].now.(rrand := val), t[0].devs[d];
            && d < |t[2].devs| && t[2].devs[d].now == m && t[2].devs[d].ltk == ShortTermKey(e, m) && Idle(t[2])
            && t[2].devs[d].sent == was.sent + Distribution(was.rdist, was.ldist) + [StartEncryption(ShortTermKey(e, m), m)]
            && t[2].devs[d].ldist == was.ldist && t[2].devs[d].rdist == was.rdist
            && Others(t[2], d) == Others(t[0], d)
  {
    var evs := Encrypting(d, val);
    assert t[1] == Step(e, local, t[0], evs[0]);
    assert t[2] == Step(e, local, t[1], evs[1]);
  }

  /** The peer's key and its identification are stored, and the device is accepted. */
  lemma KeysAreStored(e: Cipher, local: Address, t: seq<State>, d: nat, ltk: Block, ident: Octets10)
    requires |t| > 0 && d < |t[0].devs|
    requires Leads(e, local, t, Storing(d, ltk, ident))
    ensures var was, addr := t[0].devs[d], t[0].devs[d].now.addr;
            && d < |t[2].devs| && t[2].devs[d].now == was.now
            && t[2].devs[d].sent == was.sent + [StoreLtk(addr, ltk), StoreIdent(addr, ident)] +
                                    Distribution(was.rdist & !1, was.ldist) + [AddToAcceptList(addr)]
            && Others(t[2], d) == Others(t[0], d)
  {
    var evs := Storing(d, ltk, ident);
    assert t[1] == Step(e, local, t[0], evs[0]);
    assert t[2] == Step(e, local, t[1], evs[1]);
  }

  lemma LeadsApart(e: Cipher, local: Address, t: seq<State>, xs: seq<Event>, ys: seq<Event>)
    requires Leads(e, local, t, xs + ys)
    ensures Leads(e, local, t[..|xs| + 1], xs) && Leads(e, local, t[|xs|..], ys)
  {
    var evs := xs + ys;
    forall i | 0 <= i < |ys|
      ensures var r := t[|xs|..];
              InTable(r[i]) && Allowed(r[i], ys[i]) && r[i + 1] == Step(e, local, r[i], ys[i])
    {
      assert ys[i] == evs[|xs| + i];
    }
    forall i | 0 <= i < |xs|
      ensures InTable(t[i]) && Allowed(t[i], xs[i]) && t[i + 1] == Step(e, local, t[i], xs[i])
    {
      assert xs[i] == evs[i];
    }
  }

  /** What the host sends once it has revealed its random. */
  function LastMessages(e: Cipher, m: Material, owing: Octet, ldist: Octet, ltk: Block, ident: Octets10): seq<Message> {
    Distribution(owing, ldist) + [StartEncryption(ShortTermKey(e, m), m), StoreLtk(m.addr, ltk), StoreIdent(m.addr, ident)] +
    Distribution(owing & !1, ldist) + [AddToAcceptList(m.addr)]
  }

  lemma Regroup<T>(a: seq<T>, b: seq<T>, x: T, y: T, z: T, c: seq<T>, last: seq<T>)
    ensures a + b + [x] + [y, z] + c + last == a + (b + [x, y, z] + c + last)
  {
    assert [x] + [y, z] == [x, y, z];
  }

  lemma PairingEnds(e: Cipher, local: Address, t: seq<State>, d: nat, val: Block, ltk: Block, ident: Octets10)
    requires |t| > 0 && Idle(t[0]) && d < |t[0].devs|
    requires Leads(e, local, t, Encrypting(d, val) + Storing(d, ltk, ident))
    ensures var was := t[0].devs[d];
            && d < |t[4].devs| && Others(t[4], d) == Others(t[0], d)
            && t[4].devs[d].sent == was.sent + LastMessages(e, was.now.(rrand := val), was.rdist, was.ldist, ltk, ident)
  {
    LeadsApart(e, local, t, Encrypting(d, val), Storing(d, ltk, ident));
    EncryptionStarts(e, local, t[..3], d, val);
    KeysAreStored(e, local, t[2..], d, ltk, ident);
    var was, m := t[0].devs[d], t[0].devs[d].now.(rrand := val);
    Regroup(was.sent, Distribution(was.rdist, was.ldist), StartEncryption(ShortTermKey(e, m), m),
            StoreLtk(m.addr, ltk), StoreIdent(m.addr, ident), Distribution(was.rdist & !1, was.ldist), [AddToAcceptList(m.addr)]);
  }

  /** A whole pairing that nothing disturbs: what the host sends, and that no other device changes. */
  lemma WholePairing(e: Cipher, local: Address, t: seq<State>, d: nat,
                     rsp: Octets6, r1: Octets8, r2: Octets8, val: Block, ltk: Block, ident: Octets10)
    requires |t| > 0 && Idle(t[0]) && d < |t[0].devs|
    requires Leads(e, local, t, Drawing(d, rsp, r1, r2) + (Revealing(d) + (Encrypting(d, val) + Storing(d, ltk, ident))))
    ensures var m := Agreed(t[0].devs[d].now, rsp, r1, r2);
            && d < |t[11].devs| && Others(t[11], d) == Others(t[0], d)
            && t[11].devs[d].sent == t[0].devs[d].sent +
                 [PairingRequest([0x01, 0x03, 0x00, 0x01, 0x10, 0x02, 0x01]),
                  PairingConfirm(ConfirmValue(e, local, m), m), PairingRandom(r1 + r2)] +
                 LastMessages(e, m.(rrand := val), rsp[5], rsp[4], ltk, ident)
  {
    var end := Encrypting(d, val) + Storing(d, ltk, ident);
    LeadsApart(e, local, t, Drawing(d, rsp, r1, r2), Revealing(d) + end);
    LeadsApart(e, local, t[4..], Revealing(d), end);
    RandomIsDrawn(e, local, t[..5], d, rsp, r1, r2);
    RandomIsRevealed(e, local, t[4..][..4], d, Agreed(t[0].devs[d].now, rsp, r1, r2));
    assert t[4..][3..] == t[7..];
    PairingEnds(e, local, t[7..], d, val, ltk, ident);
  }
}
