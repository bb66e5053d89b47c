/**
 The pairing code as it runs: one object per slot of the device table, whose buffers the callbacks
 overwrite in place, and the host with its two context queues. Every handler is proved to take
 exactly the step PairingProtocol describes.
 */
module LePairing {
  import opened Octets
  import P = PairingProtocol

  method MemCpy(dst: array<Octet>, at: nat, src: seq<Octet>)
    requires at + |src| <= dst.Length
    modifies dst
    ensures dst[..] == old(dst[..at]) + src + old(dst[at + |src|..])
  {
    var i := 0;
    while i < |src|
      invariant 0 <= i <= |src|
      invariant forall k :: at <= k < at + i ==> dst[k] == src[k - at]
      invariant forall k :: 0 <= k < dst.Length && !(at <= k < at + i) ==> dst[k] == old(dst[k])
    {
      dst[at + i] := src[i];
      i := i + 1;
    }
  }

  /** The output buffer may be one of the inputs. */
  method Xor128(p: array<Octet>, q: array<Octet>, r: array<Octet>)
    requires p.Length == q.Length == r.Length == 16
    modifies r
    ensures r[..] == Xor(old(p[..]), old(q[..]))
  {
    var i := 0;
    while i < 16
      invariant 0 <= i <= 16
      invariant forall k :: 0 <= k < i ==> r[k] == old(p[k]) ^ old(q[k])
      invariant forall k :: i <= k < 16 ==> p[k] == old(p[k]) && q[k] == old(q[k])
    {
      r[i] := p[i] ^ q[i];
      i := i + 1;
    }
  }

  method P1Buffer(iat: Octet, rat: Octet, preq: array<Octet>, pres: array<Octet>) returns (p1: array<Octet>)
    requires preq.Length == pres.Length == 7
    ensures fresh(p1) && p1[..] == P.P1(iat, rat, preq[..], pres[..])
  {
    p1 := new Octet[16];
    p1[0] := iat;
    p1[1] := rat;
    assert p1[..2] == [iat, rat];
    MemCpy(p1, 2, preq[..]);
    assert p1[..9] == [iat, rat] + preq[..];
    MemCpy(p1, 9, pres[..]);
  }

  method P2Buffer(ra: P.Octets6, ia: P.Octets6) returns (p2: array<Octet>)
    ensures fresh(p2) && p2[..] == P.P2(ra, ia)
  {
    p2 := new Octet[16];
    MemCpy(p2, 0, ra);
    assert p2[..6] == ra;
    MemCpy(p2, 6, ia);
    assert p2[..12] == ra + ia;
    MemCpy(p2, 12, [0, 0, 0, 0]);
  }

  class SmpDevice {
    const rand: array<Octet>
    const rrand: array<Octet>
    const ltk: array<Octet>
    const preq: array<Octet>
    const pres: array<Octet>
    var rdist: Octet
    var ldist: Octet
    var addr: P.Address
    ghost var sent: seq<P.Message>

    ghost predicate Valid() {
      && rand.Length == rrand.Length == ltk.Length == 16
      && preq.Length == pres.Length == 7
      && rand != rrand && rand != ltk && rand != preq && rand != pres
      && rrand != ltk && rrand != preq && rrand != pres
      && ltk != preq && ltk != pres && preq != pres
    }

    ghost function Repr(): set<object> {
      {this, rand, rrand, ltk, preq, pres}
    }

    ghost function Material(): P.Material
      requires Valid()
      reads Repr()
    {
      P.Material(rand[..], rrand[..], preq[..], pres[..], addr)
    }

    ghost function View(): P.Device
      requires Valid()
      reads Repr()
    {
      P.Device(Material(), ltk[..], rdist, ldist, sent)
    }

    constructor (addr: P.Address)
      ensures Valid() && fresh(Repr() - {this})
      ensures View() == P.FreshDevice(ZERO, ZERO, addr)
    {
      rand := new Octet[16](_ => 0);
      rrand := new Octet[16](_ => 0);
      ltk := new Octet[16](_ => 0);
      preq := new Octet[7](_ => 0);
      pres := new Octet[7](_ => 0);
      this.addr := addr;
      rdist, ldist, sent := 0, 0, [];
      new;
      assert rand[..] == ZERO && rrand[..] == ZERO && ltk[..] == ZERO;
      assert preq[..] == P.NONE && pres[..] == P.NONE;
    }

    /** What nobody writes to stays. */
    twostate lemma Unmoved()
      requires Valid() && forall o: object | o in Repr() :: unchanged(o)
      ensures View() == old(View())
    {
    }

    ghost method Send(m: P.Message)
      requires Valid()
      modifies this`sent
      ensures View() == P.Sent(old(View()), m)
    {
      sent := sent + [m];
    }

    /** The part of key distribution the protocol depends on: when it starts. */
    method DistributeIfDone()
      requires Valid()
      modifies this`sent
      ensures View() == P.DistributeIfDone(old(View()))
    {
      if rdist == 0 {
        Send(P.KeyDistribution(ldist));
      }
    }
  }

  class SmpHost {
    const devs: seq<SmpDevice>
    const local: P.Address
    var randq: seq<P.RandContext>
    var encq: seq<P.EncContext>
    ghost var randCmds: seq<nat>
    ghost var encCmds: seq<P.EncCommand>

    ghost function Repr(): set<object> {
      set i, o | 0 <= i < |devs| && o in devs[i].Repr() :: o
    }

    ghost predicate Wired() {
      && (forall i :: 0 <= i < |devs| ==> devs[i].Valid())
      && (forall i, j :: 0 <= i < j < |devs| ==> devs[i].Repr() !! devs[j].Repr())
      && this !in Repr()
    }

    ghost function View(): P.State
      requires Wired()
      reads this, Repr()
    {
      P.State(seq(|devs|, i requires 0 <= i < |devs| reads this, Repr() => devs[i].View()), randq, encq, randCmds, encCmds)
    }

    ghost predicate Valid()
      reads this, Repr()
    {
      Wired() && P.InTable(View())
    }

    constructor (devs: seq<SmpDevice>, local: P.Address)
      requires forall i :: 0 <= i < |devs| ==> devs[i].Valid()
      requires forall i, j :: 0 <= i < j < |devs| ==> devs[i].Repr() !! devs[j].Repr()
      ensures Valid() && this.devs == devs && this.local == local
      ensures randq == [] && encq == [] && randCmds == [] && encCmds == []
    {
      this.devs, this.local := devs, local;
      randq, encq, randCmds, encCmds := [], [], [], [];
    }

    /** Writing only to device `d` changes only its entry. */
    twostate lemma OnlyDevice(d: nat)
      requires Wired() && d < |devs|
      requires unchanged(this)
      requires forall o: object | o in Repr() && o !in devs[d].Repr() :: unchanged(o)
      ensures View() == P.Put(old(View()), d, devs[d].View())
    {
      forall i | 0 <= i < |devs| && i != d
        ensures devs[i].View() == old(devs[i].View())
      {
        OtherRepr(i, d);
        devs[i].Unmoved();
      }
    }

    lemma OtherRepr(i: nat, d: nat)
      requires Wired() && i < |devs| && d < |devs| && i != d
      ensures devs[i].Valid() && forall o :: o in devs[i].Repr() ==> o in Repr() && o !in devs[d].Repr()
    {
      assert devs[i].Repr() !! devs[d].Repr();
    }

    /** Moving the queues leaves the device table alone. */
    twostate lemma OnlyQueues()
      requires Wired()
      requires forall o: object | o in Repr() :: unchanged(o)
      ensures View() == old(View()).(randq := randq, encq := encq, randCmds := randCmds, encCmds := encCmds)
    {
      forall i | 0 <= i < |devs|
        ensures devs[i].View() == old(devs[i].View())
      {
        assert forall o :: o in devs[i].Repr() ==> o in Repr();
      }
    }

    method GetRandom(d: nat, cb: P.RandCallback, room: bool)
      requires Valid() && d < |devs|
      modifies this`randq, this`randCmds
      ensures Valid() && View() == P.GetRandom(old(View()), d, cb, room)
    {
      if !room {
        return;
      }
      randq := randq + [P.RandContext(d, cb)];
      randCmds := randCmds + [d];
    }

    method GetEncrypt(d: nat, cb: P.EncCallback, key: Block, text: array<Octet>, ghost asked: P.Material, room: bool)
      requires Valid() && d < |devs|
      requires text.Length == 16
      modifies this`encq, this`encCmds
      ensures Valid() && View() == P.GetEncrypt(old(View()), d, cb, key, old(text[..]), asked, room)
    {
      if !room {
        return;
      }
      encq := encq + [P.EncContext(d, cb)];
      encCmds := encCmds + [P.EncCommand(key, text[..], d, asked)];
    }

    /** First half of c1: mask the random with p1 in the shared buffer and encrypt it. */
    method C1Part1(d: nat, k: Block, room: bool)
      requires Valid() && d < |devs|
      modifies this`encq, this`encCmds, devs[d].ltk
      ensures Valid()
      ensures var dev, text := old(devs[d].View()), P.ConfirmText1(local, old(devs[d].Material()));
              View() == P.GetEncrypt(P.Put(old(View()), d, dev.(ltk := text)), d, P.ConfirmHalf, k, text, dev.now, room)
    {
      var dev := devs[d];
      var p1 := P1Buffer(local.kind, dev.addr.kind, dev.preq, dev.pres);
      Xor128(dev.rand, p1, dev.ltk);
      OnlyDevice(d);
      assert dev.View() == old(dev.View()).(ltk := P.ConfirmText1(local, old(dev.Material())));
      GetEncrypt(d, P.ConfirmHalf, k, dev.ltk, dev.Material(), room);
    }

    /** Second half of c1: mask the first answer with p2, in place, and encrypt it again. */
    method C1Part2(d: nat, k: Block, ghost asked: P.Material, room: bool)
      requires Valid() && d < |devs|
      modifies this`encq, this`encCmds, devs[d].ltk
      ensures Valid()
      ensures var dev := old(devs[d].View());
              var text := P.ConfirmText2(local, dev.now, dev.ltk);
              View() == P.GetEncrypt(P.Put(old(View()), d, dev.(ltk := text)), d, P.ConfirmComplete, k, text, asked, room)
    {
      var dev := devs[d];
      var p2 := P2Buffer(dev.addr.val, local.val);
      Xor128(dev.ltk, p2, dev.ltk);
      OnlyDevice(d);
      assert dev.View() == old(dev.View()).(ltk := P.ConfirmText2(local, old(dev.Material()), old(dev.ltk[..])));
      GetEncrypt(d, P.ConfirmComplete, k, dev.ltk, asked, room);
    }

    /** s1: the low halves of the two randoms, side by side in the shared buffer. */
    method S1(d: nat, k: Block, room: bool)
      requires Valid() && d < |devs|
      modifies this`encq, this`encCmds, devs[d].ltk
      ensures Valid()
      ensures var dev := old(devs[d].View());
              var text := P.StkText(dev.now);
              View() == P.GetEncrypt(P.Put(old(View()), d, dev.(ltk := text)), d, P.StkComplete, k, text, dev.now, room)
    {
      var dev := devs[d];
      MemCpy(dev.ltk, 0, dev.rand[..8]);
      MemCpy(dev.ltk, 8, dev.rrand[..8]);
      OnlyDevice(d);
      assert dev.ltk[..] == P.StkText(dev.Material());
      assert dev.View() == old(dev.View()).(ltk := P.StkText(old(dev.Material())));
      GetEncrypt(d, P.StkComplete, k, dev.ltk, dev.Material(), room);
    }

    method PairingStart(d: nat)
      requires Valid() && d < |devs|
      modifies devs[d].preq, devs[d]
      ensures Valid() && View() == P.PairingStart(old(View()), d)
    {
      var dev := devs[d];
      var preq := P.PREQ;
      MemCpy(dev.preq, 0, preq);
      assert dev.preq[..] == preq;
      dev.Send(P.PairingRequest(preq));
      OnlyDevice(d);
    }

    method PairingRsp(d: nat, rsp: P.Octets6, room1: bool, room2: bool)
      requires Valid() && d < |devs|
      modifies this`randq, this`randCmds, devs[d], devs[d].pres
      ensures Valid() && View() == P.PairingRsp(old(View()), d, rsp, room1, room2)
    {
      var dev := devs[d];
      dev.ldist := rsp[4];
      dev.rdist := rsp[5];
      dev.pres[0] := P.CMD_PAIRING_RSP;
      MemCpy(dev.pres, 1, rsp);
      OnlyDevice(d);
      assert dev.pres[..] == [P.CMD_PAIRING_RSP] + rsp;
      GetRandom(d, P.MrandHalf, room1);
      GetRandom(d, P.MrandComplete, room2);
    }

    method PeerConfirm(d: nat)
      requires Valid() && d < |devs|
      modifies devs[d]
      ensures Valid() && View() == P.PeerConfirm(old(View()), d)
    {
      devs[d].Send(P.PairingRandom(devs[d].rand[..]));
      OnlyDevice(d);
    }

    method KeyDistribution(d: nat)
      requires Valid() && d < |devs|
      modifies devs[d]
      ensures Valid() && View() == P.Put(old(View()), d, P.DistributeIfDone(old(devs[d].View())))
    {
      devs[d].DistributeIfDone();
      OnlyDevice(d);
    }

    method PeerRandom(d: nat, val: Block, room: bool)
      requires Valid() && d < |devs|
      modifies this`encq, this`encCmds, devs[d].rrand, devs[d].ltk, devs[d]
      ensures Valid() && View() == P.PeerRandom(old(View()), d, val, room)
    {
      var dev := devs[d];
      MemCpy(dev.rrand, 0, val);
      assert dev.rrand[..] == val;
      OnlyDevice(d);
      ghost var mid := dev.View();
      S1(d, ZERO, room);
      P.PutTwice(old(View()), d, mid, mid.(ltk := P.StkText(mid.now)));
      KeyDistribution(d);
    }

    /** The peer's Encryption Information message. */
    method PeerLtk(d: nat, ltk: Block)
      requires Valid() && d < |devs|
      modifies devs[d]
      ensures Valid() && View() == P.PeerLtk(old(View()), d, ltk)
    {
      devs[d].Send(P.StoreLtk(devs[d].addr, ltk));
      OnlyDevice(d);
    }

    /** The peer's Central Identification message. */
    method PeerIdent(d: nat, ident: P.Octets10)
      requires Valid() && d < |devs|
      modifies devs[d]
      ensures Valid() && View() == P.PeerIdent(old(View()), d, ident)
    {
      var dev := devs[d];
      dev.rdist := dev.rdist & !P.DIST_ENC_KEY;
      dev.Send(P.StoreIdent(dev.addr, ident));
      dev.DistributeIfDone();
      dev.Send(P.AddToAcceptList(dev.addr));
      OnlyDevice(d);
    }

    /** The peer's Identity Address or Signing message, by its key's bit. */
    method PeerKey(d: nat, kind: Octet)
      requires Valid() && d < |devs|
      modifies devs[d]
      ensures Valid() && View() == P.PeerKey(old(View()), d, kind)
    {
      var dev := devs[d];
      dev.rdist := dev.rdist & !kind;
      OnlyDevice(d);
      ghost var mid := dev.View();
      KeyDistribution(d);
      P.PutTwice(old(View()), d, mid, P.DistributeIfDone(mid));
    }

    method MrandHalf(d: nat, data: P.Octets8)
      requires Valid() && d < |devs|
      modifies devs[d].rand
      ensures Valid() && View() == P.OnMrandHalf(old(View()), d, data)
    {
      var dev := devs[d];
      MemCpy(dev.rand, 0, data);
      OnlyDevice(d);
      assert dev.rand[..] == data + old(dev.rand[..])[8..];
    }

    method MrandComplete(d: nat, data: P.Octets8, room: bool)
      requires Valid() && d < |devs|
      modifies this`encq, this`encCmds, devs[d].rand, devs[d].ltk
      ensures Valid() && View() == P.OnMrandComplete(old(View()), local, d, data, room)
    {
      var dev := devs[d];
      MemCpy(dev.rand, 8, data);
      OnlyDevice(d);
      assert dev.rand[..] == old(dev.rand[..])[..8] + data;
      ghost var mid := dev.View();
      C1Part1(d, ZERO, room);
      P.PutTwice(old(View()), d, mid, mid.(ltk := P.ConfirmText1(local, mid.now)));
    }

    method ConfirmHalf(d: nat, data: Block, ghost asked: P.Material, room: bool)
      requires Valid() && d < |devs|
      modifies this`encq, this`encCmds, devs[d].ltk
      ensures Valid() && View() == P.OnConfirmHalf(old(View()), local, d, data, asked, room)
    {
      var dev := devs[d];
      MemCpy(dev.ltk, 0, data);
      assert dev.ltk[..] == data;
      OnlyDevice(d);
      ghost var mid := dev.View();
      C1Part2(d, ZERO, asked, room);
      P.PutTwice(old(View()), d, mid, mid.(ltk := P.ConfirmText2(local, mid.now, data)));
    }

    method ConfirmComplete(d: nat, data: Block, ghost asked: P.Material)
      requires Valid() && d < |devs|
      modifies devs[d], devs[d].ltk
      ensures Valid() && View() == P.OnConfirmComplete(old(View()), d, data, asked)
    {
      var dev := devs[d];
      MemCpy(dev.ltk, 0, data);
      assert dev.ltk[..] == data;
      dev.Send(P.PairingConfirm(dev.ltk[..], asked));
      OnlyDevice(d);
    }

    method StkComplete(d: nat, data: Block, ghost asked: P.Material)
      requires Valid() && d < |devs|
      modifies devs[d], devs[d].ltk
      ensures Valid() && View() == P.OnStkComplete(old(View()), d, data, asked)
    {
      var dev := devs[d];
      MemCpy(dev.ltk, 0, data);
      assert dev.ltk[..] == data;
      dev.Send(P.StartEncryption(dev.ltk[..], asked));
      OnlyDevice(d);
    }

    /** Creates both context queues anew. */
    method Restart()
      requires Valid()
      modifies this`randq, this`encq
      ensures Valid() && View() == P.Restarted(old(View()))
    {
      randq, encq := [], [];
      OnlyQueues();
    }

    /** LE_Rand completed: the oldest context says what the random octets are for. */
    method RandDone(data: P.Octets8, room: bool)
      requires Valid() && randCmds != []
      modifies this, Repr()
      ensures Valid() && View() == P.RandDone(old(View()), local, data, room)
    {
      randCmds := randCmds[1..];
      if |randq| == 0 {
        OnlyQueues();
        return;
      }
      var c := randq[0];
      randq := randq[1..];
      OnlyQueues();
      assert devs[c.dev].Repr() <= Repr();
      match c.cb
      case MrandHalf => MrandHalf(c.dev, data);
      case MrandComplete => MrandComplete(c.dev, data, room);
    }

    /** LE_Encrypt completed: the oldest context says which computation goes on. */
    method EncDone(data: Block, room: bool)
      requires Valid() && encCmds != []
      modifies this, Repr()
      ensures Valid() && View() == P.EncDone(old(View()), local, data, room)
    {
      ghost var asked := encCmds[0].asked;
      encCmds := encCmds[1..];
      if |encq| == 0 {
        OnlyQueues();
        return;
      }
      var c := encq[0];
      encq := encq[1..];
      OnlyQueues();
      assert devs[c.dev].Repr() <= Repr();
      match c.cb
      case ConfirmHalf => ConfirmHalf(c.dev, data, asked, room);
      case ConfirmComplete => ConfirmComplete(c.dev, data, asked);
      case StkComplete => StkComplete(c.dev, data, asked);
    }
  }
}
