/**
 What holds in every state of every run of the pairing protocol, whatever the interleaving of
 devices, peer messages and controller answers.
 */
module PairingSafety {
  import opened Octets
  import opened PairingProtocol

  // ----- the queues line up with the commands in flight

  /** The command in flight is the one the waiting callback is for. */
  ghost predicate Matches(e: Cipher, local: Address, c: EncContext, x: EncCommand) {
    && x.key == ZERO
    && x.owner == c.dev
    && match c.cb
       case ConfirmHalf => x.text == ConfirmText1(local, x.asked)
       case ConfirmComplete => x.text == ConfirmText2(local, x.asked, e(ZERO, ConfirmText1(local, x.asked)))
       case StkComplete => x.text == StkText(x.asked)
  }

  ghost predicate Aligned(e: Cipher, local: Address, s: State) {
    && InTable(s)
    && |s.randq| == |s.randCmds|
    && (forall i :: 0 <= i < |s.randq| ==> s.randq[i].dev == s.randCmds[i])
    && |s.encq| == |s.encCmds|
    && forall i :: 0 <= i < |s.encq| ==>
         && Matches(e, local, s.encq[i], s.encCmds[i])
         && s.encCmds[i].asked.addr == s.devs[s.encq[i].dev].now.addr
  }

  // ----- every value that leaves the host is right for the material it was asked for

  ghost predicate Honest(e: Cipher, local: Address, addr: Address, m: Message) {
    match m
    case PairingConfirm(val, asked) => val == ConfirmValue(e, local, asked) && asked.addr == addr
    case StartEncryption(key, asked) => key == ShortTermKey(e, asked) && asked.addr == addr
    case _ => true
  }

  ghost predicate AllHonest(e: Cipher, local: Address, s: State) {
    forall d, k :: 0 <= d < |s.devs| && 0 <= k < |s.devs[d].sent| ==>
      Honest(e, local, s.devs[d].now.addr, s.devs[d].sent[k])
  }

  ghost predicate Safe(e: Cipher, local: Address, s: State) {
    Aligned(e, local, s) && AllHonest(e, local, s)
  }

  /** Updating one device keeps the invariant when its address stays and what it newly sent is right. */
  lemma PutKeeps(e: Cipher, local: Address, s: State, d: nat, dev: Device)
    requires d < |s.devs| && Safe(e, local, s)
    requires dev.now.addr == s.devs[d].now.addr
    requires forall k :: 0 <= k < |dev.sent| ==>
               (k < |s.devs[d].sent| && dev.sent[k] == s.devs[d].sent[k]) || Honest(e, local, dev.now.addr, dev.sent[k])
    ensures Safe(e, local, Put(s, d, dev))
  {
    var t := Put(s, d, dev);
    forall d', k | 0 <= d' < |t.devs| && 0 <= k < |t.devs[d'].sent|
      ensures Honest(e, local, t.devs[d'].now.addr, t.devs[d'].sent[k])
    {
      if d' != d {
        assert t.devs[d'] == s.devs[d'];
      }
    }
  }

  lemma GetEncryptKeeps(e: Cipher, local: Address, s: State, d: nat, cb: EncCallback, text: Block, asked: Material, room: bool)
    requires d < |s.devs| && Safe(e, local, s)
    requires Matches(e, local, EncContext(d, cb), EncCommand(ZERO, text, d, asked))
    requires asked.addr == s.devs[d].now.addr
    ensures Safe(e, local, GetEncrypt(s, d, cb, ZERO, text, asked, room))
  {
  }

  lemma EncDoneKeeps(e: Cipher, local: Address, s: State, room: bool)
    requires Safe(e, local, s) && s.encCmds != []
    ensures Safe(e, local, EncDone(s, local, e(s.encCmds[0].key, s.encCmds[0].text), room))
  {
    var x, c := s.encCmds[0], s.encq[0];
    var data := e(x.key, x.text);
    assert Matches(e, local, c, x);
    var t := s.(encCmds := s.encCmds[1..], encq := s.encq[1..]);
    assert Safe(e, local, t) by {
      forall i | 0 <= i < |t.encq|
        ensures Matches(e, local, t.encq[i], t.encCmds[i]) && t.encCmds[i].asked.addr == t.devs[t.encq[i].dev].now.addr
      {
        assert t.encq[i] == s.encq[i + 1] && t.encCmds[i] == s.encCmds[i + 1];
      }
    }
    var dev := t.devs[c.dev];
    match c.cb
    case ConfirmHalf =>
      var text := ConfirmText2(local, dev.now, data);
      PutKeeps(e, local, t, c.dev, dev.(ltk := text));
      GetEncryptKeeps(e, local, Put(t, c.dev, dev.(ltk := text)), c.dev, ConfirmComplete, text, x.asked, room);
    case ConfirmComplete =>
      PutKeeps(e, local, t, c.dev, Sent(dev.(ltk := data), PairingConfirm(data, x.asked)));
    case StkComplete =>
      PutKeeps(e, local, t, c.dev, Sent(dev.(ltk := data), StartEncryption(data, x.asked)));
  }

  lemma RandDoneKeeps(e: Cipher, local: Address, s: State, data: Octets8, room: bool)
    requires Safe(e, local, s) && s.randCmds != []
    ensures Safe(e, local, RandDone(s, local, data, room))
  {
    var c := s.randq[0];
    var t := s.(randCmds := s.randCmds[1..], randq := s.randq[1..]);
    var dev := t.devs[c.dev];
    match c.cb
    case MrandHalf =>
      PutKeeps(e, local, t, c.dev, dev.(now := dev.now.(rand := data + dev.now.rand[8..])));
    case MrandComplete =>
      var now := dev.now.(rand := dev.now.rand[..8] + data);
      var text := ConfirmText1(local, now);
      PutKeeps(e, local, t, c.dev, dev.(now := now, ltk := text));
      GetEncryptKeeps(e, local, Put(t, c.dev, dev.(now := now, ltk := text)), c.dev, ConfirmHalf, text, now, room);
  }

  lemma NewConnectionKeeps(e: Cipher, local: Address, s: State, d: nat, rand: Block, rrand: Block, addr: Address)
    requires Safe(e, local, s)
    requires d < |s.devs| && !EncPending(s, d)
    ensures Safe(e, local, Put(s, d, FreshDevice(rand, rrand, addr)))
  {
    var t := Put(s, d, FreshDevice(rand, rrand, addr));
    forall d', k | 0 <= d' < |t.devs| && 0 <= k < |t.devs[d'].sent|
      ensures Honest(e, local, t.devs[d'].now.addr, t.devs[d'].sent[k])
    {
      assert d' != d && t.devs[d'] == s.devs[d'];
    }
  }

  lemma RspKeeps(e: Cipher, local: Address, s: State, d: nat, rsp: Octets6, room1: bool, room2: bool)
    requires Safe(e, local, s) && d < |s.devs|
    ensures Safe(e, local, PairingRsp(s, d, rsp, room1, room2))
  {
    PutKeeps(e, local, s, d, PairingRsp(s, d, rsp, room1, room2).devs[d]);
  }

  lemma PeerRandomKeeps(e: Cipher, local: Address, s: State, d: nat, val: Block, room: bool)
    requires Safe(e, local, s) && d < |s.devs|
    ensures Safe(e, local, PeerRandom(s, d, val, room))
  {
    var now := s.devs[d].now.(rrand := val);
    var dev := s.devs[d].(now := now, ltk := StkText(now));
    PutKeeps(e, local, s, d, dev);
    GetEncryptKeeps(e, local, Put(s, d, dev), d, StkComplete, StkText(now), now, room);
    PutKeeps(e, local, GetEncrypt(Put(s, d, dev), d, StkComplete, ZERO, StkText(now), now, room), d, DistributeIfDone(dev));
  }

  lemma StepKeepsSafe(e: Cipher, local: Address, s: State, ev: Event)
    requires Safe(e, local, s) && Allowed(s, ev)
    ensures Safe(e, local, Step(e, local, s, ev))
  {
    match ev
    case EvStart(d) =>
      PutKeeps(e, local, s, d, PairingStart(s, d).devs[d]);
    case EvRsp(d, rsp, room1, room2) =>
      RspKeeps(e, local, s, d, rsp, room1, room2);
    case EvPeerConfirm(d) =>
      PutKeeps(e, local, s, d, PeerConfirm(s, d).devs[d]);
    case EvPeerRandom(d, val, room) =>
      PeerRandomKeeps(e, local, s, d, val, room);
    case EvPeerLtk(d, ltk) =>
      PutKeeps(e, local, s, d, PeerLtk(s, d, ltk).devs[d]);
    case EvPeerIdent(d, ident) =>
      PutKeeps(e, local, s, d, PeerIdent(s, d, ident).devs[d]);
    case EvPeerKey(d, kind) =>
      PutKeeps(e, local, s, d, PeerKey(s, d, kind).devs[d]);
    case EvRandDone(data, room) =>
      RandDoneKeeps(e, local, s, data, room);
    case EvEncDone(room) =>
      EncDoneKeeps(e, local, s, room);
    case EvNewConnection(d, rand, rrand, addr) =>
      NewConnectionKeeps(e, local, s, d, rand, rrand, addr);
    case EvRestart =>
      assert Restarted(s) == s;
  }

  /** The queues still line up after a restart exactly when the controller owes no answer. */
  lemma RestartKeepsSafeExactly(e: Cipher, local: Address, s: State)
    requires Safe(e, local, s)
    ensures Safe(e, local, Restarted(s)) <==> s.randCmds == [] && s.encCmds == []
  {
    if s.randCmds == [] && s.encCmds == [] {
      assert Restarted(s) == s;
    }
  }

  /** If it owes one, the next request gets it: an answer for one device is sent on to another as its
      confirm value. */
  lemma RestartMisdirects(local: Address, s: State, x: EncCommand, d: nat, text: Block, asked: Material, data: Block)
    requires InTable(s) && s.encCmds == [x] && d < |s.devs|
    ensures var t := GetEncrypt(Restarted(s), d, ConfirmComplete, ZERO, text, asked, true);
            InTable(t) && t.encCmds[0] == x &&
            EncDone(t, local, data, true).devs[d].sent == s.devs[d].sent + [PairingConfirm(data, x.asked)]
  {
  }

  // ----- runs

  ghost predicate Initial(s: State) {
    && s.randq == [] && s.encq == [] && s.randCmds == [] && s.encCmds == []
    && forall d :: 0 <= d < |s.devs| ==> s.devs[d].sent == [] && s.devs[d].now.pres == NONE
  }

  ghost predicate Execution(e: Cipher, local: Address, states: seq<State>, evs: seq<Event>) {
    && |states| == |evs| + 1
    && Initial(states[0])
    && forall i :: 0 <= i < |evs| ==>
         InTable(states[i]) && Allowed(states[i], evs[i]) && states[i + 1] == Step(e, local, states[i], evs[i])
  }

  /** Every reachable state is safe: each completion finds the callback of the device that asked, and
      each confirm value and short term key that was sent is right for the material it was asked for. */
  lemma {:induction false} EveryStateIsSafe(e: Cipher, local: Address, states: seq<State>, evs: seq<Event>, n: nat)
    requires Execution(e, local, states, evs) && n < |states|
    ensures Safe(e, local, states[n])
  {
    if n > 0 {
      EveryStateIsSafe(e, local, states, evs, n - 1);
      StepKeepsSafe(e, local, states[n - 1], evs[n - 1]);
    }
  }

  // ----- one pairing per connection

  predicate Responded(dev: Device) {
    dev.now.pres[0] == CMD_PAIRING_RSP
  }

  predicate StkPending(s: State, d: nat) {
    exists i :: 0 <= i < |s.encq| && s.encq[i] == EncContext(d, StkComplete)
  }

  /** The peer answers the Pairing Request once. A `strict` peer also sends its random only once the
      host's is drawn and no short term key is being computed for it. */
  predicate Orderly(s: State, ev: Event, strict: bool)
    requires Allowed(s, ev)
  {
    match ev
    case EvStart(d) => !Responded(s.devs[d])
    case EvRsp(d, _, _, _) => !Responded(s.devs[d])
    case EvPeerRandom(d, _, _) => strict ==> Responded(s.devs[d]) && !RandPending(s, d) && !StkPending(s, d)
    case _ => true
  }

  /** Nothing the confirm value depends on differs. */
  predicate SamePairing(a: Material, b: Material) {
    a.rand == b.rand && a.preq == b.preq && a.pres == b.pres && a.addr == b.addr
  }

  ghost predicate SettledRand(s: State, d: nat)
    requires d < |s.devs|
  {
    && (RandPending(s, d) ==> Responded(s.devs[d]))
    && forall i, j :: 0 <= i < j < |s.randq| && s.randq[i] == RandContext(d, MrandComplete) ==> s.randq[j].dev != d
  }

  ghost predicate SettledJob(s: State, d: nat, i: nat, strict: bool)
    requires d < |s.devs| && i < |s.encq| && i < |s.encCmds|
  {
    s.encq[i].dev == d && (s.encq[i].cb != StkComplete || strict) ==>
      && Responded(s.devs[d]) && !RandPending(s, d)
      && (if s.encq[i].cb == StkComplete then s.encCmds[i].asked == s.devs[d].now
          else SamePairing(s.encCmds[i].asked, s.devs[d].now))
  }

  ghost predicate SettledSent(s: State, d: nat, k: nat)
    requires d < |s.devs| && k < |s.devs[d].sent|
  {
    var dev := s.devs[d];
    dev.sent[k].PairingConfirm? ==>
      && Responded(dev) && !RandPending(s, d)
      && SamePairing(dev.sent[k].asked, dev.now)
      && forall j :: k < j < |dev.sent| && dev.sent[j].PairingRandom? ==> dev.sent[j].val == dev.now.rand
  }

  ghost predicate SettledDev(s: State, d: nat, strict: bool)
    requires d < |s.devs| && |s.encq| == |s.encCmds|
  {
    && SettledRand(s, d)
    && (forall i :: 0 <= i < |s.encq| ==> SettledJob(s, d, i, strict))
    && (forall k :: 0 <= k < |s.devs[d].sent| ==> SettledSent(s, d, k))
  }

  lemma RandDoneKeepsSettled(e: Cipher, local: Address, s: State, data: Octets8, room: bool, d: nat, strict: bool)
    requires Safe(e, local, s) && s.randCmds != []
    requires d < |s.devs| && SettledDev(s, d, strict)
    ensures var t := RandDone(s, local, data, room);
            |t.devs| == |s.devs| && |t.encq| == |t.encCmds| && SettledDev(t, d, strict)
  {
    var t := RandDone(s, local, data, room);
    assert forall j :: 0 <= j < |t.randq| ==> t.randq[j] == s.randq[j + 1];
    if s.randq[0].dev == d {
      assert RandPending(s, d);
    } else {
      assert t.devs[d] == s.devs[d];
      assert RandPending(t, d) == RandPending(s, d) by {
        if RandPending(s, d) {
          var i :| 0 <= i < |s.randq| && s.randq[i].dev == d;
          assert t.randq[i - 1].dev == d;
        }
      }
    }
    forall i | 0 <= i < |t.encq|
      ensures SettledJob(t, d, i, strict)
    {
      if i < |s.encq| {
        assert t.encq[i] == s.encq[i] && t.encCmds[i] == s.encCmds[i] && SettledJob(s, d, i, strict);
      }
    }
    forall k | 0 <= k < |t.devs[d].sent|
      ensures SettledSent(t, d, k)
    {
      assert SettledSent(s, d, k);
    }
  }

  /** A device that has not been answered may change freely; an answered one keeps what its confirm
      value depends on, and its peer random unless no key computation uses it. No new confirm is sent. */
  lemma PutKeepsSettled(s: State, d: nat, dev: Device, news: seq<Message>, d': nat, strict: bool)
    requires d < |s.devs| && d' < |s.devs| && |s.encq| == |s.encCmds|
    requires SettledDev(s, d, strict) && SettledDev(s, d', strict)
    requires dev.sent == s.devs[d].sent + news
    requires forall m :: m in news ==> !m.PairingConfirm? && (m.PairingRandom? ==> m.val == dev.now.rand)
    requires !Responded(s.devs[d]) ||
             (SamePairing(dev.now, s.devs[d].now) && (dev.now == s.devs[d].now || !strict || !StkPending(s, d)))
    ensures SettledDev(Put(s, d, dev), d', strict)
  {
    var t := Put(s, d, dev);
    assert RandPending(t, d') == RandPending(s, d');
    forall i | 0 <= i < |t.encq|
      ensures SettledJob(t, d', i, strict)
    {
      assert SettledJob(s, d', i, strict);
    }
    forall k | 0 <= k < |t.devs[d'].sent|
      ensures SettledSent(t, d', k)
    {
      if k < |s.devs[d'].sent| {
        assert SettledSent(s, d', k);
      } else if d' == d {
        assert t.devs[d'].sent[k] in news;
      }
    }
  }

  lemma GetRandomKeepsSettled(s: State, d: nat, cb: RandCallback, room: bool, d': nat, strict: bool)
    requires d < |s.devs| && d' < |s.devs| && |s.encq| == |s.encCmds|
    requires SettledDev(s, d, strict) && SettledDev(s, d', strict)
    requires Responded(s.devs[d])
    requires forall i :: 0 <= i < |s.randq| ==> s.randq[i] != RandContext(d, MrandComplete)
    requires forall i :: 0 <= i < |s.encq| && s.encq[i].dev == d ==> s.encq[i].cb == StkComplete && !strict
    requires forall k :: 0 <= k < |s.devs[d].sent| ==> !s.devs[d].sent[k].PairingConfirm?
    ensures SettledDev(GetRandom(s, d, cb, room), d', strict)
  {
    var t := GetRandom(s, d, cb, room);
    if d' != d && RandPending(t, d') {
      var i :| 0 <= i < |t.randq| && t.randq[i].dev == d';
      assert s.randq[i].dev == d';
    }
    forall i | 0 <= i < |t.encq|
      ensures SettledJob(t, d', i, strict)
    {
      assert SettledJob(s, d', i, strict);
    }
    forall k | 0 <= k < |t.devs[d'].sent|
      ensures SettledSent(t, d', k)
    {
      assert SettledSent(s, d', k);
    }
  }

  lemma RspKeepsSettled(s: State, d: nat, rsp: Octets6, room1: bool, room2: bool, d': nat, strict: bool)
    requires d < |s.devs| && d' < |s.devs| && |s.encq| == |s.encCmds|
    requires SettledDev(s, d, strict) && SettledDev(s, d', strict)
    requires !Responded(s.devs[d])
    ensures SettledDev(PairingRsp(s, d, rsp, room1, room2), d', strict)
  {
    var dev := PairingRsp(s, d, rsp, room1, room2).devs[d];
    var t := Put(s, d, dev);
    PutKeepsSettled(s, d, dev, [], d, strict);
    PutKeepsSettled(s, d, dev, [], d', strict);
    forall i | 0 <= i < |s.encq|
      ensures s.encq[i].dev == d ==> s.encq[i].cb == StkComplete && !strict
    {
      assert SettledJob(s, d, i, strict);
    }
    forall k | 0 <= k < |s.devs[d].sent|
      ensures !s.devs[d].sent[k].PairingConfirm?
    {
      assert SettledSent(s, d, k);
    }
    assert !RandPending(s, d);
    GetRandomKeepsSettled(t, d, MrandHalf, room1, d, strict);
    GetRandomKeepsSettled(t, d, MrandHalf, room1, d', strict);
    GetRandomKeepsSettled(GetRandom(t, d, MrandHalf, room1), d, MrandComplete, room2, d', strict);
  }

  lemma GetEncryptKeepsSettled(s: State, d: nat, cb: EncCallback, text: Block, asked: Material, room: bool, d': nat, strict: bool)
    requires d < |s.devs| && d' < |s.devs| && |s.encq| == |s.encCmds|
    requires SettledDev(s, d', strict)
    requires (cb == StkComplete && !strict) || (Responded(s.devs[d]) && !RandPending(s, d))
    requires if cb == StkComplete then asked == s.devs[d].now else SamePairing(asked, s.devs[d].now)
    ensures SettledDev(GetEncrypt(s, d, cb, ZERO, text, asked, room), d', strict)
  {
    var t := GetEncrypt(s, d, cb, ZERO, text, asked, room);
    assert RandPending(t, d') == RandPending(s, d');
    forall i | 0 <= i < |t.encq|
      ensures SettledJob(t, d', i, strict)
    {
      if i < |s.encq| {
        assert t.encq[i] == s.encq[i] && t.encCmds[i] == s.encCmds[i] && SettledJob(s, d', i, strict);
      }
    }
    forall k | 0 <= k < |t.devs[d'].sent|
      ensures SettledSent(t, d', k)
    {
      assert SettledSent(s, d', k);
    }
  }

  lemma PeerRandomKeepsSettled(s: State, d: nat, val: Block, room: bool, d': nat, strict: bool)
    requires d < |s.devs| && d' < |s.devs| && |s.encq| == |s.encCmds|
    requires SettledDev(s, d, strict) && SettledDev(s, d', strict)
    requires strict ==> Responded(s.devs[d]) && !RandPending(s, d) && !StkPending(s, d)
    ensures SettledDev(PeerRandom(s, d, val, room), d', strict)
  {
    var now := s.devs[d].now.(rrand := val);
    var dev := s.devs[d].(now := now, ltk := StkText(now));
    var t := Put(s, d, dev);
    PutKeepsSettled(s, d, dev, [], d, strict);
    PutKeepsSettled(s, d, dev, [], d', strict);
    assert RandPending(t, d) == RandPending(s, d);
    GetEncryptKeepsSettled(t, d, StkComplete, StkText(now), now, room, d, strict);
    GetEncryptKeepsSettled(t, d, StkComplete, StkText(now), now, room, d', strict);
    var news := if dev.rdist == 0 then [KeyDistribution(dev.ldist)] else [];
    PutKeepsSettled(GetEncrypt(t, d, StkComplete, ZERO, StkText(now), now, room), d, DistributeIfDone(dev), news, d', strict);
  }

  lemma PeerIdentKeepsSettled(s: State, d: nat, ident: Octets10, d': nat, strict: bool)
    requires d < |s.devs| && d' < |s.devs| && |s.encq| == |s.encCmds|
    requires SettledDev(s, d, strict) && SettledDev(s, d', strict)
    ensures SettledDev(PeerIdent(s, d, ident), d', strict)
  {
    var dev, addr := PeerIdent(s, d, ident).devs[d], s.devs[d].now.addr;
    var news := [StoreIdent(addr, ident)] + (if dev.rdist == 0 then [KeyDistribution(dev.ldist)] else []) + [AddToAcceptList(addr)];
    assert dev.sent == s.devs[d].sent + news;
    PutKeepsSettled(s, d, dev, news, d', strict);
  }

  lemma NewConnectionKeepsSettled(s: State, d: nat, dev: Device, d': nat, strict: bool)
    requires d < |s.devs| && d' < |s.devs| && |s.encq| == |s.encCmds|
    requires SettledDev(s, d', strict)
    requires !RandPending(s, d) && !EncPending(s, d) && dev.sent == []
    ensures SettledDev(Put(s, d, dev), d', strict)
  {
    var t := Put(s, d, dev);
    assert RandPending(t, d') == RandPending(s, d');
    forall i | 0 <= i < |t.encq|
      ensures SettledJob(t, d', i, strict)
    {
      assert SettledJob(s, d', i, strict);
    }
    forall k | 0 <= k < |t.devs[d'].sent|
      ensures SettledSent(t, d', k)
    {
      assert SettledSent(s, d', k);
    }
  }

  ghost predicate Settled(s: State, strict: bool) {
    |s.encq| == |s.encCmds| && forall d :: 0 <= d < |s.devs| ==> SettledDev(s, d, strict)
  }

  lemma PopKeepsSettled(e: Cipher, local: Address, s: State, d: nat, strict: bool)
    requires Safe(e, local, s) && s.encCmds != []
    requires d < |s.devs| && SettledDev(s, d, strict)
    ensures var t := s.(encCmds := s.encCmds[1..], encq := s.encq[1..]);
            |t.encq| == |t.encCmds| && SettledDev(t, d, strict)
  {
    var t := s.(encCmds := s.encCmds[1..], encq := s.encq[1..]);
    assert RandPending(t, d) == RandPending(s, d);
    forall i | 0 <= i < |t.encq|
      ensures SettledJob(t, d, i, strict)
    {
      assert t.encq[i] == s.encq[i + 1] && t.encCmds[i] == s.encCmds[i + 1] && SettledJob(s, d, i + 1, strict);
    }
    forall k | 0 <= k < |t.devs[d].sent|
      ensures SettledSent(t, d, k)
    {
      assert SettledSent(s, d, k);
    }
  }

  /** Writing the shared buffer and, for a settled device, sending what was computed. */
  lemma AnswerKeepsSettled(s: State, d: nat, dev: Device, news: seq<Message>, d': nat, strict: bool)
    requires d < |s.devs| && d' < |s.devs| && |s.encq| == |s.encCmds|
    requires SettledDev(s, d, strict) && SettledDev(s, d', strict)
    requires dev.now == s.devs[d].now
    requires dev.sent == s.devs[d].sent + news
    requires forall m :: m in news ==> !m.PairingRandom?
    requires forall m :: m in news && m.PairingConfirm? ==>
               Responded(s.devs[d]) && !RandPending(s, d) && SamePairing(m.asked, dev.now)
    ensures SettledDev(Put(s, d, dev), d', strict)
  {
    var t := Put(s, d, dev);
    assert RandPending(t, d') == RandPending(s, d');
    forall i | 0 <= i < |t.encq|
      ensures SettledJob(t, d', i, strict)
    {
      assert SettledJob(s, d', i, strict);
    }
    forall k | 0 <= k < |t.devs[d'].sent|
      ensures SettledSent(t, d', k)
    {
      if k < |s.devs[d'].sent| {
        assert SettledSent(s, d', k);
      } else if d' == d {
        assert t.devs[d'].sent[k] in news;
      }
    }
  }

  lemma EncDoneKeepsSettled(e: Cipher, local: Address, s: State, room: bool, d: nat, strict: bool)
    requires Safe(e, local, s) && s.encCmds != []
    requires Settled(s, strict) && d < |s.devs|
    ensures var t := EncDone(s, local, e(s.encCmds[0].key, s.encCmds[0].text), room);
            |t.devs| == |s.devs| && |t.encq| == |t.encCmds| && SettledDev(t, d, strict)
  {
    var x, c := s.encCmds[0], s.encq[0];
    var data := e(x.key, x.text);
    var dev := s.devs[c.dev];
    var t := s.(encCmds := s.encCmds[1..], encq := s.encq[1..]);
    assert SettledDev(s, c.dev, strict) && SettledJob(s, c.dev, 0, strict);
    PopKeepsSettled(e, local, s, d, strict);
    PopKeepsSettled(e, local, s, c.dev, strict);
    assert RandPending(t, c.dev) == RandPending(s, c.dev);
    match c.cb
    case ConfirmHalf =>
      var text := ConfirmText2(local, dev.now, data);
      AnswerKeepsSettled(t, c.dev, dev.(ltk := text), [], d, strict);
      GetEncryptKeepsSettled(Put(t, c.dev, dev.(ltk := text)), c.dev, ConfirmComplete, text, x.asked, room, d, strict);
    case ConfirmComplete =>
      AnswerKeepsSettled(t, c.dev, Sent(dev.(ltk := data), PairingConfirm(data, x.asked)), [PairingConfirm(data, x.asked)], d, strict);
    case StkComplete =>
      AnswerKeepsSettled(t, c.dev, Sent(dev.(ltk := data), StartEncryption(data, x.asked)), [StartEncryption(data, x.asked)], d, strict);
  }

  lemma StepKeepsSettled(e: Cipher, local: Address, s: State, ev: Event, d': nat, strict: bool)
    requires Safe(e, local, s) && Allowed(s, ev) && Orderly(s, ev, strict)
    requires Settled(s, strict) && d' < |s.devs|
    ensures var t := Step(e, local, s, ev); |t.devs| == |s.devs| && |t.encq| == |t.encCmds| && SettledDev(t, d', strict)
  {
    match ev
    case EvStart(d) => PutKeepsSettled(s, d, PairingStart(s, d).devs[d], [PairingRequest(PREQ)], d', strict);
    case EvRsp(d, rsp, room1, room2) => RspKeepsSettled(s, d, rsp, room1, room2, d', strict);
    case EvPeerConfirm(d) => PutKeepsSettled(s, d, PeerConfirm(s, d).devs[d], [PairingRandom(s.devs[d].now.rand)], d', strict);
    case EvPeerRandom(d, val, room) => PeerRandomKeepsSettled(s, d, val, room, d', strict);
    case EvPeerLtk(d, ltk) => PutKeepsSettled(s, d, PeerLtk(s, d, ltk).devs[d], [StoreLtk(s.devs[d].now.addr, ltk)], d', strict);
    case EvPeerIdent(d, ident) => PeerIdentKeepsSettled(s, d, ident, d', strict);
    case EvPeerKey(d, kind) =>
      var dev := PeerKey(s, d, kind).devs[d];
      PutKeepsSettled(s, d, dev, if dev.rdist == 0 then [KeyDistribution(dev.ldist)] else [], d', strict);
    case EvRandDone(data, room) => RandDoneKeepsSettled(e, local, s, data, room, d', strict);
    case EvEncDone(room) => EncDoneKeepsSettled(e, local, s, room, d', strict);
    case EvNewConnection(d, rand, rrand, addr) => NewConnectionKeepsSettled(s, d, FreshDevice(rand, rrand, addr), d', strict);
    case EvRestart =>
      assert Restarted(s) == s && SettledDev(s, d', strict);
  }

  /** A run in which every device is paired at most once per connection. */
  ghost predicate OrderlyExecution(e: Cipher, local: Address, states: seq<State>, evs: seq<Event>, strict: bool) {
    && Execution(e, local, states, evs)
    && forall i :: 0 <= i < |evs| ==> Orderly(states[i], evs[i], strict)
  }

  lemma InitiallySettled(s: State, strict: bool)
    requires Initial(s)
    ensures Settled(s, strict)
  {
  }

  lemma {:induction false} EveryStateIsSettled(e: Cipher, local: Address, states: seq<State>, evs: seq<Event>, n: nat, strict: bool)
    requires OrderlyExecution(e, local, states, evs, strict) && n < |states|
    ensures Safe(e, local, states[n]) && Settled(states[n], strict)
  {
    EveryStateIsSafe(e, local, states, evs, n);
    if n == 0 {
      InitiallySettled(states[0], strict);
    } else {
      EveryStateIsSettled(e, local, states, evs, n - 1, strict);
      forall d | 0 <= d < |states[n].devs|
        ensures SettledDev(states[n], d, strict)
      {
        StepKeepsSettled(e, local, states[n - 1], evs[n - 1], if d < |states[n - 1].devs| then d else 0, strict);
      }
    }
  }

  /** In every interleaving, a confirm value sent to a device is the confirm function of that device's
      own material, and every random revealed to it afterwards is the one the value was made from. */
  lemma ConfirmThenReveal(e: Cipher, local: Address, states: seq<State>, evs: seq<Event>, n: nat, d: nat, k: nat)
    requires OrderlyExecution(e, local, states, evs, false)
    requires n < |states| && d < |states[n].devs| && k < |states[n].devs[d].sent|
    requires states[n].devs[d].sent[k].PairingConfirm?
    ensures var dev := states[n].devs[d];
            && dev.sent[k].val == ConfirmValue(e, local, dev.now)
            && forall j :: k < j < |dev.sent| && dev.sent[j].PairingRandom? ==> dev.sent[j].val == dev.now.rand
  {
    EveryStateIsSettled(e, local, states, evs, n, false);
    assert SettledDev(states[n], d, false);
    assert SettledSent(states[n], d, k);
    assert Honest(e, local, states[n].devs[d].now.addr, states[n].devs[d].sent[k]);
  }

  /** The key passed to start-encryption is the short term key of the device's own randoms, even when
      other work, its own confirm chain included, used the shared buffer in the meantime. */
  lemma EncryptionStartsWithStk(e: Cipher, local: Address, states: seq<State>, evs: seq<Event>, n: nat)
    requires OrderlyExecution(e, local, states, evs, true)
    requires n < |evs| && evs[n].EvEncDone? && states[n].encq != [] && states[n].encq[0].cb == StkComplete
    ensures var d := states[n].encCmds[0].owner;
            && d < |states[n].devs|
            && var dev := states[n].devs[d];
               states[n + 1].devs[d].sent == dev.sent + [StartEncryption(ShortTermKey(e, dev.now), dev.now)]
  {
    EveryStateIsSafe(e, local, states, evs, n);
    var d := states[n].encq[0].dev;
    EveryStateIsSettled(e, local, states, evs, n, true);
    assert SettledDev(states[n], d, true);
    assert SettledJob(states[n], d, 0, true);
    assert Matches(e, local, states[n].encq[0], states[n].encCmds[0]);
  }

  // ----- when the random changes

  /** The controller's answer overwrites half of the random of device `d` with other octets. */
  predicate Redraws(s: State, ev: Event, d: nat)
    requires d < |s.devs|
  {
    && ev.EvRandDone? && s.randq != [] && s.randq[0].dev == d
    && ev.data != if s.randq[0].cb == MrandHalf then s.devs[d].now.rand[..8] else s.devs[d].now.rand[8..]
  }

  predicate Renews(ev: Event, d: nat) {
    ev.EvNewConnection? && ev.dev == d
  }

  /** Whatever else happens, the random of a device changes exactly when an answer redraws it. */
  lemma RandChangesExactly(e: Cipher, local: Address, s: State, ev: Event, d: nat)
    requires Safe(e, local, s) && Allowed(s, ev) && d < |s.devs| && !Renews(ev, d)
    ensures var t := Step(e, local, s, ev);
            |t.devs| == |s.devs| && (t.devs[d].now.rand == s.devs[d].now.rand <==> !Redraws(s, ev, d))
  {
    if ev.EvRandDone? {
      RandDoneRand(local, s, ev.data, ev.room, d);
    } else {
      OtherKeepsRand(e, local, s, ev, d);
    }
  }

  lemma RandDoneRand(local: Address, s: State, data: Octets8, room: bool, d: nat)
    requires InTable(s) && s.randCmds != [] && d < |s.devs|
    ensures var t, was := RandDone(s, local, data, room), s.devs[d].now.rand;
            |t.devs| == |s.devs| &&
            t.devs[d].now.rand == if s.randq == [] || s.randq[0].dev != d then was
                                  else if s.randq[0].cb == MrandHalf then data + was[8..] else was[..8] + data
    ensures var t, was := RandDone(s, local, data, room), s.devs[d].now.rand;
            t.devs[d].now.rand == was <==> !Redraws(s, EvRandDone(data, room), d)
  {
    var was := s.devs[d].now.rand;
    assert was == was[..8] + was[8..];
    assert (data + was[8..])[..8] == data && (was[..8] + data)[8..] == data;
  }

  lemma OtherKeepsRand(e: Cipher, local: Address, s: State, ev: Event, d: nat)
    requires Safe(e, local, s) && Allowed(s, ev) && d < |s.devs| && !Renews(ev, d) && !ev.EvRandDone?
    ensures var t := Step(e, local, s, ev); |t.devs| == |s.devs| && t.devs[d].now.rand == s.devs[d].now.rand
  {
  }

  /** No event from `lo` up to `hi` redraws the random of device `d` or gives its slot to another connection. */
  ghost predicate RandStays(states: seq<State>, evs: seq<Event>, lo: nat, hi: nat, d: nat)
    requires hi <= |evs| < |states|
  {
    forall i :: lo <= i < hi ==> d < |states[i].devs| && !Renews(evs[i], d) && !Redraws(states[i], evs[i], d)
  }

  lemma {:induction false} RandIsKept(e: Cipher, local: Address, states: seq<State>, evs: seq<Event>, lo: nat, hi: nat, d: nat)
    requires Execution(e, local, states, evs) && lo <= hi <= |evs| && RandStays(states, evs, lo, hi, d)
    requires d < |states[lo].devs|
    ensures d < |states[hi].devs| && states[hi].devs[d].now.rand == states[lo].devs[d].now.rand
    decreases hi
  {
    if lo < hi {
      RandIsKept(e, local, states, evs, lo, hi - 1, d);
      EveryStateIsSafe(e, local, states, evs, hi - 1);
      RandChangesExactly(e, local, states[hi - 1], evs[hi - 1], d);
    }
  }

  /** Event `j` brought the peer's random of device `d`, which then had the material `m`. */
  ghost predicate BroughtRandom(states: seq<State>, evs: seq<Event>, j: nat, d: nat, m: Material) {
    && j < |evs| && j + 1 < |states| && evs[j].EvPeerRandom? && evs[j].dev == d
    && d < |states[j + 1].devs| && states[j + 1].devs[d].now == m
  }

  /** A short term key in flight after a step was in flight before it, or the step brought a random. */
  lemma KeyJobComesFrom(e: Cipher, local: Address, s: State, ev: Event, i: nat) returns (before: int)
    requires Safe(e, local, s) && Allowed(s, ev)
    requires var t := Step(e, local, s, ev); |t.encq| == |t.encCmds| && i < |t.encq| && t.encq[i].cb == StkComplete
    ensures -1 <= before < |s.encq|
    ensures var t := Step(e, local, s, ev);
            if before >= 0 then s.encq[before] == t.encq[i] && s.encCmds[before] == t.encCmds[i]
            else ev.EvPeerRandom? && ev.dev == t.encq[i].dev < |t.devs| && t.devs[ev.dev].now == t.encCmds[i].asked
  {
    before := if ev.EvEncDone? then i + 1 else i;
    if before >= |s.encq| { before := -1; }
  }

  /** In every run, without any assumption on the peers, a short term key in flight is computed from the
      material its device had when that device's peer sent its random. */
  lemma {:induction false} EveryKeyHasItsRandom(e: Cipher, local: Address, states: seq<State>, evs: seq<Event>, n: nat, i: nat)
      returns (j: nat)
    requires Execution(e, local, states, evs) && n < |states|
    requires i < |states[n].encq| && i < |states[n].encCmds| && states[n].encq[i].cb == StkComplete
    ensures j < n && BroughtRandom(states, evs, j, states[n].encq[i].dev, states[n].encCmds[i].asked)
  {
    EveryStateIsSafe(e, local, states, evs, n);
    EveryStateIsSafe(e, local, states, evs, n - 1);
    var before := KeyJobComesFrom(e, local, states[n - 1], evs[n - 1], i);
    if before < 0 {
      j := n - 1;
    } else {
      j := EveryKeyHasItsRandom(e, local, states, evs, n - 1, before);
    }
  }

  /** So is every key that encryption is started with. */
  lemma KeyIsOfTheRandom(e: Cipher, local: Address, states: seq<State>, evs: seq<Event>, n: nat) returns (j: nat)
    requires Execution(e, local, states, evs)
    requires n < |evs| && evs[n].EvEncDone? && states[n].encq != [] && states[n].encq[0].cb == StkComplete
    ensures var d := states[n].encCmds[0].owner;
            && j < n && d < |states[n].devs| && d < |states[j + 1].devs|
            && evs[j].EvPeerRandom? && evs[j].dev == d
            && var m := states[j + 1].devs[d].now;
               states[n + 1].devs[d].sent == states[n].devs[d].sent + [StartEncryption(ShortTermKey(e, m), m)]
  {
    EveryStateIsSafe(e, local, states, evs, n);
    j := EveryKeyHasItsRandom(e, local, states, evs, n, 0);
    assert Matches(e, local, states[n].encq[0], states[n].encCmds[0]);
  }

  /** Event `j` completed the random of device `d`, which then had the material `m`. */
  ghost predicate DrewRandom(states: seq<State>, evs: seq<Event>, j: nat, d: nat, m: Material) {
    && j < |evs| && j + 1 < |states| && evs[j].EvRandDone?
    && states[j].randq != [] && states[j].randq[0] == RandContext(d, MrandComplete)
    && d < |states[j + 1].devs| && states[j + 1].devs[d].now == m
  }

  /** Work on a confirm value after a step was work on it before, or the step completed a random. */
  lemma ConfirmJobComesFrom(e: Cipher, local: Address, s: State, ev: Event, i: nat) returns (before: int)
    requires Safe(e, local, s) && Allowed(s, ev)
    requires var t := Step(e, local, s, ev); |t.encq| == |t.encCmds| && i < |t.encq| && t.encq[i].cb != StkComplete
    ensures -1 <= before < |s.encq|
    ensures var t := Step(e, local, s, ev);
            if before >= 0 then
              s.encq[before].cb != StkComplete && s.encq[before].dev == t.encq[i].dev && s.encCmds[before].asked == t.encCmds[i].asked
            else
              && ev.EvRandDone? && s.randq != [] && s.randq[0] == RandContext(t.encq[i].dev, MrandComplete)
              && t.encq[i].dev < |t.devs| && t.devs[t.encq[i].dev].now == t.encCmds[i].asked
  {
    before := if ev.EvEncDone? then (if i + 1 < |s.encq| then i + 1 else 0) else if i < |s.encq| then i else -1;
  }

  lemma {:induction false} EveryConfirmJobHasItsDraw(e: Cipher, local: Address, states: seq<State>, evs: seq<Event>, n: nat, i: nat)
      returns (j: nat)
    requires Execution(e, local, states, evs) && n < |states|
    requires i < |states[n].encq| && i < |states[n].encCmds| && states[n].encq[i].cb != StkComplete
    ensures j < n && DrewRandom(states, evs, j, states[n].encq[i].dev, states[n].encCmds[i].asked)
  {
    EveryStateIsSafe(e, local, states, evs, n);
    EveryStateIsSafe(e, local, states, evs, n - 1);
    var before := ConfirmJobComesFrom(e, local, states[n - 1], evs[n - 1], i);
    if before < 0 {
      j := n - 1;
    } else {
      j := EveryConfirmJobHasItsDraw(e, local, states, evs, n - 1, before);
    }
  }

  /** A confirm value that a step sends answers the oldest encryption command. */
  ghost predicate ConfirmAnswers(s: State, t: State, d: nat, k: nat) {
    && d < |s.devs| && d < |t.devs| && k < |t.devs[d].sent|
    && ((k < |s.devs[d].sent| && s.devs[d].sent[k] == t.devs[d].sent[k]) ||
        (s.encq != [] && s.encCmds != [] && s.encq[0] == EncContext(d, ConfirmComplete) &&
         t.devs[d].sent[k].PairingConfirm? && s.encCmds[0].asked == t.devs[d].sent[k].asked))
  }

  lemma AnswerIsConfirm(e: Cipher, local: Address, s: State, room: bool, d: nat, k: nat)
    requires Safe(e, local, s) && s.encCmds != []
    requires var t := EncDone(s, local, e(s.encCmds[0].key, s.encCmds[0].text), room);
             d < |t.devs| && k < |t.devs[d].sent| && t.devs[d].sent[k].PairingConfirm?
    ensures ConfirmAnswers(s, EncDone(s, local, e(s.encCmds[0].key, s.encCmds[0].text), room), d, k)
  {
  }

  lemma RandDoneSendsNothing(local: Address, s: State, data: Octets8, room: bool, d: nat)
    requires InTable(s) && s.randCmds != []
    ensures var t := RandDone(s, local, data, room); |t.devs| == |s.devs| && (d < |s.devs| ==> t.devs[d].sent == s.devs[d].sent)
  {
  }

  lemma PeerSendsNoConfirm(e: Cipher, local: Address, s: State, ev: Event, d: nat, k: nat)
    requires InTable(s) && Allowed(s, ev) && !ev.EvEncDone? && !ev.EvRandDone?
    requires var t := Step(e, local, s, ev); d < |t.devs| && k < |t.devs[d].sent| && t.devs[d].sent[k].PairingConfirm?
    ensures ConfirmAnswers(s, Step(e, local, s, ev), d, k)
  {
  }

  /** In every run, without any assumption on the peers, a confirm value is the confirm function of the
      material its device had when its random was drawn. */
  lemma {:induction false} EveryConfirmHasItsDraw(e: Cipher, local: Address, states: seq<State>, evs: seq<Event>, n: nat, d: nat, k: nat)
      returns (j: nat)
    requires Execution(e, local, states, evs) && n < |states|
    requires d < |states[n].devs| && k < |states[n].devs[d].sent| && states[n].devs[d].sent[k].PairingConfirm?
    ensures var m := states[n].devs[d].sent[k];
            j < n && DrewRandom(states, evs, j, d, m.asked) && m.val == ConfirmValue(e, local, m.asked)
  {
    EveryStateIsSafe(e, local, states, evs, n);
    assert Honest(e, local, states[n].devs[d].now.addr, states[n].devs[d].sent[k]);
    EveryStateIsSafe(e, local, states, evs, n - 1);
    if evs[n - 1].EvEncDone? {
      AnswerIsConfirm(e, local, states[n - 1], evs[n - 1].room, d, k);
    } else if evs[n - 1].EvRandDone? {
      RandDoneSendsNothing(local, states[n - 1], evs[n - 1].data, evs[n - 1].room, d);
    } else {
      PeerSendsNoConfirm(e, local, states[n - 1], evs[n - 1], d, k);
    }
    if k < |states[n - 1].devs[d].sent| && states[n - 1].devs[d].sent[k] == states[n].devs[d].sent[k] {
      j := EveryConfirmHasItsDraw(e, local, states, evs, n - 1, d, k);
    } else {
      j := EveryConfirmJobHasItsDraw(e, local, states, evs, n - 1, 0);
    }
  }

  /** In every run: the random revealed for a confirm value is the one it was made from if no answer redraws
      it in between, and another one if exactly one does. */
  lemma RevealDependsOnRedraws(e: Cipher, local: Address, states: seq<State>, evs: seq<Event>, n: nat, d: nat, k: nat, r: nat)
      returns (j: nat)
    requires Execution(e, local, states, evs) && n <= r < |evs| && evs[r] == EvPeerConfirm(d)
    requires d < |states[n].devs| && k < |states[n].devs[d].sent| && states[n].devs[d].sent[k].PairingConfirm?
    ensures var m := states[n].devs[d].sent[k];
            j < n && DrewRandom(states, evs, j, d, m.asked) && m.val == ConfirmValue(e, local, m.asked)
    ensures d < |states[r].devs| && d < |states[r + 1].devs|
    ensures states[r + 1].devs[d].sent == states[r].devs[d].sent + [PairingRandom(states[r].devs[d].now.rand)]
    ensures RandStays(states, evs, j + 1, r, d) ==> states[r].devs[d].now.rand == states[n].devs[d].sent[k].asked.rand
    ensures forall i :: j < i < r && RandStays(states, evs, j + 1, i, d) && !Renews(evs[i], d)
                        && d < |states[i].devs| && Redraws(states[i], evs[i], d) && RandStays(states, evs, i + 1, r, d) ==>
              states[r].devs[d].now.rand != states[n].devs[d].sent[k].asked.rand
  {
    j := EveryConfirmHasItsDraw(e, local, states, evs, n, d, k);
    EveryStateIsSafe(e, local, states, evs, r);
    if RandStays(states, evs, j + 1, r, d) { RandIsKept(e, local, states, evs, j + 1, r, d); }
    forall i | j < i < r && RandStays(states, evs, j + 1, i, d) && !Renews(evs[i], d)
               && d < |states[i].devs| && Redraws(states[i], evs[i], d) && RandStays(states, evs, i + 1, r, d)
      ensures states[r].devs[d].now.rand != states[n].devs[d].sent[k].asked.rand
    {
      OneRedraw(e, local, states, evs, j + 1, i, r, d);
    }
  }

  lemma OneRedraw(e: Cipher, local: Address, states: seq<State>, evs: seq<Event>, lo: nat, i: nat, hi: nat, d: nat)
    requires Execution(e, local, states, evs) && lo <= i < hi <= |evs| && d < |states[lo].devs| && d < |states[i].devs|
    requires RandStays(states, evs, lo, i, d) && !Renews(evs[i], d) && Redraws(states[i], evs[i], d)
    requires RandStays(states, evs, i + 1, hi, d)
    ensures d < |states[hi].devs| && states[hi].devs[d].now.rand != states[lo].devs[d].now.rand
  {
    RandIsKept(e, local, states, evs, lo, i, d);
    EveryStateIsSafe(e, local, states, evs, i);
    RandChangesExactly(e, local, states[i], evs[i], d);
    RandIsKept(e, local, states, evs, i + 1, hi, d);
  }

  /** Left alone, with room in the queues, one pairing draws its random from the two answers and ends
      with the confirm value being sent. */
  lemma OnePairingCompletes(e: Cipher, local: Address, s: State, d: nat, rsp: Octets6, r1: Octets8, r2: Octets8)
    requires Safe(e, local, s) && d < |s.devs| && s.randq == [] && s.encq == []
    ensures var s1 := PairingRsp(s, d, rsp, true, true);
            var s2 := RandDone(s1, local, r1, true);
            var s3 := RandDone(s2, local, r2, true);
            var s4 := EncDone(s3, local, e(s3.encCmds[0].key, s3.encCmds[0].text), true);
            var s5 := EncDone(s4, local, e(s4.encCmds[0].key, s4.encCmds[0].text), true);
            var m := s.devs[d].now.(pres := [CMD_PAIRING_RSP] + rsp, rand := r1 + r2);
            && s5.randq == [] && s5.encq == [] && s5.randCmds == [] && s5.encCmds == []
            && s5.devs[d].now == m
            && s5.devs[d].sent == s.devs[d].sent + [PairingConfirm(ConfirmValue(e, local, m), m)]
            && forall d' :: 0 <= d' < |s.devs| && d' != d ==> s5.devs[d'] == s.devs[d']
  {
    var s1 := PairingRsp(s, d, rsp, true, true);
    assert s1.randq == [RandContext(d, MrandHalf), RandContext(d, MrandComplete)];
    var s2 := RandDone(s1, local, r1, true);
    assert s2.randq == [RandContext(d, MrandComplete)];
    var s3 := RandDone(s2, local, r2, true);
    var m := s.devs[d].now.(pres := [CMD_PAIRING_RSP] + rsp, rand := r1 + r2);
    assert s2.devs[d].now.rand[..8] + r2 == r1 + r2;
    assert s3.encCmds == [EncCommand(ZERO, ConfirmText1(local, m), d, m)];
  }

  /** Answering the request a second time is what the orderly runs exclude. If a confirm value is out, the
      random revealed after the first new octets is the one it was made from exactly when those octets
      happen to repeat the old ones. */
  lemma SecondResponseDecidesReveal(local: Address, s: State, d: nat, rsp: Octets6, r1: Octets8, k: nat)
    requires InTable(s) && d < |s.devs| && s.randq == [] && s.randCmds == []
    requires k < |s.devs[d].sent| && s.devs[d].sent[k].PairingConfirm? && s.devs[d].sent[k].asked.rand == s.devs[d].now.rand
    ensures var t := PeerConfirm(RandDone(PairingRsp(s, d, rsp, true, true), local, r1, true), d);
            var sent, confirmed := t.devs[d].sent, s.devs[d].sent[k].asked.rand;
            && |sent| == |s.devs[d].sent| + 1 && sent[..|s.devs[d].sent|] == s.devs[d].sent
            && sent[|sent| - 1].PairingRandom?
            && (sent[|sent| - 1].val == confirmed <==> r1 == confirmed[..8])
  {
    var prior := s.devs[d].now.rand;
    var revealed: Block := r1 + prior[8..];
    assert revealed[..8] == r1 && prior == prior[..8] + prior[8..];
    var t := PeerConfirm(RandDone(PairingRsp(s, d, rsp, true, true), local, r1, true), d);
    assert t.devs[d].sent == s.devs[d].sent + [PairingRandom(revealed)];
  }
}
