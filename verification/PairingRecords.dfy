/**
 What a device's records hold after any run: the request that was sent, the response and the peer's random
 that came, and which of the peer's keys are outstanding; and what follows for the messages sent.
 */
module PairingRecords {
  import opened Octets
  import opened PairingProtocol
  import opened PairingSafety

  // ----- what prompts a message

  predicate Delivers(ev: Event, d: nat) {
    (ev.EvPeerRandom? || ev.EvPeerIdent? || ev.EvPeerKey?) && ev.dev == d
  }

  /** The event that makes the host send a message to device `d`. */
  predicate Prompts(ev: Event, m: Message, d: nat) {
    match m
    case PairingRequest(_) => ev == EvStart(d)
    case PairingConfirm(_, _) => ev.EvEncDone?
    case StartEncryption(_, _) => ev.EvEncDone?
    case PairingRandom(_) => ev == EvPeerConfirm(d)
    case KeyDistribution(_) => Delivers(ev, d)
    case StoreLtk(_, ltk) => ev == EvPeerLtk(d, ltk)
    case StoreIdent(_, ident) => ev == EvPeerIdent(d, ident)
    case AddToAcceptList(_) => ev.EvPeerIdent? && ev.dev == d
  }

  /** Nothing that was sent is taken back, and everything new is prompted by the event. */
  predicate Extends(was: seq<Message>, sent: seq<Message>, ev: Event, d: nat) {
    was <= sent && forall k :: |was| <= k < |sent| ==> Prompts(ev, sent[k], d)
  }

  lemma EncDoneExtends(e: Cipher, local: Address, s: State, room: bool, d: nat)
    requires Safe(e, local, s) && s.encCmds != [] && d < |s.devs|
    ensures var t := EncDone(s, local, e(s.encCmds[0].key, s.encCmds[0].text), room);
            && |t.devs| == |s.devs| && t.devs[d].now == s.devs[d].now
            && Extends(s.devs[d].sent, t.devs[d].sent, EvEncDone(room), d)
  {
  }

  lemma PeerRandomExtends(s: State, d': nat, val: Block, room: bool, d: nat)
    requires d' < |s.devs| && d < |s.devs|
    ensures var t := PeerRandom(s, d', val, room);
            |t.devs| == |s.devs| && Extends(s.devs[d].sent, t.devs[d].sent, EvPeerRandom(d', val, room), d)
  {
  }

  lemma PeerIdentExtends(s: State, d': nat, ident: Octets10, d: nat)
    requires d' < |s.devs| && d < |s.devs|
    ensures var t := PeerIdent(s, d', ident);
            |t.devs| == |s.devs| && Extends(s.devs[d].sent, t.devs[d].sent, EvPeerIdent(d', ident), d)
  {
  }

  lemma StepExtends(e: Cipher, local: Address, s: State, ev: Event, d: nat)
    requires Safe(e, local, s) && Allowed(s, ev) && d < |s.devs| && !Renews(ev, d)
    ensures var t := Step(e, local, s, ev); |t.devs| == |s.devs| && Extends(s.devs[d].sent, t.devs[d].sent, ev, d)
  {
    match ev
    case EvEncDone(room) => EncDoneExtends(e, local, s, room, d);
    case EvRandDone(data, room) => RandDoneSendsNothing(local, s, data, room, d);
    case EvPeerRandom(d', val, room) => PeerRandomExtends(s, d', val, room, d);
    case EvPeerIdent(d', ident) => PeerIdentExtends(s, d', ident, d);
    case _ =>
  }

  /** A new connection starts without anything of the one before it. */
  lemma RenewalForgets(e: Cipher, local: Address, s: State, ev: Event, d: nat)
    requires Safe(e, local, s) && Allowed(s, ev) && d < |s.devs| && Renews(ev, d)
    ensures Step(e, local, s, ev).devs[d] ==
            Device(Material(ev.rand, ev.rrand, [0, 0, 0, 0, 0, 0, 0], [0, 0, 0, 0, 0, 0, 0], ev.addr), seq(16, _ => 0), 0, 0, [])
  {
  }

  lemma SameTable(e: Cipher, local: Address, s: State, ev: Event)
    requires Safe(e, local, s) && Allowed(s, ev)
    ensures |Step(e, local, s, ev).devs| == |s.devs|
  {
  }

  lemma RunExtends(e: Cipher, local: Address, states: seq<State>, evs: seq<Event>, i: nat, d: nat)
    requires Execution(e, local, states, evs) && i < |evs| && d < |states[i + 1].devs|
    ensures d < |states[i].devs|
    ensures if Renews(evs[i], d) then states[i + 1].devs[d].sent == []
            else Extends(states[i].devs[d].sent, states[i + 1].devs[d].sent, evs[i], d)
  {
    EveryStateIsSafe(e, local, states, evs, i);
    SameTable(e, local, states[i], evs[i]);
    if Renews(evs[i], d) {
      RenewalForgets(e, local, states[i], evs[i], d);
    } else {
      StepExtends(e, local, states[i], evs[i], d);
    }
  }

  /** Between states `i` and `i + 1` the connection is renewed or its messages are extended. */
  ghost predicate Grows(states: seq<State>, evs: seq<Event>, i: nat, d: nat)
    requires i < |evs| && |states| == |evs| + 1
  {
    d < |states[i + 1].devs| ==>
      && d < |states[i].devs|
      && if Renews(evs[i], d) then states[i + 1].devs[d].sent == []
         else Extends(states[i].devs[d].sent, states[i + 1].devs[d].sent, evs[i], d)
  }

  lemma {:induction false} GrownIsPrompted(states: seq<State>, evs: seq<Event>, n: nat, d: nat, k: nat) returns (j: nat)
    requires |states| == |evs| + 1 && n < |states| && d < |states[n].devs| && k < |states[n].devs[d].sent|
    requires d < |states[0].devs| ==> states[0].devs[d].sent == []
    requires forall i :: 0 <= i < |evs| ==> Grows(states, evs, i, d)
    ensures j < n && d < |states[j].devs| && Prompts(evs[j], states[n].devs[d].sent[k], d)
    ensures |states[j].devs[d].sent| <= k && forall i :: j <= i < n ==> !Renews(evs[i], d)
  {
    assert Grows(states, evs, n - 1, d);
    j := n - 1;
    if k < |states[j].devs[d].sent| { j := GrownIsPrompted(states, evs, j, d, k); }
  }

  /** In every run every message was prompted by the event that its connection sent it on. */
  lemma EveryMessageWasPrompted(e: Cipher, local: Address, states: seq<State>, evs: seq<Event>, n: nat, d: nat, k: nat)
      returns (j: nat)
    requires Execution(e, local, states, evs) && n < |states| && d < |states[n].devs| && k < |states[n].devs[d].sent|
    ensures j < n && d < |states[j].devs| && Prompts(evs[j], states[n].devs[d].sent[k], d)
    ensures |states[j].devs[d].sent| <= k && forall i :: j <= i < n ==> !Renews(evs[i], d)
  {
    forall i | 0 <= i < |evs| ensures Grows(states, evs, i, d) {
      if d < |states[i + 1].devs| { RunExtends(e, local, states, evs, i, d); }
    }
    j := GrownIsPrompted(states, evs, n, d, k);
  }

  // ----- full queues

  /** The event finds its context queue full, if it needs room in one. */
  predicate NoRoom(ev: Event) {
    match ev
    case EvRsp(_, _, room1, room2) => !room1 && !room2
    case EvPeerRandom(_, _, room) => !room
    case EvRandDone(_, room) => !room
    case EvEncDone(room) => !room
    case _ => true
  }

  /** Without room the host neither queues a context nor asks the controller; answers still take theirs. */
  lemma FullQueuesAskNothing(e: Cipher, local: Address, s: State, ev: Event)
    requires Safe(e, local, s) && Allowed(s, ev) && NoRoom(ev)
    ensures var t, r, x := Step(e, local, s, ev), if ev.EvRandDone? then 1 else 0, if ev.EvEncDone? then 1 else 0;
            && t.randq == s.randq[r..] && t.randCmds == s.randCmds[r..]
            && t.encq == s.encq[x..] && t.encCmds == s.encCmds[x..]
  {
  }

  // ----- what is on record

  /** What is on record about a device changes with its own messages only. */
  predicate Noted(was: Device, dev: Device, ev: Event, d: nat) {
    && dev.now.addr == was.now.addr
    && dev.now.preq == (if ev == EvStart(d) then [0x01, 0x03, 0x00, 0x01, 0x10, 0x02, 0x01] else was.now.preq)
    && (if ev.EvRsp? && ev.dev == d then dev.now.pres == [0x02] + ev.rsp && dev.ldist == ev.rsp[4]
        else dev.now.pres == was.now.pres && dev.ldist == was.ldist)
    && dev.now.rrand == (if ev.EvPeerRandom? && ev.dev == d then ev.val else was.now.rrand)
    && dev.rdist == (if ev.EvRsp? && ev.dev == d then ev.rsp[5]
                     else if ev.EvPeerIdent? && ev.dev == d then was.rdist & !1
                     else if ev.EvPeerKey? && ev.dev == d then was.rdist & !ev.kind
                     else was.rdist)
  }

  predicate OneBit(b: Octet) {
    b == 1 || b == 2 || b == 4 || b == 8 || b == 16 || b == 32 || b == 64 || b == 128
  }

  /** The message completes the keys of kind `b`; the encryption key is kind 1. */
  predicate HandsOver(ev: Event, d: nat, b: Octet) {
    (ev.EvPeerIdent? && ev.dev == d && b == 1) || (ev.EvPeerKey? && ev.dev == d && ev.kind & b != 0)
  }

  lemma EncDoneNotes(local: Address, s: State, data: Block, room: bool, d: nat)
    requires InTable(s) && s.encCmds != [] && d < |s.devs|
    ensures var t := EncDone(s, local, data, room);
            |t.devs| == |s.devs| && Noted(s.devs[d], t.devs[d], EvEncDone(room), d)
  {
  }

  lemma RandDoneNotes(local: Address, s: State, data: Octets8, room: bool, d: nat)
    requires InTable(s) && s.randCmds != [] && d < |s.devs|
    ensures var t := RandDone(s, local, data, room);
            |t.devs| == |s.devs| && Noted(s.devs[d], t.devs[d], EvRandDone(data, room), d)
  {
  }

  lemma PeerRandomNotes(s: State, d': nat, val: Block, room: bool, d: nat)
    requires d' < |s.devs| && d < |s.devs|
    ensures var t := PeerRandom(s, d', val, room);
            |t.devs| == |s.devs| && Noted(s.devs[d], t.devs[d], EvPeerRandom(d', val, room), d)
  {
  }

  lemma RspNotes(s: State, d': nat, rsp: Octets6, room1: bool, room2: bool, d: nat)
    requires d' < |s.devs| && d < |s.devs|
    ensures var t := PairingRsp(s, d', rsp, room1, room2);
            |t.devs| == |s.devs| && Noted(s.devs[d], t.devs[d], EvRsp(d', rsp, room1, room2), d)
  {
  }

  lemma IdentNotes(s: State, d': nat, ident: Octets10, d: nat)
    requires d' < |s.devs| && d < |s.devs|
    ensures var t := PeerIdent(s, d', ident);
            |t.devs| == |s.devs| && Noted(s.devs[d], t.devs[d], EvPeerIdent(d', ident), d)
  {
  }

  lemma KeyNotes(s: State, d': nat, kind: Octet, d: nat)
    requires d' < |s.devs| && d < |s.devs|
    ensures var t := PeerKey(s, d', kind);
            |t.devs| == |s.devs| && Noted(s.devs[d], t.devs[d], EvPeerKey(d', kind), d)
  {
  }

  lemma StartNotes(s: State, d': nat, d: nat)
    requires d' < |s.devs| && d < |s.devs|
    ensures var t := PairingStart(s, d'); |t.devs| == |s.devs| && Noted(s.devs[d], t.devs[d], EvStart(d'), d)
  {
  }

  lemma OtherNotes(e: Cipher, local: Address, s: State, ev: Event, d: nat)
    requires InTable(s) && Allowed(s, ev) && d < |s.devs| && !Renews(ev, d)
    requires ev.EvPeerConfirm? || ev.EvPeerLtk? || ev.EvNewConnection? || ev.EvRestart?
    ensures var t := Step(e, local, s, ev); |t.devs| == |s.devs| && Noted(s.devs[d], t.devs[d], ev, d)
  {
  }

  lemma AnswerNotes(e: Cipher, local: Address, s: State, ev: Event, d: nat)
    requires InTable(s) && Allowed(s, ev) && d < |s.devs| && (ev.EvEncDone? || ev.EvRandDone?)
    ensures var t := Step(e, local, s, ev); |t.devs| == |s.devs| && Noted(s.devs[d], t.devs[d], ev, d)
  {
    if ev.EvEncDone? {
      EncDoneNotes(local, s, e(s.encCmds[0].key, s.encCmds[0].text), ev.room, d);
    } else {
      RandDoneNotes(local, s, ev.data, ev.room, d);
    }
  }

  lemma StepNotes(e: Cipher, local: Address, s: State, ev: Event, d: nat)
    requires InTable(s) && Allowed(s, ev) && d < |s.devs| && !Renews(ev, d)
    ensures var t := Step(e, local, s, ev); |t.devs| == |s.devs| && Noted(s.devs[d], t.devs[d], ev, d)
  {
    match ev
    case EvStart(d') => StartNotes(s, d', d);
    case EvRsp(d', rsp, room1, room2) => RspNotes(s, d', rsp, room1, room2, d);
    case EvPeerRandom(d', val, room) => PeerRandomNotes(s, d', val, room, d);
    case EvPeerIdent(d', ident) => IdentNotes(s, d', ident, d);
    case EvPeerKey(d', kind) => KeyNotes(s, d', kind, d);
    case EvEncDone(_) => AnswerNotes(e, local, s, ev, d);
    case EvRandDone(_, _) => AnswerNotes(e, local, s, ev, d);
    case _ => OtherNotes(e, local, s, ev, d);
  }

  // ----- the request

  /** The octets of every request sent on this connection are the ones on record. */
  predicate RequestRecorded(dev: Device) {
    forall k :: 0 <= k < |dev.sent| && dev.sent[k].PairingRequest? ==>
      dev.now.preq == dev.sent[k].preq == [0x01, 0x03, 0x00, 0x01, 0x10, 0x02, 0x01]
  }

  lemma StartSends(s: State, d: nat)
    requires d < |s.devs|
    ensures PairingStart(s, d).devs[d].sent ==
            s.devs[d].sent + [PairingRequest([0x01, 0x03, 0x00, 0x01, 0x10, 0x02, 0x01])]
  {
  }

  lemma StepKeepsRequest(e: Cipher, local: Address, s: State, ev: Event, d: nat)
    requires Safe(e, local, s) && Allowed(s, ev) && d < |s.devs| && RequestRecorded(s.devs[d])
    ensures |Step(e, local, s, ev).devs| == |s.devs| && RequestRecorded(Step(e, local, s, ev).devs[d])
  {
    SameTable(e, local, s, ev);
    if Renews(ev, d) {
      RenewalForgets(e, local, s, ev, d);
    } else {
      StepExtends(e, local, s, ev, d);
      StepNotes(e, local, s, ev, d);
      if ev == EvStart(d) { StartSends(s, d); }
    }
  }

  /** In every state of every run the request on record is the one that was sent, if one was. */
  lemma {:induction false} EveryRequestIsRecorded(e: Cipher, local: Address, states: seq<State>, evs: seq<Event>, n: nat, d: nat)
    requires Execution(e, local, states, evs) && n < |states| && d < |states[n].devs|
    ensures RequestRecorded(states[n].devs[d])
  {
    if n > 0 {
      EveryStateIsSafe(e, local, states, evs, n - 1);
      SameTable(e, local, states[n - 1], evs[n - 1]);
      EveryRequestIsRecorded(e, local, states, evs, n - 1, d);
      StepKeepsRequest(e, local, states[n - 1], evs[n - 1], d);
    }
  }

  /** No request follows a confirm value. */
  predicate RequestComesFirst(dev: Device) {
    forall j, k :: 0 <= k < j < |dev.sent| && dev.sent[k].PairingConfirm? ==> !dev.sent[j].PairingRequest?
  }

  lemma StepKeepsFirst(e: Cipher, local: Address, s: State, ev: Event, d: nat)
    requires Safe(e, local, s) && Allowed(s, ev) && Orderly(s, ev, false) && d < |s.devs|
    requires SettledDev(s, d, false) && RequestComesFirst(s.devs[d])
    ensures var t := Step(e, local, s, ev); |t.devs| == |s.devs| && RequestComesFirst(t.devs[d])
  {
    if !Renews(ev, d) {
      StepExtends(e, local, s, ev, d);
      forall k | 0 <= k < |s.devs[d].sent| ensures s.devs[d].sent[k].PairingConfirm? ==> Responded(s.devs[d]) {
        assert SettledSent(s, d, k);
      }
    }
  }

  lemma {:induction false} RequestsComeFirst(e: Cipher, local: Address, states: seq<State>, evs: seq<Event>, n: nat, d: nat)
    requires OrderlyExecution(e, local, states, evs, false) && n < |states| && d < |states[n].devs|
    ensures RequestComesFirst(states[n].devs[d])
  {
    if n > 0 {
      EveryStateIsSettled(e, local, states, evs, n - 1, false);
      SameTable(e, local, states[n - 1], evs[n - 1]);
      RequestsComeFirst(e, local, states, evs, n - 1, d);
      StepKeepsFirst(e, local, states[n - 1], evs[n - 1], d);
    }
  }

  /** With one Pairing Response per connection, a confirm value is for the request that was sent before it. */
  lemma ConfirmIsForTheRequest(e: Cipher, local: Address, states: seq<State>, evs: seq<Event>, n: nat, d: nat, k: nat, r: nat)
    requires OrderlyExecution(e, local, states, evs, false) && n < |states| && d < |states[n].devs|
    requires k < |states[n].devs[d].sent| && states[n].devs[d].sent[k].PairingConfirm?
    requires r < |states[n].devs[d].sent| && states[n].devs[d].sent[r].PairingRequest?
    ensures var sent := states[n].devs[d].sent;
            r < k && sent[k].asked.preq == sent[r].preq == [0x01, 0x03, 0x00, 0x01, 0x10, 0x02, 0x01]
  {
    EveryStateIsSettled(e, local, states, evs, n, false);
    assert SettledDev(states[n], d, false) && SettledSent(states[n], d, k);
    EveryRequestIsRecorded(e, local, states, evs, n, d);
    RequestsComeFirst(e, local, states, evs, n, d);
  }

  /** In every run, whatever the peers do, it is for the request that was sent when its random was drawn. */
  lemma DrawnForTheRequest(e: Cipher, local: Address, states: seq<State>, evs: seq<Event>, n: nat, d: nat, k: nat)
      returns (j: nat)
    requires Execution(e, local, states, evs) && n < |states| && d < |states[n].devs|
    requires k < |states[n].devs[d].sent| && states[n].devs[d].sent[k].PairingConfirm?
    ensures j < n && DrewRandom(states, evs, j, d, states[n].devs[d].sent[k].asked)
    ensures var late := states[j + 1].devs[d];
            late.now == states[n].devs[d].sent[k].asked && RequestRecorded(late)
  {
    j := EveryConfirmHasItsDraw(e, local, states, evs, n, d, k);
    EveryRequestIsRecorded(e, local, states, evs, j + 1, d);
  }

  // ----- the response, and the peer's keys that are outstanding

  /** Event `i` neither renews the connection of device `d` nor brings another response. */
  predicate SameResponse(ev: Event, d: nat) {
    !Renews(ev, d) && !(ev.EvRsp? && ev.dev == d)
  }

  lemma BitCleared(x: Octet, k: Octet, b: Octet)
    requires OneBit(b)
    ensures (x & !k) & b != 0 <==> x & b != 0 && k & b == 0
    ensures (x & !1) & b != 0 <==> x & b != 0 && b != 1
  {
  }

  lemma NoBits(x: Octet)
    ensures x == 0 <==> forall b :: OneBit(b) ==> x & b == 0
  {
    if forall b :: OneBit(b) ==> x & b == 0 {
      assert OneBit(1) && OneBit(2) && OneBit(4) && OneBit(8) && OneBit(16) && OneBit(32) && OneBit(64) && OneBit(128);
    }
  }

  ghost predicate NotedAt(states: seq<State>, evs: seq<Event>, i: nat, d: nat) {
    && i < |evs| && i + 1 < |states| && d < |states[i].devs| && d < |states[i + 1].devs|
    && Noted(states[i].devs[d], states[i + 1].devs[d], evs[i], d)
  }

  /** Event `j` brought the response on record at state `n`, and everything in between is noted. */
  ghost predicate Follows(states: seq<State>, evs: seq<Event>, j: nat, n: nat, d: nat) {
    && j < n <= |evs| < |states| && evs[j].EvRsp? && evs[j].dev == d && d < |states[n].devs|
    && (forall i :: j < i < n ==> SameResponse(evs[i], d))
    && forall i: nat :: j <= i < n ==> NotedAt(states, evs, i, d)
  }

  lemma {:induction false} ResponseFollows(states: seq<State>, evs: seq<Event>, j: nat, n: nat, d: nat)
    requires Follows(states, evs, j, n, d)
    ensures states[n].devs[d].now.pres == [0x02] + evs[j].rsp && states[n].devs[d].ldist == evs[j].rsp[4]
    decreases n
  {
    assert NotedAt(states, evs, n - 1, d);
    if j < n - 1 {
      ResponseFollows(states, evs, j, n - 1, d);
      assert SameResponse(evs[n - 1], d);
    }
  }

  /** Some message since event `j` handed the keys of kind `b` over. */
  predicate HandedOver(evs: seq<Event>, j: nat, n: nat, d: nat, b: Octet)
    requires n <= |evs|
  {
    exists i :: j < i < n && HandsOver(evs[i], d, b)
  }

  lemma OneMoreEvent(was: Device, dev: Device, ev: Event, d: nat, b: Octet)
    requires Noted(was, dev, ev, d) && SameResponse(ev, d) && OneBit(b)
    ensures dev.rdist & b != 0 <==> was.rdist & b != 0 && !HandsOver(ev, d, b)
  {
    BitCleared(was.rdist, if ev.EvPeerKey? then ev.kind else 1, b);
  }

  lemma {:induction false} KeysFollow(states: seq<State>, evs: seq<Event>, j: nat, n: nat, d: nat, b: Octet)
    requires Follows(states, evs, j, n, d) && OneBit(b)
    ensures states[n].devs[d].rdist & b != 0 <==> evs[j].rsp[5] & b != 0 && !HandedOver(evs, j, n, d, b)
    decreases n
  {
    assert NotedAt(states, evs, n - 1, d);
    if j < n - 1 {
      KeysFollow(states, evs, j, n - 1, d, b);
      OneMoreEvent(states[n - 1].devs[d], states[n].devs[d], evs[n - 1], d, b);
    }
  }

  lemma {:induction false} TableStays(e: Cipher, local: Address, states: seq<State>, evs: seq<Event>, n: nat)
    requires Execution(e, local, states, evs) && n < |states|
    ensures |states[n].devs| == |states[0].devs|
  {
    if n > 0 {
      TableStays(e, local, states, evs, n - 1);
      EveryStateIsSafe(e, local, states, evs, n - 1);
      SameTable(e, local, states[n - 1], evs[n - 1]);
    }
  }

  lemma RunIsNoted(e: Cipher, local: Address, states: seq<State>, evs: seq<Event>, i: nat, d: nat)
    requires Execution(e, local, states, evs) && i < |evs| && d < |states[i].devs| && !Renews(evs[i], d)
    ensures NotedAt(states, evs, i, d)
  {
    EveryStateIsSafe(e, local, states, evs, i);
    SameTable(e, local, states[i], evs[i]);
    StepNotes(e, local, states[i], evs[i], d);
  }

  lemma RunFollows(e: Cipher, local: Address, states: seq<State>, evs: seq<Event>, j: nat, n: nat, d: nat)
    requires Execution(e, local, states, evs) && j < n <= |evs| && evs[j].EvRsp? && evs[j].dev == d
    requires forall i :: j < i < n ==> SameResponse(evs[i], d)
    ensures Follows(states, evs, j, n, d)
  {
    TableStays(e, local, states, evs, j);
    TableStays(e, local, states, evs, n);
    forall i: nat | j <= i < n ensures NotedAt(states, evs, i, d) {
      TableStays(e, local, states, evs, i);
      assert i > j ==> SameResponse(evs[i], d);
      RunIsNoted(e, local, states, evs, i, d);
    }
  }

  /** In every run the last response of a connection is the one on record, and of the keys it announced
      exactly those are outstanding that no message has handed over since. */
  lemma ResponseIsOnRecord(e: Cipher, local: Address, states: seq<State>, evs: seq<Event>, j: nat, n: nat, d: nat, b: Octet)
    requires Execution(e, local, states, evs) && j < n <= |evs| && evs[j].EvRsp? && evs[j].dev == d
    requires (forall i :: j < i < n ==> SameResponse(evs[i], d)) && OneBit(b)
    ensures d < |states[n].devs|
    ensures var dev, rsp := states[n].devs[d], evs[j].rsp;
            && dev.now.pres == [0x02] + rsp && dev.ldist == rsp[4]
            && (dev.rdist & b != 0 <==> rsp[5] & b != 0 && !HandedOver(evs, j, n, d, b))
  {
    RunFollows(e, local, states, evs, j, n, d);
    ResponseFollows(states, evs, j, n, d);
    KeysFollow(states, evs, j, n, d, b);
  }

  // ----- when the host distributes its keys

  /** The keys `ldist` are distributed by the messages from `k` on. */
  predicate Distributes(sent: seq<Message>, k: nat, ldist: Octet) {
    exists i :: k <= i < |sent| && sent[i] == KeyDistribution(ldist)
  }

  lemma PeerRandomDistributes(s: State, d: nat, val: Block, room: bool, ldist: Octet)
    requires d < |s.devs|
    ensures var dev, at := PeerRandom(s, d, val, room).devs[d], |s.devs[d].sent|;
            Distributes(dev.sent, at, ldist) <==> dev.rdist == 0 && dev.ldist == ldist
  {
    var dev, at := PeerRandom(s, d, val, room).devs[d], |s.devs[d].sent|;
    if dev.rdist == 0 { assert dev.sent[at] == KeyDistribution(dev.ldist); }
  }

  lemma PeerIdentDistributes(s: State, d: nat, ident: Octets10, ldist: Octet)
    requires d < |s.devs|
    ensures var dev, at := PeerIdent(s, d, ident).devs[d], |s.devs[d].sent|;
            Distributes(dev.sent, at, ldist) <==> dev.rdist == 0 && dev.ldist == ldist
  {
    var dev, at := PeerIdent(s, d, ident).devs[d], |s.devs[d].sent|;
    if dev.rdist == 0 { assert dev.sent[at + 1] == KeyDistribution(dev.ldist); }
  }

  lemma PeerKeyDistributes(s: State, d: nat, kind: Octet, ldist: Octet)
    requires d < |s.devs|
    ensures var dev, at := PeerKey(s, d, kind).devs[d], |s.devs[d].sent|;
            Distributes(dev.sent, at, ldist) <==> dev.rdist == 0 && dev.ldist == ldist
  {
    var dev, at := PeerKey(s, d, kind).devs[d], |s.devs[d].sent|;
    if dev.rdist == 0 { assert dev.sent[at] == KeyDistribution(dev.ldist); }
  }

  lemma DeliveryDistributes(e: Cipher, local: Address, s: State, ev: Event, d: nat, ldist: Octet)
    requires InTable(s) && Allowed(s, ev) && d < |s.devs| && Delivers(ev, d)
    requires d < |Step(e, local, s, ev).devs|
    ensures var dev, at := Step(e, local, s, ev).devs[d], |s.devs[d].sent|;
            Distributes(dev.sent, at, ldist) <==> dev.rdist == 0 && dev.ldist == ldist
  {
    match ev
    case EvPeerRandom(_, val, room) => PeerRandomDistributes(s, d, val, room, ldist);
    case EvPeerIdent(_, ident) => PeerIdentDistributes(s, d, ident, ldist);
    case EvPeerKey(_, kind) => PeerKeyDistributes(s, d, kind, ldist);
  }

  /** Every key that the response announced was handed over. */
  ghost predicate AllHandedOver(evs: seq<Event>, j: nat, n: nat, d: nat)
    requires j < n <= |evs| && evs[j].EvRsp?
  {
    forall b :: OneBit(b) && evs[j].rsp[5] & b != 0 ==> HandedOver(evs, j, n, d, b)
  }

  lemma NothingOutstanding(states: seq<State>, evs: seq<Event>, j: nat, n: nat, d: nat)
    requires Follows(states, evs, j, n, d)
    ensures states[n].devs[d].rdist == 0 <==> AllHandedOver(evs, j, n, d)
  {
    forall b | OneBit(b)
      ensures states[n].devs[d].rdist & b != 0 <==> evs[j].rsp[5] & b != 0 && !HandedOver(evs, j, n, d, b)
    {
      KeysFollow(states, evs, j, n, d, b);
    }
    NoBits(states[n].devs[d].rdist);
  }

  /** In every run the host distributes the keys that the response asked for, on the messages after which
      none of the keys announced in it is outstanding. */
  lemma DistributesWhenAllHandedOver(e: Cipher, local: Address, states: seq<State>, evs: seq<Event>, j: nat, n: nat, d: nat)
    requires Execution(e, local, states, evs) && j < n < |evs| && evs[j].EvRsp? && evs[j].dev == d
    requires (forall i :: j < i < n ==> SameResponse(evs[i], d)) && Delivers(evs[n], d)
    ensures d < |states[n].devs| && d < |states[n + 1].devs|
    ensures Distributes(states[n + 1].devs[d].sent, |states[n].devs[d].sent|, evs[j].rsp[4]) <==> AllHandedOver(evs, j, n + 1, d)
  {
    RunFollows(e, local, states, evs, j, n + 1, d);
    TableStays(e, local, states, evs, n);
    TableStays(e, local, states, evs, n + 1);
    ResponseFollows(states, evs, j, n + 1, d);
    DeliveryDistributes(e, local, states[n], evs[n], d, evs[j].rsp[4]);
    NothingOutstanding(states, evs, j, n + 1, d);
  }
}
