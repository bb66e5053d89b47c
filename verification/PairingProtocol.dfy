/**
 LE legacy pairing as the adapter runs it: every use of the controller's random generator and
 AES engine queues a (device, callback) context, sends a command, and resumes when the
 controller's answer takes the oldest context back off the queue.

 The block cipher is the parameter `e`; the controller answers each kind of command in order.
 */
module PairingProtocol {
  import opened Octets

  type Octets6 = s: seq<Octet> | |s| == 6 witness seq(6, _ => 0)
  type Octets7 = s: seq<Octet> | |s| == 7 witness seq(7, _ => 0)
  type Octets8 = s: seq<Octet> | |s| == 8 witness seq(8, _ => 0)
  type Octets10 = s: seq<Octet> | |s| == 10 witness seq(10, _ => 0)
  type Cipher = (Block, Block) -> Block

  datatype Address = Address(kind: Octet, val: Octets6)

  // The SMP command codes and the fixed Pairing Request this host sends.
  const CMD_PAIRING_REQ: Octet := 0x01
  const CMD_PAIRING_RSP: Octet := 0x02
  const DIST_ENC_KEY: Octet := 0x01
  const DIST_ID_KEY: Octet := 0x02
  const NONE: Octets7 := [0, 0, 0, 0, 0, 0, 0]
  const PREQ: Octets7 := [CMD_PAIRING_REQ, 0x03, 0x00, 0x01, 16, DIST_ID_KEY, DIST_ENC_KEY]

  /** The pairing material of one device. */
  datatype Material = Material(rand: Block, rrand: Block, preq: Octets7, pres: Octets7, addr: Address)

  /** What the host hands to a device's connection or, for StartEncryption, to the controller
      about that connection, or to its own key store. `asked` records the material the value was requested for. */
  datatype Message =
    | PairingRequest(preq: Octets7)
    | PairingConfirm(val: Block, asked: Material)
    | PairingRandom(val: Block)
    | StartEncryption(key: Block, asked: Material)
    | KeyDistribution(ldist: Octet)
    | StoreLtk(addr: Address, ltk: Block)
    | StoreIdent(addr: Address, ident: Octets10)
    | AddToAcceptList(addr: Address)

  /** One slot of the device table, as far as pairing is concerned. `sent` lists the messages of
      the current connection, oldest first. */
  datatype Device = Device(now: Material, ltk: Block, rdist: Octet, ldist: Octet, sent: seq<Message>)

  datatype RandCallback = MrandHalf | MrandComplete
  datatype EncCallback = ConfirmHalf | ConfirmComplete | StkComplete
  datatype RandContext = RandContext(dev: nat, cb: RandCallback)
  datatype EncContext = EncContext(dev: nat, cb: EncCallback)

  /** An LE_Encrypt command the controller has not answered yet. `owner` and `asked` are not on the
      wire: they record which device asked, and for which material. */
  datatype EncCommand = EncCommand(key: Block, text: Block, owner: nat, asked: Material)

  /** `randq` and `encq` are the host's context queues; `randCmds` and `encCmds` are the commands
      still in flight to the controller. An LE_Rand command has no parameters: its entry is the
      device that asked. */
  datatype State = State(
    devs: seq<Device>,
    randq: seq<RandContext>, encq: seq<EncContext>,
    randCmds: seq<nat>, encCmds: seq<EncCommand>)

  // ----- the blocks the host computes

  function P1(iat: Octet, rat: Octet, preq: Octets7, pres: Octets7): Block {
    [iat, rat] + preq + pres
  }

  function P2(ra: Octets6, ia: Octets6): Block {
    ra + ia + [0, 0, 0, 0]
  }

  /** The block sent to the cipher first, and the one sent second given the first answer. */
  function ConfirmText1(local: Address, m: Material): Block {
    Xor(m.rand, P1(local.kind, m.addr.kind, m.preq, m.pres))
  }

  function ConfirmText2(local: Address, m: Material, first: Block): Block {
    Xor(first, P2(m.addr.val, local.val))
  }

  function StkText(m: Material): Block {
    m.rand[..8] + m.rrand[..8]
  }

  /** The confirm value and the short term key of a device's material. */
  function ConfirmValue(e: Cipher, local: Address, m: Material): Block {
    e(ZERO, ConfirmText2(local, m, e(ZERO, ConfirmText1(local, m))))
  }

  function ShortTermKey(e: Cipher, m: Material): Block {
    e(ZERO, StkText(m))
  }

  // ----- the host's handlers

  /** Every queued context names a device of the table. */
  predicate InTable(s: State) {
    && (forall c :: c in s.randq ==> c.dev < |s.devs|)
    && (forall c :: c in s.encq ==> c.dev < |s.devs|)
  }

  function Put(s: State, d: nat, dev: Device): State
    requires d < |s.devs|
  {
    s.(devs := s.devs[d := dev])
  }

  lemma PutTwice(s: State, d: nat, dev: Device, dev': Device)
    requires d < |s.devs|
    ensures Put(Put(s, d, dev), d, dev') == Put(s, d, dev')
  {
  }

  function Sent(dev: Device, m: Message): Device {
    dev.(sent := dev.sent + [m])
  }

  /** `room` tells whether the context queue took the item; a full queue sends no command. */
  function GetRandom(s: State, d: nat, cb: RandCallback, room: bool): State {
    if room then s.(randq := s.randq + [RandContext(d, cb)], randCmds := s.randCmds + [d]) else s
  }

  function GetEncrypt(s: State, d: nat, cb: EncCallback, key: Block, text: Block, asked: Material, room: bool): State {
    if room then
      s.(encq := s.encq + [EncContext(d, cb)], encCmds := s.encCmds + [EncCommand(key, text, d, asked)])
    else s
  }

  function PairingStart(s: State, d: nat): State
    requires d < |s.devs|
  {
    var dev := s.devs[d];
    Put(s, d, Sent(dev.(now := dev.now.(preq := PREQ)), PairingRequest(PREQ)))
  }

  function PairingRsp(s: State, d: nat, rsp: Octets6, room1: bool, room2: bool): State
    requires d < |s.devs|
  {
    var dev := s.devs[d];
    var dev' := dev.(now := dev.now.(pres := [CMD_PAIRING_RSP] + rsp), ldist := rsp[4], rdist := rsp[5]);
    GetRandom(GetRandom(Put(s, d, dev'), d, MrandHalf, room1), d, MrandComplete, room2)
  }

  function PeerConfirm(s: State, d: nat): State
    requires d < |s.devs|
  {
    Put(s, d, Sent(s.devs[d], PairingRandom(s.devs[d].now.rand)))
  }

  /** Key distribution starts as soon as no key of the peer is outstanding. */
  function DistributeIfDone(dev: Device): Device {
    if dev.rdist == 0 then Sent(dev, KeyDistribution(dev.ldist)) else dev
  }

  function PeerRandom(s: State, d: nat, val: Block, room: bool): State
    requires d < |s.devs|
  {
    var dev := s.devs[d];
    var now := dev.now.(rrand := val);
    var t := GetEncrypt(Put(s, d, dev.(now := now, ltk := StkText(now))), d, StkComplete, ZERO, StkText(now), now, room);
    Put(t, d, DistributeIfDone(t.devs[d]))
  }

  /** The peer's long term key, which goes to the key store. */
  function PeerLtk(s: State, d: nat, ltk: Block): State
    requires d < |s.devs|
  {
    Put(s, d, Sent(s.devs[d], StoreLtk(s.devs[d].now.addr, ltk)))
  }

  /** The identification of that key, which completes it. */
  function PeerIdent(s: State, d: nat, ident: Octets10): State
    requires d < |s.devs|
  {
    var dev := s.devs[d];
    var stored := Sent(dev.(rdist := dev.rdist & !DIST_ENC_KEY), StoreIdent(dev.now.addr, ident));
    Put(s, d, Sent(DistributeIfDone(stored), AddToAcceptList(dev.now.addr)))
  }

  /** The peer delivered the last message of another kind of key, which the host does not store. */
  function PeerKey(s: State, d: nat, kind: Octet): State
    requires d < |s.devs|
  {
    var dev := s.devs[d];
    Put(s, d, DistributeIfDone(dev.(rdist := dev.rdist & !kind)))
  }

  // ----- the callbacks

  function OnMrandHalf(s: State, d: nat, data: Octets8): State
    requires d < |s.devs|
  {
    var dev := s.devs[d];
    Put(s, d, dev.(now := dev.now.(rand := data + dev.now.rand[8..])))
  }

  function OnMrandComplete(s: State, local: Address, d: nat, data: Octets8, room: bool): State
    requires d < |s.devs|
  {
    var dev := s.devs[d];
    var now := dev.now.(rand := dev.now.rand[..8] + data);
    var text := ConfirmText1(local, now);
    GetEncrypt(Put(s, d, dev.(now := now, ltk := text)), d, ConfirmHalf, ZERO, text, now, room)
  }

  function OnConfirmHalf(s: State, local: Address, d: nat, data: Block, asked: Material, room: bool): State
    requires d < |s.devs|
  {
    var dev := s.devs[d];
    var text := ConfirmText2(local, dev.now, data);
    GetEncrypt(Put(s, d, dev.(ltk := text)), d, ConfirmComplete, ZERO, text, asked, room)
  }

  function OnConfirmComplete(s: State, d: nat, data: Block, asked: Material): State
    requires d < |s.devs|
  {
    Put(s, d, Sent(s.devs[d].(ltk := data), PairingConfirm(data, asked)))
  }

  function OnStkComplete(s: State, d: nat, data: Block, asked: Material): State
    requires d < |s.devs|
  {
    Put(s, d, Sent(s.devs[d].(ltk := data), StartEncryption(data, asked)))
  }

  /** The controller answered its oldest LE_Rand command. */
  function RandDone(s: State, local: Address, data: Octets8, room: bool): State
    requires s.randCmds != []
    requires InTable(s)
  {
    var s' := s.(randCmds := s.randCmds[1..]);
    if s'.randq == [] then s'
    else
      var c := s'.randq[0];
      var t := s'.(randq := s'.randq[1..]);
      match c.cb
      case MrandHalf => OnMrandHalf(t, c.dev, data)
      case MrandComplete => OnMrandComplete(t, local, c.dev, data, room)
  }

  /** The controller answered its oldest LE_Encrypt command with `data`. */
  function EncDone(s: State, local: Address, data: Block, room: bool): State
    requires s.encCmds != []
    requires InTable(s)
  {
    var asked := s.encCmds[0].asked;
    var s' := s.(encCmds := s.encCmds[1..]);
    if s'.encq == [] then s'
    else
      var c := s'.encq[0];
      var t := s'.(encq := s'.encq[1..]);
      match c.cb
      case ConfirmHalf => OnConfirmHalf(t, local, c.dev, data, asked, room)
      case ConfirmComplete => OnConfirmComplete(t, c.dev, data, asked)
      case StkComplete => OnStkComplete(t, c.dev, data, asked)
  }

  /** The slot is given to a new connection. The channel identifiers written at that point share
      storage with the two randoms, so those start with arbitrary contents. */
  function FreshDevice(rand: Block, rrand: Block, addr: Address): Device {
    Device(Material(rand, rrand, NONE, NONE, addr), ZERO, 0, 0, [])
  }

  // ----- runs

  datatype Event =
    | EvStart(dev: nat)
    | EvRsp(dev: nat, rsp: Octets6, room1: bool, room2: bool)
    | EvPeerConfirm(dev: nat)
    | EvPeerRandom(dev: nat, val: Block, room: bool)
    | EvPeerLtk(dev: nat, ltk: Block)
    | EvPeerIdent(dev: nat, ident: Octets10)
    | EvPeerKey(dev: nat, kind: Octet)
    | EvRandDone(data: Octets8, room: bool)
    | EvEncDone(room: bool)
    | EvNewConnection(dev: nat, rand: Block, rrand: Block, addr: Address)
    | EvRestart

  predicate RandPending(s: State, d: nat) {
    exists i :: 0 <= i < |s.randq| && s.randq[i].dev == d
  }

  predicate EncPending(s: State, d: nat) {
    exists i :: 0 <= i < |s.encq| && s.encq[i].dev == d
  }

  /** After repeated command failures the host starts anew, with new context queues. */
  function Restarted(s: State): State {
    s.(randq := [], encq := [])
  }

  /** The environment of every theorem: any event in any order, except that a slot is not given to
      another connection while one of its callbacks is pending, and that the host does not restart while
      the controller still owes it answers. */
  predicate Allowed(s: State, ev: Event) {
    match ev
    case EvRandDone(_, _) => s.randCmds != []
    case EvEncDone(_) => s.encCmds != []
    case EvNewConnection(d, _, _, _) => d < |s.devs| && !RandPending(s, d) && !EncPending(s, d)
    case EvRestart => s.randCmds == [] && s.encCmds == []
    case _ => ev.dev < |s.devs|
  }

  function Step(e: Cipher, local: Address, s: State, ev: Event): State
    requires InTable(s) && Allowed(s, ev)
  {
    match ev
    case EvStart(d) => PairingStart(s, d)
    case EvRsp(d, rsp, room1, room2) => PairingRsp(s, d, rsp, room1, room2)
    case EvPeerConfirm(d) => PeerConfirm(s, d)
    case EvPeerRandom(d, val, room) => PeerRandom(s, d, val, room)
    case EvPeerLtk(d, ltk) => PeerLtk(s, d, ltk)
    case EvPeerIdent(d, ident) => PeerIdent(s, d, ident)
    case EvPeerKey(d, kind) => PeerKey(s, d, kind)
    case EvRandDone(data, room) => RandDone(s, local, data, room)
    case EvEncDone(room) => EncDone(s, local, e(s.encCmds[0].key, s.encCmds[0].text), room)
    case EvNewConnection(d, rand, rrand, addr) => Put(s, d, FreshDevice(rand, rrand, addr))
    case EvRestart => Restarted(s)
  }
}
