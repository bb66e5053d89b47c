/**
 The connection manager as a state machine: the seven-slot device table, the staged controller
 configuration and the inquiry state, one controller event at a time.
 */
module ConnectionEvents {
  const BT_MAX_DEV := 7
  const BT_MAX_RETRY := 3
  const BT_INQUIRY_MAX := 10

  // The configuration sequence: its length, and the two entries that are not plain commands.
  const CONFIG_CNT := 39
  const CONFIG_ACCEPT_LIST := 21
  const CONFIG_LAST := 38

  /** A six-octet device address. */
  type Bdaddr = nat

  datatype Slot = Slot(found: bool, page: bool, ble: bool, addr: Bdaddr, handle: nat, retry: nat)

  const EMPTY := Slot(false, false, false, 0, 0, 0)

  /** The commands the connection manager gives; `Configure(i)` is entry `i` of the configuration. */
  datatype Command =
    | Configure(entry: nat)
    | AddToAcceptList
    | Connect(addr: Bdaddr)
    | LeCreateConn(addr: Bdaddr)
    | AcceptConn(addr: Bdaddr)
    | RemoteName(addr: Bdaddr)
    | StartEncryptionOrPairing(addr: Bdaddr)
    | PeriodicInquiry
    | ExitPeriodicInquiry
    | ScanStop
    | ScanActive
    | ScanPassive
    | AdvEnable
    | AdvDisable

  /** `acceptLeft` counts the stored LE devices not yet put on the accept list; `auto` and `override`
      are the inquiry settings; `confUp` and `confHandle` are the separate configuration connection. */
  datatype State = State(
    slots: seq<Slot>, configState: nat, pktRetry: nat, acceptLeft: nat,
    inquiry: bool, nbInquiry: nat, auto: bool, override: bool,
    confUp: bool, confHandle: nat, tx: seq<Command>)

  // ----- slot lookup

  datatype Query = ByAddr(addr: Bdaddr) | ByHandle(handle: nat) | Free | Active

  predicate Fits(q: Query, slot: Slot) {
    match q
    case ByAddr(a) => slot.found && slot.addr == a
    case ByHandle(h) => slot.found && slot.handle == h
    case Free => !slot.found
    case Active => slot.found
  }

  /** The lowest slot that fits, or -1. */
  function First(slots: seq<Slot>, q: Query): (i: int)
    ensures -1 <= i < |slots|
    ensures i >= 0 ==> Fits(q, slots[i]) && forall k :: 0 <= k < i ==> !Fits(q, slots[k])
    ensures i < 0 ==> forall k :: 0 <= k < |slots| ==> !Fits(q, slots[k])
  {
    if slots == [] then -1
    else if Fits(q, slots[0]) then 0
    else
      var i := First(slots[1..], q);
      if i < 0 then -1 else i + 1
  }

  // ----- building blocks

  function Emit(s: State, cmds: seq<Command>): State {
    s.(tx := s.tx + cmds)
  }

  function Put(s: State, i: nat, slot: Slot): State
    requires i < |s.slots|
  {
    s.(slots := s.slots[i := slot])
  }

  function StartInquiry(s: State): State {
    if s.override then s
    else Emit(s.(inquiry := true, nbInquiry := 0), [ScanStop, ScanActive, PeriodicInquiry])
  }

  function StopInquiry(s: State): State {
    Emit(s.(inquiry := false), [ExitPeriodicInquiry, ScanStop, ScanPassive])
  }

  /** The entry of the configuration sequence that is now due. */
  function RunConfig(s: State): State
    decreases CONFIG_CNT - s.configState
  {
    if s.configState >= CONFIG_CNT then s
    else if s.configState == CONFIG_LAST then
      if s.auto then StartInquiry(s) else Emit(s, [ScanStop, ScanPassive])
    else if s.configState == CONFIG_ACCEPT_LIST then
      if s.acceptLeft > 0 then Emit(s.(acceptLeft := s.acceptLeft - 1), [AddToAcceptList])
      else RunConfig(s.(pktRetry := 0, configState := s.configState + 1))
    else Emit(s, [Configure(s.configState)])
  }

  function Configured(s: State): State {
    RunConfig(s.(pktRetry := 0, configState := s.configState + 1))
  }

  function Restart(s: State): State {
    RunConfig(s.(configState := 0))
  }

  function NewSlot(addr: Bdaddr, page: bool): Slot {
    EMPTY.(found := true, page := page, addr := addr)
  }

  /** A slot that gave up: back to inquiry when it was the last one. */
  function GiveUp(s: State, i: nat): State
    requires i < |s.slots|
  {
    var t := Put(s, i, EMPTY);
    if t.auto && First(t.slots, Active) < 0 then StartInquiry(t) else t
  }

  // ----- events

  datatype Event =
    | InquiryComplete
    | InquiryResult(cnt: nat, addr: Bdaddr)
    | ConnComplete(addr: Bdaddr, failed: bool, handle: nat)
    | ConnRequest(addr: Bdaddr)
    | DisconnComplete(handle: nat)
    | NameComplete(addr: Bdaddr, failed: bool)
    | LeConnComplete(addr: Bdaddr, failed: bool, handle: nat)
    | LeAdvReport(addr: Bdaddr, wanted: bool)
    | MtuResponse(handle: nat, hidReady: bool)
    | CommandDone
    | AcceptListDone
    | CommandFailed

  function OnInquiryComplete(s: State): State {
    var t := s.(nbInquiry := s.nbInquiry + 1);
    if First(t.slots, Active) > -1 && t.nbInquiry > BT_INQUIRY_MAX then StopInquiry(t) else t
  }

  /** Takes the lowest free slot for an unknown address; nothing happens when it is known or all are taken. */
  function Admit(s: State, slot: Slot, cmds: seq<Command>): State {
    var i := First(s.slots, Free);
    if First(s.slots, ByAddr(slot.addr)) >= 0 || i < 0 then s
    else Emit(Put(s, i, slot), cmds)
  }

  function OnInquiryResult(s: State, cnt: nat, addr: Bdaddr): State {
    if cnt == 0 then s else Admit(s, NewSlot(addr, false), [Connect(addr)])
  }

  function OnConnComplete(s: State, addr: Bdaddr, failed: bool, handle: nat): State {
    var i := First(s.slots, ByAddr(addr));
    if i < 0 then s
    else
      var slot := s.slots[i];
      if failed then
        var slot' := slot.(retry := slot.retry + 1);
        if !slot.page && slot'.retry < BT_MAX_RETRY then Emit(Put(s, i, slot'), [Connect(addr)])
        else GiveUp(s, i)
      else
        Emit(Put(s, i, slot.(handle := handle, retry := 0)).(nbInquiry := BT_INQUIRY_MAX), [AdvDisable, RemoteName(addr)])
  }

  function OnConnRequest(s: State, addr: Bdaddr): State {
    Admit(s, NewSlot(addr, true), [AcceptConn(addr)])
  }

  function OnDisconnComplete(s: State, handle: nat): State {
    var i := First(s.slots, ByHandle(handle));
    if i >= 0 then
      var t := Put(s, i, EMPTY);
      if First(t.slots, Active) < 0 then Emit(if t.auto then StartInquiry(t) else t, [AdvEnable]) else t
    else if handle == s.confHandle && s.confUp && First(s.slots, Active) < 0 then Emit(s, [AdvEnable])
    else s
  }

  function OnNameComplete(s: State, addr: Bdaddr, failed: bool): State {
    var i := First(s.slots, ByAddr(addr));
    if i < 0 then s
    else if failed then
      var slot' := s.slots[i].(retry := s.slots[i].retry + 1);
      if slot'.retry < BT_MAX_RETRY then Emit(Put(s, i, slot'), [RemoteName(addr)]) else GiveUp(s, i)
    else StopInquiry(s)
  }

  function OnLeConnComplete(s: State, addr: Bdaddr, failed: bool, handle: nat): State {
    var i := First(s.slots, ByAddr(addr));
    if i < 0 then
      if !failed && !s.confUp then s.(confUp := true, confHandle := handle) else s
    else
      var slot := s.slots[i];
      if failed then
        var slot' := slot.(retry := slot.retry + 1);
        if !slot.page && slot'.retry < BT_MAX_RETRY then Emit(Put(s, i, slot'), [LeCreateConn(addr)])
        else
          var t := Put(s, i, EMPTY);
          if t.auto && First(t.slots, Active) < 0 then StartInquiry(t) else Emit(t, [ScanStop, ScanPassive])
      else
        Emit(Put(s, i, slot.(handle := handle, retry := 0, ble := true)).(nbInquiry := BT_INQUIRY_MAX),
             [StartEncryptionOrPairing(addr), ScanStop, ScanActive])
  }

  function OnLeAdvReport(s: State, addr: Bdaddr, wanted: bool): State {
    if wanted then Admit(s, NewSlot(addr, false), [ScanStop, AdvDisable, LeCreateConn(addr)]) else s
  }

  /** A HID device answered the MTU exchange while its reports are not set up yet. */
  function OnMtuResponse(s: State, handle: nat, hidReady: bool): State {
    if First(s.slots, ByHandle(handle)) >= 0 && !hidReady then StopInquiry(s) else s
  }

  function OnAcceptListDone(s: State): State {
    if s.acceptLeft > 0 then Emit(s.(acceptLeft := s.acceptLeft - 1), [AddToAcceptList]) else Configured(s)
  }

  function OnCommandFailed(s: State): State {
    if s.pktRetry + 1 > BT_MAX_RETRY then Restart(s.(pktRetry := 0)) else RunConfig(s.(pktRetry := s.pktRetry + 1))
  }

  function Step(s: State, ev: Event): State {
    match ev
    case InquiryComplete => OnInquiryComplete(s)
    case InquiryResult(cnt, addr) => OnInquiryResult(s, cnt, addr)
    case ConnComplete(addr, failed, handle) => OnConnComplete(s, addr, failed, handle)
    case ConnRequest(addr) => OnConnRequest(s, addr)
    case DisconnComplete(handle) => OnDisconnComplete(s, handle)
    case NameComplete(addr, failed) => OnNameComplete(s, addr, failed)
    case LeConnComplete(addr, failed, handle) => OnLeConnComplete(s, addr, failed, handle)
    case LeAdvReport(addr, wanted) => OnLeAdvReport(s, addr, wanted)
    case MtuResponse(handle, hidReady) => OnMtuResponse(s, handle, hidReady)
    case CommandDone => Configured(s)
    case AcceptListDone => OnAcceptListDone(s)
    case CommandFailed => OnCommandFailed(s)
  }

  // ----- what every event keeps

  ghost predicate TableOk(s: State) {
    && |s.slots| == BT_MAX_DEV
    && (forall i, j :: 0 <= i < j < |s.slots| && s.slots[i].found && s.slots[j].found ==> s.slots[i].addr != s.slots[j].addr)
    && (forall i :: 0 <= i < |s.slots| && s.slots[i].found ==> s.slots[i].retry < BT_MAX_RETRY)
  }

  /** With automatic inquiry and the configuration done, an empty table means the adapter is looking
      for devices. */
  ghost predicate Looking(s: State) {
    s.configState >= CONFIG_LAST && s.auto && !s.override && First(s.slots, Active) < 0 ==> s.inquiry
  }

  ghost predicate Good(s: State) {
    TableOk(s) && Looking(s)
  }

  lemma {:induction false} RunConfigGood(s: State)
    requires TableOk(s)
    requires s.configState > CONFIG_LAST ==> Looking(s)
    ensures Good(RunConfig(s)) && RunConfig(s).slots == s.slots
    decreases CONFIG_CNT - s.configState
  {
    if s.configState == CONFIG_ACCEPT_LIST && s.acceptLeft == 0 {
      RunConfigGood(s.(pktRetry := 0, configState := s.configState + 1));
    }
  }

  lemma GiveUpGood(s: State, i: nat)
    requires Good(s) && i < |s.slots|
    ensures Good(GiveUp(s, i))
  {
  }

  lemma AdmitGood(s: State, slot: Slot, cmds: seq<Command>)
    requires Good(s) && slot.found && slot.retry == 0
    ensures Good(Admit(s, slot, cmds))
  {
    var i := First(s.slots, Free);
    if First(s.slots, ByAddr(slot.addr)) < 0 && i >= 0 {
      assert !Fits(ByAddr(slot.addr), s.slots[i]);
      assert Fits(Active, Admit(s, slot, cmds).slots[i]);
    }
  }

  /** Changing a found slot without giving it up or renaming it. */
  lemma UpdateGood(s: State, i: nat, slot: Slot)
    requires Good(s) && i < |s.slots| && s.slots[i].found
    requires slot.found && slot.addr == s.slots[i].addr && slot.retry < BT_MAX_RETRY
    ensures Good(Put(s, i, slot))
  {
    assert Fits(Active, Put(s, i, slot).slots[i]);
  }

  lemma ConnectedGood(s: State, addr: Bdaddr, handle: nat)
    requires Good(s)
    ensures Good(OnConnComplete(s, addr, false, handle))
  {
    var i := First(s.slots, ByAddr(addr));
    if i >= 0 { UpdateGood(s, i, s.slots[i].(handle := handle, retry := 0)); }
  }

  lemma ConnFailedGood(s: State, addr: Bdaddr, handle: nat)
    requires Good(s)
    ensures Good(OnConnComplete(s, addr, true, handle))
  {
    var i := First(s.slots, ByAddr(addr));
    if i >= 0 {
      var slot := s.slots[i];
      if !slot.page && slot.retry + 1 < BT_MAX_RETRY {
        UpdateGood(s, i, slot.(retry := slot.retry + 1));
      } else {
        GiveUpGood(s, i);
      }
    }
  }

  lemma LeConnectedGood(s: State, addr: Bdaddr, handle: nat)
    requires Good(s)
    ensures Good(OnLeConnComplete(s, addr, false, handle))
  {
    var i := First(s.slots, ByAddr(addr));
    if i >= 0 { UpdateGood(s, i, s.slots[i].(handle := handle, retry := 0, ble := true)); }
  }

  lemma LeFailedGood(s: State, addr: Bdaddr, handle: nat)
    requires Good(s)
    ensures Good(OnLeConnComplete(s, addr, true, handle))
  {
    var i := First(s.slots, ByAddr(addr));
    if i >= 0 {
      var slot := s.slots[i];
      if !slot.page && slot.retry + 1 < BT_MAX_RETRY {
        UpdateGood(s, i, slot.(retry := slot.retry + 1));
      } else {
        GiveUpGood(s, i);
      }
    }
  }

  lemma NameRetryGood(s: State, i: nat)
    requires Good(s) && i < |s.slots| && s.slots[i].found && s.slots[i].retry + 1 < BT_MAX_RETRY
    ensures Good(Put(s, i, s.slots[i].(retry := s.slots[i].retry + 1)))
  {
    UpdateGood(s, i, s.slots[i].(retry := s.slots[i].retry + 1));
  }

  lemma NameCompleteGood(s: State, addr: Bdaddr, failed: bool)
    requires Good(s)
    ensures Good(OnNameComplete(s, addr, failed))
  {
    var i := First(s.slots, ByAddr(addr));
    if i >= 0 {
      assert Fits(Active, s.slots[i]);
      if s.slots[i].retry + 1 < BT_MAX_RETRY { NameRetryGood(s, i); } else { GiveUpGood(s, i); }
    }
  }

  lemma CommandFailedGood(s: State)
    requires Good(s)
    ensures Good(OnCommandFailed(s))
  {
    if s.pktRetry + 1 > BT_MAX_RETRY {
      RunConfigGood(s.(pktRetry := 0, configState := 0));
    } else {
      RunConfigGood(s.(pktRetry := s.pktRetry + 1));
    }
  }

  lemma ConfiguredGood(s: State)
    requires Good(s)
    ensures Good(Configured(s))
  {
    RunConfigGood(s.(pktRetry := 0, configState := s.configState + 1));
  }

  lemma DisconnCompleteGood(s: State, handle: nat)
    requires Good(s)
    ensures Good(OnDisconnComplete(s, handle))
  {
    var i := First(s.slots, ByHandle(handle));
    if i >= 0 {
      var t := Put(s, i, EMPTY);
      assert TableOk(t);
    }
  }

  lemma MtuResponseGood(s: State, handle: nat, hidReady: bool)
    requires Good(s)
    ensures Good(OnMtuResponse(s, handle, hidReady))
  {
    var i := First(s.slots, ByHandle(handle));
    if i >= 0 {
      assert Fits(Active, s.slots[i]);
    }
  }

  lemma StepGood(s: State, ev: Event)
    requires Good(s)
    ensures Good(Step(s, ev))
  {
    match ev
    case InquiryResult(_, addr) => AdmitGood(s, NewSlot(addr, false), [Connect(addr)]);
    case ConnRequest(addr) => AdmitGood(s, NewSlot(addr, true), [AcceptConn(addr)]);
    case LeAdvReport(addr, _) => AdmitGood(s, NewSlot(addr, false), [ScanStop, AdvDisable, LeCreateConn(addr)]);
    case ConnComplete(addr, failed, handle) =>
      if failed { ConnFailedGood(s, addr, handle); } else { ConnectedGood(s, addr, handle); }
    case LeConnComplete(addr, failed, handle) =>
      if failed { LeFailedGood(s, addr, handle); } else { LeConnectedGood(s, addr, handle); }
    case NameComplete(addr, failed) => NameCompleteGood(s, addr, failed);
    case DisconnComplete(handle) => DisconnCompleteGood(s, handle);
    case MtuResponse(handle, hidReady) => MtuResponseGood(s, handle, hidReady);
    case CommandDone | AcceptListDone => ConfiguredGood(s);
    case CommandFailed => CommandFailedGood(s);
    case InquiryComplete =>
  }

  function Run(s: State, evs: seq<Event>): State
    decreases |evs|
  {
    if evs == [] then s else Run(Step(s, evs[0]), evs[1..])
  }

  /** The manager before the first event: an empty table and the first configuration command. */
  function Boot(acceptLeft: nat, auto: bool, override: bool): State {
    Restart(State(seq(BT_MAX_DEV, _ => EMPTY), 0, 0, acceptLeft, false, 0, auto, override, false, 0, []))
  }

  /** In every reachable state the active slots have different addresses and retries to spare, and an
      idle adapter in automatic mode is looking for devices once it is configured. */
  lemma {:induction false} EveryRunIsGood(s: State, evs: seq<Event>)
    requires Good(s)
    ensures Good(Run(s, evs))
    decreases |evs|
  {
    if evs != [] {
      StepGood(s, evs[0]);
      EveryRunIsGood(Step(s, evs[0]), evs[1..]);
    }
  }

  lemma BootIsGood(acceptLeft: nat, auto: bool, override: bool)
    ensures Good(Boot(acceptLeft, auto, override))
  {
    RunConfigGood(State(seq(BT_MAX_DEV, _ => EMPTY), 0, 0, acceptLeft, false, 0, auto, override, false, 0, []));
  }

  // ----- devices do not disturb one another

  /** A found device is known by one slot only. */
  lemma SlotOfAddress(s: State, i: nat)
    requires TableOk(s) && i < |s.slots| && s.slots[i].found
    ensures First(s.slots, ByAddr(s.slots[i].addr)) == i
  {
    assert Fits(ByAddr(s.slots[i].addr), s.slots[i]);
  }

  /** The event reports nothing about the connection in this slot. */
  predicate Unrelated(ev: Event, slot: Slot) {
    match ev
    case ConnComplete(addr, _, _) => addr != slot.addr
    case LeConnComplete(addr, _, _) => addr != slot.addr
    case NameComplete(addr, failed) => addr != slot.addr || !failed
    case DisconnComplete(handle) => handle != slot.handle
    case _ => true
  }

  lemma {:induction false} RunConfigKeeps(s: State)
    ensures var t := RunConfig(s); t.slots == s.slots && t.auto == s.auto && t.override == s.override
    ensures RunConfig(s).configState >= s.configState
    ensures s.configState <= CONFIG_LAST ==> RunConfig(s).configState <= CONFIG_LAST && Pending(RunConfig(s)) <= Pending(s)
    ensures s.configState <= CONFIG_LAST && RunConfig(s).configState == CONFIG_LAST && s.auto && !s.override ==> RunConfig(s).inquiry
    decreases CONFIG_CNT - s.configState
  {
    if s.configState == CONFIG_ACCEPT_LIST && s.acceptLeft == 0 {
      RunConfigKeeps(s.(pktRetry := 0, configState := s.configState + 1));
    }
  }

  lemma AdmitKeepsSlot(s: State, slot: Slot, cmds: seq<Command>, i: nat)
    requires i < |s.slots| && s.slots[i].found
    ensures var t := Admit(s, slot, cmds); |t.slots| == |s.slots| && t.slots[i] == s.slots[i]
  {
  }

  lemma OtherConnectionKeepsSlot(s: State, addr: Bdaddr, failed: bool, handle: nat, i: nat)
    requires i < |s.slots| && s.slots[i].found && addr != s.slots[i].addr
    ensures var t := OnConnComplete(s, addr, failed, handle); |t.slots| == |s.slots| && t.slots[i] == s.slots[i]
  {
    assert First(s.slots, ByAddr(addr)) != i;
  }

  lemma OtherLeConnectionKeepsSlot(s: State, addr: Bdaddr, failed: bool, handle: nat, i: nat)
    requires i < |s.slots| && s.slots[i].found && addr != s.slots[i].addr
    ensures var t := OnLeConnComplete(s, addr, failed, handle); |t.slots| == |s.slots| && t.slots[i] == s.slots[i]
  {
    assert First(s.slots, ByAddr(addr)) != i;
  }

  lemma OtherNameKeepsSlot(s: State, addr: Bdaddr, failed: bool, i: nat)
    requires i < |s.slots| && s.slots[i].found && (addr != s.slots[i].addr || !failed)
    ensures var t := OnNameComplete(s, addr, failed); |t.slots| == |s.slots| && t.slots[i] == s.slots[i]
  {
    assert failed ==> First(s.slots, ByAddr(addr)) != i;
  }

  lemma OtherDisconnectKeepsSlot(s: State, handle: nat, i: nat)
    requires i < |s.slots| && s.slots[i].found && handle != s.slots[i].handle
    ensures var t := OnDisconnComplete(s, handle); |t.slots| == |s.slots| && t.slots[i] == s.slots[i]
  {
    assert First(s.slots, ByHandle(handle)) != i;
  }

  lemma UnrelatedKeepsSlot(s: State, ev: Event, i: nat)
    requires i < |s.slots| && s.slots[i].found && Unrelated(ev, s.slots[i])
    ensures |Step(s, ev).slots| == |s.slots| && Step(s, ev).slots[i] == s.slots[i]
  {
    match ev
    case InquiryResult(_, addr) => AdmitKeepsSlot(s, NewSlot(addr, false), [Connect(addr)], i);
    case ConnRequest(addr) => AdmitKeepsSlot(s, NewSlot(addr, true), [AcceptConn(addr)], i);
    case LeAdvReport(addr, _) => AdmitKeepsSlot(s, NewSlot(addr, false), [ScanStop, AdvDisable, LeCreateConn(addr)], i);
    case CommandDone | AcceptListDone => RunConfigKeeps(s.(pktRetry := 0, configState := s.configState + 1));
    case CommandFailed =>
      RunConfigKeeps(s.(pktRetry := 0, configState := 0));
      RunConfigKeeps(s.(pktRetry := s.pktRetry + 1));
    case ConnComplete(addr, failed, handle) => OtherConnectionKeepsSlot(s, addr, failed, handle, i);
    case LeConnComplete(addr, failed, handle) => OtherLeConnectionKeepsSlot(s, addr, failed, handle, i);
    case NameComplete(_, _) => OtherNameKeepsSlot(s, ev.addr, ev.failed, i);
    case DisconnComplete(_) => OtherDisconnectKeepsSlot(s, ev.handle, i);
    case InquiryComplete | MtuResponse(_, _) =>
  }

  /** An attempt for the device failed: to connect it, over either radio, or to ask for its name. All
      three are counted together. */
  predicate FailedFor(ev: Event, addr: Bdaddr) {
    (ev.ConnComplete? || ev.LeConnComplete? || ev.NameComplete?) && ev.addr == addr && ev.failed
  }

  function Failures(evs: seq<Event>, addr: Bdaddr): nat {
    if evs == [] then 0 else (if FailedFor(evs[0], addr) then 1 else 0) + Failures(evs[1..], addr)
  }

  /** A device that paged the adapter is asked for its name again, but not connected again. */
  predicate MayRetry(ev: Event, slot: Slot) {
    FailedFor(ev, slot.addr) && (ev.NameComplete? || !slot.page)
  }

  /** Only failed attempts for the device that may be repeated, and events unrelated to it. */
  predicate OnlyFailures(evs: seq<Event>, slot: Slot) {
    forall k :: 0 <= k < |evs| ==> Unrelated(evs[k], slot) || MayRetry(evs[k], slot)
  }

  /** Whatever else happens meanwhile, a device keeps its slot as long as fewer than BT_MAX_RETRY attempts
      failed, and they are counted exactly. */
  lemma {:induction false} RetriesAreCounted(s: State, i: nat, evs: seq<Event>)
    requires Good(s) && i < |s.slots| && s.slots[i].found
    requires OnlyFailures(evs, s.slots[i])
    requires s.slots[i].retry + Failures(evs, s.slots[i].addr) < BT_MAX_RETRY
    ensures Good(Run(s, evs))
    ensures Run(s, evs).slots[i] == s.slots[i].(retry := s.slots[i].retry + Failures(evs, s.slots[i].addr))
    decreases |evs|
  {
    if evs != [] {
      var t := Step(s, evs[0]);
      StepGood(s, evs[0]);
      if Unrelated(evs[0], s.slots[i]) {
        UnrelatedKeepsSlot(s, evs[0], i);
      } else {
        FailedAttempt(s, i, evs[0]);
      }
      assert forall k :: 0 <= k < |evs[1..]| ==> evs[1..][k] == evs[k + 1];
      RetriesAreCounted(t, i, evs[1..]);
    }
  }

  function Again(ev: Event): Command
    requires ev.ConnComplete? || ev.LeConnComplete? || ev.NameComplete?
  {
    if ev.ConnComplete? then Connect(ev.addr) else if ev.LeConnComplete? then LeCreateConn(ev.addr) else RemoteName(ev.addr)
  }

  /** A failed attempt is repeated exactly when it may be and fewer than BT_MAX_RETRY failed; otherwise the
      slot is freed, and no other slot changes. */
  lemma FailedAttempt(s: State, i: nat, ev: Event)
    requires Good(s) && i < |s.slots| && s.slots[i].found && FailedFor(ev, s.slots[i].addr)
    ensures var t := Step(s, ev);
            if MayRetry(ev, s.slots[i]) && s.slots[i].retry + 1 < BT_MAX_RETRY then
              t.slots == s.slots[i := s.slots[i].(retry := s.slots[i].retry + 1)] && t.tx == s.tx + [Again(ev)]
            else t.slots == s.slots[i := EMPTY]
  {
    SlotOfAddress(s, i);
  }

  /** A new address takes the lowest free slot; a known address or a full table changes nothing. */
  lemma AdmissionIsExact(s: State, slot: Slot, cmds: seq<Command>)
    requires Good(s) && slot.found
    ensures var t := Admit(s, slot, cmds);
            if (exists j :: 0 <= j < |s.slots| && Fits(ByAddr(slot.addr), s.slots[j])) || (forall j :: 0 <= j < |s.slots| ==> s.slots[j].found) then
              t == s
            else
              exists i :: 0 <= i < |s.slots| && Fits(Free, s.slots[i]) && t.slots == s.slots[i := slot] && t.tx == s.tx + cmds &&
                          forall j :: 0 <= j < i ==> s.slots[j].found
  {
  }

  // ----- the configuration runs to its end

  /** The controller confirms the command of the entry that is due. */
  function Confirm(s: State): State {
    if s.configState == CONFIG_ACCEPT_LIST then OnAcceptListDone(s) else Configured(s)
  }

  function Confirms(s: State, n: nat): State
    decreases n
  {
    if n == 0 then s else Confirms(Confirm(s), n - 1)
  }

  function Pending(s: State): nat {
    if s.configState > CONFIG_LAST then 0
    else CONFIG_LAST - s.configState + (if s.configState <= CONFIG_ACCEPT_LIST then s.acceptLeft else 0)
  }

  /** Confirmed commands lead from any entry to the last, whatever is stored in the accept list. */
  lemma {:induction false} ConfigurationCompletes(s: State) returns (n: nat)
    requires s.configState <= CONFIG_LAST
    ensures n <= Pending(s) && Confirms(s, n).configState == CONFIG_LAST
    ensures n > 0 && s.auto && !s.override ==> Confirms(s, n).inquiry
    decreases Pending(s)
  {
    if s.configState == CONFIG_LAST {
      n := 0;
    } else {
      var t := Confirm(s);
      RunConfigKeeps(s.(pktRetry := 0, configState := s.configState + 1));
      if t.configState == CONFIG_LAST {
        n := 1;
        assert Confirms(s, 1) == Confirms(t, 0);
      } else {
        var m := ConfigurationCompletes(t);
        n := m + 1;
      }
    }
  }
}
