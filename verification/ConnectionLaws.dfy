/**
 What each controller event does to the device table, the inquiry and the commands sent, and what that
 means for the configuration and for one device from its admission to its disconnection.
 */
module ConnectionLaws {
  import opened ConnectionEvents

  predicate Known(slots: seq<Slot>, addr: Bdaddr) {
    exists i :: 0 <= i < |slots| && slots[i].found && slots[i].addr == addr
  }

  predicate AnyFound(slots: seq<Slot>) {
    exists i :: 0 <= i < |slots| && slots[i].found
  }

  /** The lowest found slot with this handle. */
  predicate HoldsHandle(slots: seq<Slot>, i: nat, handle: nat) {
    && i < |slots| && slots[i].found && slots[i].handle == handle
    && forall j :: 0 <= j < i && slots[j].found ==> slots[j].handle != handle
  }

  predicate HeldBelow(slots: seq<Slot>, i: nat, handle: nat) {
    exists j :: 0 <= j < i && j < |slots| && slots[j].found && slots[j].handle == handle
  }

  predicate IsLowestFree(slots: seq<Slot>, i: nat) {
    i < |slots| && !slots[i].found && forall j :: 0 <= j < i ==> slots[j].found
  }

  // ----- inquiry

  const START_INQUIRY: seq<Command> := [ScanStop, ScanActive, PeriodicInquiry]

  /** What a table that has become `slots` makes the adapter send. */
  function WhenEmpty(s: State, slots: seq<Slot>): seq<Command> {
    if s.auto && !s.override && !AnyFound(slots) then START_INQUIRY else []
  }

  lemma EmptyTable(slots: seq<Slot>)
    ensures AnyFound(slots) <==> First(slots, Active) >= 0
  {
    if First(slots, Active) >= 0 { assert slots[First(slots, Active)].found; }
  }

  // ----- a device is admitted

  datatype Admission = Admission(addr: Bdaddr, page: bool, cmds: seq<Command>)

  /** The admission that an event asks for, if it asks for one. */
  function Asks(ev: Event): seq<Admission> {
    match ev
    case InquiryResult(cnt, addr) => if cnt > 0 then [Admission(addr, false, [Connect(addr)])] else []
    case ConnRequest(addr) => [Admission(addr, true, [AcceptConn(addr)])]
    case LeAdvReport(addr, wanted) => if wanted then [Admission(addr, false, [ScanStop, AdvDisable, LeCreateConn(addr)])] else []
    case _ => []
  }

  /** A new address takes the lowest free slot, with nothing else on record, and is answered on the radio it
      came from; a known one or a full table changes nothing at all. */
  lemma AdmissionIsAnswered(s: State, ev: Event)
    requires ev.InquiryResult? || ev.ConnRequest? || ev.LeAdvReport?
    ensures Asks(ev) == [] ==> Step(s, ev) == s
    ensures Asks(ev) != [] && (Known(s.slots, ev.addr) || !(exists i: nat :: IsLowestFree(s.slots, i))) ==> Step(s, ev) == s
    ensures forall i: nat :: Asks(ev) != [] && !Known(s.slots, ev.addr) && IsLowestFree(s.slots, i) ==>
              Step(s, ev) == s.(slots := s.slots[i := Slot(true, Asks(ev)[0].page, false, ev.addr, 0, 0)],
                                tx := s.tx + Asks(ev)[0].cmds)
  {
    var i, k := First(s.slots, Free), First(s.slots, ByAddr(ev.addr));
    if k >= 0 { assert s.slots[k].found && s.slots[k].addr == ev.addr; }
    if Known(s.slots, ev.addr) { assert k >= 0; }
    if i >= 0 {
      forall j | 0 <= j < i ensures s.slots[j].found { assert !Fits(Free, s.slots[j]); }
      assert IsLowestFree(s.slots, i);
    }
    forall j: nat | IsLowestFree(s.slots, j) ensures j == i { assert Fits(Free, s.slots[j]); }
  }

  // ----- it is connected

  /** A connection stores its handle and forgets the failures before it; the next inquiry is the last. */
  lemma ConnectionIsRecorded(s: State, i: nat, handle: nat)
    requires TableOk(s) && i < |s.slots| && s.slots[i].found
    ensures var slot := s.slots[i];
            && Step(s, ConnComplete(slot.addr, false, handle)) ==
                 s.(slots := s.slots[i := Slot(true, slot.page, slot.ble, slot.addr, handle, 0)], nbInquiry := 10,
                    tx := s.tx + [AdvDisable, RemoteName(slot.addr)])
            && Step(s, LeConnComplete(slot.addr, false, handle)) ==
                 s.(slots := s.slots[i := Slot(true, slot.page, true, slot.addr, handle, 0)], nbInquiry := 10,
                    tx := s.tx + [StartEncryptionOrPairing(slot.addr), ScanStop, ScanActive])
  {
    SlotOfAddress(s, i);
  }

  /** An unknown device that connects over LE is a configuration client, one at a time; over the other radio
      it is ignored. */
  lemma StrangerIsConfigurator(s: State, addr: Bdaddr, failed: bool, handle: nat)
    requires !Known(s.slots, addr)
    ensures Step(s, ConnComplete(addr, failed, handle)) == s && Step(s, NameComplete(addr, failed)) == s
    ensures Step(s, LeConnComplete(addr, failed, handle)) ==
            if failed || s.confUp then s else s.(confUp := true, confHandle := handle)
  {
    assert First(s.slots, ByAddr(addr)) < 0;
  }

  // ----- it fails or goes

  /** A table that has lost a device, and whether that started the inquiry. */
  function Freed(s: State, i: nat): State
    requires i < |s.slots|
  {
    var slots := s.slots[i := EMPTY];
    var t := s.(slots := slots, tx := s.tx + WhenEmpty(s, slots));
    if WhenEmpty(s, slots) != [] then t.(inquiry := true, nbInquiry := 0) else t
  }

  /** Giving a device up frees its slot; if that was the last one the adapter looks for devices, or for
      advertisements only when it must not look by itself. */
  lemma GivingUpFrees(s: State, i: nat, ev: Event)
    requires Good(s) && i < |s.slots| && s.slots[i].found && FailedFor(ev, s.slots[i].addr)
    requires !MayRetry(ev, s.slots[i]) || s.slots[i].retry + 1 >= 3
    ensures var t := Freed(s, i);
            Step(s, ev) == if ev.LeConnComplete? && (!s.auto || AnyFound(t.slots)) then t.(tx := s.tx + [ScanStop, ScanPassive]) else t
  {
    SlotOfAddress(s, i);
    EmptyTable(s.slots[i := EMPTY]);
  }

  /** A disconnection frees the lowest slot with the handle. When no device is left the adapter advertises
      again, and looks for devices if it does so by itself. */
  lemma DisconnectionFrees(s: State, handle: nat, i: nat)
    requires HoldsHandle(s.slots, i, handle)
    ensures var t := Freed(s, i);
            Step(s, DisconnComplete(handle)) == if AnyFound(t.slots) then t else t.(tx := t.tx + [AdvEnable])
  {
    var k := First(s.slots, ByHandle(handle));
    assert Fits(ByHandle(handle), s.slots[i]);
    assert k == i;
    EmptyTable(s.slots[i := EMPTY]);
  }

  /** A handle that no device holds frees nothing; if it is the configuration client's and there are no
      devices, the adapter advertises again. */
  lemma StrangerLeaves(s: State, handle: nat)
    requires forall i: nat :: i < |s.slots| && s.slots[i].found ==> s.slots[i].handle != handle
    ensures Step(s, DisconnComplete(handle)) ==
            if s.confUp && s.confHandle == handle && !AnyFound(s.slots) then s.(tx := s.tx + [AdvEnable]) else s
  {
    EmptyTable(s.slots);
  }

  // ----- from connection to disconnection

  /** Nothing in between is about the device in slot `i` or frees it. */
  predicate AllUnrelated(evs: seq<Event>, slot: Slot) {
    forall k :: 0 <= k < |evs| ==> Unrelated(evs[k], slot)
  }

  lemma {:induction false} UnrelatedRunKeepsSlot(s: State, evs: seq<Event>, i: nat)
    requires Good(s) && i < |s.slots| && s.slots[i].found && AllUnrelated(evs, s.slots[i])
    ensures Good(Run(s, evs)) && Run(s, evs).slots[i] == s.slots[i]
    decreases |evs|
  {
    if evs != [] {
      UnrelatedKeepsSlot(s, evs[0], i);
      StepGood(s, evs[0]);
      assert forall k :: 0 <= k < |evs[1..]| ==> evs[1..][k] == evs[k + 1];
      UnrelatedRunKeepsSlot(Step(s, evs[0]), evs[1..], i);
    }
  }

  /** Either radio's event for a connection that came about. */
  predicate Connects(ev: Event, addr: Bdaddr, handle: nat) {
    ev == ConnComplete(addr, false, handle) || ev == LeConnComplete(addr, false, handle)
  }

  /** A device that was connected and is disconnected again is in no slot, whatever happened to the others
      meanwhile, exactly when no lower slot holds the same handle; otherwise it stays. */
  lemma DisconnectedDeviceIsGone(s: State, i: nat, ev: Event, handle: nat, evs: seq<Event>)
    requires Good(s) && i < |s.slots| && s.slots[i].found && Connects(ev, s.slots[i].addr, handle)
    requires AllUnrelated(evs, Step(s, ev).slots[i])
    ensures var addr, t := s.slots[i].addr, Run(Step(s, ev), evs);
            && Known(t.slots, addr)
            && (Known(Step(t, DisconnComplete(handle)).slots, addr) <==> HeldBelow(t.slots, i, handle))
  {
    ConnectionIsRecorded(s, i, handle);
    StepGood(s, ev);
    UnrelatedRunKeepsSlot(Step(s, ev), evs, i);
    SlotIsFreed(Run(Step(s, ev), evs), i, handle);
  }

  lemma SlotIsFreed(t: State, i: nat, handle: nat)
    requires Good(t) && i < |t.slots| && t.slots[i].found && t.slots[i].handle == handle
    ensures Known(t.slots, t.slots[i].addr)
    ensures Known(Step(t, DisconnComplete(handle)).slots, t.slots[i].addr) <==>
            HeldBelow(t.slots, i, handle)
  {
    var k := First(t.slots, ByHandle(handle));
    assert Fits(ByHandle(handle), t.slots[i]);
    DisconnectionFrees(t, handle, k);
    var after := t.slots[k := EMPTY];
    if k < i {
      assert after[i].found && after[i].addr == t.slots[i].addr;
    } else {
      forall j | 0 <= j < |after| && after[j].found ensures after[j].addr != t.slots[i].addr {
        assert t.slots[j].found;
      }
    }
  }

  /** A device that waits for its connection holds handle 0, which a connection may have: it goes in place of
      the one that was disconnected. */
  lemma WaitingDeviceGoesInstead(s: State, a: Bdaddr, b: Bdaddr)
    requires a != b && s.slots == [EMPTY.(found := true, addr := a), EMPTY.(found := true, addr := b)] + seq(5, _ => EMPTY)
    ensures var t := Step(Step(s, ConnComplete(b, false, 0)), DisconnComplete(0));
            !Known(t.slots, a) && Known(t.slots, b)
  {
    var u := Step(s, ConnComplete(b, false, 0));
    assert s.slots[0].addr == a && s.slots[1].addr == b;
    ConnectionIsRecorded(s, 1, 0);
    DisconnectionFrees(u, 0, 0);
    assert Step(u, DisconnComplete(0)).slots[1].addr == b;
  }

  // ----- looking stops

  function Stopped(s: State): State {
    s.(inquiry := false, tx := s.tx + [ExitPeriodicInquiry, ScanStop, ScanPassive])
  }

  /** The name of a device, or the answer of one whose reports are not set up, ends the inquiry. */
  lemma AnswersStopInquiry(s: State, i: nat, hidReady: bool)
    requires i < |s.slots| && s.slots[i].found
    ensures Step(s, NameComplete(s.slots[i].addr, false)) == Stopped(s)
    ensures Step(s, MtuResponse(s.slots[i].handle, hidReady)) == if hidReady then s else Stopped(s)
  {
    assert Fits(ByAddr(s.slots[i].addr), s.slots[i]) && Fits(ByHandle(s.slots[i].handle), s.slots[i]);
  }

  lemma StrangerStopsNothing(s: State, handle: nat, hidReady: bool)
    requires forall i: nat :: i < |s.slots| && s.slots[i].found ==> s.slots[i].handle != handle
    ensures Step(s, MtuResponse(handle, hidReady)) == s
  {
  }

  function Inquiries(n: nat): seq<Event> {
    seq(n, _ => InquiryComplete)
  }

  lemma OneInquiry(s: State)
    ensures var t := s.(nbInquiry := s.nbInquiry + 1);
            Step(s, InquiryComplete) == if AnyFound(s.slots) && s.nbInquiry + 1 > 10 then Stopped(t) else t
  {
    EmptyTable(s.slots);
  }

  /** With a device the adapter stops looking on the inquiry after the tenth, or on the first one after a
      connection; without one it never does. */
  lemma {:induction false} InquiriesAreCounted(s: State, n: nat)
    ensures var t := Run(s, Inquiries(n));
            && t.slots == s.slots && t.nbInquiry == s.nbInquiry + n
            && t.inquiry == (s.inquiry && !(AnyFound(s.slots) && n > 0 && s.nbInquiry + n > 10))
    decreases n
  {
    if n > 0 {
      OneInquiry(s);
      assert Inquiries(n)[1..] == Inquiries(n - 1);
      InquiriesAreCounted(Step(s, InquiryComplete), n - 1);
    }
  }

  // ----- the configuration, entry by entry

  /** An accept list with nothing left to add is passed over. */
  function PassOver(entry: nat, left: nat): nat {
    if entry == 21 && left == 0 then 22 else entry
  }

  /** What the entry that is due makes the adapter send. */
  function Due(s: State, entry: nat): seq<Command> {
    if entry > 38 then []
    else if entry == 38 then (if !s.auto then [ScanStop, ScanPassive] else if s.override then [] else START_INQUIRY)
    else if entry == 21 then [AddToAcceptList]
    else [Configure(entry)]
  }

  /** The manager with entry `entry` due and `retry` failures of it. */
  function AtEntry(s: State, entry: nat, retry: nat): State {
    var k := PassOver(entry, s.acceptLeft);
    var t := s.(configState := k, pktRetry := if k == entry then retry else 0,
                acceptLeft := if k == 21 then s.acceptLeft - 1 else s.acceptLeft, tx := s.tx + Due(s, k));
    if k == 38 && s.auto && !s.override then t.(inquiry := true, nbInquiry := 0) else t
  }

  lemma RunConfigAt(s: State)
    ensures RunConfig(s) == AtEntry(s, s.configState, s.pktRetry)
  {
  }

  /** A confirmed command leads to the next entry; in the accept list first to its end. */
  lemma ConfirmedStep(s: State)
    ensures Step(s, CommandDone) == AtEntry(s, s.configState + 1, 0)
    ensures Step(s, AcceptListDone) ==
            if s.acceptLeft > 0 then s.(acceptLeft := s.acceptLeft - 1, tx := s.tx + [AddToAcceptList])
            else AtEntry(s, s.configState + 1, 0)
  {
    var t := s.(pktRetry := 0, configState := s.configState + 1);
    RunConfigAt(t);
    assert AtEntry(t, s.configState + 1, 0) == AtEntry(s, s.configState + 1, 0);
  }

  /** A failed command is repeated three times, and then the configuration starts anew. */
  lemma FailedStep(s: State)
    ensures Step(s, CommandFailed) == if s.pktRetry < 3 then AtEntry(s, s.configState, s.pktRetry + 1) else AtEntry(s, 0, 0)
  {
    if s.pktRetry < 3 {
      RunConfigAt(s.(pktRetry := s.pktRetry + 1));
    } else {
      RunConfigAt(s.(pktRetry := 0, configState := 0));
    }
  }

  function Plain(lo: nat, hi: nat): seq<Command>
    requires lo <= hi
  {
    seq(hi - lo, k requires 0 <= k < hi - lo => Configure(lo + k))
  }

  function Additions(n: nat): seq<Command> {
    seq(n, _ => AddToAcceptList)
  }

  lemma {:induction false} ConfirmsSplit(s: State, m: nat, n: nat)
    ensures Confirms(s, m + n) == Confirms(Confirms(s, m), n)
    decreases m
  {
    if m > 0 { ConfirmsSplit(Confirm(s), m - 1, n); }
  }

  lemma PlainStep(s: State)
    requires (s.configState < 20 || 21 < s.configState < 37) && s.pktRetry == 0
    ensures Confirm(s) == s.(configState := s.configState + 1, tx := s.tx + [Configure(s.configState + 1)])
  {
    ConfirmedStep(s);
  }

  /** Plain entries follow one another. */
  lemma {:induction false} PlainEntries(s: State, n: nat)
    requires (s.configState + n <= 20 || (s.configState > 21 && s.configState + n <= 37)) && s.pktRetry == 0
    ensures Confirms(s, n) == s.(configState := s.configState + n, tx := s.tx + Plain(s.configState + 1, s.configState + n + 1))
    decreases n
  {
    var k := s.configState;
    if n == 0 {
      assert Plain(k + 1, k + 1) == [];
    } else {
      PlainStep(s);
      PlainEntries(Confirm(s), n - 1);
      assert Plain(k + 1, k + n + 1) == [Configure(k + 1)] + Plain(k + 2, k + n + 1);
      assert s.tx + [Configure(k + 1)] + Plain(k + 2, k + n + 1) == s.tx + Plain(k + 1, k + n + 1);
    }
  }

  lemma {:induction false} AcceptListEntries(s: State, n: nat)
    requires s.configState == 21 && s.acceptLeft >= n
    ensures Confirms(s, n) == s.(acceptLeft := s.acceptLeft - n, tx := s.tx + Additions(n))
    decreases n
  {
    if n == 0 {
      assert Additions(0) == [];
    } else {
      ConfirmedStep(s);
      AcceptListEntries(Confirm(s), n - 1);
      assert s.tx + [AddToAcceptList] + Additions(n - 1) == s.tx + Additions(n);
    }
  }

  lemma UpToAcceptList(s: State, a: nat)
    requires s.configState == 20 && s.acceptLeft == a && s.pktRetry == 0
    ensures Confirms(s, 1 + a) == s.(configState := 22, acceptLeft := 0, tx := s.tx + Additions(a) + [Configure(22)])
  {
    ConfirmedStep(s);
    ConfirmsSplit(s, 1, a);
    if a == 0 {
      assert Additions(0) == [];
    } else {
      ThroughAcceptList(Confirm(s), a - 1);
      assert s.tx + [AddToAcceptList] + Additions(a - 1) == s.tx + Additions(a);
    }
  }

  lemma ThroughAcceptList(s: State, a: nat)
    requires s.configState == 21 && s.acceptLeft == a && s.pktRetry == 0
    ensures Confirms(s, a + 1) == s.(configState := 22, acceptLeft := 0, tx := s.tx + Additions(a) + [Configure(22)])
  {
    AcceptListEntries(s, a);
    ConfirmsSplit(s, a, 1);
    ConfirmedStep(Confirms(s, a));
  }

  lemma LastStep(s: State)
    requires s.configState == 37
    ensures Confirms(s, 1) == AtEntry(s, 38, 0)
  {
    ConfirmedStep(s);
    assert Confirms(s, 1) == Confirms(Confirm(s), 0);
  }

  lemma UpToTheEnd(s: State, n: nat)
    requires s.configState == 22 && n == 15 && s.pktRetry == 0
    ensures var t := Confirms(s, n + 1);
            && t.configState == 38 && t.acceptLeft == s.acceptLeft && t.auto == s.auto && t.override == s.override
            && t.inquiry == (s.inquiry || (s.auto && !s.override))
            && t.tx == s.tx + Plain(23, 38) + Due(t, 38)
  {
    PlainEntries(s, n);
    ConfirmsSplit(s, n, 1);
    LastStep(Confirms(s, n));
  }

  lemma BootSendsFirst(a: nat, auto: bool, override: bool)
    ensures var s := Boot(a, auto, override);
            && s.configState == 0 && s.pktRetry == 0 && s.acceptLeft == a && s.auto == auto && s.override == override
            && !s.inquiry && s.tx == [Configure(0)] && |s.slots| == 7 && !AnyFound(s.slots)
  {
    RunConfigAt(State(seq(BT_MAX_DEV, _ => EMPTY), 0, 0, a, false, 0, auto, override, false, 0, []));
  }

  lemma AllEntries(a: nat, last: seq<Command>)
    ensures [Configure(0)] + Plain(1, 21) + Additions(a) + [Configure(22)] + Plain(23, 38) + last ==
            Plain(0, 21) + Additions(a) + Plain(22, 38) + last
  {
    assert [Configure(0)] + Plain(1, 21) == Plain(0, 21);
    assert [Configure(22)] + Plain(23, 38) == Plain(22, 38);
  }

  lemma AfterTheFirst(s: State, n: nat, m: nat)
    requires s.configState == 0 && s.pktRetry == 0 && n == 20 && m == 15
    ensures var t := Confirms(Confirms(Confirms(s, n), 1 + s.acceptLeft), m + 1);
            && t.configState == 38 && t.acceptLeft == 0 && t.auto == s.auto && t.override == s.override
            && t.inquiry == (s.inquiry || (s.auto && !s.override))
            && t.tx == s.tx + Plain(1, 21) + Additions(s.acceptLeft) + [Configure(22)] + Plain(23, 38) + Due(t, 38)
  {
    PlainEntries(s, n);
    var t1 := Confirms(s, n);
    UpToAcceptList(t1, s.acceptLeft);
    UpToTheEnd(Confirms(t1, 1 + s.acceptLeft), m);
  }

  /** Confirmed all the way, the configuration sends every entry once and in order, with the stored devices
      added in between, and then looks for devices or for advertisements. */
  lemma WholeConfiguration(a: nat, auto: bool, override: bool, n: nat)
    requires n == 37 + a
    ensures var t := Confirms(Boot(a, auto, override), n);
            && t.configState == 38 && t.acceptLeft == 0 && t.inquiry == (auto && !override)
            && t.tx == Plain(0, 21) + Additions(a) + Plain(22, 38) + Due(t, 38)
  {
    var s, m := Boot(a, auto, override), n - a - 17;
    BootSendsFirst(a, auto, override);
    AfterTheFirst(s, m, m - 5);
    ConfirmsSplit(s, m, n - m);
    ConfirmsSplit(Confirms(s, m), 1 + a, n - m - 1 - a);
    AllEntries(a, Due(Confirms(s, n), 38));
  }
}
