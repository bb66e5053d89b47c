/**
 The connection manager as it runs: the slot array is searched by loops and updated in place, and
 every event handler is proved to take the step ConnectionEvents describes.
 */
module ConnectionManager {
  import opened ConnectionEvents

  class ConnectionManager {
    const slots: array<Slot>
    const auto: bool
    const override: bool
    var configState: nat
    var pktRetry: nat
    var acceptLeft: nat
    var inquiry: bool
    var nbInquiry: nat
    var confUp: bool
    var confHandle: nat
    var tx: seq<Command>

    ghost predicate Valid() {
      slots.Length == BT_MAX_DEV
    }

    ghost function View(): State
      reads this, slots
    {
      State(slots[..], configState, pktRetry, acceptLeft, inquiry, nbInquiry, auto, override, confUp, confHandle, tx)
    }

    constructor (acceptLeft: nat, auto: bool, override: bool)
      ensures Valid() && fresh(slots) && View() == Boot(acceptLeft, auto, override)
    {
      slots := new Slot[BT_MAX_DEV](_ => EMPTY);
      this.acceptLeft, this.auto, this.override := acceptLeft, auto, override;
      configState, pktRetry, inquiry, nbInquiry := 0, 0, false, 0;
      confUp, confHandle, tx := false, 0, [];
      new;
      assert slots[..] == seq(BT_MAX_DEV, _ => EMPTY);
      RunConfig();
    }

    // ----- slot lookup

    method GetNewDev() returns (i: int)
      ensures i == First(slots[..], Free)
    {
      i := 0;
      while i < slots.Length
        invariant 0 <= i <= slots.Length
        invariant forall k :: 0 <= k < i ==> slots[k].found
      {
        if !slots[i].found {
          return;
        }
        i := i + 1;
      }
      i := -1;
    }

    method GetActiveDev() returns (i: int)
      ensures i == First(slots[..], Active)
    {
      i := 0;
      while i < slots.Length
        invariant 0 <= i <= slots.Length
        invariant forall k :: 0 <= k < i ==> !slots[k].found
      {
        if slots[i].found {
          return;
        }
        i := i + 1;
      }
      i := -1;
    }

    method GetDevFromBdaddr(addr: Bdaddr) returns (i: int)
      ensures i == First(slots[..], ByAddr(addr))
    {
      i := 0;
      while i < slots.Length
        invariant 0 <= i <= slots.Length
        invariant forall k :: 0 <= k < i ==> !Fits(ByAddr(addr), slots[k])
      {
        if slots[i].found && addr == slots[i].addr {
          return;
        }
        i := i + 1;
      }
      i := -1;
    }

    method GetDevFromHandle(handle: nat) returns (i: int)
      ensures i == First(slots[..], ByHandle(handle))
    {
      i := 0;
      while i < slots.Length
        invariant 0 <= i <= slots.Length
        invariant forall k :: 0 <= k < i ==> !Fits(ByHandle(handle), slots[k])
      {
        if slots[i].found && handle == slots[i].handle {
          return;
        }
        i := i + 1;
      }
      i := -1;
    }

    method ResetDev(i: nat)
      requires i < slots.Length
      modifies slots
      ensures View() == Put(old(View()), i, EMPTY)
    {
      slots[i] := EMPTY;
    }

    // ----- building blocks

    method StartInquiry()
      modifies this
      ensures View() == ConnectionEvents.StartInquiry(old(View()))
    {
      if !override {
        inquiry := true;
        nbInquiry := 0;
        tx := tx + [ScanStop, ScanActive, PeriodicInquiry];
      }
    }

    method StopInquiry()
      modifies this
      ensures View() == ConnectionEvents.StopInquiry(old(View()))
    {
      tx := tx + [ExitPeriodicInquiry, ScanStop, ScanPassive];
      inquiry := false;
    }

    method RunConfig()
      modifies this
      ensures View() == ConnectionEvents.RunConfig(old(View()))
      decreases CONFIG_CNT - configState
    {
      if configState < CONFIG_CNT {
        if configState == CONFIG_LAST {
          if auto {
            StartInquiry();
          } else {
            tx := tx + [ScanStop, ScanPassive];
          }
        } else if configState == CONFIG_ACCEPT_LIST {
          if acceptLeft > 0 {
            acceptLeft := acceptLeft - 1;
            tx := tx + [AddToAcceptList];
          } else {
            pktRetry := 0;
            configState := configState + 1;
            RunConfig();
          }
        } else {
          tx := tx + [Configure(configState)];
        }
      }
    }

    method NextConfig()
      modifies this
      ensures View() == Configured(old(View()))
    {
      pktRetry := 0;
      configState := configState + 1;
      RunConfig();
    }

    /** Gives a free slot to an address that has none. */
    method Admit(slot: Slot, cmds: seq<Command>)
      requires slot.found
      modifies this, slots
      ensures View() == ConnectionEvents.Admit(old(View()), slot, cmds)
    {
      var i := GetDevFromBdaddr(slot.addr);
      if i < 0 {
        i := GetNewDev();
        if i >= 0 {
          ResetDev(i);
          slots[i] := slot;
          tx := tx + cmds;
        }
      }
    }

    method GiveUp(i: nat)
      requires i < slots.Length
      modifies this, slots
      ensures View() == ConnectionEvents.GiveUp(old(View()), i)
    {
      ResetDev(i);
      var a := GetActiveDev();
      if auto && a < 0 {
        StartInquiry();
      }
    }

    // ----- events

    method OnInquiryComplete()
      modifies this
      ensures View() == ConnectionEvents.OnInquiryComplete(old(View()))
    {
      nbInquiry := nbInquiry + 1;
      var a := GetActiveDev();
      if a > -1 && nbInquiry > BT_INQUIRY_MAX {
        StopInquiry();
      }
    }

    /** Only the first result of an event is used. */
    method OnInquiryResult(cnt: nat, addr: Bdaddr)
      modifies this, slots
      ensures View() == ConnectionEvents.OnInquiryResult(old(View()), cnt, addr)
    {
      if cnt > 0 {
        Admit(NewSlot(addr, false), [Connect(addr)]);
      }
    }

    method OnConnRequest(addr: Bdaddr)
      modifies this, slots
      ensures View() == ConnectionEvents.OnConnRequest(old(View()), addr)
    {
      Admit(NewSlot(addr, true), [AcceptConn(addr)]);
    }

    method OnLeAdvReport(addr: Bdaddr, wanted: bool)
      modifies this, slots
      ensures View() == ConnectionEvents.OnLeAdvReport(old(View()), addr, wanted)
    {
      if wanted {
        Admit(NewSlot(addr, false), [ScanStop, AdvDisable, LeCreateConn(addr)]);
      }
    }

    method OnConnComplete(addr: Bdaddr, failed: bool, handle: nat)
      modifies this, slots
      ensures View() == ConnectionEvents.OnConnComplete(old(View()), addr, failed, handle)
    {
      var i := GetDevFromBdaddr(addr);
      if i < 0 {
        return;
      }
      if failed {
        if !slots[i].page && slots[i].retry + 1 < BT_MAX_RETRY {
          slots[i] := slots[i].(retry := slots[i].retry + 1);
          tx := tx + [Connect(addr)];
        } else {
          GiveUp(i);
        }
      } else {
        nbInquiry := BT_INQUIRY_MAX;
        slots[i] := slots[i].(handle := handle, retry := 0);
        tx := tx + [AdvDisable, RemoteName(addr)];
      }
    }

    method OnLeConnComplete(addr: Bdaddr, failed: bool, handle: nat)
      modifies this, slots
      ensures View() == ConnectionEvents.OnLeConnComplete(old(View()), addr, failed, handle)
    {
      var i := GetDevFromBdaddr(addr);
      if i < 0 {
        if !failed && !confUp {
          confUp, confHandle := true, handle;
        }
      } else if failed {
        if !slots[i].page && slots[i].retry + 1 < BT_MAX_RETRY {
          slots[i] := slots[i].(retry := slots[i].retry + 1);
          tx := tx + [LeCreateConn(addr)];
        } else {
          ResetDev(i);
          var a := GetActiveDev();
          if auto && a < 0 {
            StartInquiry();
          } else {
            tx := tx + [ScanStop, ScanPassive];
          }
        }
      } else {
        nbInquiry := BT_INQUIRY_MAX;
        slots[i] := slots[i].(handle := handle, retry := 0, ble := true);
        tx := tx + [StartEncryptionOrPairing(addr), ScanStop, ScanActive];
      }
    }

    method OnDisconnComplete(handle: nat)
      modifies this, slots
      ensures View() == ConnectionEvents.OnDisconnComplete(old(View()), handle)
    {
      var i := GetDevFromHandle(handle);
      if i >= 0 {
        ResetDev(i);
        var a := GetActiveDev();
        if a < 0 {
          if auto {
            StartInquiry();
          }
          tx := tx + [AdvEnable];
        }
      } else if handle == confHandle && confUp {
        var a := GetActiveDev();
        if a < 0 {
          tx := tx + [AdvEnable];
        }
      }
    }

    method OnNameComplete(addr: Bdaddr, failed: bool)
      modifies this, slots
      ensures View() == ConnectionEvents.OnNameComplete(old(View()), addr, failed)
    {
      var i := GetDevFromBdaddr(addr);
      if i < 0 {
        return;
      }
      if failed {
        if slots[i].retry + 1 < BT_MAX_RETRY {
          slots[i] := slots[i].(retry := slots[i].retry + 1);
          tx := tx + [RemoteName(addr)];
        } else {
          GiveUp(i);
        }
      } else {
        StopInquiry();
      }
    }

    method OnMtuResponse(handle: nat, hidReady: bool)
      modifies this
      ensures View() == ConnectionEvents.OnMtuResponse(old(View()), handle, hidReady)
    {
      var i := GetDevFromHandle(handle);
      if i >= 0 && !hidReady {
        StopInquiry();
      }
    }

    method OnCommandDone(acceptList: bool)
      modifies this
      ensures View() == Step(old(View()), if acceptList then AcceptListDone else CommandDone)
    {
      if acceptList && acceptLeft > 0 {
        acceptLeft := acceptLeft - 1;
        tx := tx + [AddToAcceptList];
      } else {
        NextConfig();
      }
    }

    method OnCommandFailed()
      modifies this
      ensures View() == ConnectionEvents.OnCommandFailed(old(View()))
    {
      pktRetry := pktRetry + 1;
      if pktRetry > BT_MAX_RETRY {
        pktRetry := 0;
        configState := 0;
        RunConfig();
      } else {
        RunConfig();
      }
    }

    /** The event switch. Every event keeps the table sound and an idle adapter looking. */
    method BtHciEvtHdlr(ev: Event)
      modifies this, slots
      ensures View() == Step(old(View()), ev)
      ensures Good(old(View())) ==> Good(View())
    {
      ghost var s := View();
      Dispatch(ev);
      if Good(s) { StepGood(s, ev); }
    }

    method Dispatch(ev: Event)
      modifies this, slots
      ensures View() == Step(old(View()), ev)
    {
      match ev
      case InquiryComplete => OnInquiryComplete();
      case InquiryResult(cnt, addr) => OnInquiryResult(cnt, addr);
      case ConnComplete(addr, failed, handle) => OnConnComplete(addr, failed, handle);
      case ConnRequest(addr) => OnConnRequest(addr);
      case DisconnComplete(handle) => OnDisconnComplete(handle);
      case NameComplete(addr, failed) => OnNameComplete(addr, failed);
      case LeConnComplete(addr, failed, handle) => OnLeConnComplete(addr, failed, handle);
      case LeAdvReport(addr, wanted) => OnLeAdvReport(addr, wanted);
      case MtuResponse(handle, hidReady) => OnMtuResponse(handle, hidReady);
      case CommandDone => OnCommandDone(false);
      case AcceptListDone => OnCommandDone(true);
      case CommandFailed => OnCommandFailed();
    }
  }
}
