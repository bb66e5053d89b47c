/**
 The descriptor parser as it runs: one pass over the bytes, with the global-state stack, the usage
 list and the two reports under construction updated in place. It is proved to interpret exactly
 the items HidItems decodes.
 */
module HidParser {
  import opened HidItems
  import opened HidAccount
  import opened Bytes

  lemma {:induction false} FieldsPrefix(s: State, flags: nat, w: Wip, i: nat, n: nat)
    requires s.Valid() && |w.usages| <= MAX_USAGE && i <= n
    requires Fields(s, flags, w, n).Some?
    ensures Fields(s, flags, w, i).Some?
    decreases n - i
  {
    if i < n {
      FieldsPrefix(s, flags, w, i + 1, n);
    }
  }

  class HidParser {
    const hidStack: array<Globals>
    var hidStackIdx: nat
    const usageList: array<nat>
    var usageIdx: nat
    var reportId: nat
    const wipId: array<nat>
    const bitOffset: array<nat>
    const usageCnt: array<nat>
    const wip: seq<array<Usage>>
    var reports: seq<Report>

    ghost predicate Shaped() {
      && hidStack.Length == STACK_MAX && usageList.Length == MAX_USAGE
      && wipId.Length == bitOffset.Length == usageCnt.Length == TAG_CNT
      && |wip| == TAG_CNT && wip[HID_IN].Length == wip[HID_OUT].Length == MAX_USAGE && wip[HID_IN] != wip[HID_OUT]
      && usageList != wipId && usageList != bitOffset && usageList != usageCnt
      && wipId != bitOffset && wipId != usageCnt && bitOffset != usageCnt
    }

    ghost function Repr(): set<object> {
      {this, hidStack, usageList, wipId, bitOffset, usageCnt} + (set a | a in wip)
    }

    ghost predicate Valid()
      reads Repr()
    {
      && Shaped()
      && hidStackIdx < STACK_MAX && usageIdx <= MAX_USAGE && |reports| <= MAX_REPORT
      && usageCnt[HID_IN] <= MAX_USAGE && usageCnt[HID_OUT] <= MAX_USAGE
    }

    ghost function WipView(t: nat): (w: Wip)
      requires Valid() && t < TAG_CNT
      reads Repr()
      ensures |w.usages| == usageCnt[t] <= MAX_USAGE
    {
      Wip(wipId[t], wip[t][..usageCnt[t]], bitOffset[t])
    }

    ghost function View(): (s: State)
      requires Valid()
      reads Repr()
      ensures s.Valid()
    {
      State(hidStack[..hidStackIdx + 1], usageIdx, usageList[..], reportId, [WipView(HID_IN), WipView(HID_OUT)], reports)
    }

    constructor ()
      ensures Valid() && fresh(Repr()) && View() == Initial()
    {
      hidStack := new Globals[STACK_MAX](_ => NO_GLOBALS);
      usageList := new nat[MAX_USAGE](_ => 0);
      wipId := new nat[TAG_CNT](_ => 0);
      bitOffset := new nat[TAG_CNT](_ => 0);
      usageCnt := new nat[TAG_CNT](_ => 0);
      var usages0 := new Usage[MAX_USAGE];
      var usages1 := new Usage[MAX_USAGE];
      wip := [usages0, usages1];
      hidStackIdx, usageIdx, reportId, reports := 0, 0, 0, [];
    }

    method AddUsage(usage: nat)
      requires Valid()
      modifies this`usageIdx, usageList
      ensures Valid() && View() == HidItems.AddUsage(old(View()), usage)
    {
      if usageIdx < MAX_USAGE {
        usageList[usageIdx] := usage;
        assert WipView(HID_IN) == old(WipView(HID_IN)) && WipView(HID_OUT) == old(WipView(HID_OUT));
        usageIdx := usageIdx + 1;
      }
    }

    /** Writes one entry of the report under construction. */
    method Record(t: nat, u: Usage)
      requires Valid() && t < TAG_CNT && usageCnt[t] < MAX_USAGE
      modifies usageCnt, wip[t]
      ensures Valid()
      ensures WipView(t) == old(WipView(t)).(usages := old(WipView(t)).usages + [u])
      ensures WipView(1 - t) == old(WipView(1 - t))
    {
      wip[t][usageCnt[t]] := u;
      usageCnt[t] := usageCnt[t] + 1;
      assert WipView(t).usages == old(WipView(t)).usages + [u];
      assert WipView(1 - t) == old(WipView(1 - t));
    }

    method Advance(t: nat, bits: nat)
      requires Valid() && t < TAG_CNT
      modifies bitOffset
      ensures Valid()
      ensures WipView(t) == old(WipView(t)).(bits := old(WipView(t)).bits + bits)
      ensures WipView(1 - t) == old(WipView(1 - t))
    {
      bitOffset[t] := bitOffset[t] + bits;
      assert WipView(1 - t) == old(WipView(1 - t));
    }

    /** One field after the other, each under its own usage, or all under the only one. */
    method RecordFields(t: nat, flags: nat)
      requires Valid() && t < TAG_CNT
      requires Fields(View(), flags, WipView(t), View().Top().reportCnt).Some?
      modifies usageCnt, bitOffset, wip[t]
      ensures Valid()
      ensures WipView(t) == Fields(old(View()), flags, old(WipView(t)), old(View()).Top().reportCnt).value
      ensures WipView(1 - t) == old(WipView(1 - t))
    {
      var g := hidStack[hidStackIdx];
      ghost var s0, w0 := View(), WipView(t);
      for i := 0 to g.reportCnt
        invariant Valid()
        invariant Fields(s0, flags, w0, i).Some?
        invariant WipView(t) == Fields(s0, flags, w0, i).value && WipView(1 - t) == old(WipView(1 - t))
      {
        FieldsPrefix(s0, flags, w0, i + 1, g.reportCnt);
        var usage := if usageIdx == 1 then usageList[0] else usageList[i];
        if IsUsed(g.usagePage, usage) {
          Record(t, Usage(g.usagePage, usage, g.usageMax, flags, bitOffset[t], g.reportSize, g.logicalMin, g.logicalMax));
        }
        Advance(t, g.reportSize);
      }
    }

    /** A wide field in fragments of 32 bits. */
    method RecordFragments(t: nat, flags: nat)
      requires Valid() && t < TAG_CNT
      requires usageCnt[t] + FragmentCnt(View().Top().reportCnt) <= MAX_USAGE
      modifies usageCnt, wip[t]
      ensures Valid()
      ensures var s, w := old(View()), old(WipView(t));
              && WipView(t) == w.(usages := w.usages + Fragments(s.Top(), s.usageList[0], flags, w.bits))
              && WipView(1 - t) == old(WipView(1 - t))
    {
      var g := hidStack[hidStackIdx];
      ghost var s0, w0 := View(), WipView(t);
      ghost var fs := Fragments(g, usageList[0], flags, bitOffset[t]);
      var fragCnt := g.reportCnt / 32;
      if g.reportCnt % 32 != 0 {
        fragCnt := fragCnt + 1;
      }
      for j := 0 to fragCnt
        invariant Valid()
        invariant WipView(t) == w0.(usages := w0.usages + fs[..j]) && WipView(1 - t) == old(WipView(1 - t))
      {
        RecordFragment(t, flags, fragCnt, j);
        OneMoreFragment(w0.usages, fs, j);
      }
      assert fs[..fragCnt] == fs;
    }

    method RecordFragment(t: nat, flags: nat, fragCnt: nat, j: nat)
      requires Valid() && t < TAG_CNT && usageCnt[t] < MAX_USAGE
      requires j < fragCnt == FragmentCnt(View().Top().reportCnt)
      modifies usageCnt, wip[t]
      ensures Valid()
      ensures var s, w := old(View()), old(WipView(t));
              && WipView(t) == w.(usages := w.usages + [Fragment(s.Top(), s.usageList[0], flags, w.bits, j)])
              && WipView(1 - t) == old(WipView(1 - t))
    {
      var g := hidStack[hidStackIdx];
      var bitSize := g.reportSize * (if fragCnt > 1 then 32 else g.reportCnt);
      if fragCnt > 1 && j == fragCnt - 1 {
        bitSize := g.reportCnt % 32;
      }
      Record(t, Usage(g.usagePage, usageList[0] + 32 * j, g.usageMax, flags, bitOffset[t] + 32 * j, bitSize, g.logicalMin, g.logicalMax));
    }

    method RecordItem(t: nat, flags: nat)
      requires Valid() && t < TAG_CNT
      requires HidItems.MainItem(View(), flags, WipView(t)).Some?
      modifies usageCnt, bitOffset, wip[t]
      ensures Valid()
      ensures WipView(t) == HidItems.MainItem(old(View()), flags, old(WipView(t))).value
      ensures WipView(1 - t) == old(WipView(1 - t))
    {
      var g := hidStack[hidStackIdx];
      if flags % 2 == 0 && g.usagePage != 0xFF && usageList[0] != 0xFF && usageCnt[t] < MAX_USAGE {
        var merge := usageIdx == 1 && g.reportSize == 1 && g.reportCnt > 1;
        if merge {
          if IsUsed(g.usagePage, usageList[0]) {
            RecordFragments(t, flags);
          }
          Advance(t, g.reportCnt * g.reportSize);
        } else {
          RecordFields(t, flags);
        }
      } else {
        Advance(t, g.reportSize * g.reportCnt);
      }
    }

    method MainItem(t: nat, flags: nat)
      requires Valid() && t < TAG_CNT
      requires Main(View(), t, flags).Running?
      modifies this`usageIdx, usageList, usageCnt, bitOffset, wip[t]
      ensures Valid() && View() == Main(old(View()), t, flags).s
    {
      assert View().wips[t] == WipView(t);
      RecordItem(t, flags);
      ForgetUsages();
    }

    method ForgetUsages()
      requires Valid()
      modifies this`usageIdx, usageList
      ensures Valid() && View() == old(View()).(usageIdx := 0, usageList := Cleared())
    {
      usageIdx := 0;
      for i := 0 to MAX_USAGE
        invariant Valid() && usageIdx == 0
        invariant forall k :: 0 <= k < i ==> usageList[k] == 0xFFFF
      {
        usageList[i] := 0xFFFF;
      }
      assert usageList[..] == Cleared();
      assert WipView(HID_IN) == old(WipView(HID_IN)) && WipView(HID_OUT) == old(WipView(HID_OUT));
    }

    method PutGlobals(g: Globals)
      requires Valid()
      modifies hidStack
      ensures Valid() && View() == old(View()).SetTop(g)
    {
      hidStack[hidStackIdx] := g;
      assert WipView(HID_IN) == old(WipView(HID_IN)) && WipView(HID_OUT) == old(WipView(HID_OUT));
    }

    method Push()
      requires Valid()
      modifies this`hidStackIdx, hidStack
      ensures Valid() && View() == HidItems.Push(old(View()))
    {
      if hidStackIdx < STACK_MAX - 1 {
        hidStack[hidStackIdx + 1] := hidStack[hidStackIdx];
        hidStackIdx := hidStackIdx + 1;
      }
      assert WipView(HID_IN) == old(WipView(HID_IN)) && WipView(HID_OUT) == old(WipView(HID_OUT));
    }

    method Pop()
      requires Valid()
      modifies this`hidStackIdx
      ensures Valid() && View() == HidItems.Pop(old(View()))
    {
      if hidStackIdx > 0 {
        hidStackIdx := hidStackIdx - 1;
      }
      assert WipView(HID_IN) == old(WipView(HID_IN)) && WipView(HID_OUT) == old(WipView(HID_OUT));
    }

    /** Emits the reports under construction that have a length, input before output. */
    method Flush()
      requires Valid()
      requires |reports| + |Flushed(View().wips)| <= MAX_REPORT
      modifies this`reports
      ensures Valid() && View() == old(View()).(reports := old(reports) + Flushed(old(View()).wips))
    {
      ghost var ws := View().wips;
      for t := 0 to TAG_CNT
        invariant Valid() && View().wips == ws
        invariant reports == old(reports) + (if t == 0 then [] else if t == 1 then Flushed([ws[0], NO_WIP]) else Flushed(ws))
      {
        var len := bitOffset[t] / 8;
        if bitOffset[t] % 8 != 0 {
          len := len + 1;
        }
        if len > 0 {
          assert |reports| < MAX_REPORT;
          var usages := wip[t][..usageCnt[t]];
          var kind := FingerprintLoop(usages);
          reports := reports + [Report(wipId[t], t, len, usages, kind)];
          assert reports[|reports| - 1] == ToReport(ws[t], t);
        }
      }
    }

    method NewReport(id: nat)
      requires Valid() && HidItems.NewReport(View(), id).Running?
      modifies this`reports, this`reportId, wipId, usageCnt, bitOffset
      ensures Valid() && View() == HidItems.NewReport(old(View()), id).s
    {
      if reportId != 0 {
        Flush();
      }
      reportId := id;
      ghost var emitted := reports;
      for t := 0 to TAG_CNT
        invariant Valid() && reports == emitted && reportId == id
        invariant forall k :: 0 <= k < t ==> wipId[k] == id && usageCnt[k] == 0 && bitOffset[k] == 0
      {
        wipId[t] := id;
        usageCnt[t] := 0;
        bitOffset[t] := 0;
      }
      assert WipView(HID_IN) == Wip(id, [], 0) && WipView(HID_OUT) == Wip(id, [], 0);
    }

    method Finish()
      requires Valid() && HidItems.Finish(View()).Running?
      modifies this`reports, this`reportId, wipId
      ensures Valid() && View() == HidItems.Finish(old(View())).s
    {
      if |reports| == 0 && wipId[HID_IN] == 0 {
        reportId := 1;
        wipId[HID_IN] := 1;
        wipId[HID_OUT] := 1;
      }
      if reportId != 0 {
        Flush();
      }
    }

    /** The parser's switch. */
    method OneItem(data: seq<u8>, at: nat) returns (desc: nat)
      requires Valid() && at < |data| && Recognised(data[at]) && at + 1 + DataSize(data[at]) <= |data|
      requires !Exec(View(), ItemAt(data, at)).Stuck?
      modifies Repr()
      ensures Valid()
      ensures desc == at + 1 + DataSize(data[at])
      ensures Running(View()) == Exec(old(View()), ItemAt(data, at))
    {
      var tag := data[at];
      if SetsGlobal(tag) {
        var g;
        g, desc := GlobalItem(hidStack[hidStackIdx], data, at);
        PutGlobals(g);
      } else if ChangesUsages(tag) {
        desc := UsageItem(data, at);
      } else if ChangesReports(tag) {
        desc := ReportItem(data, at);
      } else {
        desc := IgnoredItem(data, at);
      }
    }

    method UsageItem(data: seq<u8>, at: nat) returns (desc: nat)
      requires Valid() && at < |data| && at + 1 + DataSize(data[at]) <= |data|
      requires ChangesUsages(data[at])
      modifies this`usageIdx, usageList
      ensures Valid()
      ensures desc == at + 1 + DataSize(data[at])
      ensures View() == ExecUsage(old(View()), ItemAt(data, at))
    {
      desc := at + 1;
      OperandValue(data, desc, DataSize(data[at]));
      match data[at] {
        case 0x09 | 0x19 =>
          if !IsCollection(hidStack[hidStackIdx].usagePage, data[desc]) {
            AddUsage(data[desc]);
          }
          desc := desc + 1;
        case 0x0A | 0x1A => AddUsage(U16(data, desc)); desc := desc + 2;
        case 0xB1 => ForgetCount(); desc := desc + 1;
        case 0xB2 => ForgetCount(); desc := desc + 2;
      }
    }

    method ForgetCount()
      requires Valid()
      modifies this`usageIdx
      ensures Valid() && View() == old(View()).(usageIdx := 0)
    {
      usageIdx := 0;
      assert WipView(HID_IN) == old(WipView(HID_IN)) && WipView(HID_OUT) == old(WipView(HID_OUT));
    }

    method ReportItem(data: seq<u8>, at: nat) returns (desc: nat)
      requires Valid() && at < |data| && at + 1 + DataSize(data[at]) <= |data|
      requires ChangesReports(data[at])
      requires !ExecReport(View(), ItemAt(data, at)).Stuck?
      modifies Repr()
      ensures Valid()
      ensures desc == at + 1 + DataSize(data[at])
      ensures Running(View()) == ExecReport(old(View()), ItemAt(data, at))
    {
      desc := at + 1;
      OperandValue(data, desc, DataSize(data[at]));
      match data[at] {
        case 0x81 => MainItem(HID_IN, data[desc]); desc := desc + 1;
        case 0x91 => MainItem(HID_OUT, data[desc]); desc := desc + 1;
        case 0x85 => NewReport(data[desc]); desc := desc + 1;
        case 0xA4 => Push();
        case 0xB4 => Pop();
      }
    }

    /** One turn carries out the first item of what is left of the descriptor. */
    method Turn(data: seq<u8>, at: nat) returns (desc: nat)
      requires Valid() && at < |data| && Recognised(data[at]) && CompleteFrom(data, at)
      requires !ExecAll(View(), DecodeFrom(data, at)).Stuck?
      modifies Repr()
      ensures Valid()
      ensures at < desc <= |data| && CompleteFrom(data, desc)
      ensures ExecAll(old(View()), DecodeFrom(data, at)) == ExecAll(View(), DecodeFrom(data, desc))
    {
      ghost var s := View();
      ExecAllStep(s, data, at);
      desc := OneItem(data, at);
      ExecAllRuns(s, View(), data, at);
    }

    method ParseItems(data: seq<u8>) returns (desc: nat, unknown: bool)
      requires Valid() && View() == Initial()
      requires Complete(data) && ItemsFit(Decode(data), |Decode(data)|)
      modifies Repr()
      ensures Valid()
      ensures ExecAll(old(View()), Decode(data)) == if unknown then Unknown(View()) else Running(View())
      ensures desc <= |data| && (if unknown then desc < |data| && !Recognised(data[desc]) else desc == |data|)
    {
      desc, unknown := 0, false;
      ItemsRunThrough(data);
      assert data[0..] == data;
      DecodeFromIsDecode(data, 0);
      ghost var goal := ExecAll(View(), Decode(data));
      while desc < |data|
        invariant Valid() && desc <= |data| && CompleteFrom(data, desc)
        invariant goal == ExecAll(View(), DecodeFrom(data, desc))
        decreases |data| - desc
      {
        if !Recognised(data[desc]) {
          ExecAllStops(View(), data, desc);
          unknown := true;
          return;
        }
        desc := Turn(data, desc);
      }
    }

    /** The whole parse. `unknown` tells that it ended at an unrecognised item, at offset `desc`. */
    method Parse(data: seq<u8>) returns (desc: nat, unknown: bool)
      requires Valid() && View() == Initial()
      requires Complete(data) && WithinLimits(Decode(data))
      modifies Repr()
      ensures Valid()
      ensures Interpret(data) == if unknown then Unknown(View()) else Running(View())
      ensures desc <= |data| && (if unknown then desc < |data| && !Recognised(data[desc]) else desc == |data|)
    {
      StuckExactlyBeyondLimits(data);
      desc, unknown := ParseItems(data);
      if !unknown {
        Finish();
      }
    }
  }

  lemma OneMoreFragment(us: seq<Usage>, fs: seq<Usage>, j: nat)
    requires j < |fs|
    ensures us + fs[..j] + [fs[j]] == us + fs[..j + 1]
  {
  }

  function ItemAt(data: seq<u8>, at: nat): Item
    requires at < |data| && at + 1 + DataSize(data[at]) <= |data|
  {
    Item(data[at], Value(data[at + 1..at + 1 + DataSize(data[at])]))
  }

  /** Division into items from an offset on. */
  predicate CompleteFrom(data: seq<u8>, at: nat)
    requires at <= |data|
    decreases |data| - at
  {
    || at == |data|
    || !Recognised(data[at])
    || (at + 1 + DataSize(data[at]) <= |data| && CompleteFrom(data, at + 1 + DataSize(data[at])))
  }

  function DecodeFrom(data: seq<u8>, at: nat): seq<Item>
    requires at <= |data| && CompleteFrom(data, at)
    decreases |data| - at
  {
    if at == |data| then []
    else if !Recognised(data[at]) then [Item(data[at], 0)]
    else [ItemAt(data, at)] + DecodeFrom(data, at + 1 + DataSize(data[at]))
  }

  lemma SliceOfRest(data: seq<u8>, at: nat, n: nat)
    requires 0 < n && at < |data|
    ensures data[at..][0] == data[at] && |data[at..]| == |data| - at
    ensures at + n <= |data| ==> data[at..][1..n] == data[at + 1..at + n] && data[at..][n..] == data[at + n..]
  {
  }

  lemma {:induction false} DecodeFromIsDecode(data: seq<u8>, at: nat)
    requires at <= |data|
    ensures CompleteFrom(data, at) <==> Complete(data[at..])
    ensures CompleteFrom(data, at) ==> DecodeFrom(data, at) == Decode(data[at..])
    decreases |data| - at
  {
    if at < |data| && Recognised(data[at]) {
      var n := 1 + DataSize(data[at]);
      SliceOfRest(data, at, n);
      RestUnfolds(data[at..], n);
      if at + n <= |data| {
        DecodeFromIsDecode(data, at + n);
        FromUnfolds(data, at, n);
      }
    }
  }

  lemma RestUnfolds(rest: seq<u8>, n: nat)
    requires rest != [] && Recognised(rest[0]) && n == 1 + DataSize(rest[0])
    ensures Complete(rest) <==> n <= |rest| && Complete(rest[n..])
    ensures Complete(rest) ==> Decode(rest) == [Item(rest[0], Value(rest[1..n]))] + Decode(rest[n..])
  {
  }

  lemma FromUnfolds(data: seq<u8>, at: nat, n: nat)
    requires at + n <= |data| && at < |data| && Recognised(data[at]) && n == 1 + DataSize(data[at])
    ensures CompleteFrom(data, at) <==> CompleteFrom(data, at + n)
    ensures CompleteFrom(data, at) ==>
              DecodeFrom(data, at) == [Item(data[at], Value(data[at + 1..at + n]))] + DecodeFrom(data, at + n)
  {
  }

  lemma ExecAllStep(s: State, data: seq<u8>, at: nat)
    requires s.Valid() && at < |data| && Recognised(data[at]) && CompleteFrom(data, at)
    requires !ExecAll(s, DecodeFrom(data, at)).Stuck?
    ensures at + 1 + DataSize(data[at]) <= |data|
    ensures !Exec(s, ItemAt(data, at)).Stuck?
  {
    assert DecodeFrom(data, at)[0] == ItemAt(data, at);
  }

  lemma ExecAllRuns(s: State, s': State, data: seq<u8>, at: nat)
    requires s.Valid() && s'.Valid()
    requires at < |data| && Recognised(data[at]) && CompleteFrom(data, at) && at + 1 + DataSize(data[at]) <= |data|
    requires Running(s') == Exec(s, ItemAt(data, at))
    ensures CompleteFrom(data, at + 1 + DataSize(data[at]))
    ensures ExecAll(s, DecodeFrom(data, at)) == ExecAll(s', DecodeFrom(data, at + 1 + DataSize(data[at])))
  {
    var rest := DecodeFrom(data, at + 1 + DataSize(data[at]));
    assert DecodeFrom(data, at)[0] == ItemAt(data, at) && DecodeFrom(data, at)[1..] == rest;
  }

  lemma ExecAllStops(s: State, data: seq<u8>, at: nat)
    requires s.Valid() && at < |data| && !Recognised(data[at])
    ensures CompleteFrom(data, at) && ExecAll(s, DecodeFrom(data, at)) == Unknown(s)
  {
    assert DecodeFrom(data, at) == [Item(data[at], 0)];
    assert Exec(s, Item(data[at], 0)) == Unknown(s);
  }

  // ----- the casts the code reads operands through

  function U32(data: seq<u8>, at: nat): nat
    requires at + 4 <= |data|
  {
    U16(data, at) + 0x1_0000 * U16(data, at + 2)
  }

  function S8(v: u8): int {
    var n: int := v;
    if n >= 0x80 then n - 0x100 else n
  }

  function S16(v: nat): int {
    if v >= 0x8000 then v - 0x1_0000 else v
  }

  function S32(v: nat): int {
    if v >= 0x8000_0000 then v - TWO_32 else v
  }

  lemma OperandValue2(data: seq<u8>, at: nat)
    requires at + 2 <= |data|
    ensures Value(data[at..at + 2]) == U16(data, at)
  {
    var b := data[at..at + 2];
    assert b[1..][1..] == [];
    assert Value(b[1..]) == data[at + 1];
  }

  lemma OperandValue(data: seq<u8>, at: nat, n: nat)
    requires n in {0, 1, 2, 4} && at + n <= |data|
    ensures Value(data[at..at + n]) == if n == 0 then 0 else if n == 1 then data[at] else if n == 2 then U16(data, at) else U32(data, at)
  {
    var b := data[at..at + n];
    if n == 1 {
      assert b[1..] == [];
    } else if n == 2 {
      OperandValue2(data, at);
    } else if n == 4 {
      OperandValue2(data, at + 2);
      assert b[1..][1..] == data[at + 2..at + 4];
      var low: nat, high: nat := data[at], data[at + 1];
      assert Value(b[1..]) == high + 256 * U16(data, at + 2);
      assert Value(b) == low + 256 * (high + 256 * U16(data, at + 2));
    }
  }

  /** A global item: the operand is read through a cast of its size, then skipped. */
  method GlobalItem(g: Globals, data: seq<u8>, at: nat) returns (g': Globals, desc: nat)
    requires at < |data| && SetsGlobal(data[at]) && at + 1 + DataSize(data[at]) <= |data|
    ensures desc == at + 1 + DataSize(data[at])
    ensures g' == SetGlobal(g, ItemAt(data, at))
  {
    g', desc := g, at + 1;
    OperandValue(data, desc, DataSize(data[at]));
    match data[at] {
      case 0x05 => g' := g.(usagePage := data[desc]); desc := desc + 1;
      case 0x06 => g' := g.(usagePage := U16(data, desc)); desc := desc + 2;
      case 0x07 => g' := g.(usagePage := U32(data, desc)); desc := desc + 4;
      case 0x15 => g' := g.(logicalMin := S8(data[desc])); desc := desc + 1;
      case 0x16 => g' := g.(logicalMin := S16(U16(data, desc))); desc := desc + 2;
      case 0x17 => g' := g.(logicalMin := S32(U32(data, desc))); desc := desc + 4;
      case 0x25 => g' := g.(logicalMax := S8(data[desc])); desc := desc + 1;
      case 0x26 => g' := g.(logicalMax := S16(U16(data, desc))); desc := desc + 2;
      case 0x27 => g' := g.(logicalMax := S32(U32(data, desc))); desc := desc + 4;
      case 0x29 => g' := g.(usageMax := Unsigned32(S8(data[desc]))); desc := desc + 1;
      case 0x2A => g' := g.(usageMax := Unsigned32(S16(U16(data, desc)))); desc := desc + 2;
      case 0x2B => g' := g.(usageMax := Unsigned32(S32(U32(data, desc)))); desc := desc + 4;
      case 0x75 => g' := g.(reportSize := data[desc]); desc := desc + 1;
      case 0x95 => g' := g.(reportCnt := data[desc]); desc := desc + 1;
      case 0x96 => g' := g.(reportCnt := U16(data, desc)); desc := desc + 2;
    }
  }

  /** Items whose operand is only skipped. */
  method IgnoredItem(data: seq<u8>, at: nat) returns (desc: nat)
    requires at < |data| && Ignored(data[at])
    ensures desc == at + 1 + DataSize(data[at])
  {
    desc := at + 1;
    match data[at] {
      case 0x00 | 0x7C | 0xC0 =>
      case 0x01 | 0x0D | 0x35 | 0x45 | 0x55 | 0x65 | 0xA1 => desc := desc + 1;
      case 0x46 | 0x66 => desc := desc + 2;
      case 0x03 | 0xFF => desc := desc + 4;
    }
  }

  method FingerprintLoop(usages: seq<Usage>) returns (kind: ReportType)
    ensures kind == Fingerprint(usages, REPORT_NONE)
  {
    kind := REPORT_NONE;
    for i := 0 to |usages|
      invariant Fingerprint(usages, REPORT_NONE) == Fingerprint(usages[i..], kind)
    {
      var u := usages[i];
      assert usages[i..][1..] == usages[i + 1..];
      if u.usagePage == 0 {
        break;
      }
      match u.usagePage {
        case 0x01 =>
          match u.usage {
            case 0x30 | 0x31 => return if u.flags / 4 % 2 == 1 then MOUSE else PAD;
            case 0x39 => return PAD;
            case 0x85 => return MOUSE;
            case _ =>
          }
        case 0x07 => kind := KB;
        case 0x09 => kind := PAD;
        case 0x0F =>
          if 0x95 <= u.usage <= 0x9C || u.usage == 0x50 || u.usage == 0x70 || u.usage == 0x7C || u.usage == 0xA7 {
            return RUMBLE;
          }
        case _ =>
      }
    }
  }
}
