/**
 A direct account of what a descriptor declares, item by item: its reports, and the limits within
 which the parser stays inside its arrays.
 */
module HidAccount {
  import opened HidItems
  import opened Bytes

  // ----- main items advance their own report by size times count

  lemma {:induction false} FieldsAdvance(s: State, flags: nat, w: Wip, n: nat)
    requires s.Valid() && |w.usages| <= MAX_USAGE && Fields(s, flags, w, n).Some?
    ensures var r := Fields(s, flags, w, n).value;
            r.bits == w.bits + s.Top().reportSize * n && r.id == w.id
  {
    if n > 0 {
      FieldsAdvance(s, flags, w, n - 1);
    }
  }

  /** Whichever branch is taken, constant, data or merged. */
  lemma MainItemAdvances(s: State, flags: nat, w: Wip)
    requires s.Valid() && |w.usages| <= MAX_USAGE && MainItem(s, flags, w).Some?
    ensures var r := MainItem(s, flags, w).value;
            r.bits == w.bits + s.Top().reportSize * s.Top().reportCnt && r.id == w.id
  {
    if Recorded(s, flags, w) && !Merged(s) {
      FieldsAdvance(s, flags, w, s.Top().reportCnt);
    }
  }

  // ----- which fields an unmerged data item records, and where

  function FieldUsage(s: State, i: nat): nat
    requires s.Valid() && (s.usageIdx == 1 || i < MAX_USAGE)
  {
    if s.usageIdx == 1 then s.usageList[0] else s.usageList[i]
  }

  /** The indices below `n` of the fields whose usage the adapter can map, in order. */
  function UsedFields(s: State, n: nat): (used: seq<nat>)
    requires s.Valid() && (s.usageIdx == 1 || n <= MAX_USAGE)
    ensures forall k :: 0 <= k < |used| ==> used[k] < n
  {
    if n == 0 then []
    else UsedFields(s, n - 1) + (if IsUsed(s.Top().usagePage, FieldUsage(s, n - 1)) then [n - 1] else [])
  }

  /** Field `i` sits `i` field widths after the item's start, whatever the fields before it recorded. */
  lemma {:induction false} FieldsInPlace(s: State, flags: nat, w: Wip, n: nat)
    requires s.Valid() && |w.usages| <= MAX_USAGE && Fields(s, flags, w, n).Some?
    ensures s.usageIdx == 1 || n <= MAX_USAGE
    ensures var r, used, g := Fields(s, flags, w, n).value, UsedFields(s, n), s.Top();
            && |r.usages| == |w.usages| + |used|
            && r.usages[..|w.usages|] == w.usages
            && forall k :: 0 <= k < |used| ==>
                 r.usages[|w.usages| + k] ==
                 Usage(g.usagePage, FieldUsage(s, used[k]), g.usageMax, flags, w.bits + g.reportSize * used[k], g.reportSize,
                       g.logicalMin, g.logicalMax)
  {
    if n > 0 {
      FieldsInPlace(s, flags, w, n - 1);
      FieldsAdvance(s, flags, w, n - 1);
    }
  }

  // ----- a direct account of the reports, item by item

  function StackStep(stack: seq<Globals>, x: Item): (r: seq<Globals>)
    requires 0 < |stack| <= STACK_MAX
    ensures 0 < |r| <= STACK_MAX
  {
    var top := |stack| - 1;
    if SetsGlobal(x.tag) then stack[top := SetGlobal(stack[top], x)]
    else if x.tag == 0xA4 && top + 1 < STACK_MAX then stack + [stack[top]]
    else if x.tag == 0xB4 && top > 0 then stack[..top]
    else stack
  }

  /** The global states that are live after the first `n` items. */
  function GlobalStack(items: seq<Item>, n: nat): (r: seq<Globals>)
    requires n <= |items|
    ensures 0 < |r| <= STACK_MAX
  {
    if n == 0 then [NO_GLOBALS] else StackStep(GlobalStack(items, n - 1), items[n - 1])
  }

  /** The Report ID in force after the first `n` items, 0 if none was given. */
  function CurrentId(items: seq<Item>, n: nat): nat
    requires n <= |items|
  {
    if n == 0 then 0 else if items[n - 1].tag == 0x85 then items[n - 1].arg else CurrentId(items, n - 1)
  }

  /** Size times count, summed over the items with main-item tag `tag` since the last Report ID. */
  function BitSum(items: seq<Item>, n: nat, tag: u8): nat
    requires n <= |items|
  {
    if n == 0 || items[n - 1].tag == 0x85 then 0
    else if items[n - 1].tag == tag then
      var stack := GlobalStack(items, n - 1);
      BitSum(items, n - 1, tag) + stack[|stack| - 1].reportSize * stack[|stack| - 1].reportCnt
    else BitSum(items, n - 1, tag)
  }

  datatype Header = Header(id: nat, tag: nat, len: nat)

  /** The reports an identifier closes with: input before output, and only those with bits. */
  function Closing(id: nat, inBits: nat, outBits: nat): seq<Header> {
    (if ByteLen(inBits) > 0 then [Header(id, HID_IN, ByteLen(inBits))] else []) +
    (if ByteLen(outBits) > 0 then [Header(id, HID_OUT, ByteLen(outBits))] else [])
  }

  /** The reports closed by the Report ID items among the first `n` items. */
  function Closed(items: seq<Item>, n: nat): seq<Header>
    requires n <= |items|
  {
    if n == 0 then []
    else if items[n - 1].tag == 0x85 && CurrentId(items, n - 1) != 0 then
      Closed(items, n - 1) +
      Closing(CurrentId(items, n - 1), BitSum(items, n - 1, 0x81), BitSum(items, n - 1, 0x91))
    else Closed(items, n - 1)
  }

  /** All reports of a descriptor: its last identifier is closed at the end, and a descriptor without
      reports or identifier so far gets identifier 1. */
  function AllHeaders(items: seq<Item>): seq<Header> {
    var n := |items|;
    var id := if Closed(items, n) == [] && CurrentId(items, n) == 0 then 1 else CurrentId(items, n);
    Closed(items, n) + (if id != 0 then Closing(id, BitSum(items, n, 0x81), BitSum(items, n, 0x91)) else [])
  }

  function Headers(rs: seq<Report>): (hs: seq<Header>)
    ensures |hs| == |rs|
  {
    seq(|rs|, i requires 0 <= i < |rs| => Header(rs[i].id, rs[i].tag, rs[i].len))
  }

  // ----- the usages a descriptor declares and records

  /** The local usages: how many were declared, and the slots they were written to. */
  datatype Declared = Declared(cnt: nat, slots: seq<nat>)

  function Declare(d: Declared, usage: nat): (r: Declared)
    requires |d.slots| == MAX_USAGE
    ensures |r.slots| == MAX_USAGE
  {
    if d.cnt < MAX_USAGE then Declared(d.cnt + 1, d.slots[d.cnt := usage]) else d
  }

  function GlobalsAt(items: seq<Item>, n: nat): Globals
    requires n <= |items|
  {
    var stack := GlobalStack(items, n);
    stack[|stack| - 1]
  }

  function DeclareStep(d: Declared, page: nat, x: Item): (r: Declared)
    requires |d.slots| == MAX_USAGE
    ensures |r.slots| == MAX_USAGE
  {
    match x.tag
    case 0x09 | 0x19 => if IsCollection(page, x.arg) then d else Declare(d, x.arg)
    case 0x0A | 0x1A => Declare(d, x.arg)
    case 0x81 | 0x91 => Declared(0, Cleared())
    case 0xB1 | 0xB2 => d.(cnt := 0)
    case _ => d
  }

  /** The local usages after the first `n` items. */
  function DeclaredAt(items: seq<Item>, n: nat): (r: Declared)
    requires n <= |items|
    ensures |r.slots| == MAX_USAGE
  {
    if n == 0 then Declared(0, seq(MAX_USAGE, _ => 0))
    else DeclareStep(DeclaredAt(items, n - 1), GlobalsAt(items, n - 1).usagePage, items[n - 1])
  }

  /** A data item whose usages the parser looks at; `sofar` usages are recorded already. */
  predicate LooksAt(g: Globals, d: Declared, flags: nat, sofar: nat)
    requires |d.slots| == MAX_USAGE
  {
    flags % 2 == 0 && g.usagePage != 0xFF && d.slots[0] != 0xFF && sofar < MAX_USAGE
  }

  /** How many of the first `n` fields have a usage that the adapter can map. */
  function UsedCnt(page: nat, d: Declared, n: nat): (r: nat)
    requires |d.slots| == MAX_USAGE && (d.cnt == 1 || n <= MAX_USAGE)
    ensures r <= n
  {
    if n == 0 then 0
    else UsedCnt(page, d, n - 1) + if IsUsed(page, if d.cnt == 1 then d.slots[0] else d.slots[n - 1]) then 1 else 0
  }

  /** The fields have usages to look at. */
  predicate HasUsages(g: Globals, d: Declared) {
    d.cnt == 1 || g.reportCnt <= MAX_USAGE
  }

  /** The entries a data item takes in its report. */
  function Entries(g: Globals, d: Declared): nat
    requires |d.slots| == MAX_USAGE && HasUsages(g, d)
  {
    if d.cnt == 1 && g.reportSize == 1 && g.reportCnt > 1 then
      if IsUsed(g.usagePage, d.slots[0]) then FragmentCnt(g.reportCnt) else 0
    else UsedCnt(g.usagePage, d, g.reportCnt)
  }

  /** The entries taken since the last Report ID by the items with main-item tag `tag`. */
  function UsageSum(items: seq<Item>, n: nat, tag: u8): nat
    requires n <= |items|
  {
    if n == 0 || items[n - 1].tag == 0x85 then 0
    else
      var g, d, sofar := GlobalsAt(items, n - 1), DeclaredAt(items, n - 1), UsageSum(items, n - 1, tag);
      if items[n - 1].tag == tag && LooksAt(g, d, items[n - 1].arg, sofar) && HasUsages(g, d) then sofar + Entries(g, d)
      else sofar
  }

  // ----- the limits

  /** A main item within the limits: its bits are countable in 32 bits, its fields have usages to look
      at, and its report has room for the entries. */
  predicate MainFits(g: Globals, d: Declared, flags: nat, bits: nat, sofar: nat)
    requires |d.slots| == MAX_USAGE
  {
    && bits + g.reportSize * g.reportCnt < TWO_32
    && (LooksAt(g, d, flags, sofar) ==> HasUsages(g, d) && sofar + Entries(g, d) <= MAX_USAGE)
  }

  predicate ItemFits(items: seq<Item>, k: nat)
    requires k < |items|
  {
    var x := items[k];
    if x.tag == 0x81 || x.tag == 0x91 then
      MainFits(GlobalsAt(items, k), DeclaredAt(items, k), x.arg, BitSum(items, k, x.tag), UsageSum(items, k, x.tag))
    else if x.tag == 0x85 then |Closed(items, k + 1)| <= MAX_REPORT
    else true
  }

  predicate ItemsFit(items: seq<Item>, n: nat)
    requires n <= |items|
  {
    forall k :: 0 <= k < n ==> ItemFits(items, k)
  }

  /** The parser knows every item. */
  predicate AllKnown(items: seq<Item>) {
    forall k :: 0 <= k < |items| ==> Recognised(items[k].tag)
  }

  /** All items fit, and so do the reports that the end of the descriptor closes. */
  predicate WithinLimits(items: seq<Item>) {
    ItemsFit(items, |items|) && (AllKnown(items) ==> |AllHeaders(items)| <= MAX_REPORT)
  }

  // ----- the parser keeps to the account

  ghost predicate Accounted(s: State, items: seq<Item>, n: nat)
    requires s.Valid() && n <= |items|
  {
    && s.stack == GlobalStack(items, n)
    && s.reportId == CurrentId(items, n)
    && s.wips[HID_IN].id == s.wips[HID_OUT].id == CurrentId(items, n)
    && s.wips[HID_IN].bits == BitSum(items, n, 0x81)
    && s.wips[HID_OUT].bits == BitSum(items, n, 0x91)
    && Headers(s.reports) == Closed(items, n)
    && Declared(s.usageIdx, s.usageList) == DeclaredAt(items, n)
    && |s.wips[HID_IN].usages| == UsageSum(items, n, 0x81)
    && |s.wips[HID_OUT].usages| == UsageSum(items, n, 0x91)
  }

  lemma HeadersOfFlushed(wips: seq<Wip>)
    requires |wips| == TAG_CNT && wips[HID_IN].id == wips[HID_OUT].id
    ensures Headers(Flushed(wips)) == Closing(wips[HID_IN].id, wips[HID_IN].bits, wips[HID_OUT].bits)
  {
  }

  lemma HeadersConcat(a: seq<Report>, b: seq<Report>)
    ensures Headers(a + b) == Headers(a) + Headers(b)
  {
  }

  /** An unmerged data item fits exactly when its fields have usages and its entries have room. */
  lemma {:induction false} FieldsFit(s: State, flags: nat, w: Wip, n: nat)
    requires s.Valid() && |w.usages| <= MAX_USAGE
    ensures var d := Declared(s.usageIdx, s.usageList);
            && (Fields(s, flags, w, n).Some? <==>
                  (d.cnt == 1 || n <= MAX_USAGE) && |w.usages| + UsedCnt(s.Top().usagePage, d, n) <= MAX_USAGE)
            && (Fields(s, flags, w, n).Some? ==>
                  |Fields(s, flags, w, n).value.usages| == |w.usages| + UsedCnt(s.Top().usagePage, d, n))
  {
    if n > 0 {
      FieldsFit(s, flags, w, n - 1);
    }
  }

  lemma MainItemFits(s: State, flags: nat, w: Wip)
    requires s.Valid() && |w.usages| <= MAX_USAGE
    ensures var g, d := s.Top(), Declared(s.usageIdx, s.usageList);
            && (MainItem(s, flags, w).Some? <==> MainFits(g, d, flags, w.bits, |w.usages|))
            && (MainItem(s, flags, w).Some? ==>
                  |MainItem(s, flags, w).value.usages| ==
                  |w.usages| + if LooksAt(g, d, flags, |w.usages|) then Entries(g, d) else 0)
  {
    FieldsFit(s, flags, w, s.Top().reportCnt);
  }

  /** An item gets stuck exactly when it does not fit. */
  lemma ExecFits(s: State, items: seq<Item>, n: nat)
    requires s.Valid() && n < |items| && Accounted(s, items, n)
    ensures Exec(s, items[n]).Stuck? <==> !ItemFits(items, n)
  {
    var x := items[n];
    match x.tag
    case 0x81 => MainItemFits(s, x.arg, s.wips[HID_IN]);
    case 0x91 => MainItemFits(s, x.arg, s.wips[HID_OUT]);
    case 0x85 => HeadersOfFlushed(s.wips);
    case _ =>
  }

  lemma ExecStack(s: State, x: Item)
    requires s.Valid() && Exec(s, x).Running?
    ensures Exec(s, x).s.stack == StackStep(s.stack, x)
  {
  }

  lemma ExecDeclared(s: State, x: Item)
    requires s.Valid() && Exec(s, x).Running?
    ensures var t := Exec(s, x).s;
            Declared(t.usageIdx, t.usageList) == DeclareStep(Declared(s.usageIdx, s.usageList), s.Top().usagePage, x)
  {
  }

  lemma ExecAccounted(s: State, items: seq<Item>, n: nat)
    requires s.Valid() && n < |items| && Accounted(s, items, n)
    requires Exec(s, items[n]).Running?
    ensures Accounted(Exec(s, items[n]).s, items, n + 1)
  {
    var x := items[n];
    ExecStack(s, x);
    ExecDeclared(s, x);
    match x.tag
    case 0x81 =>
      MainItemAdvances(s, x.arg, s.wips[HID_IN]);
      MainItemFits(s, x.arg, s.wips[HID_IN]);
    case 0x91 =>
      MainItemAdvances(s, x.arg, s.wips[HID_OUT]);
      MainItemFits(s, x.arg, s.wips[HID_OUT]);
    case 0x85 =>
      HeadersOfFlushed(s.wips);
      HeadersConcat(s.reports, if s.reportId != 0 then Flushed(s.wips) else []);
    case _ =>
  }

  /** Carrying out one item more. */
  function Next(o: Outcome, x: Item): Outcome
    requires o.Running? ==> o.s.Valid()
  {
    if o.Running? then Exec(o.s, x) else o
  }

  lemma {:induction false} ExecAllSplit(s: State, items: seq<Item>, n: nat)
    requires s.Valid() && n < |items|
    ensures ExecAll(s, items[..n + 1]) == Next(ExecAll(s, items[..n]), items[n])
    decreases n
  {
    var whole, part := items[..n + 1], items[..n];
    if n == 0 {
      assert whole[1..] == [];
    } else {
      assert whole[1..] == items[1..][..n] && part[1..] == items[1..][..n - 1];
      if Exec(s, items[0]).Running? {
        ExecAllSplit(Exec(s, items[0]).s, items[1..], n - 1);
      }
    }
  }

  /** The outcome of the first `n` items: they run through exactly when they fit, and then keep to the account. */
  ghost predicate RunsTo(o: Outcome, items: seq<Item>, n: nat)
    requires n <= |items|
  {
    && (o.Stuck? <==> !ItemsFit(items, n))
    && !o.Unknown?
    && (o.Running? ==> o.s.Valid() && Accounted(o.s, items, n))
  }

  lemma OneMore(o: Outcome, items: seq<Item>, n: nat)
    requires n < |items| && RunsTo(o, items, n) && Recognised(items[n].tag)
    ensures RunsTo(Next(o, items[n]), items, n + 1)
  {
    if o.Running? {
      ExecFits(o.s, items, n);
      if ItemFits(items, n) { ExecAccounted(o.s, items, n); }
    }
  }

  lemma NothingYet(items: seq<Item>)
    ensures RunsTo(ExecAll(Initial(), items[..0]), items, 0)
  {
    assert items[..0] == [];
  }

  lemma {:induction false} ExecAllAccounted(items: seq<Item>, n: nat)
    requires n <= |items| && forall k :: 0 <= k < n ==> Recognised(items[k].tag)
    ensures RunsTo(ExecAll(Initial(), items[..n]), items, n)
    decreases n
  {
    if n == 0 {
      NothingYet(items);
    } else {
      ExecAllSplit(Initial(), items, n - 1);
      ExecAllAccounted(items, n - 1);
      OneMore(ExecAll(Initial(), items[..n - 1]), items, n - 1);
    }
  }

  lemma FinishAccounted(s: State, items: seq<Item>)
    requires s.Valid() && Accounted(s, items, |items|)
    ensures Finish(s).Running? <==> |AllHeaders(items)| <= MAX_REPORT
    ensures Finish(s).Running? ==> Headers(Finish(s).s.reports) == AllHeaders(items)
  {
    var wips := if |s.reports| == 0 && s.wips[HID_IN].id == 0 then [s.wips[0].(id := 1), s.wips[1].(id := 1)] else s.wips;
    HeadersOfFlushed(wips);
    HeadersConcat(s.reports, Flushed(wips));
  }

  /** Only the last decoded item can be one that the parser does not know. */
  lemma {:induction false} OnlyLastUnknown(data: seq<u8>, k: nat)
    requires Complete(data) && k + 1 < |Decode(data)|
    ensures Recognised(Decode(data)[k].tag)
  {
    if k > 0 {
      OnlyLastUnknown(data[1 + DataSize(data[0])..], k - 1);
    }
  }

  /** The outcome of items of which the last is unknown. */
  ghost predicate StopsAt(o: Outcome, items: seq<Item>, n: nat)
    requires n < |items|
  {
    && (o.Stuck? <==> !ItemsFit(items, n + 1))
    && !o.Running?
    && (o.Unknown? ==> o.s.Valid() && Accounted(o.s, items, n))
  }

  lemma UnknownStops(o: Outcome, items: seq<Item>, n: nat)
    requires n < |items| && RunsTo(o, items, n) && !Recognised(items[n].tag)
    ensures StopsAt(Next(o, items[n]), items, n)
  {
    assert ItemFits(items, n);
    assert ItemsFit(items, n + 1) == ItemsFit(items, n);
  }

  /** The items of a descriptor run through exactly when they fit; only an unknown last one stops them. */
  lemma ItemsRunThrough(data: seq<u8>)
    requires Complete(data)
    ensures var items, o := Decode(data), ExecAll(Initial(), Decode(data));
            if AllKnown(items) then RunsTo(o, items, |items|) else items != [] && StopsAt(o, items, |items| - 1)
  {
    var items := Decode(data);
    if AllKnown(items) {
      assert items[..|items|] == items;
      ExecAllAccounted(items, |items|);
    } else {
      OnlyLast(data);
      LastItemStops(items, |items| - 1);
    }
  }

  lemma OnlyLast(data: seq<u8>)
    requires Complete(data) && !AllKnown(Decode(data))
    ensures var items := Decode(data);
            && items != [] && !Recognised(items[|items| - 1].tag)
            && forall k :: 0 <= k < |items| - 1 ==> Recognised(items[k].tag)
  {
    var n := |Decode(data)| - 1;
    forall k | 0 <= k < n ensures Recognised(Decode(data)[k].tag) { OnlyLastUnknown(data, k); }
  }

  lemma LastItemStops(items: seq<Item>, n: nat)
    requires n + 1 == |items| && !Recognised(items[n].tag) && forall k :: 0 <= k < n ==> Recognised(items[k].tag)
    ensures StopsAt(ExecAll(Initial(), items), items, n)
  {
    assert items[..n + 1] == items;
    ExecAllAccounted(items, n);
    ExecAllSplit(Initial(), items, n);
    UnknownStops(ExecAll(Initial(), items[..n]), items, n);
  }

  /** The parser leaves its arrays, or its 32-bit offsets overflow, exactly beyond the limits. */
  lemma StuckExactlyBeyondLimits(data: seq<u8>)
    requires Complete(data)
    ensures Interpret(data).Stuck? <==> !WithinLimits(Decode(data))
    ensures Interpret(data).Running? <==> WithinLimits(Decode(data)) && AllKnown(Decode(data))
  {
    ItemsRunThrough(data);
    var o := ExecAll(Initial(), Decode(data));
    if o.Running? { FinishAccounted(o.s, Decode(data)); }
  }

  /** The reports of a descriptor within the limits. */
  function ReportsOf(data: seq<u8>): seq<Report>
    requires Complete(data) && WithinLimits(Decode(data))
  {
    StuckExactlyBeyondLimits(data);
    Interpret(data).s.reports
  }

  /** The reports a descriptor yields, with their identifiers, kinds, order and byte lengths, are those
      of the direct account; an unknown item leaves those closed before it. */
  lemma ReportsAreAccounted(data: seq<u8>)
    requires Complete(data) && WithinLimits(Decode(data))
    ensures var items := Decode(data);
            if AllKnown(items) then Headers(ReportsOf(data)) == AllHeaders(items)
            else |items| > 0 && Headers(ReportsOf(data)) == Closed(items, |items| - 1)
  {
    StuckExactlyBeyondLimits(data);
    ItemsRunThrough(data);
    var o := ExecAll(Initial(), Decode(data));
    if o.Running? { FinishAccounted(o.s, Decode(data)); }
  }
}
