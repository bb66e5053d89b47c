/**
 The direct account carried on to the usages: which entries each report holds, with their places and limits.
 */
module HidUsages {
  import opened HidItems
  import opened HidAccount
  import opened HidGlobals
  import opened Bytes

  // ----- the entries of one data item

  /** How many bits fragment `j` of a merged field of `cnt` bits has: 32, the last of several what is left over. */
  function FragmentBits(cnt: nat, j: nat): nat {
    if cnt <= 32 then cnt else if 32 * (j + 1) < cnt then 32 else cnt % 32
  }

  function Entry(g: Globals, usage: nat, flags: nat, offset: nat, size: nat): Usage {
    Usage(g.usagePage, usage, g.usageMax, flags, offset, size, g.logicalMin, g.logicalMax)
  }

  /** One entry for each of the first `n` fields whose usage the adapter can map, at its place. */
  function FieldEntries(g: Globals, d: Declared, flags: nat, bits: nat, n: nat): (us: seq<Usage>)
    requires |d.slots| == MAX_USAGE && (d.cnt == 1 || n <= MAX_USAGE)
    ensures |us| == UsedCnt(g.usagePage, d, n)
  {
    if n == 0 then []
    else
      var usage := if d.cnt == 1 then d.slots[0] else d.slots[n - 1];
      FieldEntries(g, d, flags, bits, n - 1) +
      (if IsUsed(g.usagePage, usage) then [Entry(g, usage, flags, bits + g.reportSize * (n - 1), g.reportSize)] else [])
  }

  function ItemEntries(g: Globals, d: Declared, flags: nat, bits: nat): (us: seq<Usage>)
    requires |d.slots| == MAX_USAGE && HasUsages(g, d)
    ensures |us| == Entries(g, d)
  {
    if d.cnt == 1 && g.reportSize == 1 && g.reportCnt > 1 then
      if IsUsed(g.usagePage, d.slots[0]) then
        seq(FragmentCnt(g.reportCnt), j requires 0 <= j =>
          Entry(g, d.slots[0] + 32 * j, flags, bits + 32 * j, FragmentBits(g.reportCnt, j)))
      else []
    else FieldEntries(g, d, flags, bits, g.reportCnt)
  }

  lemma {:induction false} FieldsAreEntries(s: State, flags: nat, w: Wip, n: nat)
    requires s.Valid() && |w.usages| <= MAX_USAGE && Fields(s, flags, w, n).Some?
    ensures s.usageIdx == 1 || n <= MAX_USAGE
    ensures Fields(s, flags, w, n).value.usages ==
            w.usages + FieldEntries(s.Top(), Declared(s.usageIdx, s.usageList), flags, w.bits, n)
  {
    if n > 0 {
      FieldsAreEntries(s, flags, w, n - 1);
      FieldsAdvance(s, flags, w, n - 1);
    }
  }

  lemma FragmentsAreEntries(g: Globals, d: Declared, flags: nat, bits: nat)
    requires |d.slots| == MAX_USAGE && d.cnt == 1 && g.reportSize == 1 && g.reportCnt > 1 && IsUsed(g.usagePage, d.slots[0])
    ensures Fragments(g, d.slots[0], flags, bits) == ItemEntries(g, d, flags, bits)
  {
    forall j | 0 <= j < FragmentCnt(g.reportCnt)
      ensures Fragments(g, d.slots[0], flags, bits)[j] == ItemEntries(g, d, flags, bits)[j]
    {
      assert Fragments(g, d.slots[0], flags, bits)[j] == Fragment(g, d.slots[0], flags, bits, j);
    }
  }

  /** A data item adds exactly its entries, and one that the parser does not look at adds none. */
  lemma MainItemAdds(s: State, flags: nat, w: Wip)
    requires s.Valid() && |w.usages| <= MAX_USAGE && MainItem(s, flags, w).Some?
    ensures var g, d := s.Top(), Declared(s.usageIdx, s.usageList);
            && (LooksAt(g, d, flags, |w.usages|) ==> HasUsages(g, d))
            && MainItem(s, flags, w).value.usages ==
                 w.usages + if LooksAt(g, d, flags, |w.usages|) then ItemEntries(g, d, flags, w.bits) else []
  {
    var g, d := s.Top(), Declared(s.usageIdx, s.usageList);
    MainItemFits(s, flags, w);
    if LooksAt(g, d, flags, |w.usages|) {
      if !Merged(s) {
        FieldsAreEntries(s, flags, w, g.reportCnt);
      } else if IsUsed(g.usagePage, s.usageList[0]) {
        FragmentsAreEntries(g, d, flags, w.bits);
      }
    }
  }

  // ----- the entries of a report

  /** The entries since the last Report ID of the items with main-item tag `tag`. */
  function EntriesSince(items: seq<Item>, n: nat, tag: u8): (us: seq<Usage>)
    requires n <= |items|
    ensures |us| == UsageSum(items, n, tag)
  {
    if n == 0 || items[n - 1].tag == 0x85 then []
    else
      var g, d, before := GlobalsAt(items, n - 1), DeclaredAt(items, n - 1), EntriesSince(items, n - 1, tag);
      if items[n - 1].tag == tag && LooksAt(g, d, items[n - 1].arg, |before|) && HasUsages(g, d) then
        before + ItemEntries(g, d, items[n - 1].arg, BitSum(items, n - 1, tag))
      else before
  }

  function ReportFor(id: nat, kind: nat, bits: nat, us: seq<Usage>): seq<Report> {
    if bits > 0 then [Report(id, kind, (bits + 7) / 8, us, Fingerprint(us, REPORT_NONE))] else []
  }

  /** The reports that end after `n` items under the identifier `id`: input before output. */
  function ReportsEnding(items: seq<Item>, n: nat, id: nat): seq<Report>
    requires n <= |items|
  {
    ReportFor(id, HID_IN, BitSum(items, n, 0x81), EntriesSince(items, n, 0x81)) +
    ReportFor(id, HID_OUT, BitSum(items, n, 0x91), EntriesSince(items, n, 0x91))
  }

  /** The reports that item `i` closes, if it is a Report ID. */
  function ClosedBy(items: seq<Item>, i: nat): seq<Report>
    requires i < |items|
  {
    if items[i].tag == 0x85 && CurrentId(items, i) != 0 then ReportsEnding(items, i, CurrentId(items, i)) else []
  }

  /** The reports that the Report ID items among the first `n` items close. */
  function ReportsClosed(items: seq<Item>, n: nat): seq<Report>
    requires n <= |items|
  {
    if n == 0 then [] else ReportsClosed(items, n - 1) + ClosedBy(items, n - 1)
  }

  function AllReports(items: seq<Item>): seq<Report> {
    var n := |items|;
    var id := if ReportsClosed(items, n) == [] && CurrentId(items, n) == 0 then 1 else CurrentId(items, n);
    ReportsClosed(items, n) + if id != 0 then ReportsEnding(items, n, id) else []
  }

  // ----- the parser keeps to it

  ghost predicate Holding(s: State, items: seq<Item>, n: nat)
    requires s.Valid() && n <= |items|
  {
    && s.wips[HID_IN].usages == EntriesSince(items, n, 0x81)
    && s.wips[HID_OUT].usages == EntriesSince(items, n, 0x91)
    && s.reports == ReportsClosed(items, n)
  }

  lemma FlushedEnding(s: State, items: seq<Item>, n: nat, id: nat)
    requires s.Valid() && n <= |items| && Accounted(s, items, n) && Holding(s, items, n)
    ensures Flushed([s.wips[HID_IN].(id := id), s.wips[HID_OUT].(id := id)]) == ReportsEnding(items, n, id)
  {
  }

  lemma ExecHolds(s: State, items: seq<Item>, n: nat)
    requires s.Valid() && n < |items| && Accounted(s, items, n) && Holding(s, items, n)
    requires Exec(s, items[n]).Running?
    ensures Holding(Exec(s, items[n]).s, items, n + 1)
  {
    var x := items[n];
    match x.tag
    case 0x81 => MainItemAdds(s, x.arg, s.wips[HID_IN]);
    case 0x91 => MainItemAdds(s, x.arg, s.wips[HID_OUT]);
    case 0x85 =>
      FlushedEnding(s, items, n, s.reportId);
      assert s.wips == [s.wips[HID_IN].(id := s.reportId), s.wips[HID_OUT].(id := s.reportId)];
    case _ =>
  }

  /** The outcome of the first `n` items, which fit. */
  ghost predicate HoldsTo(o: Outcome, items: seq<Item>, n: nat)
    requires n <= |items|
  {
    o.Running? && o.s.Valid() && Accounted(o.s, items, n) && Holding(o.s, items, n)
  }

  lemma OneMoreHolds(o: Outcome, items: seq<Item>, n: nat)
    requires n < |items| && Recognised(items[n].tag) && ItemFits(items, n) && HoldsTo(o, items, n)
    ensures HoldsTo(Next(o, items[n]), items, n + 1)
  {
    ExecFits(o.s, items, n);
    ExecAccounted(o.s, items, n);
    ExecHolds(o.s, items, n);
  }

  lemma NothingHeldYet(items: seq<Item>)
    ensures HoldsTo(ExecAll(Initial(), items[..0]), items, 0)
  {
    NothingYet(items);
    assert items[..0] == [];
  }

  /** The first `n` items are known and fit. */
  ghost predicate Good(items: seq<Item>, n: nat)
    requires n <= |items|
  {
    ItemsFit(items, n) && forall k :: 0 <= k < n ==> Recognised(items[k].tag)
  }

  lemma GoodBefore(items: seq<Item>, n: nat)
    requires 0 < n <= |items| && Good(items, n)
    ensures Good(items, n - 1) && ItemFits(items, n - 1) && Recognised(items[n - 1].tag)
  {
  }

  lemma LastItemHolds(items: seq<Item>, n: nat)
    requires 0 < n <= |items| && Good(items, n) && HoldsTo(ExecAll(Initial(), items[..n - 1]), items, n - 1)
    ensures HoldsTo(ExecAll(Initial(), items[..n]), items, n)
  {
    GoodBefore(items, n);
    ExecAllSplit(Initial(), items, n - 1);
    OneMoreHolds(ExecAll(Initial(), items[..n - 1]), items, n - 1);
  }

  lemma {:induction false} ExecAllHolds(items: seq<Item>, n: nat)
    requires n <= |items| && Good(items, n)
    ensures HoldsTo(ExecAll(Initial(), items[..n]), items, n)
    decreases n
  {
    if n == 0 {
      NothingHeldYet(items);
    } else {
      GoodBefore(items, n);
      ExecAllHolds(items, n - 1);
      LastItemHolds(items, n);
    }
  }

  lemma FinishHolds(s: State, items: seq<Item>)
    requires s.Valid() && Accounted(s, items, |items|) && Holding(s, items, |items|) && Finish(s).Running?
    ensures Finish(s).s.reports == AllReports(items)
  {
    FlushedEnding(s, items, |items|, 1);
    FlushedEnding(s, items, |items|, s.reportId);
    assert s.wips == [s.wips[HID_IN].(id := s.reportId), s.wips[HID_OUT].(id := s.reportId)];
  }

  lemma {:induction false} LastItemIsSkipped(items: seq<Item>)
    requires items != [] && !Recognised(items[|items| - 1].tag)
    requires ItemsFit(items, |items|) && forall k :: 0 <= k < |items| - 1 ==> Recognised(items[k].tag)
    ensures var o := ExecAll(Initial(), items); o.Unknown? && o.s.reports == ReportsClosed(items, |items| - 1)
  {
    ExecAllHolds(items, |items| - 1);
    ExecAllSplit(Initial(), items, |items| - 1);
    assert items[..|items|] == items;
  }

  /** The reports of a descriptor within the limits are those of the account, with every usage in them. */
  lemma ReportsAreExactly(data: seq<u8>)
    requires Complete(data) && WithinLimits(Decode(data))
    ensures var items := Decode(data);
            if AllKnown(items) then ReportsOf(data) == AllReports(items)
            else |items| > 0 && ReportsOf(data) == ReportsClosed(items, |items| - 1)
  {
    var items := Decode(data);
    StuckExactlyBeyondLimits(data);
    if AllKnown(items) {
      assert items[..|items|] == items;
      ExecAllHolds(items, |items|);
      FinishHolds(ExecAll(Initial(), items).s, items);
    } else {
      OnlyLast(data);
      LastItemIsSkipped(items);
    }
  }

  // ----- what a usage of an emitted report says

  /** The usage was recorded by item `k`, which is data, with the global items in force there. */
  predicate RecordedBy(u: Usage, items: seq<Item>, k: nat) {
    && k < |items| && items[k].tag in {0x81, 0x91} && items[k].arg % 2 == 0
    && u == Entry(GlobalsAt(items, k), u.usage, items[k].arg, u.bitOffset, u.bitSize)
  }

  lemma {:induction false} FieldEntriesAre(g: Globals, d: Declared, flags: nat, bits: nat, n: nat)
    requires |d.slots| == MAX_USAGE && (d.cnt == 1 || n <= MAX_USAGE)
    ensures forall u :: u in FieldEntries(g, d, flags, bits, n) ==> u == Entry(g, u.usage, flags, u.bitOffset, u.bitSize)
  {
    if n > 0 { FieldEntriesAre(g, d, flags, bits, n - 1); }
  }

  lemma ItemEntriesAre(g: Globals, d: Declared, flags: nat, bits: nat, u: Usage)
    requires |d.slots| == MAX_USAGE && HasUsages(g, d) && u in ItemEntries(g, d, flags, bits)
    ensures u == Entry(g, u.usage, flags, u.bitOffset, u.bitSize)
  {
    if !(d.cnt == 1 && g.reportSize == 1 && g.reportCnt > 1) { FieldEntriesAre(g, d, flags, bits, g.reportCnt); }
  }

  lemma {:induction false} EntriesComeFrom(items: seq<Item>, n: nat, tag: u8, u: Usage) returns (k: nat)
    requires n <= |items| && tag in {0x81, 0x91} && u in EntriesSince(items, n, tag)
    ensures k < n && RecordedBy(u, items, k)
    decreases n
  {
    k := n - 1;
    var g, d, before := GlobalsAt(items, k), DeclaredAt(items, k), EntriesSince(items, k, tag);
    if u in before {
      k := EntriesComeFrom(items, k, tag, u);
    } else {
      assert u in ItemEntries(g, d, items[k].arg, BitSum(items, k, tag));
      ItemEntriesAre(g, d, items[k].arg, BitSum(items, k, tag), u);
    }
  }

  /** A report that ends after `n` items holds the entries of its kind. */
  lemma EndingHolds(items: seq<Item>, n: nat, id: nat, r: Report) returns (tag: u8)
    requires n <= |items| && r in ReportsEnding(items, n, id)
    ensures tag in {0x81, 0x91} && r.usages == EntriesSince(items, n, tag)
  {
    tag := if r.tag == HID_IN then 0x81 else 0x91;
  }

  function Flat<T>(xs: seq<seq<T>>): seq<T> {
    if xs == [] then [] else Flat(xs[..|xs| - 1]) + xs[|xs| - 1]
  }

  lemma {:induction false} InFlat<T>(xs: seq<seq<T>>, x: T) returns (i: nat)
    requires x in Flat(xs)
    ensures i < |xs| && x in xs[i]
  {
    i := |xs| - 1;
    if x in Flat(xs[..|xs| - 1]) { i := InFlat(xs[..|xs| - 1], x); }
  }

  function Closings(items: seq<Item>, n: nat): (xs: seq<seq<Report>>)
    requires n <= |items|
    ensures |xs| == n && forall i :: 0 <= i < n ==> xs[i] == ClosedBy(items, i)
  {
    seq(n, i requires 0 <= i < n => ClosedBy(items, i))
  }

  lemma {:induction false} ClosedIsFlat(items: seq<Item>, n: nat)
    requires n <= |items|
    ensures ReportsClosed(items, n) == Flat(Closings(items, n))
    decreases n
  {
    if n > 0 {
      ClosedIsFlat(items, n - 1);
      assert Closings(items, n)[..n - 1] == Closings(items, n - 1);
    }
  }

  /** A closed report holds the entries of its kind up to one of the items. */
  lemma ClosedHolds(items: seq<Item>, n: nat, r: Report) returns (m: nat, tag: u8)
    requires n <= |items| && r in ReportsClosed(items, n)
    ensures m < n && tag in {0x81, 0x91} && r.usages == EntriesSince(items, m, tag)
  {
    ClosedIsFlat(items, n);
    m := InFlat(Closings(items, n), r);
    tag := EndingHolds(items, m, CurrentId(items, m), r);
  }

  function FieldOf(u: Usage, family: int): int {
    if family == USAGE_PAGE then u.usagePage
    else if family == LOGICAL_MINIMUM then u.logicalMin
    else if family == LOGICAL_MAXIMUM then u.logicalMax
    else u.usageMax
  }

  /** So does every report of the account. */
  lemma AllHold(items: seq<Item>, r: Report) returns (m: nat, tag: u8)
    requires r in AllReports(items)
    ensures m <= |items| && tag in {0x81, 0x91} && r.usages == EntriesSince(items, m, tag)
  {
    var n := |items|;
    if r in ReportsClosed(items, n) {
      m, tag := ClosedHolds(items, n, r);
    } else {
      m := n;
      tag := EndingHolds(items, n, if CurrentId(items, n) == 0 then 1 else CurrentId(items, n), r);
    }
  }

  lemma AccountHolds(items: seq<Item>, rs: seq<Report>, r: Report) returns (m: nat, tag: u8)
    requires if AllKnown(items) then rs == AllReports(items) else |items| > 0 && rs == ReportsClosed(items, |items| - 1)
    requires r in rs
    ensures m <= |items| && tag in {0x81, 0x91} && r.usages == EntriesSince(items, m, tag)
  {
    if AllKnown(items) {
      m, tag := AllHold(items, r);
    } else {
      m, tag := ClosedHolds(items, |items| - 1, r);
    }
  }

  lemma EmittedComeFrom(data: seq<u8>, r: Report, u: Usage) returns (k: nat)
    requires Complete(data) && WithinLimits(Decode(data)) && r in ReportsOf(data) && u in r.usages
    ensures RecordedBy(u, Decode(data), k)
  {
    ReportsAreExactly(data);
    var m, tag := AccountHolds(Decode(data), ReportsOf(data), r);
    k := EntriesComeFrom(Decode(data), m, tag, u);
  }

  /** Item `i` is the last one before item `k` that gives a usage its page or one of its limits. */
  predicate GivesLast(items: seq<Item>, i: nat, k: nat) {
    && i < k <= |items| && SetsGlobal(items[i].tag)
    && Family(items[i].tag) in {USAGE_PAGE, LOGICAL_MINIMUM, LOGICAL_MAXIMUM, USAGE_MAXIMUM}
    && forall j :: i < j < k ==> Leaves(items[j], Family(items[i].tag))
  }

  /** Every usage of every emitted report was recorded by a data item, and its page and limits are those that
      the last global items before it gave, as far back as nothing was pushed or popped. */
  lemma UsagesHaveTheirLimits(data: seq<u8>, r: Report, u: Usage) returns (k: nat)
    requires Complete(data) && WithinLimits(Decode(data)) && r in ReportsOf(data) && u in r.usages
    ensures RecordedBy(u, Decode(data), k)
    ensures forall i: nat :: GivesLast(Decode(data), i, k) ==> Holds(FieldOf(u, Family(Decode(data)[i].tag)), Decode(data)[i])
  {
    k := EmittedComeFrom(data, r, u);
    var items := Decode(data);
    forall j | 0 <= j < |items| ensures items[j].arg < Span(DataSize(items[j].tag)) { OperandsFit(data, j); }
    forall i: nat | GivesLast(items, i, k) ensures Holds(FieldOf(u, Family(items[i].tag)), items[i]) {
      LastGlobalHolds(items, i, k);
    }
  }
}
