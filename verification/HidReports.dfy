/** What every parsed descriptor's reports satisfy. */
module HidReports {
  import opened HidItems
  import opened HidAccount
  import opened Bytes

  // ----- recorded usages have disjoint, increasing bit ranges inside their report

  ghost predicate Disjoint(us: seq<Usage>, bits: nat) {
    && (forall i, j :: 0 <= i < j < |us| ==> us[i].bitOffset + us[i].bitSize <= us[j].bitOffset)
    && (forall i :: 0 <= i < |us| ==> us[i].bitOffset + us[i].bitSize <= bits)
  }

  lemma {:induction false} FieldsDisjoint(s: State, flags: nat, w: Wip, n: nat)
    requires s.Valid() && |w.usages| <= MAX_USAGE && Fields(s, flags, w, n).Some?
    requires Disjoint(w.usages, w.bits)
    ensures var r := Fields(s, flags, w, n).value; Disjoint(r.usages, r.bits)
  {
    if n > 0 {
      FieldsDisjoint(s, flags, w, n - 1);
    }
  }

  lemma FragmentRange(g: Globals, usage: nat, flags: nat, base: nat, j: nat)
    requires g.reportSize == 1 && g.reportCnt > 1 && j < FragmentCnt(g.reportCnt)
    ensures var f := Fragment(g, usage, flags, base, j);
            && f.bitOffset == base + 32 * j
            && f.bitOffset + f.bitSize <= base + 32 * (j + 1)
            && f.bitOffset + f.bitSize <= base + g.reportCnt
  {
  }

  lemma MainItemDisjoint(s: State, flags: nat, w: Wip)
    requires s.Valid() && |w.usages| <= MAX_USAGE && MainItem(s, flags, w).Some?
    requires Disjoint(w.usages, w.bits)
    ensures var r := MainItem(s, flags, w).value; Disjoint(r.usages, r.bits)
  {
    var g := s.Top();
    if !Recorded(s, flags, w) {
    } else if !Merged(s) {
      FieldsDisjoint(s, flags, w, g.reportCnt);
    } else if IsUsed(g.usagePage, s.usageList[0]) {
      forall j | 0 <= j < FragmentCnt(g.reportCnt)
        ensures var f := Fragments(g, s.usageList[0], flags, w.bits)[j];
                && f.bitOffset == w.bits + 32 * j
                && f.bitOffset + f.bitSize <= w.bits + 32 * (j + 1)
                && f.bitOffset + f.bitSize <= w.bits + g.reportCnt
      {
        FragmentRange(g, s.usageList[0], flags, w.bits, j);
      }
    }
  }

  /** The fragments leave no gap in the field and end where it ends. */
  ghost predicate Tiles(fs: seq<Usage>, base: nat, bits: nat) {
    && |fs| > 0
    && fs[0].bitOffset == base
    && (forall j :: 0 <= j < |fs| - 1 ==> fs[j].bitOffset + fs[j].bitSize == fs[j + 1].bitOffset)
    && fs[|fs| - 1].bitOffset + fs[|fs| - 1].bitSize == base + bits
  }

  /** A merged field is covered exactly when its count is at most 32 or not a multiple of 32; otherwise
      its last fragment is recorded with no bits. */
  lemma FragmentsTile(g: Globals, usage: nat, flags: nat, base: nat)
    requires g.reportSize == 1 && g.reportCnt > 1
    ensures Tiles(Fragments(g, usage, flags, base), base, g.reportCnt) <==> g.reportCnt <= 32 || g.reportCnt % 32 != 0
    ensures g.reportCnt > 32 && g.reportCnt % 32 == 0 ==>
              var fs := Fragments(g, usage, flags, base); fs[|fs| - 1].bitSize == 0
  {
    var fs, n := Fragments(g, usage, flags, base), FragmentCnt(g.reportCnt);
    assert fs[0] == Fragment(g, usage, flags, base, 0);
    assert fs[n - 1] == Fragment(g, usage, flags, base, n - 1);
    if n > 1 {
      forall j | 0 <= j < n - 1
        ensures fs[j].bitOffset + fs[j].bitSize == fs[j + 1].bitOffset
      {
        assert fs[j] == Fragment(g, usage, flags, base, j) && fs[j + 1] == Fragment(g, usage, flags, base, j + 1);
      }
    }
  }

  ghost predicate Sound(s: State)
    requires s.Valid()
  {
    && (forall t :: 0 <= t < TAG_CNT ==> Disjoint(s.wips[t].usages, s.wips[t].bits))
    && (forall k :: 0 <= k < |s.reports| ==> s.reports[k].len > 0 && Disjoint(s.reports[k].usages, 8 * s.reports[k].len))
  }

  lemma FlushedSound(wips: seq<Wip>)
    requires |wips| == TAG_CNT && forall t :: 0 <= t < TAG_CNT ==> Disjoint(wips[t].usages, wips[t].bits)
    ensures forall r :: r in Flushed(wips) ==> r.len > 0 && Disjoint(r.usages, 8 * r.len)
  {
    assert forall t :: 0 <= t < TAG_CNT ==> wips[t].bits <= 8 * ByteLen(wips[t].bits);
  }

  lemma ExecSound(s: State, x: Item)
    requires s.Valid() && Sound(s) && Exec(s, x).Running?
    ensures Sound(Exec(s, x).s)
  {
    if ChangesReports(x.tag) {
      match x.tag
      case 0x81 => MainItemDisjoint(s, x.arg, s.wips[HID_IN]);
      case 0x91 => MainItemDisjoint(s, x.arg, s.wips[HID_OUT]);
      case 0x85 => FlushedSound(s.wips);
      case _ =>
    }
  }

  lemma {:induction false} ExecAllSound(s: State, items: seq<Item>)
    requires s.Valid() && Sound(s) && !ExecAll(s, items).Stuck?
    ensures Sound(ExecAll(s, items).s)
    decreases |items|
  {
    if items != [] && Exec(s, items[0]).Running? {
      ExecSound(s, items[0]);
      ExecAllSound(Exec(s, items[0]).s, items[1..]);
    }
  }

  lemma FinishSound(s: State)
    requires s.Valid() && Sound(s) && Finish(s).Running?
    ensures forall k :: 0 <= k < |Finish(s).s.reports| ==>
              var r := Finish(s).s.reports[k]; r.len > 0 && Disjoint(r.usages, 8 * r.len)
  {
    FlushedSound(s.wips);
    FlushedSound([s.wips[0].(id := 1), s.wips[1].(id := 1)]);
  }

  lemma InterpretSound(data: seq<u8>)
    requires Complete(data) && !Interpret(data).Stuck?
    ensures AllSideBySide(Interpret(data).s.reports)
  {
    ExecAllSound(Initial(), Decode(data));
    var o := ExecAll(Initial(), Decode(data));
    if o.Running? {
      FinishSound(o.s);
    }
  }

  ghost predicate AllSideBySide(rs: seq<Report>) {
    forall k :: 0 <= k < |rs| ==> rs[k].len > 0 && Disjoint(rs[k].usages, 8 * rs[k].len)
  }

  /** Every emitted report has a length, and its usages lie in it side by side. */
  lemma ReportsAreDisjoint(data: seq<u8>)
    requires Complete(data) && WithinLimits(Decode(data))
    ensures AllSideBySide(ReportsOf(data))
  {
    StuckExactlyBeyondLimits(data);
    InterpretSound(data);
  }

  // ----- push and pop

  /** The items never pop the state they started from nor push past the limit, and end where they
      started; `depth` states are stacked on it, and there is room for `room` more. */
  predicate Nested(items: seq<Item>, depth: nat, room: nat)
    decreases |items|
  {
    if items == [] then depth == 0
    else if items[0].tag == 0xA4 then room > 0 && Nested(items[1..], depth + 1, room - 1)
    else if items[0].tag == 0xB4 then depth > 0 && Nested(items[1..], depth - 1, room + 1)
    else Nested(items[1..], depth, room)
  }

  /** A nested segment from item `i` up to item `j` leaves the `base` lower global states alone. */
  lemma {:induction false} NestedKeepsBase(items: seq<Item>, i: nat, j: nat, base: nat)
    requires i <= j <= |items| && base < |GlobalStack(items, i)|
    requires Nested(items[i..j], |GlobalStack(items, i)| - base - 1, STACK_MAX - |GlobalStack(items, i)|)
    ensures |GlobalStack(items, j)| == base + 1 && GlobalStack(items, j)[..base] == GlobalStack(items, i)[..base]
    decreases j - i
  {
    if i < j {
      assert items[i..j][0] == items[i] && items[i..j][1..] == items[i + 1..j];
      StepKeepsBase(GlobalStack(items, i), items[i], base);
      NestedKeepsBase(items, i + 1, j, base);
    }
  }

  lemma StepKeepsBase(stack: seq<Globals>, x: Item, base: nat)
    requires 0 < |stack| <= STACK_MAX && base < |stack| && (x.tag == 0xB4 ==> base + 1 < |stack|)
    ensures base < |StackStep(stack, x)| && StackStep(stack, x)[..base] == stack[..base]
  {
  }

  /** A balanced segment between a push and its pop leaves the global items as they were. */
  lemma PushPopRestores(items: seq<Item>, i: nat, j: nat)
    requires i < j < |items| && items[i].tag == 0xA4 && items[j].tag == 0xB4
    requires |GlobalStack(items, i)| < STACK_MAX
    requires Nested(items[i + 1..j], 0, STACK_MAX - 1 - |GlobalStack(items, i)|)
    ensures GlobalStack(items, j + 1) == GlobalStack(items, i)
  {
    var stack, top := GlobalStack(items, i), |GlobalStack(items, i)|;
    assert GlobalStack(items, i + 1) == stack + [stack[top - 1]];
    NestedKeepsBase(items, i + 1, j, top);
    assert GlobalStack(items, j)[..top] == stack;
  }

  /** The parser gets through `n` items and then has these global states. */
  predicate HasStack(items: seq<Item>, n: nat, stack: seq<Globals>)
    requires n <= |items|
  {
    var o := ExecAll(Initial(), items[..n]);
    o.Running? && o.s.stack == stack
  }

  /** So they are in the parser, on any known items that fit. */
  lemma ParserRestores(items: seq<Item>, i: nat, j: nat)
    requires i < j < |items| && items[i].tag == 0xA4 && items[j].tag == 0xB4
    requires |GlobalStack(items, i)| < STACK_MAX
    requires Nested(items[i + 1..j], 0, STACK_MAX - 1 - |GlobalStack(items, i)|)
    requires ItemsFit(items, j + 1) && KnownUpTo(items, j + 1)
    ensures HasStack(items, i, GlobalStack(items, i)) && HasStack(items, j + 1, GlobalStack(items, i))
  {
    PushPopRestores(items, i, j);
    var stack := GlobalStack(items, i);
    ParserStack(items, i, stack);
    ParserStack(items, j + 1, stack);
  }

  predicate KnownUpTo(items: seq<Item>, n: nat)
    requires n <= |items|
  {
    forall k :: 0 <= k < n ==> Recognised(items[k].tag)
  }

  lemma ParserStack(items: seq<Item>, n: nat, stack: seq<Globals>)
    requires n <= |items| && ItemsFit(items, n) && KnownUpTo(items, n) && stack == GlobalStack(items, n)
    ensures HasStack(items, n, stack)
  {
    ExecAllAccounted(items, n);
  }

  // ----- the type of a report

  /** What a single usage says: a stick or pointer axis is a mouse's if it is relative (bit 2 of the flags), and so
      on; most say nothing. */
  lemma KindOfUsage(u: Usage)
    ensures Fingerprint([u], REPORT_NONE) ==
            if u.usagePage == 0x01 && (u.usage == 0x30 || u.usage == 0x31) then (if u.flags / 4 % 2 == 1 then MOUSE else PAD)
            else if u.usagePage == 0x01 && u.usage == 0x39 then PAD
            else if u.usagePage == 0x01 && u.usage == 0x85 then MOUSE
            else if u.usagePage == 0x07 then KB
            else if u.usagePage == 0x09 then PAD
            else if u.usagePage == 0x0F && (0x95 <= u.usage <= 0x9C || u.usage in {0x50, 0x70, 0x7C, 0xA7}) then RUMBLE
            else REPORT_NONE
  {
    assert [u][1..] == [];
  }

  /** The first decisive usage settles the type. */
  lemma {:induction false} DecisiveUsageSettles(us: seq<Usage>, sofar: ReportType, i: nat)
    requires i < |us| && Decisive(us[i])
    requires forall k :: 0 <= k <= i ==> us[k].usagePage != 0
    requires forall k :: 0 <= k < i ==> !Decisive(us[k])
    ensures Fingerprint(us, sofar) == DecidedType(us[i])
  {
    if i > 0 {
      DecisiveUsageSettles(us[1..], if us[0].usagePage == 0x07 then KB else if us[0].usagePage == 0x09 then PAD else sofar, i - 1);
    }
  }

  /** Without one, the last keyboard or button usage does, if there is any. */
  lemma {:induction false} LastUsageSuggests(us: seq<Usage>, sofar: ReportType)
    requires forall k :: 0 <= k < |us| ==> us[k].usagePage != 0 && !Decisive(us[k])
    ensures (forall k :: 0 <= k < |us| ==> us[k].usagePage !in {0x07, 0x09}) ==> Fingerprint(us, sofar) == sofar
    ensures forall i :: 0 <= i < |us| && us[i].usagePage in {0x07, 0x09} &&
                        (forall k :: i < k < |us| ==> us[k].usagePage !in {0x07, 0x09}) ==>
              Fingerprint(us, sofar) == if us[i].usagePage == 0x07 then KB else PAD
  {
    if us != [] {
      var next := if us[0].usagePage == 0x07 then KB else if us[0].usagePage == 0x09 then PAD else sofar;
      LastUsageSuggests(us[1..], next);
      forall i | 0 <= i < |us| && us[i].usagePage in {0x07, 0x09} &&
                 (forall k :: i < k < |us| ==> us[k].usagePage !in {0x07, 0x09})
        ensures Fingerprint(us, sofar) == if us[i].usagePage == 0x07 then KB else PAD
      {
        if i > 0 {
          assert us[1..][i - 1] == us[i];
        }
      }
    }
  }
}
