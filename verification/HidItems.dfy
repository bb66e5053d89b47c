/**
 HID report descriptors as the parser reads them: the division of the bytes into short items
 (HID 1.11, section 6.2.2.2), and what each item does, as a fold over the items.
 */
module HidItems {
  import opened Bytes
  import opened Options

  const MAX_USAGE := 24
  const MAX_REPORT := 10
  const STACK_MAX := 4
  const TAG_CNT := 2
  const HID_IN := 0
  const HID_OUT := 1
  const TWO_32 := 0x1_0000_0000

  // ----- items

  datatype Item = Item(tag: u8, arg: nat)

  /** The size field: the two low bits of the prefix, where 3 stands for four bytes. */
  function DataSize(tag: u8): (n: nat)
    ensures n in {0, 1, 2, 4}
  {
    if tag % 4 == 3 then 4 else tag % 4
  }

  /** Little-endian value of an item's data. */
  function Value(bytes: seq<u8>): nat {
    if bytes == [] then 0 else bytes[0] + 256 * Value(bytes[1..])
  }

  predicate Ignored(tag: u8) {
    match tag
    case 0x00 | 0x01 | 0x03 | 0x0D | 0x35 | 0x45 | 0x46 | 0x55 | 0x65 | 0x66 | 0x7C | 0xA1 | 0xC0 | 0xFF => true
    case _ => false
  }

  predicate Recognised(tag: u8) {
    SetsGlobal(tag) || ChangesUsages(tag) || ChangesReports(tag) || Ignored(tag)
  }

  /** The bytes end on an item boundary, or at an item the parser does not know, where it stops. */
  predicate Complete(data: seq<u8>) {
    || data == []
    || !Recognised(data[0])
    || (1 + DataSize(data[0]) <= |data| && Complete(data[1 + DataSize(data[0])..]))
  }

  function Decode(data: seq<u8>): seq<Item>
    requires Complete(data)
  {
    if data == [] then []
    else if !Recognised(data[0]) then [Item(data[0], 0)]
    else
      var n := 1 + DataSize(data[0]);
      [Item(data[0], Value(data[1..n]))] + Decode(data[n..])
  }

  function Signed(v: nat, bytes: nat): int {
    var range := if bytes == 1 then 0x100 else if bytes == 2 then 0x1_0000 else TWO_32;
    if 2 * v >= range then v - range else v
  }

  /** A signed value stored in an unsigned 32-bit field. */
  function Unsigned32(v: int): nat {
    v % TWO_32
  }

  // ----- the parser's state

  /** Global items. */
  datatype Globals = Globals(
    reportSize: nat, reportCnt: nat, logicalMin: int, logicalMax: int, usagePage: nat, usageMax: nat)

  datatype Usage = Usage(
    usagePage: nat, usage: nat, usageMax: nat, flags: nat, bitOffset: nat, bitSize: nat, logicalMin: int, logicalMax: int)

  datatype ReportType = REPORT_NONE | KB | MOUSE | PAD | RUMBLE

  datatype Report = Report(id: nat, tag: nat, len: nat, usages: seq<Usage>, kind: ReportType)

  /** A report under construction: its usages so far and the bits its fields take so far. */
  datatype Wip = Wip(id: nat, usages: seq<Usage>, bits: nat)

  /** `stack` holds the live global states, the current one last. */
  datatype State = State(
    stack: seq<Globals>, usageIdx: nat, usageList: seq<nat>, reportId: nat, wips: seq<Wip>, reports: seq<Report>)
  {
    predicate Valid() {
      && 0 < |stack| <= STACK_MAX
      && usageIdx <= MAX_USAGE && |usageList| == MAX_USAGE
      && |wips| == TAG_CNT
      && (forall t :: 0 <= t < TAG_CNT ==> |wips[t].usages| <= MAX_USAGE)
      && |reports| <= MAX_REPORT
    }

    function Top(): Globals
      requires Valid()
    {
      stack[|stack| - 1]
    }

    function SetTop(g: Globals): (s: State)
      requires Valid()
      ensures s.Valid()
    {
      this.(stack := stack[|stack| - 1 := g])
    }
  }

  const NO_GLOBALS := Globals(0, 0, 0, 0, 0, 0)
  const NO_WIP := Wip(0, [], 0)

  function Initial(): (s: State)
    ensures s.Valid()
  {
    State([NO_GLOBALS], 0, seq(MAX_USAGE, _ => 0), 0, [NO_WIP, NO_WIP], [])
  }

  /** `Unknown`: an unrecognised item ends the parse. `Stuck`: the code would write outside one of
      its arrays, read outside its usage list, or overflow a bit offset. */
  datatype Outcome = Running(s: State) | Unknown(s: State) | Stuck

  // ----- the two usage tables

  /** Usages that only name a collection. */
  predicate IsCollection(page: nat, usage: nat) {
    match page
    case 0x01 => usage in {0x01, 0x02, 0x04, 0x05, 0x06, 0x07, 0x08, 0x09, 0x3A, 0x80}
    case 0x02 => usage in {0x01, 0x02, 0x03, 0x04, 0x05, 0x06, 0x07, 0x08, 0x09, 0x0A, 0x0B, 0x0C,
                           0x20, 0x21, 0x22, 0x23, 0x24, 0x25}
    case 0x03 => usage in {0x01, 0x02, 0x03, 0x04, 0x05, 0x06, 0x07, 0x08, 0x09, 0x0A}
    case 0x04 => usage in {0x01, 0x02, 0x03, 0x04, 0x38}
    case 0x05 => usage in {0x01, 0x02, 0x03, 0x20, 0x32, 0x37, 0x39}
    case 0x0C => usage in {0x01, 0x02, 0x03, 0x04, 0x05, 0x06, 0x36, 0x80, 0x87, 0xBA, 0xF1}
    case 0x0F => usage in {0x01, 0x21, 0x25, 0x57, 0x58, 0x59, 0x5A, 0x5F, 0x66, 0x68, 0x6B, 0x6E, 0x73, 0x74,
                           0x77, 0x78, 0x7D, 0x7F, 0x85, 0x89, 0x8B, 0x90, 0x91, 0x92, 0x95, 0x96, 0xA8, 0xAB}
    case _ => false
  }

  /** Usages the adapter can map. */
  predicate IsUsed(page: nat, usage: nat) {
    match page
    case 0x01 => usage in {0x30, 0x31, 0x32, 0x33, 0x34, 0x35, 0x36, 0x37, 0x38, 0x39, 0x85}
    case 0x02 => usage in {0xC4, 0xC5}
    case 0x07 => true
    case 0x09 => usage <= 20
    case 0x0C => usage in {0x40, 0xB2, 0x223, 0x224}
    case 0x0F => usage in {0x50, 0x97, 0x70, 0x7C, 0xA7}
    case _ => false
  }

  // ----- main items

  /** Several one-bit fields under a single usage are recorded as one wide field. */
  predicate Merged(s: State)
    requires s.Valid()
  {
    s.usageIdx == 1 && s.Top().reportSize == 1 && s.Top().reportCnt > 1
  }

  /** A merged field is cut into fragments of 32 bits. */
  function FragmentCnt(cnt: nat): nat {
    cnt / 32 + (if cnt % 32 != 0 then 1 else 0)
  }

  function Fragment(g: Globals, usage: nat, flags: nat, base: nat, j: nat): Usage {
    var n := FragmentCnt(g.reportCnt);
    var size := if n > 1 then (if j == n - 1 then g.reportCnt % 32 else 32 * g.reportSize) else g.reportCnt * g.reportSize;
    Usage(g.usagePage, usage + 32 * j, g.usageMax, flags, base + 32 * j, size, g.logicalMin, g.logicalMax)
  }

  function Fragments(g: Globals, usage: nat, flags: nat, base: nat): (fs: seq<Usage>)
    ensures |fs| == FragmentCnt(g.reportCnt)
  {
    seq(FragmentCnt(g.reportCnt), j requires 0 <= j => Fragment(g, usage, flags, base, j))
  }

  /** The report after the first `n` fields of an unmerged data item. */
  function Fields(s: State, flags: nat, w: Wip, n: nat): (r: Option<Wip>)
    requires s.Valid() && |w.usages| <= MAX_USAGE
    ensures r.Some? ==> |r.value.usages| <= MAX_USAGE
  {
    if n == 0 then Some(w)
    else
      match Fields(s, flags, w, n - 1)
      case None => None
      case Some(w') =>
        var g := s.Top();
        if s.usageIdx != 1 && n - 1 >= MAX_USAGE then None
        else
          var usage := if s.usageIdx == 1 then s.usageList[0] else s.usageList[n - 1];
          if !IsUsed(g.usagePage, usage) then Some(w'.(bits := w'.bits + g.reportSize))
          else if |w'.usages| >= MAX_USAGE then None
          else
            var u := Usage(g.usagePage, usage, g.usageMax, flags, w'.bits, g.reportSize, g.logicalMin, g.logicalMax);
            Some(w'.(usages := w'.usages + [u], bits := w'.bits + g.reportSize))
  }

  predicate Recorded(s: State, flags: nat, w: Wip)
    requires s.Valid()
  {
    && flags % 2 == 0
    && s.Top().usagePage != 0xFF
    && s.usageList[0] != 0xFF
    && |w.usages| < MAX_USAGE
  }

  /** What an Input or Output item does to the report of its kind. */
  function MainItem(s: State, flags: nat, w: Wip): (r: Option<Wip>)
    requires s.Valid() && |w.usages| <= MAX_USAGE
    ensures r.Some? ==> |r.value.usages| <= MAX_USAGE
  {
    var g := s.Top();
    var total := g.reportSize * g.reportCnt;
    if w.bits + total >= TWO_32 then None
    else if !Recorded(s, flags, w) then Some(w.(bits := w.bits + total))
    else if !Merged(s) then Fields(s, flags, w, g.reportCnt)
    else if !IsUsed(g.usagePage, s.usageList[0]) then Some(w.(bits := w.bits + total))
    else
      var fs := Fragments(g, s.usageList[0], flags, w.bits);
      if |w.usages| + |fs| > MAX_USAGE then None
      else Some(w.(usages := w.usages + fs, bits := w.bits + total))
  }

  function Cleared(): seq<nat> {
    seq(MAX_USAGE, _ => 0xFFFF)
  }

  function Main(s: State, t: nat, flags: nat): Outcome
    requires s.Valid() && t < TAG_CNT
  {
    match MainItem(s, flags, s.wips[t])
    case None => Stuck
    case Some(w) => Running(s.(wips := s.wips[t := w], usageIdx := 0, usageList := Cleared()))
  }

  // ----- reports

  /** A usage that settles the type of its report on sight. */
  predicate Decisive(u: Usage) {
    || (u.usagePage == 0x01 && u.usage in {0x30, 0x31, 0x39, 0x85})
    || (u.usagePage == 0x0F && (0x95 <= u.usage <= 0x9C || u.usage in {0x50, 0x70, 0x7C, 0xA7}))
  }

  function DecidedType(u: Usage): ReportType {
    if u.usagePage == 0x0F then RUMBLE
    else if u.usage == 0x85 then MOUSE
    else if u.usage == 0x39 then PAD
    else if u.flags / 4 % 2 == 1 then MOUSE
    else PAD
  }

  /** The type settled by the usages, if `sofar` is what the earlier ones suggested. */
  function Fingerprint(us: seq<Usage>, sofar: ReportType): ReportType {
    if us == [] || us[0].usagePage == 0 then sofar
    else if Decisive(us[0]) then DecidedType(us[0])
    else Fingerprint(us[1..], if us[0].usagePage == 0x07 then KB else if us[0].usagePage == 0x09 then PAD else sofar)
  }

  function ByteLen(bits: nat): nat {
    bits / 8 + (if bits % 8 != 0 then 1 else 0)
  }

  function ToReport(w: Wip, t: nat): Report {
    Report(w.id, t, ByteLen(w.bits), w.usages, Fingerprint(w.usages, REPORT_NONE))
  }

  function Flushed(wips: seq<Wip>): seq<Report>
    requires |wips| == TAG_CNT
  {
    (if ByteLen(wips[HID_IN].bits) > 0 then [ToReport(wips[HID_IN], HID_IN)] else []) +
    (if ByteLen(wips[HID_OUT].bits) > 0 then [ToReport(wips[HID_OUT], HID_OUT)] else [])
  }

  /** A Report ID item closes the reports of the previous identifier. */
  function NewReport(s: State, id: nat): Outcome
    requires s.Valid()
  {
    var out := if s.reportId != 0 then Flushed(s.wips) else [];
    if |s.reports| + |out| > MAX_REPORT then Stuck
    else Running(s.(reports := s.reports + out, reportId := id, wips := [Wip(id, [], 0), Wip(id, [], 0)]))
  }

  // ----- all items

  function AddUsage(s: State, usage: nat): State
    requires s.Valid()
  {
    if s.usageIdx < MAX_USAGE then
      s.(usageList := s.usageList[s.usageIdx := usage], usageIdx := s.usageIdx + 1)
    else s
  }

  function Push(s: State): State
    requires s.Valid()
  {
    if |s.stack| < STACK_MAX then s.(stack := s.stack + [s.Top()]) else s
  }

  function Pop(s: State): State
    requires s.Valid()
  {
    if |s.stack| > 1 then s.(stack := s.stack[..|s.stack| - 1]) else s
  }

  function SetGlobal(g: Globals, x: Item): Globals {
    var v := x.arg;
    match x.tag
    case 0x05 | 0x06 | 0x07 => g.(usagePage := v)
    case 0x15 | 0x16 | 0x17 => g.(logicalMin := Signed(v, DataSize(x.tag)))
    case 0x25 | 0x26 | 0x27 => g.(logicalMax := Signed(v, DataSize(x.tag)))
    case 0x29 | 0x2A | 0x2B => g.(usageMax := Unsigned32(Signed(v, DataSize(x.tag))))
    case 0x75 => g.(reportSize := v)
    case 0x95 | 0x96 => g.(reportCnt := v)
    case _ => g
  }

  predicate SetsGlobal(tag: u8) {
    match tag
    case 0x05 | 0x06 | 0x07 | 0x15 | 0x16 | 0x17 | 0x25 | 0x26 | 0x27 | 0x29 | 0x2A | 0x2B | 0x75 | 0x95 | 0x96 => true
    case _ => false
  }

  predicate ChangesUsages(tag: u8) {
    match tag
    case 0x09 | 0x0A | 0x19 | 0x1A | 0xB1 | 0xB2 => true
    case _ => false
  }

  function ExecUsage(s: State, x: Item): (s': State)
    requires s.Valid()
    ensures s'.Valid()
  {
    match x.tag
    case 0x09 | 0x19 => if IsCollection(s.Top().usagePage, x.arg) then s else AddUsage(s, x.arg)
    case 0x0A | 0x1A => AddUsage(s, x.arg)
    case 0xB1 | 0xB2 => s.(usageIdx := 0)
    case _ => s
  }

  predicate ChangesReports(tag: u8) {
    match tag
    case 0x81 | 0x85 | 0x91 | 0xA4 | 0xB4 => true
    case _ => false
  }

  function ExecReport(s: State, x: Item): (o: Outcome)
    requires s.Valid()
    ensures !o.Stuck? ==> o.s.Valid()
  {
    match x.tag
    case 0x81 => Main(s, HID_IN, x.arg)
    case 0x91 => Main(s, HID_OUT, x.arg)
    case 0x85 => NewReport(s, x.arg)
    case 0xA4 => Running(Push(s))
    case 0xB4 => Running(Pop(s))
    case _ => Running(s)
  }

  function Exec(s: State, x: Item): (o: Outcome)
    requires s.Valid()
    ensures !o.Stuck? ==> o.s.Valid()
  {
    if SetsGlobal(x.tag) then Running(s.SetTop(SetGlobal(s.Top(), x)))
    else if ChangesUsages(x.tag) then Running(ExecUsage(s, x))
    else if ChangesReports(x.tag) then ExecReport(s, x)
    else if Ignored(x.tag) then Running(s)
    else Unknown(s)
  }

  function ExecAll(s: State, items: seq<Item>): (o: Outcome)
    requires s.Valid()
    ensures !o.Stuck? ==> o.s.Valid()
    decreases |items|
  {
    if items == [] then Running(s)
    else
      match Exec(s, items[0])
      case Running(s') => ExecAll(s', items[1..])
      case o => o
  }

  /** The end of the descriptor closes the last reports; without any Report ID they get identifier 1. */
  function Finish(s: State): (o: Outcome)
    requires s.Valid()
    ensures !o.Stuck? ==> o.s.Valid()
  {
    var s' := if |s.reports| == 0 && s.wips[HID_IN].id == 0 then
                s.(reportId := 1, wips := [s.wips[0].(id := 1), s.wips[1].(id := 1)])
              else s;
    var out := if s'.reportId != 0 then Flushed(s'.wips) else [];
    if |s'.reports| + |out| > MAX_REPORT then Stuck
    else Running(s'.(reports := s'.reports + out))
  }

  function Interpret(data: seq<u8>): Outcome
    requires Complete(data)
  {
    match ExecAll(Initial(), Decode(data))
    case Running(s) => Finish(s)
    case o => o
  }
}
