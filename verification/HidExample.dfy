/**
 Writing items as bytes, and one descriptor whose merged field the parser does not cover.
 */
module HidExample {
  import opened HidItems
  import opened Bytes
  import opened Options

  // ----- short items as bytes

  function LittleEndian(v: nat, n: nat): (bytes: seq<u8>)
    ensures |bytes| == n
  {
    if n == 0 then [] else [v % 256] + LittleEndian(v / 256, n - 1)
  }

  function Power256(n: nat): nat {
    if n == 0 then 1 else 256 * Power256(n - 1)
  }

  lemma {:induction false} ValueOfBytes(v: nat, n: nat)
    requires v < Power256(n)
    ensures Value(LittleEndian(v, n)) == v
  {
    if n > 0 { ValueOfBytes(v / 256, n - 1); }
  }

  predicate Writable(x: Item) {
    Recognised(x.tag) && x.arg < Power256(DataSize(x.tag))
  }

  predicate AllWritable(items: seq<Item>) {
    items == [] || (Writable(items[0]) && AllWritable(items[1..]))
  }

  function Encode(items: seq<Item>): seq<u8> {
    if items == [] then []
    else [items[0].tag] + LittleEndian(items[0].arg, DataSize(items[0].tag)) + Encode(items[1..])
  }

  /** The parser's division of the bytes undoes the writing of the items. */
  lemma {:induction false} DecodeUndoesEncode(items: seq<Item>)
    requires AllWritable(items)
    ensures Complete(Encode(items)) && Decode(Encode(items)) == items
  {
    if items != [] {
      DecodeUndoesEncode(items[1..]);
      FirstWritten(items[0], Encode(items[1..]));
      assert items == [items[0]] + items[1..];
    }
  }

  lemma FirstWritten(x: Item, rest: seq<u8>)
    requires Writable(x) && Complete(rest)
    ensures var data := [x.tag] + LittleEndian(x.arg, DataSize(x.tag)) + rest;
            Complete(data) && Decode(data) == [x] + Decode(rest)
  {
    ValueOfBytes(x.arg, DataSize(x.tag));
    FirstOf(x.tag, LittleEndian(x.arg, DataSize(x.tag)), rest);
  }

  lemma FirstOf(tag: u8, bytes: seq<u8>, rest: seq<u8>)
    requires Recognised(tag) && |bytes| == DataSize(tag) && Complete(rest)
    ensures var data := [tag] + bytes + rest;
            Complete(data) && Decode(data) == [Item(tag, Value(bytes))] + Decode(rest)
  {
    var data, n := [tag] + bytes + rest, 1 + |bytes|;
    assert data[n..] == rest && data[1..n] == bytes;
  }

  // ----- a merged field that is not covered

  /** Sixty-four one-bit fields under the keyboard usage 4. */
  const MERGED_64: seq<u8> := [0x05, 0x07, 0x09, 0x04, 0x75, 0x01, 0x95, 0x40, 0x81, 0x02]

  function MergedItems(): seq<Item> {
    [Item(0x05, 7), Item(0x09, 4), Item(0x75, 1), Item(0x95, 64), Item(0x81, 2)]
  }

  lemma EncodedMerged()
    ensures Encode(MergedItems()) == MERGED_64
  {
    var e, d, c, b, a := Item(0x81, 2), Item(0x95, 64), Item(0x75, 1), Item(0x09, 4), Item(0x05, 7);
    EncodeOne(e, []);
    EncodeOne(d, [e]);
    EncodeOne(c, [d, e]);
    EncodeOne(b, [c, d, e]);
    EncodeOne(a, [b, c, d, e]);
    assert [a] + [b, c, d, e] == MergedItems() && [b] + [c, d, e] == [b, c, d, e] && [c] + [d, e] == [c, d, e];
    assert [d] + [e] == [d, e] && [e] + [] == [e];
  }

  lemma WritableOne(x: Item, rest: seq<Item>)
    requires Recognised(x.tag) && DataSize(x.tag) == 1 && x.arg < 256 && AllWritable(rest)
    ensures AllWritable([x] + rest)
  {
    assert ([x] + rest)[1..] == rest && Power256(1) == 256;
  }

  lemma WritableMerged()
    ensures AllWritable(MergedItems())
  {
    var e, d, c, b, a := Item(0x81, 2), Item(0x95, 64), Item(0x75, 1), Item(0x09, 4), Item(0x05, 7);
    WritableOne(e, []);
    WritableOne(d, [e] + []);
    WritableOne(c, [d] + ([e] + []));
    WritableOne(b, [c] + ([d] + ([e] + [])));
    WritableOne(a, [b] + ([c] + ([d] + ([e] + []))));
    assert [a] + ([b] + ([c] + ([d] + ([e] + [])))) == MergedItems();
  }

  lemma DecodeMerged()
    ensures Complete(MERGED_64) && Decode(MERGED_64) == MergedItems()
  {
    WritableMerged();
    DecodeUndoesEncode(MergedItems());
    EncodedMerged();
  }

  lemma EncodeOne(x: Item, rest: seq<Item>)
    requires DataSize(x.tag) == 1 && x.arg < 256
    ensures Encode([x] + rest) == [x.tag, x.arg] + Encode(rest)
  {
    assert ([x] + rest)[1..] == rest && LittleEndian(x.arg, 1) == [x.arg];
  }

  lemma ExecOne(s: State, x: Item, rest: seq<Item>, t: State)
    requires s.Valid() && t.Valid() && Exec(s, x) == Running(t)
    ensures ExecAll(s, [x] + rest) == ExecAll(t, rest)
  {
    assert ([x] + rest)[1..] == rest;
  }

  /** Half of the sixty-four bits, and nothing of the other half. */
  predicate TwoFragments(fs: seq<Usage>) {
    && |fs| == 2
    && fs[0].bitOffset == 0 && fs[0].bitSize == 32
    && fs[1].bitOffset == 32 && fs[1].bitSize == 0
  }

  lemma MergedMain(s: State)
    requires s.Valid() && s.Top() == Globals(1, 64, 0, 0, 7, 0) && s.usageIdx == 1 && s.usageList[0] == 4
    requires s.wips == [NO_WIP, NO_WIP]
    ensures var fs := Fragments(s.Top(), 4, 2, 0);
            && Exec(s, Item(0x81, 2)) ==
               Running(s.(wips := [Wip(0, fs, 64), NO_WIP], usageIdx := 0, usageList := Cleared()))
            && TwoFragments(fs)
  {
    var fs := Fragments(s.Top(), 4, 2, 0);
    assert fs[0] == Fragment(s.Top(), 4, 2, 0, 0) && fs[1] == Fragment(s.Top(), 4, 2, 0, 1);
    assert MainItem(s, 2, NO_WIP) == Some(Wip(0, fs, 64)) by { assert NO_WIP.usages + fs == fs; }
  }

  /** The state before the main item. */
  function BeforeMerged(): (s: State)
    ensures s.Valid()
  {
    AddUsage(Initial(), 4).(stack := [Globals(1, 64, 0, 0, 7, 0)])
  }

  lemma ExecGlobal(s: State, x: Item, rest: seq<Item>, t: State)
    requires s.Valid() && SetsGlobal(x.tag) && t == s.(stack := s.stack[|s.stack| - 1 := SetGlobal(s.Top(), x)])
    ensures t.Valid() && ExecAll(s, [x] + rest) == ExecAll(t, rest)
  {
    ExecOne(s, x, rest, t);
  }

  lemma PageAndUsage(rest: seq<Item>)
    ensures ExecAll(Initial(), [Item(0x05, 7)] + ([Item(0x09, 4)] + rest)) ==
            ExecAll(AddUsage(Initial().(stack := [NO_GLOBALS.(usagePage := 7)]), 4), rest)
  {
    var s := Initial().(stack := [NO_GLOBALS.(usagePage := 7)]);
    ExecGlobal(Initial(), Item(0x05, 7), [Item(0x09, 4)] + rest, s);
    ExecOne(s, Item(0x09, 4), rest, AddUsage(s, 4));
  }

  lemma SizeAndCount(s: State, rest: seq<Item>)
    requires s.Valid() && s.stack == [NO_GLOBALS.(usagePage := 7)]
    ensures ExecAll(s, [Item(0x75, 1)] + ([Item(0x95, 64)] + rest)) ==
            ExecAll(s.(stack := [Globals(1, 64, 0, 0, 7, 0)]), rest)
  {
    var t := s.(stack := [NO_GLOBALS.(usagePage := 7, reportSize := 1)]);
    ExecGlobal(s, Item(0x75, 1), [Item(0x95, 64)] + rest, t);
    ExecGlobal(t, Item(0x95, 64), rest, s.(stack := [Globals(1, 64, 0, 0, 7, 0)]));
  }

  lemma ExecMerged()
    ensures ExecAll(Initial(), MergedItems()) == ExecAll(BeforeMerged(), [Item(0x81, 2)])
  {
    var rest := [Item(0x75, 1)] + ([Item(0x95, 64)] + [Item(0x81, 2)]);
    assert MergedItems() == [Item(0x05, 7)] + ([Item(0x09, 4)] + rest);
    PageAndUsage(rest);
    SizeAndCount(AddUsage(Initial().(stack := [NO_GLOBALS.(usagePage := 7)]), 4), [Item(0x81, 2)]);
  }

  lemma MergedOutcome() returns (t: State)
    ensures ExecAll(Initial(), MergedItems()) == Running(t)
    ensures t.Valid() && t.reports == []
    ensures exists fs :: t.wips == [Wip(0, fs, 64), NO_WIP] && TwoFragments(fs)
  {
    var s, e := BeforeMerged(), Item(0x81, 2);
    ExecMerged();
    MergedMain(s);
    t := Exec(s, e).s;
    ExecOne(s, e, [], t);
    assert [e] + [] == [e];
  }

  /** The descriptor's one report has eight bytes, and its last usage has no bits. */
  lemma MergedFieldLosesItsEnd()
    ensures Complete(MERGED_64) && Interpret(MERGED_64).Running?
    ensures var rs := Interpret(MERGED_64).s.reports; |rs| == 1 && rs[0].len == 8 && TwoFragments(rs[0].usages)
  {
    DecodeMerged();
    var t := MergedOutcome();
    assert Interpret(MERGED_64) == Finish(t);
  }
}
