/**
 What the global items of a descriptor set, by their tag without its size bits (HID 1.11, section 6.2.2.7).
 */
module HidGlobals {
  import opened Bytes
  import opened HidItems
  import opened HidAccount

  /** How many values `n` bytes can have. */
  function Span(n: nat): (r: int)
    ensures r > 0
  {
    if n == 0 then 1 else 256 * Span(n - 1)
  }

  lemma {:induction false} ValueFits(bytes: seq<u8>)
    ensures Value(bytes) < Span(|bytes|)
  {
    if bytes != [] { ValueFits(bytes[1..]); }
  }

  /** The operands of decoded items are in the range of their sizes. */
  lemma {:induction false} OperandsFit(data: seq<u8>, k: nat)
    requires Complete(data) && k < |Decode(data)|
    ensures Decode(data)[k].arg < Span(DataSize(Decode(data)[k].tag))
  {
    if k > 0 {
      OperandsFit(data[1 + DataSize(data[0])..], k - 1);
    } else if Recognised(data[0]) {
      ValueFits(data[1..1 + DataSize(data[0])]);
    }
  }

  /** Where item `k` starts: behind the tags and operands of the items before it. */
  function Start(items: seq<Item>, k: nat): nat
    requires k <= |items|
  {
    if k == 0 then 0 else Start(items, k - 1) + 1 + DataSize(items[k - 1].tag)
  }

  lemma {:induction false} StartBehindFirst(items: seq<Item>, k: nat)
    requires k < |items|
    ensures Start(items, k + 1) == 1 + DataSize(items[0].tag) + Start(items[1..], k)
  {
    if k > 0 { StartBehindFirst(items, k - 1); }
  }

  /** The item's tag is at `at`, and its operand behind that, if the parser knows it. */
  predicate StandsAt(x: Item, data: seq<u8>, at: nat) {
    && at < |data| && x.tag == data[at]
    && (Recognised(x.tag) ==>
          at + 1 + DataSize(x.tag) <= |data| && x.arg == Value(data[at + 1..at + 1 + DataSize(x.tag)]))
  }

  lemma StandsBehind(x: Item, data: seq<u8>, n: nat, at: nat)
    requires n <= |data| && StandsAt(x, data[n..], at)
    ensures StandsAt(x, data, n + at)
  {
    if Recognised(x.tag) {
      var m := at + 1 + DataSize(x.tag);
      assert data[n..][at + 1..m] == data[n + at + 1..n + m];
    }
  }

  lemma FirstStands(data: seq<u8>)
    requires Complete(data) && data != []
    ensures Decode(data) != [] && StandsAt(Decode(data)[0], data, 0)
  {
  }

  lemma RestIsDecoded(data: seq<u8>)
    requires Complete(data) && |Decode(data)| > 1
    ensures Recognised(data[0]) && 1 + DataSize(data[0]) <= |data|
    ensures var rest := data[1 + DataSize(data[0])..];
            Complete(rest) && Decode(data)[0].tag == data[0] && Decode(data)[1..] == Decode(rest)
  {
  }

  lemma RestStands(items: seq<Item>, tail: seq<Item>, data: seq<u8>, n: nat, k: nat)
    requires 0 < k < |items| && items[1..] == tail && n == 1 + DataSize(items[0].tag) <= |data|
    requires StandsAt(tail[k - 1], data[n..], Start(tail, k - 1))
    ensures StandsAt(items[k], data, Start(items, k))
  {
    StartBehindFirst(items, k - 1);
    StandsBehind(items[k], data, n, Start(tail, k - 1));
  }

  /** Every decoded item stands behind the ones before it. */
  lemma {:induction false} ItemsAreWhereTheyStart(data: seq<u8>, k: nat)
    requires Complete(data) && k < |Decode(data)|
    ensures StandsAt(Decode(data)[k], data, Start(Decode(data), k))
  {
    if k == 0 {
      FirstStands(data);
    } else {
      RestIsDecoded(data);
      var n := 1 + DataSize(data[0]);
      ItemsAreWhereTheyStart(data[n..], k - 1);
      RestStands(Decode(data), Decode(data[n..]), data, n, k);
    }
  }

  /** `w` is the number that an operand of `n` bytes stands for in two's complement. */
  predicate TwosComplement(w: int, arg: nat, n: nat) {
    (w - arg) % Span(n) == 0 && -Span(n) <= 2 * w < Span(n)
  }

  lemma Spans()
    ensures Span(1) == 0x100 && Span(2) == 0x1_0000 && Span(4) == 0x1_0000_0000
  {
    assert Span(2) == 0x1_0000;
    assert Span(4) == 65536 * Span(2);
  }

  lemma SignedIsTwosComplement(v: nat, n: nat)
    requires n in {1, 2, 4} && v < Span(n)
    ensures TwosComplement(Signed(v, n), v, n) && -0x8000_0000 <= Signed(v, n) < 0x8000_0000
  {
    Spans();
  }

  /** A signed number of 32 bits is found again in its unsigned form. */
  lemma UnsignedIsBack(w: int)
    requires -0x8000_0000 <= w < 0x8000_0000
    ensures var u := Unsigned32(w); 0 <= u < 0x1_0000_0000 && w == if u >= 0x8000_0000 then u - 0x1_0000_0000 else u
  {
  }

  // ----- the six families of global items

  const USAGE_PAGE := 0x04
  const LOGICAL_MINIMUM := 0x14
  const LOGICAL_MAXIMUM := 0x24
  const USAGE_MAXIMUM := 0x28
  const REPORT_SIZE := 0x74
  const REPORT_COUNT := 0x94

  /** The tag without the size of its operand. */
  function Family(tag: u8): int {
    tag as int - tag as int % 4
  }

  function Field(g: Globals, family: int): int {
    if family == USAGE_PAGE then g.usagePage
    else if family == LOGICAL_MINIMUM then g.logicalMin
    else if family == LOGICAL_MAXIMUM then g.logicalMax
    else if family == USAGE_MAXIMUM then g.usageMax
    else if family == REPORT_SIZE then g.reportSize
    else if family == REPORT_COUNT then g.reportCnt
    else 0
  }

  /** The field holds the operand, which is signed for the limits; the usage maximum is one of those, stored
      in 32 bits without a sign. */
  predicate Holds(v: int, x: Item) {
    var n := DataSize(x.tag);
    if Family(x.tag) in {LOGICAL_MINIMUM, LOGICAL_MAXIMUM} then TwosComplement(v, x.arg, n)
    else if Family(x.tag) == USAGE_MAXIMUM then
      0 <= v < 0x1_0000_0000 && TwosComplement(if v >= 0x8000_0000 then v - 0x1_0000_0000 else v, x.arg, n)
    else v == x.arg
  }

  /** Which tags are global items to the parser: these families, with an operand; the report size only with
      one byte, the report count with one or two. */
  lemma GlobalTags(tag: u8)
    ensures SetsGlobal(tag) <==>
            && DataSize(tag) > 0
            && Family(tag) in {USAGE_PAGE, LOGICAL_MINIMUM, LOGICAL_MAXIMUM, USAGE_MAXIMUM, REPORT_SIZE, REPORT_COUNT}
            && (Family(tag) == REPORT_SIZE ==> DataSize(tag) == 1) && (Family(tag) == REPORT_COUNT ==> DataSize(tag) <= 2)
  {
  }

  lemma OtherFieldsStay(g: Globals, x: Item, family: int)
    requires family != Family(x.tag)
    ensures Field(SetGlobal(g, x), family) == Field(g, family)
  {
  }

  lemma LimitIsSet(g: Globals, x: Item)
    requires SetsGlobal(x.tag) && x.arg < Span(DataSize(x.tag))
    requires Family(x.tag) in {LOGICAL_MINIMUM, LOGICAL_MAXIMUM, USAGE_MAXIMUM}
    ensures Holds(Field(SetGlobal(g, x), Family(x.tag)), x)
  {
    SignedIsTwosComplement(x.arg, DataSize(x.tag));
    UnsignedIsBack(Signed(x.arg, DataSize(x.tag)));
  }

  /** A global item gives its own field the value of its operand, and leaves every other field alone. */
  lemma GlobalItemSets(g: Globals, x: Item, family: int)
    requires SetsGlobal(x.tag) && x.arg < Span(DataSize(x.tag))
    ensures if family == Family(x.tag) then Holds(Field(SetGlobal(g, x), family), x)
            else Field(SetGlobal(g, x), family) == Field(g, family)
  {
    if family != Family(x.tag) {
      OtherFieldsStay(g, x, family);
    } else if family in {LOGICAL_MINIMUM, LOGICAL_MAXIMUM, USAGE_MAXIMUM} {
      LimitIsSet(g, x);
    }
  }

  /** Neither pushes nor pops nor sets this field. */
  predicate Leaves(x: Item, family: int) {
    x.tag != 0xA4 && x.tag != 0xB4 && !(SetsGlobal(x.tag) && Family(x.tag) == family)
  }

  /** Wherever a main item stands, each of its global values is that of the last item that set it. */
  lemma {:induction false} LastGlobalHolds(items: seq<Item>, i: nat, n: nat)
    requires i < n <= |items| && SetsGlobal(items[i].tag) && items[i].arg < Span(DataSize(items[i].tag))
    requires forall k :: i < k < n ==> Leaves(items[k], Family(items[i].tag)) && items[k].arg < Span(DataSize(items[k].tag))
    ensures Holds(Field(GlobalsAt(items, n), Family(items[i].tag)), items[i])
    decreases n
  {
    var g, x := GlobalsAt(items, n - 1), items[n - 1];
    if SetsGlobal(x.tag) { GlobalItemSets(g, x, Family(items[i].tag)); }
    if i < n - 1 { LastGlobalHolds(items, i, n - 1); }
  }
}
