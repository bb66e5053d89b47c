/**
 The GameCube controller's axes. The wire carries one octet for each of six axes: the mapped value
 around the axis' neutral octet.
 */
module GcOutput {
  import opened SinglePrecision
  import opened AxisMapping
  import opened MappingLaws

  const GC_AXES := 6

  datatype GcMeta = GcMeta(sizeMin: int, sizeMax: int, neutral: int, absMax: int, absMin: int)

  const STICK := GcMeta(-128, 127, 0x80, 0x64, 0x64)
  const C_STICK := GcMeta(-128, 127, 0x80, 0x5C, 0x5C)
  const TRIGGER := GcMeta(0, 255, 0x20, 0xD0, 0x00)

  function MetaOf(axis: nat): GcMeta
    requires axis < GC_AXES
  {
    if axis < 2 then STICK else if axis < 4 then C_STICK else TRIGGER
  }

  /** The bits of 0x773F0FFF and 0x110000FF. */
  const GC_MASK: set<nat> := set b: nat | b < 32 && (b < 12 || 16 <= b < 22 || 24 <= b < 27 || 28 <= b < 31)
  const GC_DESC: set<nat> := set b: nat | b < 32 && (b < 8 || b == 24 || b == 28)

  /** What the mapping sees of a GameCube output; `combos` are the bits of the last mask word. */
  function GcOutput(combos: set<nat>): Output {
    Output(GC_MASK + combos, GC_DESC,
           seq(AXES, i requires 0 <= i < AXES =>
             if i < GC_AXES then DstMeta(MetaOf(i).absMax, MetaOf(i).absMin, false) else DstMeta(0, 0, false)))
  }

  /** Every bit that the GameCube describes as an axis is the bit of one of its six axes. */
  lemma GcDescIsAxes(btn: nat)
    requires BitOf(btn) in GC_DESC
    ensures 0 <= AxisOf(btn) < GC_AXES && btn in AxisToBtnMask(AxisOf(btn))
  {
  }

  function AxisToBtnMask(axis: nat): set<nat> {
    match axis
    case 0 => {0, 1, 12, 13}
    case 1 => {2, 3, 14, 15}
    case 2 => {4, 5}
    case 3 => {6, 7}
    case 4 => {24}
    case 5 => {28}
    case 6 => {25}
    case 7 => {29}
    case 8 => {8}
    case 9 => {9}
    case 10 => {10}
    case 11 => {11}
    case 12 => {16}
    case 13 => {17}
    case 14 => {18}
    case 15 => {19}
    case _ => {}
  }

  /** The two switches agree: an axis has exactly the buttons that belong to it. */
  lemma MaskIsAxisButtons(axis: nat, btn: nat)
    requires axis < AXES
    ensures btn in AxisToBtnMask(axis) <==> AxisOf(btn) == axis
  {
  }

  function AxisToBtnId(axis: nat): (b: nat)
    requires axis < GC_AXES
    ensures b < 32 && b in AxisToBtnMask(axis)
  {
    match axis
    case 0 => 0
    case 1 => 2
    case 2 => 4
    case 3 => 6
    case 4 => 24
    case _ => 28
  }

  /** The octet for a value: saturated outside the size, and cut to eight bits otherwise. */
  function GcOctet(meta: GcMeta, value: int): (o: int)
    ensures 0 <= o < 256
  {
    if value > meta.sizeMax then 255
    else if value < meta.sizeMin then 0
    else (value + meta.neutral) % 256
  }

  predicate Flagged(mapMask: set<nat>, axis: nat) {
    mapMask * AxisToBtnMask(axis) * GC_DESC != {}
  }

  /** The axis loop: unflagged axes keep their octet. */
  method GcAxesFromGeneric(mapMask: set<nat>, values: seq<OutAxis>, octets: array<int>, cntMask: array<int>)
    requires |values| >= GC_AXES && octets.Length == GC_AXES && cntMask.Length == 32 && octets != cntMask
    modifies octets, cntMask
    ensures forall i :: 0 <= i < GC_AXES ==>
      octets[i] == if Flagged(mapMask, i) then GcOctet(MetaOf(i), values[i].value) else old(octets[i])
    ensures forall i :: 0 <= i < GC_AXES ==> cntMask[AxisToBtnId(i)] == values[i].turbo
    ensures forall b :: 0 <= b < 32 && b !in {0, 2, 4, 6, 24, 28} ==> cntMask[b] == old(cntMask[b])
  {
    for i := 0 to GC_AXES
      invariant forall j :: 0 <= j < i ==>
        octets[j] == if Flagged(mapMask, j) then GcOctet(MetaOf(j), values[j].value) else old(octets[j])
      invariant forall j :: i <= j < GC_AXES ==> octets[j] == old(octets[j])
      invariant forall j :: 0 <= j < i ==> cntMask[AxisToBtnId(j)] == values[j].turbo
      invariant forall b :: 0 <= b < 32 && b !in {0, 2, 4, 6, 24, 28} ==> cntMask[b] == old(cntMask[b])
    {
      if mapMask * AxisToBtnMask(i) * GC_DESC != {} {
        if values[i].value > MetaOf(i).sizeMax {
          octets[i] := 255;
        } else if values[i].value < MetaOf(i).sizeMin {
          octets[i] := 0;
        } else {
          octets[i] := (values[i].value + MetaOf(i).neutral) % 256;
        }
      }
      cntMask[AxisToBtnId(i)] := values[i].turbo;
    }
  }

  /** Within the declared range an octet is the value around neutral: it neither wraps nor saturates. */
  lemma NoWrapWithinRange(axis: nat, value: int)
    requires axis < GC_AXES && -MetaOf(axis).absMin <= value <= MetaOf(axis).absMax
    ensures GcOctet(MetaOf(axis), value) == MetaOf(axis).neutral + value
    ensures 0 < MetaOf(axis).neutral + value < 255
  {
  }

  /** What goes on the wire at the ends and at rest: for the sticks, the C stick and the triggers, which only
      go one way. */
  lemma GcEnds(axis: nat)
    requires axis < GC_AXES
    ensures var m, low, high := MetaOf(axis), if axis < 2 then 0x1C else if axis < 4 then 0x24 else 0x20,
                                if axis < 2 then 0xE4 else if axis < 4 then 0xDC else 0xF0;
            && GcOctet(m, -m.absMin) == low && GcOctet(m, m.absMax) == high
            && GcOctet(m, 0) == if axis < 4 then 0x80 else 0x20
  {
  }

  /** Any other value is saturated outside its size; inside, a trigger beyond 223 would wrap. */
  lemma OctetOf(axis: nat, value: int)
    requires axis < GC_AXES
    ensures var o, low, high := GcOctet(MetaOf(axis), value), if axis < 4 then -128 else 0, if axis < 4 then 127 else 255;
            && (value > high ==> o == 255) && (value < low ==> o == 0)
            && (low <= value <= high && axis < 4 ==> o == value + 128)
            && (low <= value <= high && axis >= 4 ==> o == if value <= 223 then value + 32 else value - 224)
  {
  }

  /** An axis is flagged exactly by the bits of its own buttons that the GameCube describes as axes. */
  lemma FlaggedExactly(mapMask: set<nat>, axis: nat)
    requires axis < GC_AXES
    ensures Flagged(mapMask, axis) <==> exists b :: b in mapMask && AxisOf(b) == axis && b in GC_DESC
  {
    if b :| b in mapMask && AxisOf(b) == axis && b in GC_DESC {
      MaskIsAxisButtons(axis, b);
      assert b in mapMask * AxisToBtnMask(axis) * GC_DESC;
    }
    if Flagged(mapMask, axis) {
      var b :| b in mapMask * AxisToBtnMask(axis) * GC_DESC;
      MaskIsAxisButtons(axis, b);
    }
  }

  /** The turbo setting goes to the lowest button of the axis. */
  lemma LowestButton(axis: nat, btn: nat)
    requires axis < GC_AXES && AxisOf(btn) == axis
    ensures AxisToBtnId(axis) <= btn
  {
  }

  /** The mapping sees those ranges, uninverted, nothing on the other axes, and the combination bits. */
  lemma GcOutputIs(combos: set<nat>, axis: nat, b: nat)
    requires axis < AXES
    ensures var out := GcOutput(combos);
            && |out.meta| == AXES && (b in out.mask <==> b in GC_MASK || b in combos)
            && out.meta[axis] == if axis < 2 then DstMeta(100, 100, false) else if axis < 4 then DstMeta(92, 92, false)
                                 else if axis < 6 then DstMeta(208, 0, false) else DstMeta(0, 0, false)
  {
  }

  ghost predicate GcOnly(u: Setup) {
    && |u.axes| == AXES && Rounding(u.fl)
    && forall d :: 0 <= d < |u.outputs| ==> exists combos: set<nat> ::
         (forall b :: b in combos ==> b >= 96) && u.outputs[d] == GcOutput(combos)
  }

  lemma GcIsWellFormed(u: Setup)
    requires GcOnly(u)
    ensures WellFormed(u) && SensibleMeta(u)
  {
    RoundingKeepsPositive(u.fl);
    forall d: nat, btn: nat | d < |u.outputs| && BitOf(btn) in u.outputs[d].desc ensures AxisOf(btn) != NONE {
      GcDescIsAxes(btn);
    }
  }

  /** Whatever linear list is mapped to GameCube outputs, every octet sent is the exact value around neutral. */
  lemma MappedOctetsAreExact(u: Setup, ranges: seq<(int, int)>, cfgs: seq<MapCfg>, d: nat, axis: nat)
    requires GcOnly(u) && |ranges| == AXES && InRange(u, cfgs) && AllLinear(cfgs)
    requires d < |u.outputs| && axis < GC_AXES
    ensures WellFormed(u) && Key(d, axis) < AXES * |u.outputs|
    ensures var value := MapAll(u, Initial(u, ranges), cfgs).axes[Key(d, axis)].value;
      GcOctet(MetaOf(axis), value) == MetaOf(axis).neutral + value && 0 < MetaOf(axis).neutral + value < 255
  {
    GcIsWellFormed(u);
    LinearMappingIsBounded(u, ranges, cfgs);
    KeyInRange(u, d, axis);
    var value := MapAll(u, Initial(u, ranges), cfgs).axes[Key(d, axis)].value;
    assert WithinMeta(u.outputs[d].meta[axis], value);
    NoWrapWithinRange(axis, value);
  }
}
