/**
 The mapping of a wireless controller's axes and buttons onto wired outputs. Source axes calibrate
 themselves: a range grows to cover every sample it is used with. The code computes in single-precision
 floats: here every operation is one on reals, rounded by a parameter `fl`, and conversion to an integer
 is toward zero. Bit masks are sets of bit numbers, and what belongs to
 bit `b` of output `d` is kept under the pair (d, b).
 */
module AxisMapping {
  import opened SinglePrecision

  const AXES := 16
  const NONE := -1
  const LINEAR := 0

  // ----- the switches on button numbers

  /** The mask bit that stands for a button number: everything from 96 on shares the last word. */
  function BitOf(btn: nat): nat {
    if btn < 96 then btn else 96 + btn % 32
  }

  function AxisOf(btn: nat): (a: int)
    ensures NONE <= a < AXES
  {
    match btn
    case 0 | 1 | 12 | 13 => 0
    case 2 | 3 | 14 | 15 => 1
    case 4 | 5 => 2
    case 6 | 7 => 3
    case 24 => 4
    case 28 => 5
    case 25 => 6
    case 29 => 7
    case 8 => 8
    case 9 => 9
    case 10 => 10
    case 11 => 11
    case 16 => 12
    case 17 => 13
    case 18 => 14
    case 19 => 15
    case _ => NONE
  }

  function BtnSign(inverted: bool, btn: nat): (s: int)
    ensures s == 1 || s == -1
  {
    match btn
    case 1 | 3 | 5 | 7 | 24 | 28 | 13 | 15 | 25 | 29 | 8 | 9 | 10 | 11 | 16 | 17 | 18 | 19 => if inverted then -1 else 1
    case 0 | 2 | 4 | 6 | 12 | 14 => if inverted then 1 else -1
    case _ => 1
  }

  // ----- inputs and outputs

  datatype MapCfg = MapCfg(
    src: nat, dst: nat, dstId: nat, percMax: nat, percThreshold: nat, percDeadzone: nat, turbo: nat, algo: nat)

  datatype SrcAxis = SrcAxis(value: int, deadzone: int, inverted: bool, relative: int)
  datatype DstMeta = DstMeta(absMax: int, absMin: int, inverted: bool)
  datatype Output = Output(mask: set<nat>, desc: set<nat>, meta: seq<DstMeta>)

  /** What stays fixed while one report is mapped. */
  datatype Setup = Setup(
    mask: set<nat>, desc: set<nat>, btns: set<nat>, axes: seq<SrcAxis>, outputs: seq<Output>,
    fl: real -> real)

  datatype OutAxis = OutAxis(value: int, relative: int, turbo: int)

  /** `axes` holds sixteen axes for each output in turn. */
  datatype State = State(
    absMax: seq<int>, absMin: seq<int>, axes: seq<OutAxis>,
    pressed: set<(int, int)>, btnTurbo: map<(int, int), int>, mapMask: set<(int, int)>)

  function Key(d: nat, axis: nat): nat {
    AXES * d + axis
  }

  /** Every output bit described as an axis is the bit of a real axis, and no positive integer rounds to
      zero. */
  ghost predicate WellFormed(u: Setup) {
    && |u.axes| == AXES
    && KeepsPositive(u.fl)
    && (forall d :: 0 <= d < |u.outputs| ==> |u.outputs[d].meta| == AXES)
    && forall d, btn: nat :: 0 <= d < |u.outputs| && BitOf(btn) in u.outputs[d].desc ==> AxisOf(btn) != NONE
  }

  predicate Shaped(u: Setup, s: State) {
    |s.absMax| == AXES && |s.absMin| == AXES && |s.axes| == AXES * |u.outputs|
  }

  /** Nothing mapped yet, and the given source ranges. */
  function Initial(u: Setup, ranges: seq<(int, int)>): (s: State)
    requires |ranges| == AXES
    ensures Shaped(u, s)
  {
    State(seq(AXES, i requires 0 <= i < AXES => ranges[i].0), seq(AXES, i requires 0 <= i < AXES => ranges[i].1),
          seq(AXES * |u.outputs|, _ => OutAxis(0, 0, 0)), {}, map[], {})
  }

  lemma KeyInRange(u: Setup, d: nat, axis: nat)
    requires d < |u.outputs| && axis < AXES
    ensures Key(d, axis) < AXES * |u.outputs|
  {
  }

  lemma KeyIsUnique(d: nat, axis: nat, d': nat, axis': nat)
    requires axis < AXES && axis' < AXES && Key(d, axis) == Key(d', axis')
    ensures d == d' && axis == axis'
  {
  }

  // ----- arithmetic

  function Abs(x: int): nat {
    if x < 0 then -x else x
  }

  /** A float converted to an integer. */
  function Trunc(r: real): int {
    if r >= 0.0 then r.Floor else -((-r).Floor)
  }

  /** A range after it grew to cover a sample. */
  function Grown(range: int, value: int): (g: int)
    ensures g >= Abs(value) && g >= range
  {
    if Abs(value) > range then Abs(value) else range
  }

  function Deadzone(fl: real -> real, cfg: MapCfg, src: SrcAxis, range: int): int {
    Trunc(Mul(fl, Div(fl, Of(fl, cfg.percDeadzone), 10000.0), Of(fl, range))) + src.deadzone
  }

  function DstMax(meta: DstMeta, btn: nat): int {
    if BtnSign(meta.inverted, btn) > 0 then meta.absMax else meta.absMin
  }

  function Scaled(fl: real -> real, x: int, scale: real): int {
    Trunc(Mul(fl, Of(fl, x), scale))
  }

  /** From a span of source values to the range of the destination, and the given percentage of that. */
  function LinearScale(fl: real -> real, dstMax: int, span: int, percMax: nat): real
    requires Of(fl, span) > 0.0
  {
    Mul(fl, Div(fl, Of(fl, dstMax), Of(fl, span)), Percent(fl, percMax))
  }

  /** What a source axis beyond its deadzone gives the destination axis. */
  function AxisAmount(fl: real -> real, cfg: MapCfg, src: SrcAxis, range: int, meta: DstMeta): int
    requires KeepsPositive(fl) && Abs(src.value) > Deadzone(fl, cfg, src, range) && range >= Abs(src.value)
  {
    var dz := Deadzone(fl, cfg, src, range);
    var scale := if cfg.algo % 16 == LINEAR then LinearScale(fl, DstMax(meta, cfg.dst), range - dz, cfg.percMax)
                 else Percent(fl, cfg.percMax);
    Scaled(fl, BtnSign(meta.inverted, cfg.dst) * (Abs(src.value) - dz), scale)
  }

  /** What a pressed button gives the destination axis. */
  function BtnAmount(fl: real -> real, cfg: MapCfg, meta: DstMeta): int {
    Scaled(fl, BtnSign(meta.inverted, cfg.dst) * DstMax(meta, cfg.dst), Percent(fl, cfg.percMax))
  }

  function Threshold(fl: real -> real, cfg: MapCfg, range: int): int {
    Trunc(Mul(fl, Percent(fl, cfg.percThreshold), Of(fl, range)))
  }

  // ----- one mapping entry

  /** The larger magnitude wins; the first of two equal ones stays. */
  function Offer(axis: OutAxis, value: int, turbo: int): OutAxis {
    if Abs(value) > Abs(axis.value) then axis.(value := value, turbo := turbo) else axis
  }

  function Press(s: State, cfg: MapCfg): State {
    s.(pressed := s.pressed + {(cfg.dstId, BitOf(cfg.dst))},
       btnTurbo := s.btnTurbo[(cfg.dstId, BitOf(cfg.dst)) := cfg.turbo])
  }

  function Flag(s: State, cfg: MapCfg): State {
    s.(mapMask := s.mapMask + {(cfg.dstId, BitOf(cfg.dst))})
  }

  /** The source axis points the way the mapping entry asks for. */
  predicate SignFits(u: Setup, cfg: MapCfg)
    requires WellFormed(u) && AxisOf(cfg.src) != NONE
  {
    var src := u.axes[AxisOf(cfg.src)];
    BtnSign(src.inverted, cfg.src) * src.value >= 0
  }

  function Range(u: Setup, s: State, cfg: MapCfg): int
    requires WellFormed(u) && Shaped(u, s) && AxisOf(cfg.src) != NONE
  {
    var a := AxisOf(cfg.src);
    if BtnSign(u.axes[a].inverted, cfg.src) > 0 then s.absMax[a] else s.absMin[a]
  }

  function Grow(u: Setup, s: State, cfg: MapCfg): (s': State)
    requires WellFormed(u) && Shaped(u, s) && AxisOf(cfg.src) != NONE
    ensures Shaped(u, s')
  {
    var a := AxisOf(cfg.src);
    var src := u.axes[a];
    if BtnSign(src.inverted, cfg.src) > 0 then s.(absMax := s.absMax[a := Grown(s.absMax[a], src.value)])
    else s.(absMin := s.absMin[a := Grown(s.absMin[a], src.value)])
  }

  /** The source is an axis that points the right way, and its range has grown. */
  function FromAxis(u: Setup, s: State, cfg: MapCfg): (s': State)
    requires WellFormed(u) && Shaped(u, s) && cfg.dstId < |u.outputs| && AxisOf(cfg.src) != NONE
    requires Range(u, s, cfg) >= Abs(u.axes[AxisOf(cfg.src)].value)
    ensures Shaped(u, s')
  {
    var src, range, out := u.axes[AxisOf(cfg.src)], Range(u, s, cfg), u.outputs[cfg.dstId];
    if BitOf(cfg.dst) in out.desc then
      KeyInRange(u, cfg.dstId, AxisOf(cfg.dst));
      var k := Key(cfg.dstId, AxisOf(cfg.dst));
      var axis := s.axes[k].(relative := src.relative);
      s.(axes := s.axes[k := if Abs(src.value) > Deadzone(u.fl, cfg, src, range)
                             then Offer(axis, AxisAmount(u.fl, cfg, src, range, out.meta[AxisOf(cfg.dst)]), cfg.turbo)
                             else axis])
    else if Abs(src.value) >= Threshold(u.fl, cfg, range) then Press(s, cfg)
    else s
  }

  function MapAxis(u: Setup, s: State, cfg: MapCfg): (s': State)
    requires WellFormed(u) && Shaped(u, s) && cfg.dstId < |u.outputs|
    ensures Shaped(u, s')
  {
    if AxisOf(cfg.src) == NONE then s
    else if BitOf(cfg.dst) !in u.outputs[cfg.dstId].mask then s
    else Flag(if SignFits(u, cfg) then FromAxis(u, Grow(u, s, cfg), cfg) else s, cfg)
  }

  function MapBtn(u: Setup, s: State, cfg: MapCfg): (s': State)
    requires WellFormed(u) && Shaped(u, s) && cfg.dstId < |u.outputs|
    ensures Shaped(u, s')
  {
    var out := u.outputs[cfg.dstId];
    if BitOf(cfg.dst) !in out.mask then s
    else if BitOf(cfg.src) !in u.btns then Flag(s, cfg)
    else if BitOf(cfg.dst) in out.desc then
      KeyInRange(u, cfg.dstId, AxisOf(cfg.dst));
      var k := Key(cfg.dstId, AxisOf(cfg.dst));
      Flag(s.(axes := s.axes[k := Offer(s.axes[k], BtnAmount(u.fl, cfg, out.meta[AxisOf(cfg.dst)]), cfg.turbo)]), cfg)
    else Flag(Press(s, cfg), cfg)
  }

  function MapEntry(u: Setup, s: State, cfg: MapCfg): (s': State)
    requires WellFormed(u) && Shaped(u, s) && cfg.dstId < |u.outputs|
    ensures Shaped(u, s')
  {
    if BitOf(cfg.src) !in u.mask then s
    else if BitOf(cfg.src) in u.desc then MapAxis(u, s, cfg)
    else MapBtn(u, s, cfg)
  }

  /** The outputs an entry reports as touched. */
  function OutMask(u: Setup, cfg: MapCfg): set<int> {
    if BitOf(cfg.src) in u.mask && (BitOf(cfg.src) in u.desc ==> AxisOf(cfg.src) != NONE) then {cfg.dstId} else {}
  }

  function OutMaskAll(u: Setup, cfgs: seq<MapCfg>): set<int>
    decreases |cfgs|
  {
    if cfgs == [] then {} else OutMaskAll(u, cfgs[..|cfgs| - 1]) + OutMask(u, cfgs[|cfgs| - 1])
  }

  predicate InRange(u: Setup, cfgs: seq<MapCfg>) {
    forall i :: 0 <= i < |cfgs| ==> cfgs[i].dstId < |u.outputs|
  }

  /** All entries, in order. */
  function MapAll(u: Setup, s: State, cfgs: seq<MapCfg>): (s': State)
    requires WellFormed(u) && Shaped(u, s) && InRange(u, cfgs)
    ensures Shaped(u, s')
    decreases |cfgs|
  {
    if cfgs == [] then s
    else MapEntry(u, MapAll(u, s, cfgs[..|cfgs| - 1]), cfgs[|cfgs| - 1])
  }

  // ----- the code

  class Adapter {
    const u: Setup
    const absMax: array<int>
    const absMin: array<int>
    const axes: array<OutAxis>
    var pressed: set<(int, int)>
    var btnTurbo: map<(int, int), int>
    var mapMask: set<(int, int)>

    ghost predicate Valid()
      reads this
    {
      && WellFormed(u)
      && absMax != absMin && absMax.Length == AXES && absMin.Length == AXES && axes.Length == AXES * |u.outputs|
    }

    ghost function View(): State
      reads this, absMax, absMin, axes
    {
      State(absMax[..], absMin[..], axes[..], pressed, btnTurbo, mapMask)
    }

    constructor (setup: Setup, ranges: seq<(int, int)>)
      requires WellFormed(setup) && |ranges| == AXES
      ensures Valid() && u == setup && fresh(absMax) && fresh(absMin) && fresh(axes)
      ensures View() == Initial(setup, ranges)
    {
      u := setup;
      absMax := new int[AXES](i requires 0 <= i < AXES => ranges[i].0);
      absMin := new int[AXES](i requires 0 <= i < AXES => ranges[i].1);
      axes := new OutAxis[AXES * |setup.outputs|](_ => OutAxis(0, 0, 0));
      pressed, btnTurbo, mapMask := {}, map[], {};
      new;
      assert absMax[..] == Initial(setup, ranges).absMax;
      assert absMin[..] == Initial(setup, ranges).absMin;
      assert axes[..] == Initial(setup, ranges).axes;
    }

    method PressButton(cfg: MapCfg)
      requires Valid()
      modifies this
      ensures Valid() && View() == Press(old(View()), cfg)
    {
      pressed := pressed + {(cfg.dstId, BitOf(cfg.dst))};
      btnTurbo := btnTurbo[(cfg.dstId, BitOf(cfg.dst)) := cfg.turbo];
    }

    method OfferToAxis(k: nat, value: int, turbo: int)
      requires Valid() && k < axes.Length
      modifies axes
      ensures View() == old(View()).(axes := old(axes[..])[k := Offer(old(axes[k]), value, turbo)])
    {
      if Abs(value) > Abs(axes[k].value) {
        axes[k] := axes[k].(value := value, turbo := turbo);
      }
    }

    method GrowRange(cfg: MapCfg) returns (range: int)
      requires Valid() && AxisOf(cfg.src) != NONE
      modifies absMax, absMin
      ensures View() == Grow(u, old(View()), cfg) && range == Range(u, View(), cfg)
      ensures range >= Abs(u.axes[AxisOf(cfg.src)].value)
    {
      var a := AxisOf(cfg.src);
      var value := Abs(u.axes[a].value);
      if BtnSign(u.axes[a].inverted, cfg.src) > 0 {
        if value > absMax[a] { absMax[a] := value; }
        range := absMax[a];
      } else {
        if value > absMin[a] { absMin[a] := value; }
        range := absMin[a];
      }
    }

    method AdapterMapFromAxis(cfg: MapCfg) returns (outMask: set<int>)
      requires Valid() && cfg.dstId < |u.outputs| && BitOf(cfg.src) in u.mask && BitOf(cfg.src) in u.desc
      modifies this, absMax, absMin, axes
      ensures Valid() && View() == MapAxis(u, old(View()), cfg)
      ensures outMask == OutMask(u, cfg)
    {
      if AxisOf(cfg.src) == NONE { return {}; }
      var src, out := u.axes[AxisOf(cfg.src)], u.outputs[cfg.dstId];
      if BitOf(cfg.dst) in out.mask {
        if BtnSign(src.inverted, cfg.src) * src.value >= 0 {
          var range := GrowRange(cfg);
          if BitOf(cfg.dst) in out.desc {
            KeyInRange(u, cfg.dstId, AxisOf(cfg.dst));
            var k := Key(cfg.dstId, AxisOf(cfg.dst));
            axes[k] := axes[k].(relative := src.relative);
            if Abs(src.value) > Deadzone(u.fl, cfg, src, range) {
              OfferToAxis(k, AxisAmount(u.fl, cfg, src, range, out.meta[AxisOf(cfg.dst)]), cfg.turbo);
            }
          } else if Abs(src.value) >= Threshold(u.fl, cfg, range) {
            PressButton(cfg);
          }
        }
        mapMask := mapMask + {(cfg.dstId, BitOf(cfg.dst))};
      }
      outMask := {cfg.dstId};
    }

    method AdapterMapFromBtn(cfg: MapCfg) returns (outMask: set<int>)
      requires Valid() && cfg.dstId < |u.outputs| && BitOf(cfg.src) in u.mask && BitOf(cfg.src) !in u.desc
      modifies this, axes
      ensures Valid() && View() == MapBtn(u, old(View()), cfg)
      ensures outMask == OutMask(u, cfg)
    {
      var out := u.outputs[cfg.dstId];
      if BitOf(cfg.dst) in out.mask {
        if BitOf(cfg.src) in u.btns {
          if BitOf(cfg.dst) in out.desc {
            KeyInRange(u, cfg.dstId, AxisOf(cfg.dst));
            OfferToAxis(Key(cfg.dstId, AxisOf(cfg.dst)), BtnAmount(u.fl, cfg, out.meta[AxisOf(cfg.dst)]), cfg.turbo);
          } else {
            PressButton(cfg);
          }
        }
        mapMask := mapMask + {(cfg.dstId, BitOf(cfg.dst))};
      }
      outMask := {cfg.dstId};
    }

    method AdapterMapping(cfgs: seq<MapCfg>) returns (outMask: set<int>)
      requires Valid() && InRange(u, cfgs)
      modifies this, absMax, absMin, axes
      ensures Valid() && View() == MapAll(u, old(View()), cfgs)
      ensures outMask == OutMaskAll(u, cfgs)
    {
      outMask := {};
      for i := 0 to |cfgs|
        invariant Valid() && View() == MapAll(u, old(View()), cfgs[..i])
        invariant outMask == OutMaskAll(u, cfgs[..i])
      {
        assert cfgs[..i + 1][..i] == cfgs[..i];
        var reported := {};
        if BitOf(cfgs[i].src) in u.mask {
          if BitOf(cfgs[i].src) in u.desc {
            reported := AdapterMapFromAxis(cfgs[i]);
          } else {
            reported := AdapterMapFromBtn(cfgs[i]);
          }
        }
        outMask := outMask + reported;
      }
      assert cfgs[..|cfgs|] == cfgs;
    }
  }
}
