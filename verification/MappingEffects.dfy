/**
 What a mapping list does, entry by entry: which output buttons it presses and whose settings win, and
 how far it moves an axis.
 */
module MappingEffects {
  import opened SinglePrecision
  import opened AxisMapping
  import opened MappingLaws
  import opened MappingOrder

  // ----- buttons

  /** Every button number below 128 has its own bit, in the word and place of its number; the others share the
      last word. */
  lemma BitsAreNumbers(btn: nat)
    ensures BitOf(btn) < 128 && BitOf(btn) % 32 == btn % 32
    ensures if btn < 128 then BitOf(btn) == btn else BitOf(btn) / 32 == 3
  {
  }

  /** An inverted axis swaps its ends. */
  lemma InvertedSwapsEnds(btn: nat)
    requires AxisOf(btn) != NONE
    ensures BtnSign(true, btn) == -BtnSign(false, btn)
  {
  }

  /** The first eight numbers are the two ends of each stick axis, the negative one first. */
  lemma StickEnds(stick: nat, inverted: bool)
    requires stick < 4
    ensures AxisOf(2 * stick) == AxisOf(2 * stick + 1) == stick
    ensures BtnSign(inverted, 2 * stick + 1) == (if inverted then -1 else 1) == -BtnSign(inverted, 2 * stick)
  {
  }

  /** What an axis must reach to press a button: a percentage of its range, in floats, as an integer. */
  function Share(fl: real -> real, perc: nat, range: int): int {
    Trunc(Mul(fl, Div(fl, Of(fl, perc), 100.0), Of(fl, range)))
  }

  /** The range on the entry's side, once it covers the sample. */
  function CoveringRange(u: Setup, s0: State, cfg: MapCfg): int
    requires WellFormed(u) && Shaped(u, s0) && AxisOf(cfg.src) != NONE
  {
    var a := AxisOf(cfg.src);
    var range := if BtnSign(u.axes[a].inverted, cfg.src) == 1 then s0.absMax[a] else s0.absMin[a];
    if Abs(u.axes[a].value) > range then Abs(u.axes[a].value) else range
  }

  /** The input that the entry names is pressed: a button, or an axis that is far enough on the entry's side. */
  predicate IsHeld(u: Setup, s0: State, cfg: MapCfg)
    requires WellFormed(u) && Shaped(u, s0)
  {
    if BitOf(cfg.src) !in u.desc then BitOf(cfg.src) in u.btns
    else
      && AxisOf(cfg.src) != NONE
      && var src := u.axes[AxisOf(cfg.src)];
         && (src.value == 0 || (src.value > 0) == (BtnSign(src.inverted, cfg.src) == 1))
         && Abs(src.value) >= Share(u.fl, cfg.percThreshold, CoveringRange(u, s0, cfg))
  }

  /** The entry presses bit `b` of output `d`, which is no axis. */
  predicate PressesBit(u: Setup, s0: State, cfg: MapCfg, d: int, b: int)
    requires WellFormed(u) && Shaped(u, s0) && cfg.dstId < |u.outputs|
  {
    Connects(u, cfg, d, b) && b !in u.outputs[cfg.dstId].desc && IsHeld(u, s0, cfg)
  }

  lemma PointsTheWay(u: Setup, cfg: MapCfg)
    requires WellFormed(u) && AxisOf(cfg.src) != NONE
    ensures var src := u.axes[AxisOf(cfg.src)];
            SignFits(u, cfg) <==> src.value == 0 || (src.value > 0) == (BtnSign(src.inverted, cfg.src) == 1)
  {
    var src := u.axes[AxisOf(cfg.src)];
    if BtnSign(src.inverted, cfg.src) == 1 {
      assert BtnSign(src.inverted, cfg.src) * src.value == src.value;
    } else {
      assert BtnSign(src.inverted, cfg.src) * src.value == -src.value;
    }
  }

  lemma CoversSample(u: Setup, s0: State, s: State, cfg: MapCfg)
    requires WellFormed(u) && Shaped(u, s0) && Shaped(u, s) && AxisOf(cfg.src) != NONE && Tracks(u, s0, s)
    ensures Range(u, Grow(u, s, cfg), cfg) == CoveringRange(u, s0, cfg)
  {
  }

  /** `t` presses what `s` does and, if `here`, the bit as well, with this turbo setting. */
  predicate Presses(s: State, t: State, here: bool, bit: (int, int), turbo: int) {
    && (bit in t.pressed <==> bit in s.pressed || here)
    && (if here then bit in t.btnTurbo && t.btnTurbo[bit] == turbo
        else (bit in t.btnTurbo <==> bit in s.btnTurbo) && (bit in s.btnTurbo ==> t.btnTurbo[bit] == s.btnTurbo[bit]))
  }

  lemma AxisEntryPresses(u: Setup, s0: State, s: State, cfg: MapCfg, d: int, b: int)
    requires WellFormed(u) && Shaped(u, s0) && Shaped(u, s) && cfg.dstId < |u.outputs| && Tracks(u, s0, s)
    requires BitOf(cfg.src) in u.mask && BitOf(cfg.src) in u.desc
    ensures Presses(s, MapAxis(u, s, cfg), PressesBit(u, s0, cfg, d, b), (d, b), cfg.turbo)
  {
    if AxisOf(cfg.src) != NONE {
      PointsTheWay(u, cfg);
      CoversSample(u, s0, s, cfg);
    }
  }

  lemma EntryPresses(u: Setup, s0: State, s: State, cfg: MapCfg, d: int, b: int)
    requires WellFormed(u) && Shaped(u, s0) && Shaped(u, s) && cfg.dstId < |u.outputs| && Tracks(u, s0, s)
    ensures Presses(s, MapEntry(u, s, cfg), PressesBit(u, s0, cfg, d, b), (d, b), cfg.turbo)
  {
    if BitOf(cfg.src) in u.mask && BitOf(cfg.src) in u.desc { AxisEntryPresses(u, s0, s, cfg, d, b); }
  }

  /** After any list exactly those output buttons are pressed that some entry's held input presses. */
  lemma {:induction false} PressedExactly(u: Setup, s0: State, cfgs: seq<MapCfg>, d: int, b: int)
    requires WellFormed(u) && Shaped(u, s0) && InRange(u, cfgs)
    ensures (d, b) in MapAll(u, s0, cfgs).pressed
         <==> (d, b) in s0.pressed || exists i :: 0 <= i < |cfgs| && PressesBit(u, s0, cfgs[i], d, b)
    decreases |cfgs|
  {
    if cfgs != [] {
      var n := |cfgs| - 1;
      PressedExactly(u, s0, cfgs[..n], d, b);
      MapAllTracks(u, s0, cfgs[..n]);
      EntryPresses(u, s0, MapAll(u, s0, cfgs[..n]), cfgs[n], d, b);
      if i :| 0 <= i < n && PressesBit(u, s0, cfgs[..n][i], d, b) { assert PressesBit(u, s0, cfgs[i], d, b); }
      if i :| 0 <= i < n && PressesBit(u, s0, cfgs[i], d, b) { assert PressesBit(u, s0, cfgs[..n][i], d, b); }
    }
  }

  /** A pressed button has the turbo setting of the last entry that presses it. */
  lemma {:induction false} LastPressSetsTurbo(u: Setup, s0: State, cfgs: seq<MapCfg>, i: nat, d: int, b: int)
    requires WellFormed(u) && Shaped(u, s0) && InRange(u, cfgs) && i < |cfgs| && PressesBit(u, s0, cfgs[i], d, b)
    requires forall j :: i < j < |cfgs| ==> !PressesBit(u, s0, cfgs[j], d, b)
    ensures var t := MapAll(u, s0, cfgs); (d, b) in t.btnTurbo && t.btnTurbo[(d, b)] == cfgs[i].turbo
    decreases |cfgs|
  {
    var n := |cfgs| - 1;
    MapAllTracks(u, s0, cfgs[..n]);
    EntryPresses(u, s0, MapAll(u, s0, cfgs[..n]), cfgs[n], d, b);
    if i < n {
      forall j | i < j < n ensures !PressesBit(u, s0, cfgs[..n][j], d, b) { assert cfgs[..n][j] == cfgs[j]; }
      LastPressSetsTurbo(u, s0, cfgs[..n], i, d, b);
    }
  }

  // ----- axes, without rounding

  function Id(x: real): real {
    x
  }

  lemma NoLess(x: real, y: real, b: real)
    requires b > 0.0 && x * b >= y * b
    ensures x >= y
  {
  }

  lemma Less(x: real, y: real, b: real)
    requires b > 0.0 && x * b < y * b
    ensures x < y
  {
  }

  /** A real quotient of integers becomes the integer quotient, on either side of zero. */
  lemma TruncIsQuotient(x: real, a: int, b: int)
    requires b > 0 && a >= 0 && x * (b as real) == a as real
    ensures Trunc(x) == a / b && Trunc(-x) == -(a / b)
  {
    var q := a / b;
    assert q * b <= a < (q + 1) * b;
    assert (q * b) as real == q as real * b as real;
    assert ((q + 1) * b) as real == (q + 1) as real * b as real;
    NoLess(x, q as real, b as real);
    Less(x, (q + 1) as real, b as real);
    assert q >= 0;
  }

  lemma ScaledIs(n: int, scale: real)
    ensures Scaled(Id, n, scale) == Trunc(n as real * scale)
  {
  }

  lemma OtherSide(v: int, scale: real)
    ensures (-v) as real * scale == -(v as real * scale)
  {
  }

  /** A value scaled to a quotient of integers becomes the integer quotient, with the sign. */
  lemma ScaledIsQuotient(sign: int, v: int, scale: real, a: int, b: int)
    requires b > 0 && a >= 0 && v as real * scale * (b as real) == a as real && (sign == 1 || sign == -1)
    ensures Scaled(Id, sign * v, scale) == sign * (a / b)
  {
    var q := a / b;
    TruncIsQuotient(v as real * scale, a, b);
    if sign == 1 {
      ScaledIs(v, scale);
      assert sign * v == v && sign * q == q;
    } else {
      ScaledIs(-v, scale);
      OtherSide(v, scale);
      assert sign * v == -v && sign * q == -q;
    }
  }

  /** The share that presses a button and the deadzone are whole parts of the range. */
  lemma ExactParts(cfg: MapCfg, src: SrcAxis, range: int, perc: nat)
    requires range >= 0
    ensures Share(Id, perc, range) == perc * range / 100
    ensures Deadzone(Id, cfg, src, range) == cfg.percDeadzone * range / 10000 + src.deadzone
  {
    TruncIsQuotient(perc as real / 100.0 * range as real, perc * range, 100);
    TruncIsQuotient(cfg.percDeadzone as real / 10000.0 * range as real, cfg.percDeadzone * range, 10000);
  }

  /** A pressed button gives its percentage of the end of the axis. */
  lemma ExactButton(cfg: MapCfg, meta: DstMeta)
    requires DstMax(meta, cfg.dst) >= 0
    ensures BtnAmount(Id, cfg, meta) == BtnSign(meta.inverted, cfg.dst) * (DstMax(meta, cfg.dst) * cfg.percMax / 100)
  {
    var m := DstMax(meta, cfg.dst);
    ScaledIsQuotient(BtnSign(meta.inverted, cfg.dst), m, cfg.percMax as real / 100.0, m * cfg.percMax, 100);
  }

  lemma ScaleBack(v: real, m: real, span: real, p: real)
    requires span > 0.0
    ensures v * (m / span * (p / 100.0)) * (span * 100.0) == v * m * p
  {
    var q, r := m / span, p / 100.0;
    assert q * span == m && r * 100.0 == p;
    calc {
      v * (q * r) * (span * 100.0);
      v * (q * span) * (r * 100.0);
      v * m * p;
    }
  }

  lemma LinearPart(sign: int, v: int, m: int, span: int, p: nat)
    requires v >= 0 && m >= 0 && span > 0 && (sign == 1 || sign == -1)
    ensures Scaled(Id, sign * v, LinearScale(Id, m, span, p)) == sign * (v * m * p / (span * 100))
  {
    var scale := m as real / span as real * (p as real / 100.0);
    ScaleBack(v as real, m as real, span as real, p as real);
    assert (span * 100) as real == span as real * 100.0;
    assert (v * m) as real == v as real * m as real;
    assert (v * m * p) as real == v as real * m as real * p as real;
    assert v * m >= 0 && v * m * p >= 0;
    ScaledIsQuotient(sign, v, scale, v * m * p, span * 100);
  }

  lemma PlainPart(sign: int, v: int, p: nat)
    requires v >= 0 && (sign == 1 || sign == -1)
    ensures Scaled(Id, sign * v, Percent(Id, p)) == sign * (v * p / 100)
  {
    assert v as real * (p as real / 100.0) * 100.0 == (v * p) as real;
    ScaledIsQuotient(sign, v, p as real / 100.0, v * p, 100);
  }

  /** An axis beyond its deadzone gives what it is beyond it: as a part of the source's span, in proportion
      to the destination's range and the percentage, or just that percentage of it. */
  lemma ExactAxis(cfg: MapCfg, src: SrcAxis, range: int, meta: DstMeta)
    requires DstMax(meta, cfg.dst) >= 0 && Abs(src.value) > Deadzone(Id, cfg, src, range) && range >= Abs(src.value)
    ensures KeepsPositive(Id)
    ensures var dz, m, sign := Deadzone(Id, cfg, src, range), DstMax(meta, cfg.dst), BtnSign(meta.inverted, cfg.dst);
            && range - dz > 0
            && AxisAmount(Id, cfg, src, range, meta) ==
                 if cfg.algo % 16 == 0 then sign * ((Abs(src.value) - dz) * m * cfg.percMax / ((range - dz) * 100))
                 else sign * ((Abs(src.value) - dz) * cfg.percMax / 100)
  {
    var dz, m, sign := Deadzone(Id, cfg, src, range), DstMax(meta, cfg.dst), BtnSign(meta.inverted, cfg.dst);
    if cfg.algo % 16 == 0 {
      LinearPart(sign, Abs(src.value) - dz, m, range - dz, cfg.percMax);
    } else {
      PlainPart(sign, Abs(src.value) - dz, cfg.percMax);
    }
  }

  // ----- which axis an entry moves, and whose settings it takes

  /** The entry connects an input to axis `axis` of output `d`. */
  predicate Aims(u: Setup, cfg: MapCfg, d: nat, axis: nat)
    requires cfg.dstId < |u.outputs|
  {
    Connects(u, cfg, d, BitOf(cfg.dst)) && BitOf(cfg.dst) in u.outputs[d].desc && AxisOf(cfg.dst) == axis
  }

  /** The input is an axis that points the entry's way. */
  predicate FromPointingAxis(u: Setup, cfg: MapCfg)
    requires WellFormed(u)
  {
    && BitOf(cfg.src) in u.desc && AxisOf(cfg.src) != NONE
    && var src := u.axes[AxisOf(cfg.src)];
       src.value == 0 || (src.value > 0) == (BtnSign(src.inverted, cfg.src) == 1)
  }

  /** What the entry gives the axis: the button's amount if it is pressed, or the axis's beyond the deadzone. */
  function Contribution(u: Setup, s0: State, cfg: MapCfg, d: nat, axis: nat): int
    requires WellFormed(u) && Shaped(u, s0) && cfg.dstId < |u.outputs| && axis < AXES
  {
    if !Aims(u, cfg, d, axis) then 0
    else
      var meta := u.outputs[d].meta[axis];
      if BitOf(cfg.src) !in u.desc then (if BitOf(cfg.src) in u.btns then BtnAmount(u.fl, cfg, meta) else 0)
      else if !FromPointingAxis(u, cfg) then 0
      else
        var src, range := u.axes[AxisOf(cfg.src)], CoveringRange(u, s0, cfg);
        if Abs(src.value) > Deadzone(u.fl, cfg, src, range) then AxisAmount(u.fl, cfg, src, range, meta) else 0
  }

  /** The axis after the entry: its contribution and turbo setting if that is the louder one; and the kind of
      the source axis if it is one. */
  predicate AxisMoved(u: Setup, s0: State, cfg: MapCfg, d: nat, axis: nat, was: OutAxis, now: OutAxis)
    requires WellFormed(u) && Shaped(u, s0) && cfg.dstId < |u.outputs| && axis < AXES
  {
    var x := Contribution(u, s0, cfg, d, axis);
    && (if Abs(x) > Abs(was.value) then now.value == x && now.turbo == cfg.turbo
        else now.value == was.value && now.turbo == was.turbo)
    && now.relative == if Aims(u, cfg, d, axis) && FromPointingAxis(u, cfg) then u.axes[AxisOf(cfg.src)].relative else was.relative
  }

  lemma AxisEntryMoves(u: Setup, s0: State, s: State, cfg: MapCfg, d: nat, axis: nat)
    requires WellFormed(u) && Shaped(u, s0) && Shaped(u, s) && cfg.dstId < |u.outputs| && Tracks(u, s0, s)
    requires BitOf(cfg.src) in u.mask && BitOf(cfg.src) in u.desc && d < |u.outputs| && axis < AXES
    ensures Key(d, axis) < |s.axes| && AxisMoved(u, s0, cfg, d, axis, s.axes[Key(d, axis)], MapAxis(u, s, cfg).axes[Key(d, axis)])
  {
    KeyInRange(u, d, axis);
    if AxisOf(cfg.src) != NONE {
      PointsTheWay(u, cfg);
      CoversSample(u, s0, s, cfg);
      if BitOf(cfg.dst) in u.outputs[cfg.dstId].desc {
        AxisOfDst(u, cfg);
        KeyInRange(u, cfg.dstId, AxisOf(cfg.dst));
        if Key(d, axis) == Key(cfg.dstId, AxisOf(cfg.dst)) { KeyIsUnique(d, axis, cfg.dstId, AxisOf(cfg.dst)); }
      }
    }
  }

  lemma EntryMoves(u: Setup, s0: State, s: State, cfg: MapCfg, d: nat, axis: nat)
    requires WellFormed(u) && Shaped(u, s0) && Shaped(u, s) && cfg.dstId < |u.outputs| && Tracks(u, s0, s)
    requires d < |u.outputs| && axis < AXES
    ensures Key(d, axis) < |s.axes| && AxisMoved(u, s0, cfg, d, axis, s.axes[Key(d, axis)], MapEntry(u, s, cfg).axes[Key(d, axis)])
  {
    KeyInRange(u, d, axis);
    if BitOf(cfg.src) in u.mask {
      if BitOf(cfg.src) in u.desc {
        AxisEntryMoves(u, s0, s, cfg, d, axis);
      } else if BitOf(cfg.dst) in u.outputs[cfg.dstId].desc {
        AxisOfDst(u, cfg);
        KeyInRange(u, cfg.dstId, AxisOf(cfg.dst));
        if Key(d, axis) == Key(cfg.dstId, AxisOf(cfg.dst)) { KeyIsUnique(d, axis, cfg.dstId, AxisOf(cfg.dst)); }
      }
    }
  }

  /** What the entries of a list give the axis. */
  function Contributions(u: Setup, s0: State, cfgs: seq<MapCfg>, d: nat, axis: nat): (xs: seq<int>)
    requires WellFormed(u) && Shaped(u, s0) && InRange(u, cfgs) && axis < AXES
    ensures |xs| == |cfgs|
  {
    seq(|cfgs|, i requires 0 <= i < |cfgs| => Contribution(u, s0, cfgs[i], d, axis))
  }

  predicate NoneLouder(xs: seq<int>, start: int) {
    forall j :: 0 <= j < |xs| ==> Abs(xs[j]) <= Abs(start)
  }

  /** Contribution `i` is the first of the loudest. */
  predicate FirstLoudest(xs: seq<int>, i: nat) {
    && i < |xs|
    && (forall j :: 0 <= j < i ==> Abs(xs[j]) < Abs(xs[i]))
    && forall j :: i < j < |xs| ==> Abs(xs[j]) <= Abs(xs[i])
  }

  /** An axis is as it was, if no contribution is louder, or has the value and the turbo setting of entry `i`,
      the first of the loudest. */
  predicate Won(xs: seq<int>, cfgs: seq<MapCfg>, i: nat, was: OutAxis, now: OutAxis)
    requires |xs| == |cfgs|
  {
    if NoneLouder(xs, was.value) then now.value == was.value && now.turbo == was.turbo
    else FirstLoudest(xs, i) && Abs(xs[i]) > Abs(was.value) && now.value == xs[i] && now.turbo == cfgs[i].turbo
  }

  lemma OneMoreEntry(xs: seq<int>, cfgs: seq<MapCfg>, i: nat, was: OutAxis, mid: OutAxis, now: OutAxis) returns (i': nat)
    requires |xs| == |cfgs| > 0 && Won(xs[..|xs| - 1], cfgs[..|xs| - 1], i, was, mid)
    requires var n := |xs| - 1;
             if Abs(xs[n]) > Abs(mid.value) then now.value == xs[n] && now.turbo == cfgs[n].turbo
             else now.value == mid.value && now.turbo == mid.turbo
    ensures Won(xs, cfgs, i', was, now)
  {
    var n := |xs| - 1;
    i' := if Abs(xs[n]) > Abs(mid.value) then n else i;
    if NoneLouder(xs[..n], was.value) {
      assert NoneLouder(xs, was.value) <==> Abs(xs[n]) <= Abs(was.value);
    } else {
      assert xs[..n][i] == xs[i] && !NoneLouder(xs, was.value);
    }
  }

  lemma LastEntryWins(u: Setup, s0: State, cfgs: seq<MapCfg>, i: nat, d: nat, axis: nat, mid: State) returns (i': nat)
    requires WellFormed(u) && Shaped(u, s0) && Shaped(u, mid) && InRange(u, cfgs) && cfgs != [] && Tracks(u, s0, mid)
    requires d < |u.outputs| && axis < AXES && Key(d, axis) < |s0.axes|
    requires var part := cfgs[..|cfgs| - 1];
             Won(Contributions(u, s0, part, d, axis), part, i, s0.axes[Key(d, axis)], mid.axes[Key(d, axis)])
    ensures Won(Contributions(u, s0, cfgs, d, axis), cfgs, i', s0.axes[Key(d, axis)],
                MapEntry(u, mid, cfgs[|cfgs| - 1]).axes[Key(d, axis)])
  {
    var part, last, k := cfgs[..|cfgs| - 1], cfgs[|cfgs| - 1], Key(d, axis);
    var xs := Contributions(u, s0, cfgs, d, axis);
    EntryMoves(u, s0, mid, last, d, axis);
    assert Contributions(u, s0, part, d, axis) == xs[..|part|];
    i' := OneMoreEntry(xs, cfgs, i, s0.axes[k], mid.axes[k], MapEntry(u, mid, last).axes[k]);
  }

  /** So it is after any list. */
  lemma {:induction false} FirstLoudestWins(u: Setup, s0: State, cfgs: seq<MapCfg>, d: nat, axis: nat) returns (i: nat)
    requires WellFormed(u) && Shaped(u, s0) && InRange(u, cfgs) && d < |u.outputs| && axis < AXES
    ensures Key(d, axis) < |s0.axes|
    ensures Won(Contributions(u, s0, cfgs, d, axis), cfgs, i, s0.axes[Key(d, axis)], MapAll(u, s0, cfgs).axes[Key(d, axis)])
    decreases |cfgs|
  {
    KeyInRange(u, d, axis);
    i := 0;
    if cfgs != [] {
      var part := cfgs[..|cfgs| - 1];
      i := FirstLoudestWins(u, s0, part, d, axis);
      MapAllTracks(u, s0, part);
      i := LastEntryWins(u, s0, cfgs, i, d, axis, MapAll(u, s0, part));
    }
  }

  /** Entry `i` is the last that aims at the axis from an axis pointing its way. */
  predicate LastAim(u: Setup, cfgs: seq<MapCfg>, i: nat, d: nat, axis: nat)
    requires WellFormed(u) && InRange(u, cfgs)
  {
    && i < |cfgs| && Aims(u, cfgs[i], d, axis) && FromPointingAxis(u, cfgs[i])
    && forall j :: i < j < |cfgs| ==> !(Aims(u, cfgs[j], d, axis) && FromPointingAxis(u, cfgs[j]))
  }

  lemma LastAimBefore(u: Setup, cfgs: seq<MapCfg>, i: nat, d: nat, axis: nat)
    requires WellFormed(u) && InRange(u, cfgs) && LastAim(u, cfgs, i, d, axis) && i < |cfgs| - 1
    ensures LastAim(u, cfgs[..|cfgs| - 1], i, d, axis)
  {
    assert forall j :: 0 <= j < |cfgs| - 1 ==> cfgs[..|cfgs| - 1][j] == cfgs[j];
  }

  /** The kind of a moved axis is that of the source of the last entry that aims at it from an axis pointing
      its way. */
  lemma {:induction false} LastAimSetsKind(u: Setup, s0: State, cfgs: seq<MapCfg>, i: nat, d: nat, axis: nat)
    requires WellFormed(u) && Shaped(u, s0) && InRange(u, cfgs) && d < |u.outputs| && axis < AXES && LastAim(u, cfgs, i, d, axis)
    ensures Key(d, axis) < |s0.axes| && AxisOf(cfgs[i].src) != NONE
    ensures MapAll(u, s0, cfgs).axes[Key(d, axis)].relative == u.axes[AxisOf(cfgs[i].src)].relative
    decreases |cfgs|
  {
    KeyInRange(u, d, axis);
    var part, last := cfgs[..|cfgs| - 1], cfgs[|cfgs| - 1];
    MapAllTracks(u, s0, part);
    EntryMoves(u, s0, MapAll(u, s0, part), last, d, axis);
    if i < |part| {
      LastAimBefore(u, cfgs, i, d, axis);
      LastAimSetsKind(u, s0, part, i, d, axis);
    }
  }

  /** A range on the side of some entry that may move something has grown to cover the sample; others stay. */
  predicate GrowsRange(u: Setup, cfg: MapCfg, a: nat, max: bool)
    requires WellFormed(u) && cfg.dstId < |u.outputs| && a < AXES
  {
    && Connects(u, cfg, cfg.dstId, BitOf(cfg.dst)) && FromPointingAxis(u, cfg) && AxisOf(cfg.src) == a
    && (BtnSign(u.axes[a].inverted, cfg.src) == 1) == max
  }

  function RangeOf(s: State, a: nat, max: bool): int
    requires a < |s.absMax| && a < |s.absMin|
  {
    if max then s.absMax[a] else s.absMin[a]
  }

  lemma EntryGrows(u: Setup, s: State, cfg: MapCfg, a: nat, max: bool)
    requires WellFormed(u) && Shaped(u, s) && cfg.dstId < |u.outputs| && a < AXES
    ensures RangeOf(MapEntry(u, s, cfg), a, max) ==
            if GrowsRange(u, cfg, a, max) && Abs(u.axes[a].value) > RangeOf(s, a, max) then Abs(u.axes[a].value)
            else RangeOf(s, a, max)
  {
    if AxisOf(cfg.src) != NONE { PointsTheWay(u, cfg); }
  }

  predicate SomeGrows(u: Setup, cfgs: seq<MapCfg>, a: nat, max: bool)
    requires WellFormed(u) && InRange(u, cfgs) && a < AXES
  {
    exists i :: 0 <= i < |cfgs| && GrowsRange(u, cfgs[i], a, max)
  }

  lemma SomeGrowsOrLast(u: Setup, cfgs: seq<MapCfg>, a: nat, max: bool)
    requires WellFormed(u) && InRange(u, cfgs) && a < AXES && cfgs != []
    ensures SomeGrows(u, cfgs, a, max) <==>
            SomeGrows(u, cfgs[..|cfgs| - 1], a, max) || GrowsRange(u, cfgs[|cfgs| - 1], a, max)
  {
    var n := |cfgs| - 1;
    if i :| 0 <= i < n && GrowsRange(u, cfgs[..n][i], a, max) { assert GrowsRange(u, cfgs[i], a, max); }
    if i :| 0 <= i < n && GrowsRange(u, cfgs[i], a, max) { assert GrowsRange(u, cfgs[..n][i], a, max); }
  }

  /** After any list the range on a side covers the sample if some entry used it on that side, and is as it
      was otherwise. */
  lemma {:induction false} RangesGrowExactly(u: Setup, s0: State, cfgs: seq<MapCfg>, a: nat, max: bool)
    requires WellFormed(u) && Shaped(u, s0) && InRange(u, cfgs) && a < AXES
    ensures RangeOf(MapAll(u, s0, cfgs), a, max) ==
            if SomeGrows(u, cfgs, a, max) && Abs(u.axes[a].value) > RangeOf(s0, a, max) then Abs(u.axes[a].value)
            else RangeOf(s0, a, max)
    decreases |cfgs|
  {
    if cfgs != [] {
      var n := |cfgs| - 1;
      RangesGrowExactly(u, s0, cfgs[..n], a, max);
      EntryGrows(u, MapAll(u, s0, cfgs[..n]), cfgs[n], a, max);
      SomeGrowsOrLast(u, cfgs, a, max);
    }
  }
}
