/**
 What a whole mapping list guarantees: linear entries never leave the range of their output axis, and the
 flags are exact.
 */
module MappingLaws {
  import opened SinglePrecision
  import opened AxisMapping

  // ----- bounds

  predicate WithinMeta(meta: DstMeta, value: int) {
    -meta.absMin <= value <= meta.absMax
  }

  /** Every output axis is inside the range its output declares. */
  ghost predicate Bounded(u: Setup, s: State)
    requires WellFormed(u) && Shaped(u, s)
  {
    forall d: nat, axis: nat :: d < |u.outputs| && axis < AXES ==>
      0 <= Key(d, axis) < |s.axes| && WithinMeta(u.outputs[d].meta[axis], s.axes[Key(d, axis)].value)
  }

  ghost predicate SensibleMeta(u: Setup) {
    forall d: nat, axis: nat :: d < |u.outputs| && axis < |u.outputs[d].meta| ==>
      Sensible(u.outputs[d].meta[axis])
  }

  predicate Sensible(meta: DstMeta) {
    0 <= meta.absMax <= RANGE_MAX && 0 <= meta.absMin <= RANGE_MAX
  }

  predicate Linear(cfg: MapCfg) {
    cfg.algo % 16 == LINEAR && cfg.percMax <= 100
  }

  predicate AllLinear(cfgs: seq<MapCfg>) {
    forall i :: 0 <= i < |cfgs| ==> Linear(cfgs[i])
  }

  lemma TruncBetween(r: real, lo: int, hi: int)
    requires 0 <= lo <= hi && (lo - 1) as real < r < (hi + 1) as real && r >= 0.0
    ensures (if lo > 0 then lo - 1 else 0) <= Trunc(r) <= hi && Trunc(-r) == -Trunc(r)
  {
  }

  /** A product below `m` + 1 becomes an integer within `m`, on the side that the button number points to. */
  lemma SignedTrunc(fl: real -> real, meta: DstMeta, btn: nat, v: int, scale: real)
    requires Rounding(fl) && Sensible(meta)
    requires 0.0 <= Mul(fl, Of(fl, v), scale) < (DstMax(meta, btn) + 1) as real
    ensures WithinMeta(meta, Scaled(fl, BtnSign(meta.inverted, btn) * v, scale))
    ensures Scaled(fl, BtnSign(meta.inverted, btn) * v, scale) == BtnSign(meta.inverted, btn) * Scaled(fl, v, scale)
  {
    Negated(fl, v, Of(fl, v), scale);
    TruncBetween(Mul(fl, Of(fl, v), scale), 0, DstMax(meta, btn));
  }

  lemma LinearScaleWithin(fl: real -> real, m: int, span: int, percMax: nat, v: int)
    requires Rounding(fl) && 0 < v <= span && percMax <= 100 && 0 <= m <= RANGE_MAX
    ensures Of(fl, span) > 0.0 && 0.0 <= Mul(fl, Of(fl, v), LinearScale(fl, m, span, percMax)) < (m + 1) as real
  {
    Positive(fl, v, span);
    Exact(fl, m);
    PercentIsShare(fl, percMax);
    ScaledPart(fl, m, Of(fl, v), Of(fl, span), Percent(fl, percMax));
  }

  /**
   Because the source range covers the sample, the divisor is positive; and despite the roundings the
   scaled value stays in the range of the destination.
   */
  lemma AxisAmountWithin(fl: real -> real, cfg: MapCfg, src: SrcAxis, range: int, meta: DstMeta)
    requires Rounding(fl) && KeepsPositive(fl)
    requires Abs(src.value) > Deadzone(fl, cfg, src, range) && range >= Abs(src.value)
    requires Linear(cfg) && Sensible(meta)
    ensures range - Deadzone(fl, cfg, src, range) > 0 && WithinMeta(meta, AxisAmount(fl, cfg, src, range, meta))
  {
    var v, span := Abs(src.value) - Deadzone(fl, cfg, src, range), range - Deadzone(fl, cfg, src, range);
    LinearScaleWithin(fl, DstMax(meta, cfg.dst), span, cfg.percMax, v);
    SignedTrunc(fl, meta, cfg.dst, v, LinearScale(fl, DstMax(meta, cfg.dst), span, cfg.percMax));
  }

  lemma BtnAmountWithin(fl: real -> real, cfg: MapCfg, meta: DstMeta)
    requires Rounding(fl) && Linear(cfg) && Sensible(meta)
    ensures WithinMeta(meta, BtnAmount(fl, cfg, meta))
  {
    var m := DstMax(meta, cfg.dst);
    Exact(fl, m);
    PercentIsShare(fl, cfg.percMax);
    ShareOf(fl, m as real, Percent(fl, cfg.percMax));
    SignedTrunc(fl, meta, cfg.dst, m, Percent(fl, cfg.percMax));
  }

  lemma AxisOfDst(u: Setup, cfg: MapCfg)
    requires WellFormed(u) && cfg.dstId < |u.outputs| && BitOf(cfg.dst) in u.outputs[cfg.dstId].desc
    ensures 0 <= AxisOf(cfg.dst) < AXES
  {
  }

  /** Replacing one axis by a value in its range keeps every axis in range. */
  lemma SetKeepsBounded(u: Setup, s: State, d: nat, axis: nat, next: OutAxis)
    requires WellFormed(u) && Shaped(u, s) && Bounded(u, s) && d < |u.outputs| && axis < AXES
    requires WithinMeta(u.outputs[d].meta[axis], next.value)
    ensures Key(d, axis) < |s.axes| && Bounded(u, s.(axes := s.axes[Key(d, axis) := next]))
  {
    KeyInRange(u, d, axis);
    var t := s.(axes := s.axes[Key(d, axis) := next]);
    forall d': nat, axis': nat | d' < |u.outputs| && axis' < AXES
      ensures 0 <= Key(d', axis') < |t.axes| && WithinMeta(u.outputs[d'].meta[axis'], t.axes[Key(d', axis')].value)
    {
      KeyInRange(u, d', axis');
      if Key(d', axis') == Key(d, axis) { KeyIsUnique(d, axis, d', axis'); }
    }
  }

  lemma FromAxisKeepsBounded(u: Setup, s: State, cfg: MapCfg)
    requires WellFormed(u) && Shaped(u, s) && cfg.dstId < |u.outputs| && AxisOf(cfg.src) != NONE
    requires Range(u, s, cfg) >= Abs(u.axes[AxisOf(cfg.src)].value)
    requires Rounding(u.fl) && SensibleMeta(u) && Linear(cfg) && Bounded(u, s)
    ensures Bounded(u, FromAxis(u, s, cfg))
  {
    var src, range, out := u.axes[AxisOf(cfg.src)], Range(u, s, cfg), u.outputs[cfg.dstId];
    if BitOf(cfg.dst) in out.desc {
      AxisOfDst(u, cfg);
      KeyInRange(u, cfg.dstId, AxisOf(cfg.dst));
      if Abs(src.value) > Deadzone(u.fl, cfg, src, range) {
        AxisAmountWithin(u.fl, cfg, src, range, out.meta[AxisOf(cfg.dst)]);
      }
      SetKeepsBounded(u, s, cfg.dstId, AxisOf(cfg.dst), FromAxis(u, s, cfg).axes[Key(cfg.dstId, AxisOf(cfg.dst))]);
    }
  }

  lemma EntryKeepsBounded(u: Setup, s: State, cfg: MapCfg)
    requires WellFormed(u) && Shaped(u, s) && cfg.dstId < |u.outputs|
    requires Rounding(u.fl) && SensibleMeta(u) && Linear(cfg) && Bounded(u, s)
    ensures Bounded(u, MapEntry(u, s, cfg))
  {
    if BitOf(cfg.src) in u.mask {
      if BitOf(cfg.src) in u.desc {
        if AxisOf(cfg.src) != NONE && BitOf(cfg.dst) in u.outputs[cfg.dstId].mask && SignFits(u, cfg) {
          assert Bounded(u, Grow(u, s, cfg));
          FromAxisKeepsBounded(u, Grow(u, s, cfg), cfg);
        }
      } else if BitOf(cfg.dst) in u.outputs[cfg.dstId].desc {
        AxisOfDst(u, cfg);
        KeyInRange(u, cfg.dstId, AxisOf(cfg.dst));
        var meta, k := u.outputs[cfg.dstId].meta[AxisOf(cfg.dst)], Key(cfg.dstId, AxisOf(cfg.dst));
        BtnAmountWithin(u.fl, cfg, meta);
        SetKeepsBounded(u, s, cfg.dstId, AxisOf(cfg.dst), Offer(s.axes[k], BtnAmount(u.fl, cfg, meta), cfg.turbo));
      }
    }
  }

  /** From outputs at rest, whatever list of linear entries is mapped, every axis stays in its range. */
  lemma {:induction false} LinearMappingIsBounded(u: Setup, ranges: seq<(int, int)>, cfgs: seq<MapCfg>)
    requires WellFormed(u) && |ranges| == AXES && InRange(u, cfgs) && Rounding(u.fl) && SensibleMeta(u) && AllLinear(cfgs)
    ensures Bounded(u, MapAll(u, Initial(u, ranges), cfgs))
    decreases |cfgs|
  {
    if cfgs == [] {
      forall d: nat, axis: nat | d < |u.outputs| && axis < AXES ensures 0 <= Key(d, axis) < AXES * |u.outputs| {
        KeyInRange(u, d, axis);
      }
    } else {
      LinearMappingIsBounded(u, ranges, cfgs[..|cfgs| - 1]);
      EntryKeepsBounded(u, MapAll(u, Initial(u, ranges), cfgs[..|cfgs| - 1]), cfgs[|cfgs| - 1]);
    }
  }

  // ----- flags

  /** A flagged output bit belongs to an output that is reported as touched, for any list. */
  lemma {:induction false} FlaggedOutputsAreReported(u: Setup, s: State, cfgs: seq<MapCfg>, d: int, b: int)
    requires WellFormed(u) && Shaped(u, s) && InRange(u, cfgs)
    requires (d, b) in MapAll(u, s, cfgs).mapMask
    ensures (d, b) in s.mapMask || d in OutMaskAll(u, cfgs)
    decreases |cfgs|
  {
    if cfgs != [] {
      var before := MapAll(u, s, cfgs[..|cfgs| - 1]);
      if (d, b) in before.mapMask { FlaggedOutputsAreReported(u, s, cfgs[..|cfgs| - 1], d, b); }
    }
  }

  /** The entry names an input that exists and an output bit that exists. */
  predicate Connects(u: Setup, cfg: MapCfg, d: int, b: int)
    requires cfg.dstId < |u.outputs|
  {
    d in OutMask(u, cfg) && b == BitOf(cfg.dst) && b in u.outputs[cfg.dstId].mask
  }

  /** Exactly the output bits that some entry connects are flagged, pressed or not. */
  lemma {:induction false} FlagsAreExact(u: Setup, s: State, cfgs: seq<MapCfg>, d: int, b: int)
    requires WellFormed(u) && Shaped(u, s) && InRange(u, cfgs)
    ensures (d, b) in MapAll(u, s, cfgs).mapMask
         <==> (d, b) in s.mapMask || exists i :: 0 <= i < |cfgs| && Connects(u, cfgs[i], d, b)
    decreases |cfgs|
  {
    if cfgs != [] {
      var n := |cfgs| - 1;
      FlagsAreExact(u, s, cfgs[..n], d, b);
      EntryFlags(u, MapAll(u, s, cfgs[..n]), cfgs[n], d, b);
      forall i | 0 <= i < n ensures Connects(u, cfgs[..n][i], d, b) == Connects(u, cfgs[i], d, b) {}
      if i :| 0 <= i < n && Connects(u, cfgs[..n][i], d, b) { assert Connects(u, cfgs[i], d, b); }
    }
  }

  lemma EntryFlags(u: Setup, s: State, cfg: MapCfg, d: int, b: int)
    requires WellFormed(u) && Shaped(u, s) && cfg.dstId < |u.outputs|
    ensures (d, b) in MapEntry(u, s, cfg).mapMask <==> (d, b) in s.mapMask || Connects(u, cfg, d, b)
  {
  }
}
