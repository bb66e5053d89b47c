/**
 Whether a stick at the end of its own range drives its output to the end of the output's range.
 Single-precision rounding decides.
 */
module FullDeflection {
  import opened SinglePrecision
  import opened AxisMapping
  import opened MappingLaws

  /** The source is at the end of its range and the entry passes all of it on. */
  ghost predicate AtTheEnd(fl: real -> real, cfg: MapCfg, src: SrcAxis, range: int, meta: DstMeta) {
    && Rounding(fl) && KeepsPositive(fl)
    && Abs(src.value) > Deadzone(fl, cfg, src, range) && range == Abs(src.value)
    && cfg.algo % 16 == LINEAR && cfg.percMax == 100 && Sensible(meta)
  }

  function Span(fl: real -> real, cfg: MapCfg, src: SrcAxis, range: int): int {
    range - Deadzone(fl, cfg, src, range)
  }

  /** The span times the quotient of the output's range by the span, in floats: what a caller can compute. */
  function SpanBack(fl: real -> real, m: int, span: int): real
    requires Of(fl, span) > 0.0
  {
    Mul(fl, Of(fl, span), Div(fl, m as real, Of(fl, span)))
  }

  /** The output is that product as an integer, and it is within one of the end. */
  lemma OutputIsSpanBack(fl: real -> real, cfg: MapCfg, src: SrcAxis, range: int, meta: DstMeta)
    requires AtTheEnd(fl, cfg, src, range, meta)
    ensures var m, span := DstMax(meta, cfg.dst), Span(fl, cfg, src, range);
            && Of(fl, span) > 0.0 && (m - 1) as real < SpanBack(fl, m, span) < (m + 1) as real && SpanBack(fl, m, span) >= 0.0
            && AxisAmount(fl, cfg, src, range, meta) == BtnSign(meta.inverted, cfg.dst) * Trunc(SpanBack(fl, m, span))
  {
    var v, m := Span(fl, cfg, src, range), DstMax(meta, cfg.dst);
    var scale := LinearScale(fl, m, v, 100);
    LinearScaleWithin(fl, m, v, 100, v);
    SignedTrunc(fl, meta, cfg.dst, v, scale);
    Positive(fl, v, v);
    Exact(fl, m);
    PercentIsShare(fl, 100);
    WholeScale(fl, m, Of(fl, v));
    ScaledWhole(fl, m, Of(fl, v));
  }

  /** All of the quotient is the quotient. */
  lemma WholeScale(fl: real -> real, m: int, sf: real)
    requires Rounding(fl) && 0 <= m <= RANGE_MAX && sf >= 1.0
    ensures Mul(fl, Div(fl, m as real, sf), 1.0) == Div(fl, m as real, sf)
  {
    QuotientBack(fl, m, sf);
    ShareOf(fl, Div(fl, m as real, sf), 1.0);
  }

  /** The output comes to the end of its range or one less. */
  lemma FullDeflectionComesWithinOne(fl: real -> real, cfg: MapCfg, src: SrcAxis, range: int, meta: DstMeta)
    requires AtTheEnd(fl, cfg, src, range, meta)
    ensures var m, sign := DstMax(meta, cfg.dst), BtnSign(meta.inverted, cfg.dst);
            AxisAmount(fl, cfg, src, range, meta) == sign * m || AxisAmount(fl, cfg, src, range, meta) == sign * (m - 1)
  {
    OutputIsSpanBack(fl, cfg, src, range, meta);
    TruncBetween(SpanBack(fl, DstMax(meta, cfg.dst), Span(fl, cfg, src, range)), DstMax(meta, cfg.dst), DstMax(meta, cfg.dst));
  }

  /** The end is reached exactly when the product is not rounded below it. */
  lemma EndIsReachedExactly(fl: real -> real, cfg: MapCfg, src: SrcAxis, range: int, meta: DstMeta)
    requires AtTheEnd(fl, cfg, src, range, meta)
    ensures var m, span := DstMax(meta, cfg.dst), Span(fl, cfg, src, range);
            && Of(fl, span) > 0.0
            && (AxisAmount(fl, cfg, src, range, meta) == BtnSign(meta.inverted, cfg.dst) * m <==>
                SpanBack(fl, m, span) >= m as real)
  {
    OutputIsSpanBack(fl, cfg, src, range, meta);
  }

  lemma ProductAtLeast(sf: real, x: real, q: real, m: real)
    requires sf > 0.0 && 0.0 <= x && x * sf == m && q >= x
    ensures sf * q >= m
  {
    Product(sf, sf, x, q);
  }

  lemma RoundedProductAtLeast(fl: real -> real, m: int, sf: real, q: real)
    requires Rounding(fl) && 0 <= m <= RANGE_MAX && sf * q >= m as real
    ensures Mul(fl, sf, q) >= m as real
  {
    Exact(fl, m);
    Ordered(fl, m as real, sf * q);
  }

  /** For that it suffices that the quotient is not rounded down. */
  lemma QuotientRoundedUpSuffices(fl: real -> real, m: int, span: int)
    requires Rounding(fl) && 0 <= m <= RANGE_MAX && span > 0
    ensures Of(fl, span) > 0.0
    ensures Div(fl, m as real, Of(fl, span)) >= m as real / Of(fl, span) ==> SpanBack(fl, m, span) >= m as real
  {
    Positive(fl, span, span);
    var sf := Of(fl, span);
    var q := Div(fl, m as real, sf);
    Quotient(m as real, sf);
    if q >= m as real / sf {
      ProductAtLeast(sf, m as real / sf, q, m as real);
      RoundedProductAtLeast(fl, m, sf, q);
    }
  }

  lemma WholeQuotient(m: real, s: real, k: real)
    requires s > 0.0 && m == k * s
    ensures m / s == k && s * k == m
  {
  }

  lemma NonNegative(a: int, b: int)
    requires a >= 0 && b >= 0
    ensures a * b >= 0
  {
  }

  lemma FactorBounds(m: int, k: int, span: int)
    requires m == k * span && m > 0 && span > 0 && k > 0
    ensures k <= m && span <= m
  {
    NonNegative(k, span - 1);
    NonNegative(k - 1, span);
    assert k * (span - 1) == m - k && (k - 1) * span == m - span;
  }

  lemma FactorsAsReals(m: int, k: int, span: int)
    requires m == k * span
    ensures m as real == k as real * span as real
  {
  }

  /** And for that, that the span divides the range, which needs no floats to check. */
  lemma DividingSpanSuffices(fl: real -> real, m: int, span: int)
    requires Rounding(fl) && 0 <= m <= RANGE_MAX && span > 0 && m % span == 0
    ensures Of(fl, span) > 0.0 && SpanBack(fl, m, span) == m as real
  {
    Positive(fl, span, span);
    if m == 0 {
      ZeroBack(fl, span);
    } else {
      var k := m / span;
      assert k > 0;
      FactorBounds(m, k, span);
      FactorsAsReals(m, k, span);
      BackExactly(fl, m, span, k);
    }
  }

  lemma BackExactly(fl: real -> real, m: int, span: int, k: int)
    requires Rounding(fl) && 0 < span <= m <= RANGE_MAX && 0 <= k <= m && m as real == k as real * span as real
    ensures Of(fl, span) > 0.0 && SpanBack(fl, m, span) == m as real
  {
    Exact(fl, span);
    Exact(fl, k);
    Exact(fl, m);
    QuotientExactly(fl, m as real, span as real, k as real);
    assert Of(fl, span) == span as real;
  }

  lemma QuotientExactly(fl: real -> real, m: real, s: real, k: real)
    requires s > 0.0 && m == k * s && fl(k) == k && fl(m) == m
    ensures Div(fl, m, s) == k && Mul(fl, s, k) == m
  {
    WholeQuotient(m, s, k);
  }

  lemma ZeroBack(fl: real -> real, span: int)
    requires Rounding(fl) && span > 0 && Of(fl, span) > 0.0
    ensures SpanBack(fl, 0, span) == 0.0
  {
    Exact(fl, 0);
    assert 0.0 / Of(fl, span) == 0.0 && Of(fl, span) * 0.0 == 0.0;
  }

  /** Either condition, for the output itself. */
  lemma EndIsReachedIf(fl: real -> real, cfg: MapCfg, src: SrcAxis, range: int, meta: DstMeta)
    requires AtTheEnd(fl, cfg, src, range, meta)
    ensures var m, span := DstMax(meta, cfg.dst), Span(fl, cfg, src, range);
            && span > 0 && Of(fl, span) > 0.0
            && (m % span == 0 || Div(fl, m as real, Of(fl, span)) >= m as real / Of(fl, span) ==>
                  AxisAmount(fl, cfg, src, range, meta) == BtnSign(meta.inverted, cfg.dst) * m)
  {
    var m, span := DstMax(meta, cfg.dst), Span(fl, cfg, src, range);
    EndIsReachedExactly(fl, cfg, src, range, meta);
    if m % span == 0 { DividingSpanSuffices(fl, m, span); }
    QuotientRoundedUpSuffices(fl, m, span);
  }

  // ----- an input that falls short

  /** The floats nearest to 100 / 97 and to 97 times that. */
  const NEAREST_QUOTIENT: real := 8648049.0 / 8388608.0
  const NEAREST_PRODUCT: real := 13107199.0 / 131072.0

  /** Floats between 1 and 2 are multiples of the unit 2^-23, those between 64 and 128 of 2^-17. */
  lemma NearestFloats()
    ensures -0.5 / 8388608.0 < NEAREST_QUOTIENT - 100.0 / 97.0 < 0.5 / 8388608.0
    ensures -0.5 / 131072.0 < NEAREST_PRODUCT - 97.0 * NEAREST_QUOTIENT < 0.5 / 131072.0
    ensures 1.0 < NEAREST_QUOTIENT < 2.0 && 64.0 < NEAREST_PRODUCT < 100.0
  {
  }

  ghost predicate RoundsNearest(fl: real -> real) {
    && Rounding(fl) && KeepsPositive(fl)
    && fl(100.0 / 97.0) == NEAREST_QUOTIENT && fl(97.0 * NEAREST_QUOTIENT) == NEAREST_PRODUCT
  }

  /** One less does happen: a source of range 100 with deadzone 3 drives an output of range 100 to 99. */
  lemma FullDeflectionCanFallShort(fl: real -> real, cfg: MapCfg, src: SrcAxis, meta: DstMeta)
    requires RoundsNearest(fl)
    requires cfg.algo % 16 == LINEAR && cfg.percMax == 100 && cfg.percDeadzone == 0 && cfg.dst == 1
    requires src.value == 100 && src.deadzone == 3 && meta == DstMeta(100, 100, false)
    ensures AtTheEnd(fl, cfg, src, 100, meta) && Span(fl, cfg, src, 100) == 97
    ensures AxisAmount(fl, cfg, src, 100, meta) == 99
  {
    Exact(fl, 0);
    Exact(fl, 97);
    Exact(fl, 100);
    PercentIsShare(fl, 100);
    Kept(fl, 100.0 / 97.0);
    NearestFloats();
  }

  /** A rounding that only moves the two values, what lies between them and their floats, and their negatives. */
  function Collapse(x: real): real {
    if x < 0.0 then -CollapsePositive(-x) else CollapsePositive(x)
  }

  function CollapsePositive(x: real): real {
    if NEAREST_QUOTIENT <= x <= 100.0 / 97.0 then NEAREST_QUOTIENT
    else if NEAREST_PRODUCT <= x <= 97.0 * NEAREST_QUOTIENT then NEAREST_PRODUCT
    else x
  }

  lemma CollapseIsClose(x: real)
    requires x >= 0.0
    ensures x - x * HALF_ULP <= CollapsePositive(x) <= x + x * HALF_ULP && CollapsePositive(x) >= 0.0
  {
    assert x * HALF_ULP >= 0.0;
  }

  /** No integer lies where values are moved. */
  lemma CollapseKeepsIntegers(x: real)
    requires SmallInt(x)
    ensures Collapse(x) == x
  {
    var n := x.Floor;
    assert x == n as real;
  }

  lemma CollapseKeeps(x: real)
    ensures Collapse(Collapse(x)) == Collapse(x) && Collapse(-x) == -Collapse(x)
  {
    NearestFloats();
  }

  lemma CollapseOrders(x: real, y: real)
    requires x <= y
    ensures Collapse(x) <= Collapse(y)
  {
    NearestFloats();
  }

  /** The assumptions above can be met. */
  lemma CollapseRoundsNearest()
    ensures RoundsNearest(Collapse)
  {
    var fl: real -> real := Collapse;
    forall x: real, y: real {:trigger Used(x), Used(y)} | x <= y ensures fl(x) <= fl(y) {
      CollapseOrders(x, y);
    }
    forall x: real {:trigger Used(x)}
      ensures SmallInt(x) ==> fl(x) == x
      ensures fl(fl(x)) == fl(x) && fl(-x) == -fl(x)
      ensures x >= 0.0 ==> x - x * HALF_ULP <= fl(x) <= x + x * HALF_ULP
    {
      if SmallInt(x) { CollapseKeepsIntegers(x); }
      CollapseKeeps(x);
      if x >= 0.0 { CollapseIsClose(x); }
    }
    assert Rounding(fl);
    RoundingKeepsPositive(fl);
  }
}
