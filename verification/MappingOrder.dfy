/**
 The order of a mapping list: it does not matter to buttons, axis magnitudes, flags or grown ranges, and
 matters to the sign of an axis exactly when entries oppose each other.
 */
module MappingOrder {
  import opened SinglePrecision
  import opened AxisMapping

  function Max(x: int, y: int): int {
    if x < y then y else x
  }

  /** The value of larger magnitude; of two equal magnitudes the first. */
  function Louder(x: int, y: int): int {
    if Abs(y) > Abs(x) then y else x
  }

  /** The entry applied to outputs at rest. */
  function Alone(u: Setup, s0: State, cfg: MapCfg): (s: State)
    requires WellFormed(u) && Shaped(u, s0) && cfg.dstId < |u.outputs|
    ensures Shaped(u, s)
  {
    MapEntry(u, Rest(u, s0), cfg)
  }

  /** The same source ranges, with the outputs at rest. */
  function Rest(u: Setup, s0: State): (s: State)
    requires Shaped(u, s0)
    ensures Shaped(u, s)
  {
    s0.(axes := seq(AXES * |u.outputs|, _ => OutAxis(0, 0, 0)), pressed := {}, btnTurbo := map[], mapMask := {})
  }

  /** A source range is as it was at first, or has grown to cover the one sample there is. */
  ghost predicate Tracks(u: Setup, s0: State, s: State)
    requires WellFormed(u) && Shaped(u, s0) && Shaped(u, s)
  {
    forall a :: 0 <= a < AXES ==>
      && (s.absMax[a] == s0.absMax[a] || s.absMax[a] == Grown(s0.absMax[a], u.axes[a].value))
      && (s.absMin[a] == s0.absMin[a] || s.absMin[a] == Grown(s0.absMin[a], u.axes[a].value))
  }

  /** `t` is what `s` and the lone effect `e` come to together. */
  ghost predicate Joins(u: Setup, t: State, s: State, e: State)
    requires Shaped(u, t) && Shaped(u, s) && Shaped(u, e)
  {
    && t.pressed == s.pressed + e.pressed && t.mapMask == s.mapMask + e.mapMask
    && (forall a :: 0 <= a < AXES ==> t.absMax[a] == Max(s.absMax[a], e.absMax[a]))
    && (forall a :: 0 <= a < AXES ==> t.absMin[a] == Max(s.absMin[a], e.absMin[a]))
    && forall k :: 0 <= k < |t.axes| ==> t.axes[k].value == Louder(s.axes[k].value, e.axes[k].value)
  }

  /** Growing a range depends only on the sample and on the range at first. */
  lemma GrowTracks(u: Setup, s0: State, s: State, cfg: MapCfg)
    requires WellFormed(u) && Shaped(u, s0) && Shaped(u, s) && AxisOf(cfg.src) != NONE && Tracks(u, s0, s)
    ensures Tracks(u, s0, Grow(u, s, cfg)) && Joins(u, Grow(u, s, cfg), s, Grow(u, Rest(u, s0), cfg))
    ensures Range(u, Grow(u, s, cfg), cfg) == Range(u, Grow(u, Rest(u, s0), cfg), cfg)
  {
  }

  /** With the same source range, what an entry adds does not depend on what is there. */
  lemma FromAxisJoins(u: Setup, s: State, t: State, e: State, cfg: MapCfg)
    requires WellFormed(u) && Shaped(u, s) && Shaped(u, t) && Shaped(u, e) && Joins(u, t, s, e)
    requires cfg.dstId < |u.outputs| && AxisOf(cfg.src) != NONE
    requires Range(u, t, cfg) == Range(u, e, cfg) >= Abs(u.axes[AxisOf(cfg.src)].value)
    ensures Joins(u, FromAxis(u, t, cfg), s, FromAxis(u, e, cfg))
    ensures FromAxis(u, t, cfg).absMax == t.absMax && FromAxis(u, t, cfg).absMin == t.absMin
  {
    if BitOf(cfg.dst) in u.outputs[cfg.dstId].desc {
      KeyInRange(u, cfg.dstId, AxisOf(cfg.dst));
      var k := Key(cfg.dstId, AxisOf(cfg.dst));
      var t', e' := FromAxis(u, t, cfg), FromAxis(u, e, cfg);
      assert t'.axes[k].value == Louder(s.axes[k].value, e'.axes[k].value);
    }
  }

  lemma FlagJoins(u: Setup, t: State, s: State, e: State, cfg: MapCfg)
    requires Shaped(u, t) && Shaped(u, s) && Shaped(u, e) && Joins(u, t, s, e)
    ensures Joins(u, Flag(t, cfg), s, Flag(e, cfg))
  {
  }

  lemma RestJoins(u: Setup, s0: State, s: State)
    requires WellFormed(u) && Shaped(u, s0) && Shaped(u, s) && Tracks(u, s0, s)
    ensures Joins(u, s, s, Rest(u, s0))
  {
  }

  lemma MapAxisJoins(u: Setup, s0: State, s: State, cfg: MapCfg)
    requires WellFormed(u) && Shaped(u, s0) && Shaped(u, s) && cfg.dstId < |u.outputs| && Tracks(u, s0, s)
    ensures Joins(u, MapAxis(u, s, cfg), s, MapAxis(u, Rest(u, s0), cfg)) && Tracks(u, s0, MapAxis(u, s, cfg))
  {
    var r := Rest(u, s0);
    RestJoins(u, s0, s);
    if AxisOf(cfg.src) != NONE && BitOf(cfg.dst) in u.outputs[cfg.dstId].mask {
      if SignFits(u, cfg) {
        GrowTracks(u, s0, s, cfg);
        FromAxisJoins(u, s, Grow(u, s, cfg), Grow(u, r, cfg), cfg);
        FlagJoins(u, FromAxis(u, Grow(u, s, cfg), cfg), s, FromAxis(u, Grow(u, r, cfg), cfg), cfg);
      } else {
        FlagJoins(u, s, s, r, cfg);
      }
    }
  }

  lemma MapBtnJoins(u: Setup, s0: State, s: State, cfg: MapCfg)
    requires WellFormed(u) && Shaped(u, s0) && Shaped(u, s) && cfg.dstId < |u.outputs| && Tracks(u, s0, s)
    ensures Joins(u, MapBtn(u, s, cfg), s, MapBtn(u, Rest(u, s0), cfg)) && Tracks(u, s0, MapBtn(u, s, cfg))
  {
    RestJoins(u, s0, s);
    if BitOf(cfg.dst) in u.outputs[cfg.dstId].desc { KeyInRange(u, cfg.dstId, AxisOf(cfg.dst)); }
  }

  /** Whatever came before, an entry adds exactly what it does alone. */
  lemma EntryJoins(u: Setup, s0: State, s: State, cfg: MapCfg)
    requires WellFormed(u) && Shaped(u, s0) && Shaped(u, s) && cfg.dstId < |u.outputs| && Tracks(u, s0, s)
    ensures Joins(u, MapEntry(u, s, cfg), s, Alone(u, s0, cfg))
    ensures Tracks(u, s0, MapEntry(u, s, cfg))
  {
    RestJoins(u, s0, s);
    MapAxisJoins(u, s0, s, cfg);
    MapBtnJoins(u, s0, s, cfg);
  }

  lemma JoinIsAbove(u: Setup, t: State, s: State, e: State)
    requires Shaped(u, t) && Shaped(u, s) && Shaped(u, e) && Joins(u, t, s, e)
    ensures Below(u, s, t) && Below(u, e, t)
  {
  }

  lemma BelowIsTransitive(u: Setup, r: State, s: State, t: State)
    requires Shaped(u, r) && Shaped(u, s) && Shaped(u, t) && Below(u, r, s) && Below(u, s, t)
    ensures Below(u, r, t)
  {
  }

  lemma {:induction false} MapAllTracks(u: Setup, s0: State, cfgs: seq<MapCfg>)
    requires WellFormed(u) && Shaped(u, s0) && InRange(u, cfgs)
    ensures Tracks(u, s0, MapAll(u, s0, cfgs))
    decreases |cfgs|
  {
    if cfgs != [] {
      MapAllTracks(u, s0, cfgs[..|cfgs| - 1]);
      EntryJoins(u, s0, MapAll(u, s0, cfgs[..|cfgs| - 1]), cfgs[|cfgs| - 1]);
    }
  }

  /** Everything the outputs and ranges of `e` show is also shown by `s`. */
  ghost predicate Below(u: Setup, e: State, s: State)
    requires Shaped(u, e) && Shaped(u, s)
  {
    && e.pressed <= s.pressed && e.mapMask <= s.mapMask
    && (forall a :: 0 <= a < AXES ==> e.absMax[a] <= s.absMax[a])
    && (forall a :: 0 <= a < AXES ==> e.absMin[a] <= s.absMin[a])
    && forall k :: 0 <= k < |s.axes| ==> Abs(e.axes[k].value) <= Abs(s.axes[k].value)
  }

  /** The same buttons, flags and ranges, and axes of the same magnitude. */
  ghost predicate SameOutcome(u: Setup, s: State, t: State)
    requires Shaped(u, s) && Shaped(u, t)
  {
    && s.pressed == t.pressed && s.mapMask == t.mapMask && s.absMax == t.absMax && s.absMin == t.absMin
    && forall k :: 0 <= k < |s.axes| ==> Abs(s.axes[k].value) == Abs(t.axes[k].value)
  }

  /** The last entry adds what it does alone, and takes nothing away. */
  lemma LastEntryJoins(u: Setup, s0: State, cfgs: seq<MapCfg>)
    requires WellFormed(u) && Shaped(u, s0) && InRange(u, cfgs) && cfgs != []
    ensures var n := |cfgs| - 1;
            && Joins(u, MapAll(u, s0, cfgs), MapAll(u, s0, cfgs[..n]), Alone(u, s0, cfgs[n]))
            && Below(u, MapAll(u, s0, cfgs[..n]), MapAll(u, s0, cfgs))
            && Below(u, Alone(u, s0, cfgs[n]), MapAll(u, s0, cfgs))
  {
    var n := |cfgs| - 1;
    MapAllTracks(u, s0, cfgs[..n]);
    EntryJoins(u, s0, MapAll(u, s0, cfgs[..n]), cfgs[n]);
    JoinIsAbove(u, MapAll(u, s0, cfgs), MapAll(u, s0, cfgs[..n]), Alone(u, s0, cfgs[n]));
  }

  lemma {:induction false} StartIsBelow(u: Setup, s0: State, cfgs: seq<MapCfg>)
    requires WellFormed(u) && Shaped(u, s0) && InRange(u, cfgs)
    ensures Below(u, s0, MapAll(u, s0, cfgs))
    decreases |cfgs|
  {
    if cfgs != [] {
      var before := cfgs[..|cfgs| - 1];
      StartIsBelow(u, s0, before);
      LastEntryJoins(u, s0, cfgs);
      BelowIsTransitive(u, s0, MapAll(u, s0, before), MapAll(u, s0, cfgs));
    }
  }

  lemma {:induction false} EachEntryIsBelow(u: Setup, s0: State, cfgs: seq<MapCfg>, i: nat)
    requires WellFormed(u) && Shaped(u, s0) && InRange(u, cfgs) && i < |cfgs|
    ensures Below(u, Alone(u, s0, cfgs[i]), MapAll(u, s0, cfgs))
    decreases |cfgs|
  {
    LastEntryJoins(u, s0, cfgs);
    if i < |cfgs| - 1 {
      var before := cfgs[..|cfgs| - 1];
      EachEntryIsBelow(u, s0, before, i);
      BelowIsTransitive(u, Alone(u, s0, cfgs[i]), MapAll(u, s0, before), MapAll(u, s0, cfgs));
    }
  }

  /** The outcome of a list is the least one above the start and above every entry alone. */
  lemma {:induction false} MapAllIsLeast(u: Setup, s0: State, cfgs: seq<MapCfg>, top: State)
    requires WellFormed(u) && Shaped(u, s0) && InRange(u, cfgs) && Shaped(u, top) && Below(u, s0, top)
    requires forall i :: 0 <= i < |cfgs| ==> Below(u, Alone(u, s0, cfgs[i]), top)
    ensures Below(u, MapAll(u, s0, cfgs), top)
    decreases |cfgs|
  {
    if cfgs != [] {
      var n := |cfgs| - 1;
      MapAllIsLeast(u, s0, cfgs[..n], top);
      MapAllTracks(u, s0, cfgs[..n]);
      EntryJoins(u, s0, MapAll(u, s0, cfgs[..n]), cfgs[n]);
      assert Below(u, Alone(u, s0, cfgs[n]), top);
    }
  }

  ghost predicate SameEntries(xs: seq<MapCfg>, ys: seq<MapCfg>) {
    forall x :: x in xs <==> x in ys
  }

  lemma OutcomeIsBelow(u: Setup, s0: State, xs: seq<MapCfg>, ys: seq<MapCfg>)
    requires WellFormed(u) && Shaped(u, s0) && InRange(u, xs) && InRange(u, ys) && SameEntries(xs, ys)
    ensures Below(u, MapAll(u, s0, xs), MapAll(u, s0, ys))
  {
    var top := MapAll(u, s0, ys);
    StartIsBelow(u, s0, ys);
    forall i | 0 <= i < |xs| ensures Below(u, Alone(u, s0, xs[i]), top) {
      assert xs[i] in xs;
      var j :| 0 <= j < |ys| && ys[j] == xs[i];
      EachEntryIsBelow(u, s0, ys, j);
    }
    MapAllIsLeast(u, s0, xs, top);
  }

  /** Neither the order of the entries nor repeating one changes the outcome. */
  lemma OrderIsIrrelevant(u: Setup, s0: State, xs: seq<MapCfg>, ys: seq<MapCfg>)
    requires WellFormed(u) && Shaped(u, s0) && InRange(u, xs) && InRange(u, ys) && SameEntries(xs, ys)
    ensures SameOutcome(u, MapAll(u, s0, xs), MapAll(u, s0, ys)) && OutMaskAll(u, xs) == OutMaskAll(u, ys)
  {
    OutcomeIsBelow(u, s0, xs, ys);
    OutcomeIsBelow(u, s0, ys, xs);
    forall d ensures d in OutMaskAll(u, xs) <==> d in OutMaskAll(u, ys) {
      OutMaskIsUnion(u, xs, d);
      OutMaskIsUnion(u, ys, d);
      if i :| 0 <= i < |xs| && d in OutMask(u, xs[i]) { assert xs[i] in ys; }
      if i :| 0 <= i < |ys| && d in OutMask(u, ys[i]) { assert ys[i] in xs; }
    }
  }

  lemma {:induction false} OutMaskIsUnion(u: Setup, cfgs: seq<MapCfg>, d: int)
    ensures d in OutMaskAll(u, cfgs) <==> exists i :: 0 <= i < |cfgs| && d in OutMask(u, cfgs[i])
    decreases |cfgs|
  {
    if cfgs != [] {
      var n := |cfgs| - 1;
      OutMaskIsUnion(u, cfgs[..n], d);
      if d in OutMaskAll(u, cfgs[..n]) {
        var i :| 0 <= i < n && d in OutMask(u, cfgs[..n][i]);
        assert cfgs[..n][i] == cfgs[i];
      }
      if i :| 0 <= i < n && d in OutMask(u, cfgs[i]) {
        assert cfgs[..n][i] == cfgs[i];
      }
    }
  }

  // ----- the sign of an axis

  /** What an entry alone gives an axis. */
  function Gives(u: Setup, s0: State, cfg: MapCfg, k: nat): int
    requires WellFormed(u) && Shaped(u, s0) && cfg.dstId < |u.outputs| && k < |s0.axes|
  {
    Alone(u, s0, cfg).axes[k].value
  }

  function Outcome(u: Setup, s0: State, cfgs: seq<MapCfg>, k: nat): int
    requires WellFormed(u) && Shaped(u, s0) && InRange(u, cfgs) && k < |s0.axes|
  {
    MapAll(u, s0, cfgs).axes[k].value
  }

  /** Nothing is louder than the outcome. */
  lemma OutcomeIsLoudest(u: Setup, s0: State, cfgs: seq<MapCfg>, k: nat, i: nat)
    requires WellFormed(u) && Shaped(u, s0) && InRange(u, cfgs) && k < |s0.axes| && i < |cfgs|
    ensures Abs(Gives(u, s0, cfgs[i], k)) <= Abs(Outcome(u, s0, cfgs, k))
  {
    EachEntryIsBelow(u, s0, cfgs, i);
  }

  /** The outcome is the start, if no entry is louder, or what some entry alone gives. */
  lemma {:induction false} OutcomeHasOwner(u: Setup, s0: State, cfgs: seq<MapCfg>, k: nat) returns (i: nat)
    requires WellFormed(u) && Shaped(u, s0) && InRange(u, cfgs) && k < |s0.axes|
    ensures Outcome(u, s0, cfgs, k) == s0.axes[k].value ||
            (i < |cfgs| && Outcome(u, s0, cfgs, k) == Gives(u, s0, cfgs[i], k)
             && Abs(Outcome(u, s0, cfgs, k)) > Abs(s0.axes[k].value))
    decreases |cfgs|
  {
    i := 0;
    if cfgs != [] {
      var n := |cfgs| - 1;
      LastEntryJoins(u, s0, cfgs);
      i := OutcomeHasOwner(u, s0, cfgs[..n], k);
      StartIsBelow(u, s0, cfgs[..n]);
      if Abs(Gives(u, s0, cfgs[n], k)) > Abs(Outcome(u, s0, cfgs[..n], k)) { i := n; }
    }
  }

  /** An entry in front keeps the axis against entries that are not louder. */
  lemma {:induction false} FrontKeeps(u: Setup, s0: State, x: MapCfg, xs: seq<MapCfg>, k: nat)
    requires WellFormed(u) && Shaped(u, s0) && x.dstId < |u.outputs| && InRange(u, xs) && k < |s0.axes|
    requires Abs(Gives(u, s0, x, k)) > Abs(s0.axes[k].value)
    requires forall i :: 0 <= i < |xs| ==> Abs(Gives(u, s0, xs[i], k)) <= Abs(Gives(u, s0, x, k))
    ensures InRange(u, [x] + xs) && Outcome(u, s0, [x] + xs, k) == Gives(u, s0, x, k)
    decreases |xs|
  {
    var list, n := [x] + xs, |xs|;
    LastEntryJoins(u, s0, list);
    if n == 0 {
      assert list[..n] == [];
    } else {
      assert list[..n] == [x] + xs[..n - 1] && list[n] == xs[n - 1];
      FrontKeeps(u, s0, x, xs[..n - 1], k);
    }
  }

  /** No two entries alone give the axis opposite values of the greatest magnitude, or the axis starts there. */
  ghost predicate Unopposed(u: Setup, s0: State, cfgs: seq<MapCfg>, k: nat)
    requires WellFormed(u) && Shaped(u, s0) && InRange(u, cfgs) && k < |s0.axes|
  {
    Abs(s0.axes[k].value) == Abs(Outcome(u, s0, cfgs, k)) ||
    forall i, j :: 0 <= i < |cfgs| && 0 <= j < |cfgs| &&
                   Abs(Gives(u, s0, cfgs[i], k)) == Abs(Gives(u, s0, cfgs[j], k)) == Abs(Outcome(u, s0, cfgs, k)) ==>
      Gives(u, s0, cfgs[i], k) == Gives(u, s0, cfgs[j], k)
  }

  ghost predicate EveryOrderAgrees(u: Setup, s0: State, xs: seq<MapCfg>, k: nat)
    requires WellFormed(u) && Shaped(u, s0) && InRange(u, xs) && k < |s0.axes|
  {
    forall ys :: SameEntries(xs, ys) && InRange(u, ys) ==> Outcome(u, s0, ys, k) == Outcome(u, s0, xs, k)
  }

  lemma UnopposedAgrees(u: Setup, s0: State, xs: seq<MapCfg>, ys: seq<MapCfg>, k: nat)
    requires WellFormed(u) && Shaped(u, s0) && InRange(u, xs) && InRange(u, ys) && k < |s0.axes|
    requires SameEntries(xs, ys) && Unopposed(u, s0, xs, k)
    ensures Outcome(u, s0, ys, k) == Outcome(u, s0, xs, k)
  {
    OrderIsIrrelevant(u, s0, xs, ys);
    assert Abs(Outcome(u, s0, xs, k)) == Abs(Outcome(u, s0, ys, k));
    var i := OutcomeHasOwner(u, s0, xs, k);
    var j := OutcomeHasOwner(u, s0, ys, k);
    if Abs(s0.axes[k].value) < Abs(Outcome(u, s0, xs, k)) {
      assert ys[j] in ys;
      var j' :| 0 <= j' < |xs| && xs[j'] == ys[j];
    }
  }

  lemma LoudestInFront(u: Setup, s0: State, xs: seq<MapCfg>, k: nat, i: nat)
    requires WellFormed(u) && Shaped(u, s0) && InRange(u, xs) && k < |s0.axes| && i < |xs|
    requires Abs(s0.axes[k].value) != Abs(Outcome(u, s0, xs, k)) == Abs(Gives(u, s0, xs[i], k))
    ensures InRange(u, [xs[i]] + xs) && SameEntries(xs, [xs[i]] + xs)
    ensures Outcome(u, s0, [xs[i]] + xs, k) == Gives(u, s0, xs[i], k)
  {
    StartIsBelow(u, s0, xs);
    forall j | 0 <= j < |xs| ensures Abs(Gives(u, s0, xs[j], k)) <= Abs(Gives(u, s0, xs[i], k)) {
      OutcomeIsLoudest(u, s0, xs, k, j);
    }
    FrontKeeps(u, s0, xs[i], xs, k);
  }

  lemma LoudestOwns(u: Setup, s0: State, xs: seq<MapCfg>, k: nat, i: nat)
    requires WellFormed(u) && Shaped(u, s0) && InRange(u, xs) && k < |s0.axes| && i < |xs|
    requires Abs(s0.axes[k].value) != Abs(Outcome(u, s0, xs, k)) == Abs(Gives(u, s0, xs[i], k))
    requires EveryOrderAgrees(u, s0, xs, k)
    ensures Outcome(u, s0, xs, k) == Gives(u, s0, xs[i], k)
  {
    LoudestInFront(u, s0, xs, k, i);
  }

  lemma OpposedIsNotEveryOrder(u: Setup, s0: State, xs: seq<MapCfg>, k: nat, i: nat, j: nat)
    requires WellFormed(u) && Shaped(u, s0) && InRange(u, xs) && k < |s0.axes| && i < |xs| && j < |xs|
    requires Abs(s0.axes[k].value) != Abs(Outcome(u, s0, xs, k)) == Abs(Gives(u, s0, xs[i], k)) == Abs(Gives(u, s0, xs[j], k))
    requires Gives(u, s0, xs[i], k) != Gives(u, s0, xs[j], k)
    ensures !EveryOrderAgrees(u, s0, xs, k)
  {
    if EveryOrderAgrees(u, s0, xs, k) {
      LoudestOwns(u, s0, xs, k, i);
      LoudestOwns(u, s0, xs, k, j);
    }
  }

  /** Every order and repetition of the entries gives an axis the same signed value exactly when it is unopposed. */
  lemma SignsAgreeExactly(u: Setup, s0: State, xs: seq<MapCfg>, k: nat)
    requires WellFormed(u) && Shaped(u, s0) && InRange(u, xs) && k < |s0.axes|
    ensures EveryOrderAgrees(u, s0, xs, k) <==> Unopposed(u, s0, xs, k)
  {
    if Unopposed(u, s0, xs, k) {
      forall ys | SameEntries(xs, ys) && InRange(u, ys) ensures Outcome(u, s0, ys, k) == Outcome(u, s0, xs, k) {
        UnopposedAgrees(u, s0, xs, ys, k);
      }
    } else {
      var i, j :| 0 <= i < |xs| && 0 <= j < |xs| && Gives(u, s0, xs[i], k) != Gives(u, s0, xs[j], k) &&
                  Abs(Gives(u, s0, xs[i], k)) == Abs(Gives(u, s0, xs[j], k)) == Abs(Outcome(u, s0, xs, k));
      OpposedIsNotEveryOrder(u, s0, xs, k, i, j);
    }
  }

  /** A pressed button that is mapped in full to one end of an output's first axis. */
  ghost predicate Pushes(u: Setup, cfg: MapCfg, btn: nat) {
    && cfg.dstId == 0 < |u.outputs| && cfg.dst == btn && cfg.percMax == 100
    && BitOf(cfg.src) in u.mask && BitOf(cfg.src) !in u.desc && BitOf(cfg.src) in u.btns
    && BitOf(btn) in u.outputs[0].mask && BitOf(btn) in u.outputs[0].desc
  }

  lemma PushGives(u: Setup, s0: State, cfg: MapCfg, btn: nat, m: int)
    requires WellFormed(u) && Rounding(u.fl) && Shaped(u, s0) && Pushes(u, cfg, btn) && (btn == 0 || btn == 1)
    requires 0 < m <= RANGE_MAX && u.outputs[0].meta[0] == DstMeta(m, m, false)
    ensures |s0.axes| > 0 && Gives(u, s0, cfg, 0) == if btn == 0 then -m else m
  {
    KeyInRange(u, 0, 0);
    Exact(u.fl, m);
    Exact(u.fl, -m);
    PercentIsShare(u.fl, 100);
    ShareOf(u.fl, m as real, 1.0);
    Negated(u.fl, m, m as real, 1.0);
  }

  /** Two buttons for the two ends of an axis, pressed together: the entry that comes first wins. */
  lemma OrderDecidesSign(u: Setup, ranges: seq<(int, int)>, left: MapCfg, right: MapCfg, m: int)
    requires WellFormed(u) && Rounding(u.fl) && |ranges| == AXES && Pushes(u, left, 0) && Pushes(u, right, 1)
    requires 0 < m <= RANGE_MAX && u.outputs[0].meta[0] == DstMeta(m, m, false)
    ensures var s0 := Initial(u, ranges);
            && |s0.axes| > 0 && SameEntries([left, right], [right, left])
            && Outcome(u, s0, [left, right], 0) == -m && Outcome(u, s0, [right, left], 0) == m
  {
    var s0 := Initial(u, ranges);
    PushGives(u, s0, left, 0, m);
    PushGives(u, s0, right, 1, m);
    FrontKeeps(u, s0, left, [right], 0);
    FrontKeeps(u, s0, right, [left], 0);
    assert [left] + [right] == [left, right] && [right] + [left] == [right, left];
  }
}
