/** How strong a plate has to be (app/creative/legibility.py `_encoded`, `_decoded`,
    `contrast_ratio`, `contrast_on`, `plate_alpha`; WCAG 2.1, "relative luminance" and "contrast
    ratio"). The sRGB curve is any pair of strictly increasing maps of [0, 1] that undo each
    other. */
module Legibility {
  import opened Numeric

  const TEXT_CONTRAST := 4.5
  const MARK_CONTRAST := 3.0
  const MEASURE_SLACK := 0.03
  const LOCAL_MAX := 0.88
  const AIM := 1.08
  const LIGHT_INK := 0.18
  const TINY := 0.000001

  // ------------------------------------------------------------------ the curve

  datatype Curve = Curve(enc: real -> real, dec: real -> real)

  predicate Unit(x: real) {
    0.0 <= x <= 1.0
  }

  ghost predicate UndoneAt(c: Curve, x: real) {
    Unit(x) ==> Unit(c.enc(x)) && Unit(c.dec(x)) && c.dec(c.enc(x)) == x && c.enc(c.dec(x)) == x
  }

  ghost predicate RisesFrom(c: Curve, x: real, y: real) {
    Unit(x) && Unit(y) && x < y ==> c.enc(x) < c.enc(y) && c.dec(x) < c.dec(y)
  }

  ghost predicate IsCurve(c: Curve) {
    && (forall x {:trigger UndoneAt(c, x)} :: UndoneAt(c, x))
    && (forall x, y {:trigger RisesFrom(c, x, y)} :: RisesFrom(c, x, y))
  }

  function Clamp(x: real): real {
    Min(1.0, Max(0.0, x))
  }

  function Encoded(c: Curve, luminance: real): real {
    c.enc(Clamp(luminance))
  }

  function Decoded(c: Curve, value: real): real {
    c.dec(Clamp(value))
  }

  // ------------------------------------------------------------------ contrast

  /** A ground's two ends, as relative luminance. */
  datatype Stats = Stats(bright: real, dark: real)

  predicate Measured(s: Stats) {
    Unit(s.bright) && Unit(s.dark)
  }

  function ContrastRatio(a: real, b: real): real
    requires a >= 0.0 && b >= 0.0
  {
    (Max(a, b) + 0.05) / (Min(a, b) + 0.05)
  }

  function Blend(opacity: real, over: real, under: real): real {
    opacity * over + (1.0 - opacity) * under
  }

  /** The ink as it is seen over a ground of luminance `lum`. */
  function SeenInk(c: Curve, ink: real, opacity: real, lum: real): real {
    if opacity < 1.0 then Decoded(c, Blend(opacity, Encoded(c, ink), Encoded(c, lum))) else ink
  }

  lemma SeenInkIsLight(c: Curve, ink: real, opacity: real, lum: real)
    requires IsCurve(c) && Unit(ink)
    ensures Unit(SeenInk(c, ink, opacity, lum))
  {
    assert UndoneAt(c, Clamp(Blend(opacity, Encoded(c, ink), Encoded(c, lum))));
  }

  /** contrast_on: the worst of the two ends. */
  ghost function ContrastOn(c: Curve, ink: real, opacity: real, s: Stats): real
    requires IsCurve(c) && Unit(ink) && Measured(s)
  {
    SeenInkIsLight(c, ink, opacity, s.bright);
    SeenInkIsLight(c, ink, opacity, s.dark);
    Min(ContrastRatio(SeenInk(c, ink, opacity, s.bright), s.bright),
        ContrastRatio(SeenInk(c, ink, opacity, s.dark), s.dark))
  }

  /** Contrast does not care which of the two is the ink, is never under 1, and reaches k where one
      side, lifted by 0.05, is k times the other. */
  lemma RatioReaches(a: real, b: real, k: real)
    requires a >= 0.0 && b >= 0.0 && a + 0.05 >= k * (b + 0.05)
    ensures ContrastRatio(a, b) >= k && ContrastRatio(a, b) == ContrastRatio(b, a) >= 1.0
  {
    var hi, lo := Max(a, b) + 0.05, Min(a, b) + 0.05;
    assert hi >= lo;
    QuotientAtLeast(hi, lo, 1.0);
    if a >= b { QuotientAtLeast(hi, lo, k); }
    else if k > 1.0 { Grows(k, b + 0.05); assert false; }
  }

  /** Two luminances read at k to one or better exactly when one of them, lifted by 0.05, is k times
      the other. */
  lemma ReadsAtLeastExactly(a: real, b: real, k: real)
    requires a >= 0.0 && b >= 0.0
    ensures ContrastRatio(a, b) >= k <==> a + 0.05 >= k * (b + 0.05) || b + 0.05 >= k * (a + 0.05)
  {
    var ratio := ContrastRatio(a, b);
    if a + 0.05 >= k * (b + 0.05) { RatioReaches(a, b, k); }
    if b + 0.05 >= k * (a + 0.05) { RatioReaches(b, a, k); RatioReaches(a, b, 0.0); }
    if ratio >= k {
      var lo := Min(a, b) + 0.05;
      assert ratio * lo == Max(a, b) + 0.05;
      TimesInOrder(k, ratio, lo);
    }
  }

  /** What is read on a ground is the worse of its two ends: better than k exactly when both are. */
  lemma WorseOfTheEnds(c: Curve, ink: real, opacity: real, s: Stats, k: real)
    requires IsCurve(c) && Unit(ink) && Measured(s)
    requires Unit(SeenInk(c, ink, opacity, s.bright)) && Unit(SeenInk(c, ink, opacity, s.dark))
    ensures ContrastOn(c, ink, opacity, s) >= k
            <==> forall end :: end == s.bright || end == s.dark ==>
                   Unit(SeenInk(c, ink, opacity, end)) && ContrastRatio(SeenInk(c, ink, opacity, end), end) >= k
  {
  }

  lemma QuotientAtLeast(x: real, y: real, k: real)
    requires y > 0.0 && x >= k * y
    ensures x / y >= k
  {
  }

  lemma Less(x: real, y: real, z: real)
    requires x < y && z > 0.0
    ensures x * z < y * z
  {
  }

  lemma Grows(k: real, x: real)
    requires k > 1.0 && x > 0.0
    ensures k * x > x
  {
  }

  /** Translucent ink is pulled towards its ground, so it never reads better than the stylesheet's
      colour would: a pair that just clears the bar on paper renders below it. */
  lemma TranslucentReadsNoBetter(c: Curve, ink: real, opacity: real, lum: real)
    requires IsCurve(c) && Unit(ink) && Unit(lum) && 0.0 <= opacity <= 1.0
    ensures var seen := SeenInk(c, ink, opacity, lum);
            && (if ink >= lum then lum <= seen <= ink else ink <= seen <= lum)
            && c.enc(seen) == opacity * c.enc(ink) + (1.0 - opacity) * c.enc(lum)
            && ContrastRatio(seen, lum) <= ContrastRatio(ink, lum)
  {
    var seen, a, b := SeenInk(c, ink, opacity, lum), c.enc(ink), c.enc(lum);
    assert UndoneAt(c, ink) && UndoneAt(c, lum);
    if opacity < 1.0 {
      var mix := Blend(opacity, a, b);
      BlendBetween(opacity, a, b);
      if ink >= lum {
        EncodesInOrder(c, lum, ink);
        DecodesInOrder(c, b, mix);
        DecodesInOrder(c, mix, a);
      } else {
        EncodesInOrder(c, ink, lum);
        DecodesInOrder(c, a, mix);
        DecodesInOrder(c, mix, b);
      }
    }
    if opacity < 1.0 { assert UndoneAt(c, Blend(opacity, a, b)); }
    if ink >= lum { QuotientGrows(seen + 0.05, ink + 0.05, lum + 0.05); }
    else { QuotientShrinks(lum + 0.05, ink + 0.05, seen + 0.05); }
  }

  lemma BlendBetween(opacity: real, over: real, under: real)
    requires 0.0 <= opacity <= 1.0
    ensures if over >= under then under <= Blend(opacity, over, under) <= over
            else over <= Blend(opacity, over, under) <= under
  {
    var gap := over - under;
    assert Blend(opacity, over, under) == under + opacity * gap;
    if gap >= 0.0 { Shrinks(gap, opacity); } else { Shrinks(-gap, opacity); }
  }

  lemma EncodesInOrder(c: Curve, x: real, y: real)
    requires IsCurve(c) && Unit(x) && Unit(y) && x <= y
    ensures Unit(c.enc(x)) && Unit(c.enc(y)) && c.enc(x) <= c.enc(y)
  {
    assert UndoneAt(c, x) && UndoneAt(c, y) && RisesFrom(c, x, y);
  }

  lemma QuotientGrows(x: real, y: real, z: real)
    requires x <= y && z > 0.0
    ensures x / z <= y / z
  {
  }

  lemma QuotientShrinks(x: real, y: real, z: real)
    requires x >= 0.0 && 0.0 < y <= z
    ensures x / z <= x / y
  {
    assert x / z * z == x && x / y * y == x;
    var q := x / y;
    assert q >= 0.0 by { QuotientAtLeast(x, y, 0.0); }
    TimesInOrder(y, z, q);
    if x / z > q { Less(q, x / z, z); assert false; }
  }

  // ------------------------------------------------------------------ the plate

  predicate IsLight(ink: real) {
    ink >= LIGHT_INK
  }

  /** The luminance the failing end has to come down to, or up to. */
  function Limit(ink: real, target: real): real
    requires target > 0.0
  {
    if IsLight(ink) then (ink + 0.05) / (target * AIM) - 0.05 else (ink + 0.05) * (target * AIM) - 0.05
  }

  /** What of the way to the plate's own colour may be kept. */
  function Keep(room: real, have: real): real {
    Min(1.0, room / Max(have, TINY))
  }

  /** The strength asked for, before the cap and the rounding. */
  function Needed(c: Curve, ink: real, s: Stats, current: real, target: real): real
    requires target > 0.0
  {
    var limit := Encoded(c, Limit(ink, target));
    var keep := if IsLight(ink) then Keep(limit, Encoded(c, s.bright)) else Keep(1.0 - limit, 1.0 - Encoded(c, s.dark));
    Max(current, 1.0 - (1.0 - current) * keep)
  }

  /** No luminance is dark enough for this ink: the plate goes straight to its cap. */
  predicate Hopeless(ink: real, target: real)
    requires target > 0.0
  {
    IsLight(ink) && Limit(ink, target) <= 0.0
  }

  function Round3(x: real): real {
    Round(1000.0 * x) as real / 1000.0
  }

  function PlateAlpha(c: Curve, ink: real, s: Stats, current: real, target: real): real
    requires target > 0.0
  {
    if Hopeless(ink, target) then LOCAL_MAX else Round3(Min(LOCAL_MAX, Needed(c, ink, s, current, target)))
  }

  /** The answer fits under the cap. */
  predicate UnderCap(c: Curve, ink: real, s: Stats, current: real, target: real)
    requires target > 0.0
  {
    !Hopeless(ink, target) && Needed(c, ink, s, current, target) <= LOCAL_MAX
  }

  // ------------------------------------------------------------------ what the plate does

  /** What is left of a distance under an opacity of `a`. */
  function Fade(x: real, a: real): real {
    x * (1.0 - a)
  }

  /** An encoded grey under a plate of opacity `a`: black under light ink, white under dark. */
  function Over(ink: real, grey: real, a: real): real {
    if IsLight(ink) then Fade(grey, a) else 1.0 - Fade(1.0 - grey, a)
  }

  /** A bare ground's two ends, encoded. */
  datatype Ground = Ground(bright: real, dark: real)

  predicate Bare(g: Ground) {
    0.0 <= g.dark <= g.bright <= 1.0
  }

  /** The ground as it is measured under a plate. */
  function Seen(c: Curve, ink: real, g: Ground, a: real): Stats {
    Stats(c.dec(Over(ink, g.bright, a)), c.dec(Over(ink, g.dark, a)))
  }

  lemma Shrinks(x: real, y: real)
    requires x >= 0.0 && 0.0 <= y <= 1.0
    ensures 0.0 <= x * y <= x
  {
  }

  lemma Fades(x: real, y: real, a: real)
    requires 0.0 <= x <= y <= 1.0 && 0.0 <= a <= 1.0
    ensures 0.0 <= Fade(x, a) <= Fade(y, a) <= 1.0
  {
    Shrinks(x, 1.0 - a);
    Shrinks(y, 1.0 - a);
    TimesInOrder(x, y, 1.0 - a);
  }

  lemma OverIsUnit(ink: real, g: Ground, a: real)
    requires Bare(g) && 0.0 <= a <= 1.0
    ensures Unit(Over(ink, g.bright, a)) && Unit(Over(ink, g.dark, a)) && Over(ink, g.dark, a) <= Over(ink, g.bright, a)
  {
    Fades(g.dark, g.bright, a);
    Fades(1.0 - g.bright, 1.0 - g.dark, a);
  }

  lemma DecodesInOrder(c: Curve, x: real, y: real)
    requires IsCurve(c) && Unit(x) && Unit(y) && x <= y
    ensures Unit(c.dec(x)) && Unit(c.dec(y)) && c.dec(x) <= c.dec(y)
  {
    assert UndoneAt(c, x) && UndoneAt(c, y) && RisesFrom(c, x, y);
  }

  lemma SeenIsMeasured(c: Curve, ink: real, g: Ground, a: real)
    requires IsCurve(c) && Bare(g) && 0.0 <= a <= 1.0
    ensures Measured(Seen(c, ink, g, a)) && Seen(c, ink, g, a).dark <= Seen(c, ink, g, a).bright
  {
    OverIsUnit(ink, g, a);
    DecodesInOrder(c, Over(ink, g.dark, a), Over(ink, g.bright, a));
  }

  /** What the plate leaves of a bare distance `bare` to its own colour, when `have` of it was left
      by the plate measured and `room` is what may be left. */
  lemma KeepIsEnough(bare: real, current: real, have: real, room: real, keep: real, a: real)
    requires bare >= 0.0 && 0.0 <= current <= 1.0 && have == Fade(bare, current) && room >= 0.0
    requires keep == Keep(room, have) && a == Max(current, 1.0 - (1.0 - current) * keep)
    ensures 0.0 <= keep <= 1.0 && current <= a <= 1.0 && Fade(bare, a) <= room
  {
    var m := Max(have, TINY);
    QuotientAtLeast(room, m, 0.0);
    Shrinks(1.0 - current, keep);
    FadeTwice(bare, 1.0 - current, keep, a);
    Shrinks(bare, 1.0 - current);
    TimesInOrder(have, m, keep);
    assert room / m * m == room;
    TimesInOrder(keep, room / m, m);
  }

  lemma FadeTwice(bare: real, left: real, keep: real, a: real)
    requires 1.0 - a == left * keep
    ensures Fade(bare, a) == bare * left * keep
  {
  }

  lemma LimitIsReached(ink: real, target: real)
    requires 0.0 <= ink <= 1.0 && target >= 1.0
    ensures var l := Limit(ink, target);
            if IsLight(ink) then l <= 1.0 && ink + 0.05 == target * AIM * (l + 0.05)
            else 0.0 <= l && l + 0.05 == (ink + 0.05) * (target * AIM)
  {
  }

  /** The step shared by both colours: an end no further from the plate's colour than the room
      there is reads at least the aim. */
  lemma LightReaches(c: Curve, ink: real, grey: real, target: real)
    requires IsCurve(c) && Unit(ink) && IsLight(ink) && target >= 1.0 && !Hopeless(ink, target)
    requires Unit(grey) && grey <= Encoded(c, Limit(ink, target))
    ensures Unit(c.dec(grey)) && ContrastRatio(ink, c.dec(grey)) >= target * AIM
  {
    var limit := Limit(ink, target);
    LimitIsReached(ink, target);
    assert UndoneAt(c, limit);
    DecodesInOrder(c, grey, c.enc(limit));
    TimesInOrder(c.dec(grey) + 0.05, limit + 0.05, target * AIM);
    RatioReaches(ink, c.dec(grey), target * AIM);
  }

  lemma DarkReaches(c: Curve, ink: real, grey: real, target: real)
    requires IsCurve(c) && Unit(ink) && !IsLight(ink) && target >= 1.0 && Limit(ink, target) <= 1.0
    requires Unit(grey) && grey >= Encoded(c, Limit(ink, target))
    ensures Unit(c.dec(grey)) && ContrastRatio(ink, c.dec(grey)) >= target * AIM
  {
    var limit := Limit(ink, target);
    LimitIsReached(ink, target);
    assert UndoneAt(c, limit);
    DecodesInOrder(c, c.enc(limit), grey);
    RatioReaches(c.dec(grey), ink, target * AIM);
  }

  /** The end the plate works on, and what its encoded value was before. */
  lemma MeasuredUnderPlate(c: Curve, ink: real, g: Ground, current: real)
    requires IsCurve(c) && Bare(g) && 0.0 <= current <= 1.0
    ensures var s := Seen(c, ink, g, current);
            if IsLight(ink) then Encoded(c, s.bright) == Fade(g.bright, current)
            else 1.0 - Encoded(c, s.dark) == Fade(1.0 - g.dark, current)
  {
    OverIsUnit(ink, g, current);
    assert UndoneAt(c, Over(ink, g.bright, current)) && UndoneAt(c, Over(ink, g.dark, current));
  }

  lemma WhiteIsOne(c: Curve)
    requires IsCurve(c)
    ensures c.enc(1.0) == 1.0
  {
    assert UndoneAt(c, 1.0) && RisesFrom(c, c.dec(1.0), 1.0);
  }

  /** Dark ink that no ground is light enough for asks for a solid plate. */
  lemma TooDarkAsksForAll(c: Curve, ink: real, s: Stats, current: real, target: real)
    requires IsCurve(c) && !IsLight(ink) && target > 0.0 && Limit(ink, target) > 1.0 && current <= 1.0
    ensures Needed(c, ink, s, current, target) == 1.0
  {
    WhiteIsOne(c);
    assert Keep(0.0, 1.0 - Encoded(c, s.dark)) == 0.0;
  }

  lemma EncodedIsUnit(c: Curve, x: real)
    requires IsCurve(c)
    ensures Unit(Encoded(c, x))
  {
    assert UndoneAt(c, Clamp(x));
  }

  /** How far the asked-for strength brings the end it works on. */
  lemma NeededIsEnough(c: Curve, ink: real, g: Ground, current: real, target: real)
    requires IsCurve(c) && Unit(ink) && Bare(g) && 0.0 <= current <= 1.0 && target >= 1.0
    ensures var a := Needed(c, ink, Seen(c, ink, g, current), current, target);
            var limit := Encoded(c, Limit(ink, target));
            && current <= a <= 1.0
            && if IsLight(ink) then Over(ink, g.bright, a) <= limit else Over(ink, g.dark, a) >= limit
  {
    if IsLight(ink) { LightIsEnough(c, ink, g, current, target); } else { DarkIsEnough(c, ink, g, current, target); }
  }

  lemma LightIsEnough(c: Curve, ink: real, g: Ground, current: real, target: real)
    requires IsCurve(c) && Bare(g) && 0.0 <= current <= 1.0 && target >= 1.0 && IsLight(ink)
    ensures var a := Needed(c, ink, Seen(c, ink, g, current), current, target);
            current <= a <= 1.0 && Fade(g.bright, a) <= Encoded(c, Limit(ink, target))
  {
    var s, limit := Seen(c, ink, g, current), Encoded(c, Limit(ink, target));
    MeasuredUnderPlate(c, ink, g, current);
    EncodedIsUnit(c, Limit(ink, target));
    KeepIsEnough(g.bright, current, Encoded(c, s.bright), limit, Keep(limit, Encoded(c, s.bright)),
                 Needed(c, ink, s, current, target));
  }

  lemma DarkIsEnough(c: Curve, ink: real, g: Ground, current: real, target: real)
    requires IsCurve(c) && Bare(g) && 0.0 <= current <= 1.0 && target >= 1.0 && !IsLight(ink)
    ensures var a := Needed(c, ink, Seen(c, ink, g, current), current, target);
            current <= a <= 1.0 && Fade(1.0 - g.dark, a) <= 1.0 - Encoded(c, Limit(ink, target))
  {
    var s, limit := Seen(c, ink, g, current), 1.0 - Encoded(c, Limit(ink, target));
    MeasuredUnderPlate(c, ink, g, current);
    EncodedIsUnit(c, Limit(ink, target));
    KeepIsEnough(1.0 - g.dark, current, 1.0 - Encoded(c, s.dark), limit, Keep(limit, 1.0 - Encoded(c, s.dark)),
                 Needed(c, ink, s, current, target));
  }

  /** plate_alpha's answer is absolute, not an increment: whatever plate the ground was measured
      under, laying one of the strength asked for instead takes fully opaque ink to at least 1.08
      times the target at both ends of the ground -- black under light ink, white under dark --
      whenever that strength is within the cap. */
  lemma PlateReachesTarget(c: Curve, ink: real, g: Ground, current: real, target: real)
    requires IsCurve(c) && Unit(ink) && Bare(g) && 0.0 <= current <= 1.0 && target >= 1.0
    requires UnderCap(c, ink, Seen(c, ink, g, current), current, target)
    ensures var a := Needed(c, ink, Seen(c, ink, g, current), current, target);
            && current <= a <= LOCAL_MAX && Measured(Seen(c, ink, g, a))
            && ContrastOn(c, ink, 1.0, Seen(c, ink, g, a)) >= target * AIM
  {
    var a := Needed(c, ink, Seen(c, ink, g, current), current, target);
    NeededIsEnough(c, ink, g, current, target);
    OverIsUnit(ink, g, a);
    SeenIsMeasured(c, ink, g, a);
    if IsLight(ink) {
      LightReaches(c, ink, Over(ink, g.bright, a), target);
      LightReaches(c, ink, Over(ink, g.dark, a), target);
    } else {
      if Limit(ink, target) > 1.0 {
        TooDarkAsksForAll(c, ink, Seen(c, ink, g, current), current, target);
        assert false;
      }
      DarkReaches(c, ink, Over(ink, g.dark, a), target);
      DarkReaches(c, ink, Over(ink, g.bright, a), target);
    }
  }

  // ------------------------------------------------------------------ the three decimals

  /** No step of the curve is steeper than 2.3 (sRGB's steepest is 2.4 / 1.055). */
  ghost predicate Gentle(c: Curve) {
    forall x, y {:trigger RisesFrom(c, x, y)} :: Unit(x) && Unit(y) && x <= y ==> c.dec(y) - c.dec(x) <= 2.3 * (y - x)
  }

  lemma Rounded3(x: real)
    requires 0.0 <= x <= LOCAL_MAX
    ensures x - 0.0005 <= Round3(x) <= x + 0.0005 && 0.0 <= Round3(x) <= LOCAL_MAX
  {
  }

  lemma FadesNearly(bare: real, a: real, r: real)
    requires Unit(bare) && a - 0.0005 <= r <= a + 0.0005
    ensures Fade(bare, a) - 0.0005 <= Fade(bare, r) <= Fade(bare, a) + 0.0005
  {
    var step := if r <= a then a - r else r - a;
    assert 0.0 <= bare * step <= step by { TimesInOrder(bare, 1.0, step); TimesInOrder(0.0, bare, step); }
    assert Fade(bare, r) - Fade(bare, a) == bare * (a - r);
  }

  lemma NearlyDecodes(c: Curve, x: real, y: real)
    requires IsCurve(c) && Gentle(c) && Unit(x) && Unit(y) && x <= y + 0.0005
    ensures Unit(c.dec(x)) && Unit(c.dec(y)) && c.dec(x) <= c.dec(y) + 0.00115
  {
    if x <= y { DecodesInOrder(c, x, y); } else { DecodesInOrder(c, y, x); assert RisesFrom(c, y, x); }
  }

  lemma LightNearlyReaches(c: Curve, ink: real, grey: real, target: real)
    requires IsCurve(c) && Gentle(c) && Unit(ink) && IsLight(ink) && target >= 1.0 && !Hopeless(ink, target)
    requires Unit(grey) && grey <= Encoded(c, Limit(ink, target)) + 0.0005
    ensures Unit(c.dec(grey)) && ContrastRatio(ink, c.dec(grey)) >= 1.05 * target
  {
    var limit := Limit(ink, target);
    LimitIsReached(ink, target);
    assert UndoneAt(c, limit);
    NearlyDecodes(c, grey, c.enc(limit));
    TimesInOrder(1.05 * (c.dec(grey) + 0.05), AIM * (limit + 0.05), target);
    Commutes(1.05, c.dec(grey) + 0.05, target);
    Commutes(AIM, limit + 0.05, target);
    RatioReaches(ink, c.dec(grey), 1.05 * target);
  }

  lemma Commutes(k: real, x: real, t: real)
    ensures k * x * t == t * k * x == k * t * x
  {
  }

  lemma DarkNearlyReaches(c: Curve, ink: real, grey: real, target: real)
    requires IsCurve(c) && Gentle(c) && Unit(ink) && !IsLight(ink) && target >= 1.0 && Limit(ink, target) <= 1.0
    requires Unit(grey) && grey >= Encoded(c, Limit(ink, target)) - 0.0005
    ensures Unit(c.dec(grey)) && ContrastRatio(ink, c.dec(grey)) >= 1.05 * target
  {
    var limit := Limit(ink, target);
    LimitIsReached(ink, target);
    assert UndoneAt(c, limit);
    NearlyDecodes(c, c.enc(limit), grey);
    TimesInOrder(1.0, target, ink + 0.05);
    Commutes(AIM, ink + 0.05, target);
    Commutes(1.05, ink + 0.05, target);
    assert (ink + 0.05) * target >= 0.05;
    assert c.dec(grey) + 0.05 >= 1.05 * ((ink + 0.05) * target);
    RatioReaches(c.dec(grey), ink, 1.05 * target);
  }

  /** Three decimals are enough: the plate actually laid, its strength rounded, still takes fully
      opaque ink past the target at both ends, with a twentieth to spare. */
  lemma RoundedPlateReachesTarget(c: Curve, ink: real, g: Ground, current: real, target: real)
    requires IsCurve(c) && Gentle(c) && Unit(ink) && Bare(g) && 0.0 <= current <= 1.0 && target >= 1.0
    requires UnderCap(c, ink, Seen(c, ink, g, current), current, target)
    ensures var r := PlateAlpha(c, ink, Seen(c, ink, g, current), current, target);
            && 0.0 <= r <= LOCAL_MAX && Measured(Seen(c, ink, g, r))
            && ContrastOn(c, ink, 1.0, Seen(c, ink, g, r)) >= 1.05 * target
  {
    var s := Seen(c, ink, g, current);
    var a, r := Needed(c, ink, s, current, target), PlateAlpha(c, ink, s, current, target);
    NeededIsEnough(c, ink, g, current, target);
    Rounded3(a);
    OverIsUnit(ink, g, a);
    OverIsUnit(ink, g, r);
    SeenIsMeasured(c, ink, g, r);
    if IsLight(ink) {
      FadesNearly(g.bright, a, r);
      LightNearlyReaches(c, ink, Over(ink, g.bright, r), target);
      LightNearlyReaches(c, ink, Over(ink, g.dark, r), target);
    } else {
      if Limit(ink, target) > 1.0 { TooDarkAsksForAll(c, ink, s, current, target); assert false; }
      FadesNearly(1.0 - g.dark, a, r);
      DarkNearlyReaches(c, ink, Over(ink, g.dark, r), target);
      DarkNearlyReaches(c, ink, Over(ink, g.bright, r), target);
    }
  }

  /** When the answer would not fit under the cap it is the cap: so at once for light ink that reads no
      better than the aim on black itself. */
  lemma CappedExactly(c: Curve, ink: real, s: Stats, current: real, target: real)
    requires target >= 1.0 && Unit(ink)
    ensures Hopeless(ink, target) <==> IsLight(ink) && ContrastRatio(ink, 0.0) <= target * 1.08
    ensures !UnderCap(c, ink, s, current, target) ==> PlateAlpha(c, ink, s, current, target) == 0.88
  {
    var limit := Limit(ink, target);
    if IsLight(ink) {
      LimitIsReached(ink, target);
      assert ContrastRatio(ink, 0.0) * 0.05 == ink + 0.05;
      if limit > 0.0 { Less(0.05, limit + 0.05, target * AIM); }
      else { TimesInOrder(limit + 0.05, 0.05, target * AIM); }
    }
    RoundOfWhole(880);
  }

  /** Whatever it is asked, the answer is a usable opacity. */
  lemma PlateAlphaInRange(c: Curve, ink: real, s: Stats, current: real, target: real)
    requires target > 0.0 && current >= 0.0
    ensures 0.0 <= PlateAlpha(c, ink, s, current, target) <= LOCAL_MAX
  {
  }

  lemma KeepIsLeast(bare: real, current: real, have: real, room: real, weaker: real)
    requires bare >= 0.0 && 0.0 <= current <= 1.0 && have == Fade(bare, current) >= TINY && room >= 0.0
    requires weaker < 1.0 - (1.0 - current) * Keep(room, have)
    requires current < 1.0 - (1.0 - current) * Keep(room, have)
    ensures Fade(bare, weaker) > room
  {
    var keep := Keep(room, have);
    var a := 1.0 - (1.0 - current) * keep;
    FadeTwice(bare, 1.0 - current, keep, a);
    assert room / have * have == room;
    Shrinks(bare, 1.0 - current);
    assert keep < 1.0;
    Less(1.0 - a, 1.0 - weaker, bare);
  }

  lemma LightNeedsIt(c: Curve, ink: real, g: Ground, current: real, target: real, weaker: real)
    requires IsCurve(c) && Unit(ink) && Bare(g) && 0.0 <= current <= 1.0 && target >= 1.0
    requires IsLight(ink) && !Hopeless(ink, target) && 0.0 <= weaker <= 1.0
    requires var s := Seen(c, ink, g, current);
             && TINY <= Encoded(c, s.bright)
             && current < Needed(c, ink, s, current, target) && weaker < Needed(c, ink, s, current, target)
    ensures ink + 0.05 < target * AIM * (Seen(c, ink, g, weaker).bright + 0.05)
  {
    var s, limit := Seen(c, ink, g, current), Limit(ink, target);
    MeasuredUnderPlate(c, ink, g, current);
    LimitIsReached(ink, target);
    OverIsUnit(ink, g, weaker);
    assert UndoneAt(c, limit);
    KeepIsLeast(g.bright, current, Encoded(c, s.bright), c.enc(limit), weaker);
    assert RisesFrom(c, c.enc(limit), Over(ink, g.bright, weaker));
    Less(limit + 0.05, Seen(c, ink, g, weaker).bright + 0.05, target * AIM);
  }

  lemma DarkNeedsIt(c: Curve, ink: real, g: Ground, current: real, target: real, weaker: real)
    requires IsCurve(c) && Unit(ink) && Bare(g) && 0.0 <= current <= 1.0 && target >= 1.0
    requires !IsLight(ink) && Limit(ink, target) <= 1.0 && 0.0 <= weaker <= 1.0
    requires var s := Seen(c, ink, g, current);
             && TINY <= 1.0 - Encoded(c, s.dark)
             && current < Needed(c, ink, s, current, target) && weaker < Needed(c, ink, s, current, target)
    ensures Seen(c, ink, g, weaker).dark + 0.05 < (ink + 0.05) * (target * AIM)
  {
    var s, limit := Seen(c, ink, g, current), Limit(ink, target);
    MeasuredUnderPlate(c, ink, g, current);
    LimitIsReached(ink, target);
    OverIsUnit(ink, g, weaker);
    assert UndoneAt(c, limit);
    KeepIsLeast(1.0 - g.dark, current, 1.0 - Encoded(c, s.dark), 1.0 - c.enc(limit), weaker);
    assert RisesFrom(c, Over(ink, g.dark, weaker), c.enc(limit));
  }

  /** And no weaker plate would do: when the ground as measured asks for more than the plate it
      lies under, every lesser strength leaves the end it works on reading short of 1.08 times the
      target. */
  lemma PlateIsLeast(c: Curve, ink: real, g: Ground, current: real, target: real, weaker: real)
    requires IsCurve(c) && Unit(ink) && Bare(g) && 0.0 <= current <= 1.0 && target >= 1.0
    requires !Hopeless(ink, target) && Limit(ink, target) <= 1.0
    requires var s := Seen(c, ink, g, current);
             && TINY <= (if IsLight(ink) then Encoded(c, s.bright) else 1.0 - Encoded(c, s.dark))
             && current < Needed(c, ink, s, current, target) && 0.0 <= weaker < Needed(c, ink, s, current, target)
    ensures var seen, aim := Seen(c, ink, g, weaker), target * 1.08;
            if ink >= 0.18 then ink + 0.05 < aim * (seen.bright + 0.05) else seen.dark + 0.05 < (ink + 0.05) * aim
  {
    NeededIsEnough(c, ink, g, current, target);
    if IsLight(ink) { LightNeedsIt(c, ink, g, current, target, weaker); }
    else { DarkNeedsIt(c, ink, g, current, target, weaker); }
  }
}
