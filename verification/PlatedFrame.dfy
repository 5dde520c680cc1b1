/** The same loop over a photograph: what each round measures is the ground under the plates that
    round laid. */
module PlatedFrame {
  import opened Geometry
  import opened Legibility
  import opened LegibleFrame
  import opened Numeric

  // app/creative/compose.py `_make_legible`, with `contrast_on` for its readings and `plate_alpha`
  // (app/creative/legibility.py) for what each word asks. A group's plate takes its colour from the
  // group's first word and its strength from all of them.

  /** A piece of type on the photograph: its ink, opaque, and the bare ground behind it. */
  datatype Lettering = Lettering(ink: real, ground: Ground)

  // ------------------------------------------------------------------ a stronger plate

  /** Ink too bright to be legible as dark on light, or too dark to be legible as light on dark. */
  predicate Clear(ink: real) {
    Unit(ink) && (ink > 0.1834 || ink < 0.175)
  }

  lemma OpaqueReads(c: Curve, ink: real, s: Stats)
    requires IsCurve(c) && Unit(ink) && Measured(s)
    ensures ContrastOn(c, ink, 1.0, s) == Min(ContrastRatio(ink, s.bright), ContrastRatio(ink, s.dark))
  {
  }

  lemma QuotientReaches(x: real, y: real, k: real)
    requires y > 0.0
    ensures x / y >= k <==> x >= k * y
  {
    var q := x / y;
    assert q * y == x;
    if x >= k * y { QuotientAtLeast(x, y, k); }
    if q >= k { TimesInOrder(k, q, y); }
  }

  /** Text contrast against one luminance is on the ink's own side of it. */
  lemma ReadsOn(ink: real, lum: real)
    requires Clear(ink) && Unit(lum)
    ensures ContrastRatio(ink, lum) >= TEXT_CONTRAST
            <==> if IsLight(ink) then ink + 0.05 >= 4.5 * (lum + 0.05) else lum + 0.05 >= 4.5 * (ink + 0.05)
  {
    QuotientReaches(Max(ink, lum) + 0.05, Min(ink, lum) + 0.05, TEXT_CONTRAST);
  }

  /** The second ground is no nearer to the ink than the first, at either end. */
  predicate Retreats(ink: real, s: Stats, t: Stats) {
    if IsLight(ink) then t.bright <= s.bright && t.dark <= s.dark else t.bright >= s.bright && t.dark >= s.dark
  }

  lemma RetreatKeepsText(c: Curve, ink: real, s: Stats, t: Stats)
    requires IsCurve(c) && Clear(ink) && Measured(s) && Measured(t) && Retreats(ink, s, t)
    requires ContrastOn(c, ink, 1.0, s) >= TEXT_CONTRAST
    ensures ContrastOn(c, ink, 1.0, t) >= TEXT_CONTRAST
  {
    OpaqueReads(c, ink, s);
    OpaqueReads(c, ink, t);
    ReadsOn(ink, s.bright);
    ReadsOn(ink, s.dark);
    ReadsOn(ink, t.bright);
    ReadsOn(ink, t.dark);
  }

  lemma FadesMore(x: real, a: real, b: real)
    requires Unit(x) && 0.0 <= a <= b <= 1.0
    ensures 0.0 <= Fade(x, b) <= Fade(x, a) <= 1.0
  {
    TimesInOrder(1.0 - b, 1.0 - a, x);
    Shrinks(x, 1.0 - b);
    Shrinks(x, 1.0 - a);
  }

  /** A stronger plate takes both ends further towards its own colour: away from ink of the tone it
      was chosen for, towards ink of the other. */
  lemma StrongerPlate(c: Curve, tone: real, g: Ground, a: real, b: real)
    requires IsCurve(c) && Bare(g) && 0.0 <= a <= b <= 1.0
    ensures Measured(Seen(c, tone, g, a)) && Measured(Seen(c, tone, g, b))
    ensures Retreats(tone, Seen(c, tone, g, a), Seen(c, tone, g, b))
  {
    SeenIsMeasured(c, tone, g, a);
    SeenIsMeasured(c, tone, g, b);
    OverIsUnit(tone, g, a);
    OverIsUnit(tone, g, b);
    FadesMore(g.bright, a, b);
    FadesMore(g.dark, a, b);
    FadesMore(1.0 - g.bright, a, b);
    FadesMore(1.0 - g.dark, a, b);
    if IsLight(tone) {
      DecodesInOrder(c, Over(tone, g.bright, b), Over(tone, g.bright, a));
      DecodesInOrder(c, Over(tone, g.dark, b), Over(tone, g.dark, a));
    } else {
      DecodesInOrder(c, Over(tone, g.bright, a), Over(tone, g.bright, b));
      DecodesInOrder(c, Over(tone, g.dark, a), Over(tone, g.dark, b));
    }
  }

  lemma SameToneSees(c: Curve, ink: real, tone: real, g: Ground, a: real)
    requires IsLight(ink) == IsLight(tone)
    ensures Seen(c, tone, g, a) == Seen(c, ink, g, a)
  {
  }

  // ------------------------------------------------------------------ an answer, not an increment

  /** What may be left of the way to the plate's colour. */
  function Room(c: Curve, ink: real): real {
    var limit := Encoded(c, Limit(ink, TEXT_CONTRAST));
    if IsLight(ink) then limit else 1.0 - limit
  }

  lemma ShareTwice(bare: real, left: real, have: real, room: real)
    requires bare > 0.0 && have == bare * left > 0.0
    ensures left * (room / have) == room / bare
  {
    var q := room / have;
    assert q * have == room;
    assert (left * q) * bare == q * have;
    QuotientUnique(left * q, room / bare, bare, room);
  }

  /** What may be kept of what a plate left is what may be kept of the bare distance, or all of it. */
  lemma KeepIsAbsolute(bare: real, left: real, have: real, room: real)
    requires Unit(bare) && 0.0 < left <= 1.0 && have == bare * left && room >= TINY
    ensures left * Keep(room, have) == Min(left, Keep(room, bare))
  {
    Shrinks(bare, left);
    if room < have {
      ShareTwice(bare, left, have, room);
      QuotientReaches(room, have, 1.0);
      QuotientReaches(room, bare, 1.0);
      assert Keep(room, have) == room / have && Keep(room, bare) == room / bare;
      TimesInOrder(room / have, 1.0, left);
    } else {
      QuotientReaches(room, Max(have, TINY), 1.0);
      assert Keep(room, have) == 1.0;
      assert left * bare == have;
      QuotientReaches(room, Max(bare, TINY), if room < bare then left else 1.0);
    }
  }

  lemma NeededFromBare(c: Curve, ink: real, g: Ground, a: real, bare: real)
    requires IsCurve(c) && Unit(ink) && Bare(g) && 0.0 <= a <= 1.0
    requires bare == if IsLight(ink) then g.bright else 1.0 - g.dark
    ensures Needed(c, ink, Seen(c, ink, g, a), a, TEXT_CONTRAST)
            == Max(a, 1.0 - (1.0 - a) * Keep(Room(c, ink), Fade(bare, a)))
  {
    MeasuredUnderPlate(c, ink, g, a);
  }

  lemma Absolute(a: real, bare: real, room: real)
    requires Unit(bare) && 0.0 <= a < 1.0 && room >= TINY
    ensures Max(a, 1.0 - (1.0 - a) * Keep(room, Fade(bare, a)))
            == Max(a, Max(0.0, 1.0 - (1.0 - 0.0) * Keep(room, Fade(bare, 0.0))))
  {
    KeepIsAbsolute(bare, 1.0 - a, Fade(bare, a), room);
    assert Fade(bare, 0.0) == bare;
  }

  /** plate_alpha's answer is absolute: under whatever plate the ground was measured, it is the one
      the bare ground asks for, or the plate there is if that is stronger already. */
  lemma AnswerIsAbsolute(c: Curve, ink: real, g: Ground, a: real)
    requires IsCurve(c) && Unit(ink) && Bare(g) && 0.0 <= a < 1.0 && Room(c, ink) >= TINY
    ensures Needed(c, ink, Seen(c, ink, g, a), a, TEXT_CONTRAST)
            == Max(a, Needed(c, ink, Seen(c, ink, g, 0.0), 0.0, TEXT_CONTRAST))
  {
    var bare := if IsLight(ink) then g.bright else 1.0 - g.dark;
    NeededFromBare(c, ink, g, a, bare);
    NeededFromBare(c, ink, g, 0.0, bare);
    Absolute(a, bare, Room(c, ink));
  }

  /** A plate of its own colour can serve this word: the strength its bare ground asks for is within
      the cap, and some grey is far enough from its ink. */
  ghost predicate Servable(c: Curve, w: Lettering)
  {
    && Clear(w.ink) && Bare(w.ground) && Room(c, w.ink) >= TINY
    && UnderCap(c, w.ink, Seen(c, w.ink, w.ground, 0.0), 0.0, TEXT_CONTRAST)
  }

  lemma ServableUnderAny(c: Curve, w: Lettering, a: real)
    requires IsCurve(c) && Servable(c, w) && 0.0 <= a <= LOCAL_MAX
    ensures UnderCap(c, w.ink, Seen(c, w.ink, w.ground, a), a, TEXT_CONTRAST)
  {
    AnswerIsAbsolute(c, w.ink, w.ground, a);
  }

  // ------------------------------------------------------------------ one round

  /** Word i was measured, in this round, over its own ground under a plate of strength `a` and the
      colour the group's first word calls for; it is on the photograph, so it gets no slack. */
  ghost predicate Rendered(p: Page, c: Curve, letters: seq<Lettering>, first: nat, i: nat, round: nat, a: real)
    requires IsCurve(c)
  {
    && first < |letters| && i < |letters| && i < |p.inks| && Unit(letters[i].ink) && Bare(letters[i].ground)
    && var s := Seen(c, letters[first].ink, letters[i].ground, a);
    && Measured(s)
    && p.reading(round, i) == Reading(ContrastOn(c, letters[i].ink, 1.0, s), false)
    && p.need(round, i, a) == PlateAlpha(c, letters[i].ink, s, a, TEXT_CONTRAST)
  }

  lemma ShortMeans(p: Page, c: Curve, letters: seq<Lettering>, first: nat, i: nat, round: nat, a: real)
    requires IsCurve(c) && Rendered(p, c, letters, first, i, round, a)
    ensures Short(p, round, i)
            <==> ContrastOn(c, letters[i].ink, 1.0, Seen(c, letters[first].ink, letters[i].ground, a)) < TEXT_CONTRAST
  {
  }

  /** A plate at least as strong as a word of its tone asked for, or as one it read well under,
      keeps that word at its bar. */
  lemma ServedByItsTone(c: Curve, w: Lettering, a: real, b: real)
    requires IsCurve(c) && Gentle(c) && Servable(c, w) && 0.0 <= a <= b <= LOCAL_MAX
    requires Measured(Seen(c, w.ink, w.ground, a))
    requires || ContrastOn(c, w.ink, 1.0, Seen(c, w.ink, w.ground, a)) >= TEXT_CONTRAST
             || b >= PlateAlpha(c, w.ink, Seen(c, w.ink, w.ground, a), a, TEXT_CONTRAST)
    ensures Measured(Seen(c, w.ink, w.ground, b))
    ensures ContrastOn(c, w.ink, 1.0, Seen(c, w.ink, w.ground, b)) >= TEXT_CONTRAST
  {
    if ContrastOn(c, w.ink, 1.0, Seen(c, w.ink, w.ground, a)) >= TEXT_CONTRAST {
      StrongerPlate(c, w.ink, w.ground, a, b);
      RetreatKeepsText(c, w.ink, Seen(c, w.ink, w.ground, a), Seen(c, w.ink, w.ground, b));
    } else {
      ServableUnderAny(c, w, a);
      RoundedPlateReachesTarget(c, w.ink, w.ground, a, TEXT_CONTRAST);
      var asked := PlateAlpha(c, w.ink, Seen(c, w.ink, w.ground, a), a, TEXT_CONTRAST);
      StrongerPlate(c, w.ink, w.ground, asked, b);
      RetreatKeepsText(c, w.ink, Seen(c, w.ink, w.ground, asked), Seen(c, w.ink, w.ground, b));
    }
  }

  /** Under a plate of the other tone the ground only comes nearer. */
  lemma NotServedByTheOther(c: Curve, w: Lettering, tone: real, a: real, b: real)
    requires IsCurve(c) && Clear(w.ink) && Bare(w.ground) && IsLight(w.ink) != IsLight(tone) && 0.0 <= a <= b <= 1.0
    requires Measured(Seen(c, tone, w.ground, a)) && Measured(Seen(c, tone, w.ground, b))
    requires ContrastOn(c, w.ink, 1.0, Seen(c, tone, w.ground, a)) < TEXT_CONTRAST
    ensures ContrastOn(c, w.ink, 1.0, Seen(c, tone, w.ground, b)) < TEXT_CONTRAST
  {
    StrongerPlate(c, tone, w.ground, a, b);
    if ContrastOn(c, w.ink, 1.0, Seen(c, tone, w.ground, b)) >= TEXT_CONTRAST {
      RetreatKeepsText(c, w.ink, Seen(c, tone, w.ground, b), Seen(c, tone, w.ground, a));
    }
  }

  ghost predicate Opacities(alphas: seq<real>) {
    forall n :: 0 <= n < |alphas| ==> 0.0 <= alphas[n] <= LOCAL_MAX
  }

  /** One more round, for a word of its plate's tone: whether it was short before or not, it is not
      short after. */
  lemma NotShortAfter(p: Page, c: Curve, letters: seq<Lettering>, groups: seq<seq<nat>>, round: nat,
                      alphas: seq<real>, n: nat, k: nat)
    requires IsCurve(c) && Gentle(c) && NeedsInRange(p) && |alphas| == |groups| && Opacities(alphas)
    requires n < |groups| && k < |groups[n]|
    requires Rendered(p, c, letters, groups[n][0], groups[n][k], round, alphas[n])
    requires Rendered(p, c, letters, groups[n][0], groups[n][k], round + 1, Strengthened(p, round, groups, alphas)[n])
    requires Servable(c, letters[groups[n][k]])
             && IsLight(letters[groups[n][k]].ink) == IsLight(letters[groups[n][0]].ink)
    ensures !Short(p, round + 1, groups[n][k])
  {
    var i, tone := groups[n][k], letters[groups[n][0]].ink;
    var w, a, b := letters[i], alphas[n], Strengthened(p, round, groups, alphas)[n];
    NextRoundRises(p, round, groups, alphas);
    SameToneSees(c, w.ink, tone, w.ground, a);
    SameToneSees(c, w.ink, tone, w.ground, b);
    ShortMeans(p, c, letters, groups[n][0], i, round, a);
    ShortMeans(p, c, letters, groups[n][0], i, round + 1, b);
    ServedByItsTone(c, w, a, b);
  }

  /** For a word of the other tone, once short is short for good. */
  lemma StillShortAfter(p: Page, c: Curve, letters: seq<Lettering>, groups: seq<seq<nat>>, round: nat,
                        alphas: seq<real>, n: nat, k: nat)
    requires IsCurve(c) && NeedsInRange(p) && |alphas| == |groups| && Opacities(alphas)
    requires n < |groups| && k < |groups[n]|
    requires Rendered(p, c, letters, groups[n][0], groups[n][k], round, alphas[n])
    requires Rendered(p, c, letters, groups[n][0], groups[n][k], round + 1, Strengthened(p, round, groups, alphas)[n])
    requires Clear(letters[groups[n][k]].ink)
             && IsLight(letters[groups[n][k]].ink) != IsLight(letters[groups[n][0]].ink)
    requires Short(p, round, groups[n][k])
    ensures Short(p, round + 1, groups[n][k])
  {
    var i, tone := groups[n][k], letters[groups[n][0]].ink;
    var a, b := alphas[n], Strengthened(p, round, groups, alphas)[n];
    NextRoundRises(p, round, groups, alphas);
    ShortMeans(p, c, letters, groups[n][0], i, round, a);
    ShortMeans(p, c, letters, groups[n][0], i, round + 1, b);
    NotServedByTheOther(c, letters[i], tone, a, b);
  }

  /** So the next plate helps a short word if and only if the word has the tone of the group's first
      -- for every servable word, ground and strength. */
  lemma PlateHelpsExactly(p: Page, c: Curve, letters: seq<Lettering>, groups: seq<seq<nat>>, round: nat,
                          alphas: seq<real>, n: nat, k: nat)
    requires IsCurve(c) && Gentle(c) && NeedsInRange(p) && |alphas| == |groups| && Opacities(alphas)
    requires n < |groups| && k < |groups[n]|
    requires Rendered(p, c, letters, groups[n][0], groups[n][k], round, alphas[n])
    requires Rendered(p, c, letters, groups[n][0], groups[n][k], round + 1, Strengthened(p, round, groups, alphas)[n])
    requires Servable(c, letters[groups[n][k]]) && Short(p, round, groups[n][k])
    ensures !Short(p, round + 1, groups[n][k])
            <==> IsLight(letters[groups[n][k]].ink) == IsLight(letters[groups[n][0]].ink)
  {
    if IsLight(letters[groups[n][k]].ink) == IsLight(letters[groups[n][0]].ink) {
      NotShortAfter(p, c, letters, groups, round, alphas, n, k);
    } else {
      StillShortAfter(p, c, letters, groups, round, alphas, n, k);
    }
  }

  // ------------------------------------------------------------------ the whole loop

  /** The strengths the loop lays in each round. */
  function AlphasAt(p: Page, groups: seq<seq<nat>>, round: nat): (alphas: seq<real>)
    ensures |alphas| == |groups|
  {
    if round == 0 then NothingLaid(groups).alphas
    else Strengthened(p, round - 1, groups, AlphasAt(p, groups, round - 1))
  }

  lemma {:induction false} LoopLaysThese(p: Page, groups: seq<seq<nat>>, round: nat, laid: Laid)
    requires round <= LEGIBILITY_ROUNDS && |laid.alphas| == |groups| && laid.alphas == AlphasAt(p, groups, round)
    ensures var out := LegibleFrom(p, groups, round, laid);
            out.round >= round && (out.Legible? ==> out.shown.alphas == AlphasAt(p, groups, out.round))
    decreases LEGIBILITY_ROUNDS - round
  {
    var changed := p.logo.Opaque? && round == 0;
    if (AnyShort(p, round) || changed) && !(round == LEGIBILITY_ROUNDS || OnlyPillShort(p, round)) {
      var next := Laid(Strengthened(p, round, groups, laid.alphas),
                       MarkAfter(p, round, CardOrdered(p, round, laid.mark)));
      LoopLaysThese(p, groups, round + 1, next);
    }
  }

  lemma {:induction false} AlphasAreOpacities(p: Page, groups: seq<seq<nat>>, round: nat)
    requires NeedsInRange(p)
    ensures Opacities(AlphasAt(p, groups, round))
  {
    if round > 0 {
      AlphasAreOpacities(p, groups, round - 1);
      NextRoundRises(p, round - 1, groups, AlphasAt(p, groups, round - 1));
    }
  }

  ghost predicate RenderedAt(p: Page, c: Curve, letters: seq<Lettering>, groups: seq<seq<nat>>, round: nat, n: nat,
                             k: nat)
    requires IsCurve(c) && n < |groups| && k < |groups[n]|
  {
    Rendered(p, c, letters, groups[n][0], groups[n][k], round, AlphasAt(p, groups, round)[n])
  }

  /** Every grouped word, in every round, over the plates that round laid. */
  ghost predicate Photographed(p: Page, c: Curve, letters: seq<Lettering>, groups: seq<seq<nat>>)
    requires IsCurve(c)
  {
    forall r: nat, n: nat, k: nat :: r <= LEGIBILITY_ROUNDS && n < |groups| && k < |groups[n]| ==>
      RenderedAt(p, c, letters, groups, r, n, k)
  }

  /** Each word can be served, and by the plate its group's first word calls for. */
  ghost predicate OneTone(c: Curve, letters: seq<Lettering>, group: seq<nat>) {
    forall k :: 0 <= k < |group| ==>
      && group[k] < |letters| && Servable(c, letters[group[k]])
      && group[0] < |letters| && IsLight(letters[group[k]].ink) == IsLight(letters[group[0]].ink)
  }

  /** One round serves a word, of a one-toned group, that is photographed over its own plates. */
  lemma OneRoundServes(p: Page, c: Curve, letters: seq<Lettering>, groups: seq<seq<nat>>, round: nat, n: nat, k: nat)
    requires IsCurve(c) && Gentle(c) && NeedsInRange(p) && 1 <= round <= LEGIBILITY_ROUNDS
    requires n < |groups| && k < |groups[n]| && OneTone(c, letters, groups[n])
    requires RenderedAt(p, c, letters, groups, round - 1, n, k) && RenderedAt(p, c, letters, groups, round, n, k)
    ensures !Short(p, round, groups[n][k])
  {
    var before := AlphasAt(p, groups, round - 1);
    AlphasAreOpacities(p, groups, round - 1);
    assert Rendered(p, c, letters, groups[n][0], groups[n][k], round, Strengthened(p, round - 1, groups, before)[n]);
    NotShortAfter(p, c, letters, groups, round - 1, before, n, k);
  }

  /** One round of plates is enough: over any photograph, where each group is of one tone and its
      words can be served, no word is short at any measurement after the first. */
  lemma OneRoundIsEnough(p: Page, c: Curve, letters: seq<Lettering>, groups: seq<seq<nat>>, round: nat, n: nat, k: nat)
    requires IsCurve(c) && Gentle(c) && NeedsInRange(p) && Photographed(p, c, letters, groups)
    requires n < |groups| && k < |groups[n]| && OneTone(c, letters, groups[n]) && 1 <= round <= LEGIBILITY_ROUNDS
    ensures !Short(p, round, groups[n][k])
  {
    assert RenderedAt(p, c, letters, groups, round - 1, n, k);
    assert RenderedAt(p, c, letters, groups, round, n, k);
    OneRoundServes(p, c, letters, groups, round, n, k);
  }

  ghost predicate Grouped(groups: seq<seq<nat>>, i: nat) {
    exists n, k :: 0 <= n < |groups| && 0 <= k < |groups[n]| && groups[n][k] == i
  }

  /** Then a frame is never refused for the words on its photograph: what is still short at the end
      is the pill, or the mark. */
  lemma RefusedOnlyForPillOrMark(p: Page, c: Curve, letters: seq<Lettering>, groups: seq<seq<nat>>)
    requires IsCurve(c) && Gentle(c) && NeedsInRange(p) && Photographed(p, c, letters, groups)
    requires forall n :: 0 <= n < |groups| ==> OneTone(c, letters, groups[n])
    requires forall i: nat :: i < |p.inks| && !IsPill(p, i) ==> Grouped(groups, i)
    ensures var out := LegibleFrom(p, groups, 0, NothingLaid(groups));
            out.Refused? ==>
              forall i :: 0 <= i < Elements(p) && Short(p, out.round, i) ==> IsPill(p, i) || i == |p.inks|
  {
    LegibleOrRefused(p, groups);
    var out := LegibleFrom(p, groups, 0, NothingLaid(groups));
    if out.Refused? && !OnlyPillShort(p, out.round) {
      forall i | 0 <= i < Elements(p) && Short(p, out.round, i) && !IsPill(p, i) ensures i == |p.inks| {
        if i < |p.inks| {
          assert Grouped(groups, i);
          var n, k :| 0 <= n < |groups| && 0 <= k < |groups[n]| && groups[n][k] == i;
          OneRoundIsEnough(p, c, letters, groups, out.round, n, k);
        }
      }
    }
  }

  /** A word of the other tone that is short at the first measurement is short at every one. */
  lemma {:induction false} OtherToneStaysShort(p: Page, c: Curve, letters: seq<Lettering>, groups: seq<seq<nat>>,
                                               round: nat, n: nat, k: nat)
    requires IsCurve(c) && NeedsInRange(p) && Photographed(p, c, letters, groups) && round <= LEGIBILITY_ROUNDS
    requires n < |groups| && k < |groups[n]| && groups[n][k] < |letters| && groups[n][0] < |letters|
    requires Clear(letters[groups[n][k]].ink)
             && IsLight(letters[groups[n][k]].ink) != IsLight(letters[groups[n][0]].ink)
    requires Short(p, 0, groups[n][k])
    ensures Short(p, round, groups[n][k])
    decreases round
  {
    if round > 0 {
      OtherToneStaysShort(p, c, letters, groups, round - 1, n, k);
      AlphasAreOpacities(p, groups, round - 1);
      assert RenderedAt(p, c, letters, groups, round - 1, n, k);
      assert RenderedAt(p, c, letters, groups, round, n, k);
      StillShortAfter(p, c, letters, groups, round - 1, AlphasAt(p, groups, round - 1), n, k);
    }
  }

  /** So a frame with such a word runs through all its rounds, plating the wrong colour stronger each
      time, and is delivered only if what is short in the end is short within the slack. */
  lemma MixedGroupIsNotRescued(p: Page, c: Curve, letters: seq<Lettering>, groups: seq<seq<nat>>, n: nat, k: nat)
    requires IsCurve(c) && NeedsInRange(p) && Photographed(p, c, letters, groups)
    requires n < |groups| && k < |groups[n]| && groups[n][k] < |letters| && groups[n][0] < |letters|
    requires Clear(letters[groups[n][k]].ink)
             && IsLight(letters[groups[n][k]].ink) != IsLight(letters[groups[n][0]].ink)
    requires Short(p, 0, groups[n][k]) && !IsPill(p, groups[n][k])
    ensures var out := LegibleFrom(p, groups, 0, NothingLaid(groups));
            && out.round == LEGIBILITY_ROUNDS && Short(p, out.round, groups[n][k])
            && (out.Legible? <==> WithinSlack(p, LEGIBILITY_ROUNDS))
  {
    forall r: nat | r <= LEGIBILITY_ROUNDS ensures Short(p, r, groups[n][k]) && AnyShort(p, r) && !OnlyPillShort(p, r) {
      assert RenderedAt(p, c, letters, groups, r, n, k);
      OtherToneStaysShort(p, c, letters, groups, r, n, k);
    }
    RunsThrough(p, groups, 0, NothingLaid(groups));
  }

  lemma {:induction false} RunsThrough(p: Page, groups: seq<seq<nat>>, round: nat, laid: Laid)
    requires round <= LEGIBILITY_ROUNDS && |laid.alphas| == |groups|
    requires forall r: nat :: r <= LEGIBILITY_ROUNDS ==> AnyShort(p, r) && !OnlyPillShort(p, r)
    ensures var out := LegibleFrom(p, groups, round, laid);
            out.round == LEGIBILITY_ROUNDS && (out.Legible? <==> WithinSlack(p, LEGIBILITY_ROUNDS))
    decreases LEGIBILITY_ROUNDS - round
  {
    if round < LEGIBILITY_ROUNDS {
      var next := Laid(Strengthened(p, round, groups, laid.alphas),
                       MarkAfter(p, round, CardOrdered(p, round, laid.mark)));
      RunsThrough(p, groups, round + 1, next);
    }
  }

  // ------------------------------------------------------------------ every layout has such a page

  /** Every grouped word is lettering, and in one group only. */
  ghost predicate LaidOut(letters: seq<Lettering>, groups: seq<seq<nat>>, owner: nat -> nat) {
    forall n: nat, k: nat :: n < |groups| && k < |groups[n]| ==> InItsGroup(letters, owner, groups[n][k], n)
  }

  predicate InItsGroup(letters: seq<Lettering>, owner: nat -> nat, i: nat, n: nat) {
    i < |letters| && owner(i) == n && Unit(letters[i].ink) && Bare(letters[i].ground)
  }

  /** What word i reads at over its ground, under a plate of strength `a` for ink of this tone, and */
  ghost function ReadUnder(c: Curve, letters: seq<Lettering>, tone: real, i: nat, a: real): real
    requires IsCurve(c)
  {
    if i < |letters| && Unit(letters[i].ink) && Measured(Seen(c, tone, letters[i].ground, a))
    then ContrastOn(c, letters[i].ink, 1.0, Seen(c, tone, letters[i].ground, a))
    else 0.0
  }

  /** what it then asks for. */
  ghost function AskedUnder(c: Curve, letters: seq<Lettering>, tone: real, i: nat, a: real): real {
    if i < |letters| && a >= 0.0
    then PlateAlpha(c, letters[i].ink, Seen(c, tone, letters[i].ground, a), a, TEXT_CONTRAST)
    else 0.0
  }

  ghost function Tone(letters: seq<Lettering>, groups: seq<seq<nat>>, n: nat): real {
    if n < |groups| && groups[n] != [] && groups[n][0] < |letters| then letters[groups[n][0]].ink else 0.0
  }

  ghost function StrongestUnder(c: Curve, letters: seq<Lettering>, tone: real, words: seq<nat>, under: real,
                                alpha: real): real
    requires IsCurve(c)
  {
    if words == [] then alpha
    else
      var short := ReadUnder(c, letters, tone, words[0], under) < TEXT_CONTRAST;
      var first := if short then Max(alpha, AskedUnder(c, letters, tone, words[0], under)) else alpha;
      StrongestUnder(c, letters, tone, words[1..], under, first)
  }

  /** The strength of group n's plate, round by round, worked out from the photograph alone. */
  ghost function StrengthOf(c: Curve, letters: seq<Lettering>, groups: seq<seq<nat>>, n: nat, round: nat): real
    requires IsCurve(c)
    decreases round
  {
    if round == 0 || n >= |groups| then 0.0
    else
      var under := StrengthOf(c, letters, groups, n, round - 1);
      StrongestUnder(c, letters, Tone(letters, groups, n), groups[n], under, under)
  }

  ghost predicate MeasuresAt(p: Page, c: Curve, letters: seq<Lettering>, groups: seq<seq<nat>>, owner: nat -> nat,
                             round: nat, i: nat)
    requires IsCurve(c)
  {
    p.reading(round, i)
    == Reading(ReadUnder(c, letters, Tone(letters, groups, owner(i)), i,
                         StrengthOf(c, letters, groups, owner(i), round)), false)
  }

  ghost predicate AsksAt(p: Page, c: Curve, letters: seq<Lettering>, groups: seq<seq<nat>>, owner: nat -> nat,
                         round: nat, i: nat, under: real)
  {
    p.need(round, i, under) == AskedUnder(c, letters, Tone(letters, groups, owner(i)), i, under)
  }

  /** A page that measures exactly that. */
  ghost predicate Measures(p: Page, c: Curve, letters: seq<Lettering>, groups: seq<seq<nat>>, owner: nat -> nat)
    requires IsCurve(c)
  {
    && (forall round: nat, i: nat :: MeasuresAt(p, c, letters, groups, owner, round, i))
    && (forall round: nat, i: nat, under: real :: AsksAt(p, c, letters, groups, owner, round, i, under))
  }

  lemma PageThatMeasures(c: Curve, letters: seq<Lettering>, groups: seq<seq<nat>>, owner: nat -> nat,
                         inks: seq<Element>, logo: Logo, against: Colour) returns (p: Page)
    requires IsCurve(c)
    ensures p.inks == inks && p.logo == logo && p.against == against && Measures(p, c, letters, groups, owner)
  {
    p := Page(inks, logo, against,
              (round: nat, i: nat) =>
                Reading(ReadUnder(c, letters, Tone(letters, groups, owner(i)), i,
                                  StrengthOf(c, letters, groups, owner(i), round)), false),
              (round: nat, i: nat, under: real) => AskedUnder(c, letters, Tone(letters, groups, owner(i)), i, under));
  }

  lemma {:induction false} StrongestOnPage(c: Curve, letters: seq<Lettering>, groups: seq<seq<nat>>, owner: nat -> nat,
                                           p: Page, round: nat, n: nat, words: seq<nat>, alpha: real)
    requires IsCurve(c) && n < |groups| && forall k :: 0 <= k < |words| ==> owner(words[k]) == n && words[k] < |p.inks|
    requires Measures(p, c, letters, groups, owner)
    ensures var under := StrengthOf(c, letters, groups, n, round);
            Strongest(p, round, words, under, alpha)
            == StrongestUnder(c, letters, Tone(letters, groups, n), words, under, alpha)
    decreases |words|
  {
    if words != [] {
      var under := StrengthOf(c, letters, groups, n, round);
      assert MeasuresAt(p, c, letters, groups, owner, round, words[0])
             && AsksAt(p, c, letters, groups, owner, round, words[0], under);
      var first := if Short(p, round, words[0]) then Max(alpha, p.need(round, words[0], under)) else alpha;
      StrongestOnPage(c, letters, groups, owner, p, round, n, words[1..], first);
    }
  }

  lemma OwnedWords(letters: seq<Lettering>, groups: seq<seq<nat>>, owner: nat -> nat, n: nat)
    requires LaidOut(letters, groups, owner) && n < |groups|
    ensures forall k :: 0 <= k < |groups[n]| ==> owner(groups[n][k]) == n && groups[n][k] < |letters|
  {
    forall k | 0 <= k < |groups[n]| ensures owner(groups[n][k]) == n && groups[n][k] < |letters| {
      assert InItsGroup(letters, owner, groups[n][k], n);
    }
  }

  lemma NextAlpha(p: Page, groups: seq<seq<nat>>, n: nat, round: nat, under: real)
    requires round > 0 && n < |groups| && AlphasAt(p, groups, round - 1)[n] == under
    ensures AlphasAt(p, groups, round)[n] == Strongest(p, round - 1, groups[n], under, under)
  {
  }

  lemma NextStrength(c: Curve, letters: seq<Lettering>, groups: seq<seq<nat>>, n: nat, round: nat, under: real)
    requires IsCurve(c) && round > 0 && n < |groups| && StrengthOf(c, letters, groups, n, round - 1) == under
    ensures StrengthOf(c, letters, groups, n, round)
            == StrongestUnder(c, letters, Tone(letters, groups, n), groups[n], under, under)
  {
  }

  lemma NextOnPage(c: Curve, letters: seq<Lettering>, groups: seq<seq<nat>>, owner: nat -> nat, p: Page,
                   n: nat, round: nat, under: real)
    requires IsCurve(c) && n < |groups| && forall k :: 0 <= k < |groups[n]| ==>
               owner(groups[n][k]) == n && groups[n][k] < |p.inks|
    requires Measures(p, c, letters, groups, owner) && round > 0
    requires under == StrengthOf(c, letters, groups, n, round - 1) == AlphasAt(p, groups, round - 1)[n]
    ensures AlphasAt(p, groups, round)[n] == StrengthOf(c, letters, groups, n, round)
  {
    StrongestOnPage(c, letters, groups, owner, p, round - 1, n, groups[n], under);
    NextAlpha(p, groups, n, round, under);
    NextStrength(c, letters, groups, n, round, under);
  }

  lemma {:induction false} StrengthOnPage(c: Curve, letters: seq<Lettering>, groups: seq<seq<nat>>, owner: nat -> nat,
                                          p: Page, n: nat, round: nat)
    requires IsCurve(c) && LaidOut(letters, groups, owner) && |letters| <= |p.inks| && n < |groups|
    requires Measures(p, c, letters, groups, owner)
    ensures AlphasAt(p, groups, round)[n] == StrengthOf(c, letters, groups, n, round)
    decreases round
  {
    if round > 0 {
      StrengthOnPage(c, letters, groups, owner, p, n, round - 1);
      OwnedWords(letters, groups, owner, n);
      NextOnPage(c, letters, groups, owner, p, n, round, StrengthOf(c, letters, groups, n, round - 1));
    }
  }

  lemma AsksInRange(c: Curve, letters: seq<Lettering>, groups: seq<seq<nat>>, owner: nat -> nat, p: Page)
    requires IsCurve(c) && Measures(p, c, letters, groups, owner)
    ensures NeedsInRange(p)
  {
    forall round: nat, i: nat, under: real ensures p.need(round, i, under) <= LOCAL_MAX {
      var tone := Tone(letters, groups, owner(i));
      assert AsksAt(p, c, letters, groups, owner, round, i, under);
      if i < |letters| && under >= 0.0 {
        PlateAlphaInRange(c, letters[i].ink, Seen(c, tone, letters[i].ground, under), under, TEXT_CONTRAST);
      }
      assert AskedUnder(c, letters, tone, i, under) <= LOCAL_MAX;
    }
  }

  lemma RenderedOnPage(c: Curve, letters: seq<Lettering>, groups: seq<seq<nat>>, owner: nat -> nat, p: Page, round: nat,
                       n: nat, k: nat)
    requires IsCurve(c) && LaidOut(letters, groups, owner) && |letters| <= |p.inks|
             && Measures(p, c, letters, groups, owner)
    requires NeedsInRange(p) && n < |groups| && k < |groups[n]|
    ensures RenderedAt(p, c, letters, groups, round, n, k)
  {
    StrengthOnPage(c, letters, groups, owner, p, n, round);
    AlphasAreOpacities(p, groups, round);
    OwnedWords(letters, groups, owner, n);
    assert InItsGroup(letters, owner, groups[n][k], n) && InItsGroup(letters, owner, groups[n][0], n);
    assert MeasuresAt(p, c, letters, groups, owner, round, groups[n][k]);
    assert AsksAt(p, c, letters, groups, owner, round, groups[n][k], AlphasAt(p, groups, round)[n]);
    SeenIsMeasured(c, letters[groups[n][0]].ink, letters[groups[n][k]].ground, AlphasAt(p, groups, round)[n]);
  }

  /** Whatever the words, their inks, their grounds and their groups are, there is a page that
      measures them as they are: the loop's readings and answers are those of its own plates. */
  lemma EveryLayoutHasItsPage(c: Curve, letters: seq<Lettering>, groups: seq<seq<nat>>, owner: nat -> nat,
                              inks: seq<Element>, logo: Logo, against: Colour) returns (p: Page)
    requires IsCurve(c) && LaidOut(letters, groups, owner) && |letters| <= |inks|
    ensures p.inks == inks && p.logo == logo && p.against == against
    ensures NeedsInRange(p) && Photographed(p, c, letters, groups)
  {
    p := PageThatMeasures(c, letters, groups, owner, inks, logo, against);
    AsksInRange(c, letters, groups, owner, p);
    forall r: nat, n: nat, k: nat | r <= LEGIBILITY_ROUNDS && n < |groups| && k < |groups[n]|
      ensures RenderedAt(p, c, letters, groups, r, n, k)
    {
      RenderedOnPage(c, letters, groups, owner, p, r, n, k);
    }
  }

  // ------------------------------------------------------------------ a group of two tones

  /** The straight line is a curve, and a gentle one. */
  const STRAIGHT := Curve(x => x, x => x)

  lemma StraightIsCurve()
    ensures IsCurve(STRAIGHT) && Gentle(STRAIGHT)
  {
    assert forall x {:trigger UndoneAt(STRAIGHT, x)} :: UndoneAt(STRAIGHT, x);
    assert forall x, y {:trigger RisesFrom(STRAIGHT, x, y)} :: RisesFrom(STRAIGHT, x, y);
  }

  /** White ink over mid-grey, under a white plate of any strength. */
  lemma WhiteOnWhite(a: real)
    requires 0.0 <= a <= 1.0
    ensures var s := Seen(STRAIGHT, 0.0, Ground(0.5, 0.5), a);
            IsCurve(STRAIGHT) && Measured(s) && ContrastOn(STRAIGHT, 1.0, 1.0, s) < 2.0
  {
    StraightIsCurve();
    SeenIsMeasured(STRAIGHT, 0.0, Ground(0.5, 0.5), a);
    var s := Seen(STRAIGHT, 0.0, Ground(0.5, 0.5), a);
    assert s == Stats(0.5 + 0.5 * a, 0.5 + 0.5 * a);
    OpaqueReads(STRAIGHT, 1.0, s);
    QuotientReaches(1.05, s.bright + 0.05, 2.0);
  }

  /** As the function stands, such a frame is refused: black type and white type in one group, over a
      mid-grey photograph. */
  lemma MixedGroupIsRefused() returns (p: Page)
    ensures p.inks == [Headline, Subhead] && IsCurve(STRAIGHT) && NeedsInRange(p)
    ensures Photographed(p, STRAIGHT, [Lettering(0.0, Ground(0.5, 0.5)), Lettering(1.0, Ground(0.5, 0.5))], [[0, 1]])
    ensures LegibleFrom(p, [[0, 1]], 0, NothingLaid([[0, 1]])) == Refused(LEGIBILITY_ROUNDS)
  {
    StraightIsCurve();
    var grey := Ground(0.5, 0.5);
    var letters, groups: seq<seq<nat>> := [Lettering(0.0, grey), Lettering(1.0, grey)], [[0, 1]];
    assert LaidOut(letters, groups, _ => 0) by {
      assert InItsGroup(letters, _ => 0, 0, 0) && InItsGroup(letters, _ => 0, 1, 0);
    }
    p := EveryLayoutHasItsPage(STRAIGHT, letters, groups, _ => 0, [Headline, Subhead], NoLogo, Light);
    forall r: nat | r <= LEGIBILITY_ROUNDS ensures p.reading(r, 1).contrast < 2.0 && Short(p, r, 1) {
      assert RenderedAt(p, STRAIGHT, letters, groups, r, 0, 1);
      AlphasAreOpacities(p, groups, r);
      WhiteOnWhite(AlphasAt(p, groups, r)[0]);
    }
    MixedGroupIsNotRescued(p, STRAIGHT, letters, groups, 0, 1);
  }
}
