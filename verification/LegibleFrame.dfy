/** The loop that holds a rendered frame to its contrast, and the final check that reads its
    report back. */
module LegibleFrame {
  import opened Geometry
  import opened Legibility
  import opened Numeric
  import opened Options

  // app/creative/compose.py `_make_legible`; app/creative/compositeqa.py `_contrast_short`. The page
  // and its photograph are an adversary: what each round measures behind each element, and how
  // strong a plate each asks for, can be anything.

  const LEGIBILITY_ROUNDS := 3
  const MARK_PLATE_ALPHA := 0.94

  /** The contrast found behind an element, and whether its ground is a designed one. */
  datatype Reading = Reading(contrast: real, designed: bool)

  datatype Logo = NoLogo | Cutout | Opaque

  datatype Colour = Edge | Light | Dark
  datatype MarkPlate = MarkPlate(colour: Colour, alpha: real)

  /** What one slide's page shows: its pieces of type, what its mark is, which of white and dark
      separates the mark better; then, round by round, each element's reading and the strength it
      needs over the plate it has. The mark is element |inks|. */
  datatype Page = Page(
    inks: seq<Element>, logo: Logo, against: Colour,
    reading: (nat, nat) -> Reading, need: (nat, nat, real) -> real)

  /** What is under the words and the mark: a strength per group, and the mark's plate. */
  datatype Laid = Laid(alphas: seq<real>, mark: Option<MarkPlate>)

  // ------------------------------------------------------------------ one measurement

  /** How many elements have a contrast to hold: an opaque logo has its card instead. */
  function Elements(p: Page): nat {
    |p.inks| + (if p.logo.Cutout? then 1 else 0)
  }

  function Bar(p: Page, i: nat): real {
    if i < |p.inks| then TEXT_CONTRAST else MARK_CONTRAST
  }

  predicate Short(p: Page, round: nat, i: nat) {
    var r := p.reading(round, i);
    r.contrast < Bar(p, i) - (if r.designed then MEASURE_SLACK else 0.0)
  }

  predicate AnyShort(p: Page, round: nat) {
    exists i :: 0 <= i < Elements(p) && Short(p, round, i)
  }

  predicate IsPill(p: Page, i: nat) {
    i < |p.inks| && p.inks[i] == Cta
  }

  predicate OnlyPillShort(p: Page, round: nat) {
    AnyShort(p, round) && forall i :: 0 <= i < Elements(p) && Short(p, round, i) ==> IsPill(p, i)
  }

  /** What is short is short by rounding only. */
  predicate WithinSlack(p: Page, round: nat) {
    forall i :: 0 <= i < Elements(p) && Short(p, round, i) ==> p.reading(round, i).contrast >= Bar(p, i) - MEASURE_SLACK
  }

  // ------------------------------------------------------------------ the rounds

  /** The strongest answer any short word of a group needs; all were measured over `under`. */
  function Strongest(p: Page, round: nat, words: seq<nat>, under: real, alpha: real): real {
    if words == [] then alpha
    else
      var first := if Short(p, round, words[0]) then Max(alpha, p.need(round, words[0], under)) else alpha;
      Strongest(p, round, words[1..], under, first)
  }

  function Strengthened(p: Page, round: nat, groups: seq<seq<nat>>, alphas: seq<real>): (r: seq<real>)
    requires |groups| == |alphas|
    ensures |r| == |alphas|
    ensures forall n :: 0 <= n < |alphas| ==> r[n] == Strongest(p, round, groups[n], alphas[n], alphas[n])
  {
    seq(|alphas|, n requires 0 <= n < |alphas| => Strongest(p, round, groups[n], alphas[n], alphas[n]))
  }

  /** An opaque logo's card is ordered as soon as it is seen, on the first round. */
  function CardOrdered(p: Page, round: nat, mark: Option<MarkPlate>): Option<MarkPlate> {
    if p.logo.Opaque? && round == 0 then Some(MarkPlate(Edge, 1.0)) else mark
  }

  function MarkAfter(p: Page, round: nat, mark: Option<MarkPlate>): Option<MarkPlate> {
    if p.logo.Cutout? && Short(p, round, |p.inks|) then
      Some(MarkPlate(p.against, if mark.Some? then 1.0 else MARK_PLATE_ALPHA))
    else mark
  }

  /** `reported` is what the report says lies on the frame, `shown` what lay on it when it was
      measured; `round` is the last measurement. */
  datatype Outcome = Legible(round: nat, reported: Laid, shown: Laid) | Refused(round: nat)

  function LegibleFrom(p: Page, groups: seq<seq<nat>>, round: nat, laid: Laid): Outcome
    requires round <= LEGIBILITY_ROUNDS && |laid.alphas| == |groups|
    decreases LEGIBILITY_ROUNDS - round
  {
    var ordered := CardOrdered(p, round, laid.mark);
    if !AnyShort(p, round) && !(p.logo.Opaque? && round == 0) then Legible(round, laid, laid)
    else if round == LEGIBILITY_ROUNDS || OnlyPillShort(p, round) then
      if WithinSlack(p, round) then Legible(round, laid.(mark := ordered), laid) else Refused(round)
    else
      LegibleFrom(p, groups, round + 1, Laid(Strengthened(p, round, groups, laid.alphas), MarkAfter(p, round, ordered)))
  }

  function NothingLaid(groups: seq<seq<nat>>): (r: Laid)
    ensures |r.alphas| == |groups|
  {
    Laid(seq(|groups|, _ => 0.0), None)
  }

  method FindShort(p: Page, round: nat) returns (any: bool, onlyPill: bool, within: bool)
    ensures any == AnyShort(p, round) && onlyPill == OnlyPillShort(p, round) && within == WithinSlack(p, round)
  {
    var other := false;
    any, within := false, true;
    for i := 0 to Elements(p)
      invariant any <==> exists j :: 0 <= j < i && Short(p, round, j)
      invariant other <==> exists j :: 0 <= j < i && Short(p, round, j) && !IsPill(p, j)
      invariant within <==> forall j :: 0 <= j < i && Short(p, round, j) ==>
                  p.reading(round, j).contrast >= Bar(p, j) - MEASURE_SLACK
    {
      if Short(p, round, i) {
        any := true;
        other := other || !IsPill(p, i);
        within := within && p.reading(round, i).contrast >= Bar(p, i) - MEASURE_SLACK;
      }
    }
    onlyPill := any && !other;
  }

  method Strengthen(p: Page, round: nat, groups: seq<seq<nat>>, alphas: array<real>)
    requires alphas.Length == |groups|
    modifies alphas
    ensures alphas[..] == Strengthened(p, round, groups, old(alphas[..]))
  {
    for n := 0 to |groups|
      invariant forall k :: 0 <= k < n ==> alphas[k] == Strongest(p, round, groups[k], old(alphas[k]), old(alphas[k]))
      invariant forall k :: n <= k < |groups| ==> alphas[k] == old(alphas[k])
    {
      var under, rest := alphas[n], groups[n];
      while rest != []
        invariant Strongest(p, round, rest, under, alphas[n]) == Strongest(p, round, groups[n], under, under)
        invariant forall k :: 0 <= k < |groups| && k != n ==>
                    alphas[k] == if k < n then Strongest(p, round, groups[k], old(alphas[k]), old(alphas[k]))
                                 else old(alphas[k])
        decreases |rest|
      {
        if Short(p, round, rest[0]) {
          alphas[n] := Max(alphas[n], p.need(round, rest[0], under));
        }
        rest := rest[1..];
      }
    }
  }

  /** _make_legible: lay the plates, measure the frame, strengthen what falls short. */
  method MakeLegible(p: Page, groups: seq<seq<nat>>) returns (out: Outcome)
    ensures out == LegibleFrom(p, groups, 0, NothingLaid(groups))
  {
    var alphas := new real[|groups|](_ => 0.0);
    var mark: Option<MarkPlate> := None;
    assert Laid(alphas[..], mark) == NothingLaid(groups);
    for round := 0 to LEGIBILITY_ROUNDS + 1
      invariant alphas.Length == |groups| && round <= LEGIBILITY_ROUNDS
      invariant LegibleFrom(p, groups, round, Laid(alphas[..], mark)) == LegibleFrom(p, groups, 0, NothingLaid(groups))
    {
      var shown := Laid(alphas[..], mark);
      var any, onlyPill, within := FindShort(p, round);
      var changed := false;
      if p.logo.Opaque? && round == 0 {
        mark, changed := Some(MarkPlate(Edge, 1.0)), true;
      }
      if !any && !changed {
        return Legible(round, Laid(alphas[..], mark), shown);
      }
      if round == LEGIBILITY_ROUNDS || onlyPill {
        if within {
          return Legible(round, Laid(alphas[..], mark), shown);
        }
        return Refused(round);
      }
      Strengthen(p, round, groups, alphas);
      if p.logo.Cutout? && Short(p, round, |p.inks|) {
        mark := Some(MarkPlate(p.against, if mark.Some? then 1.0 else MARK_PLATE_ALPHA));
      }
    }
    assert false;
  }

  // ------------------------------------------------------------------ what it promises

  /** plate_alpha's answers are opacities up to the cap (Legibility.PlateAlphaInRange). */
  ghost predicate NeedsInRange(p: Page) {
    forall round, i, under :: p.need(round, i, under) <= LOCAL_MAX
  }

  lemma {:induction false} StrongestRises(p: Page, round: nat, words: seq<nat>, under: real, alpha: real)
    requires NeedsInRange(p) && alpha <= LOCAL_MAX
    ensures alpha <= Strongest(p, round, words, under, alpha) <= LOCAL_MAX
    decreases |words|
  {
    if words != [] {
      var first := if Short(p, round, words[0]) then Max(alpha, p.need(round, words[0], under)) else alpha;
      StrongestRises(p, round, words[1..], under, first);
    }
  }

  lemma {:induction false} StrongestServes(p: Page, round: nat, words: seq<nat>, under: real, alpha: real, k: nat)
    requires k < |words| && Short(p, round, words[k]) && NeedsInRange(p) && alpha <= LOCAL_MAX
    ensures Strongest(p, round, words, under, alpha) >= p.need(round, words[k], under)
    decreases |words|
  {
    var first := if Short(p, round, words[0]) then Max(alpha, p.need(round, words[0], under)) else alpha;
    if k == 0 { StrongestRises(p, round, words[1..], under, first); }
    else { StrongestServes(p, round, words[1..], under, first, k - 1); }
  }

  ghost predicate Asked(p: Page, round: nat, words: seq<nat>, under: real, r: real) {
    exists k :: 0 <= k < |words| && Short(p, round, words[k]) && r == p.need(round, words[k], under)
  }

  /** No stronger than asked: the answer is what was there, or what some short word needs. */
  lemma {:induction false} StrongestIsAsked(p: Page, round: nat, words: seq<nat>, under: real, alpha: real)
    ensures var r := Strongest(p, round, words, under, alpha);
            r == alpha || Asked(p, round, words, under, r)
    decreases |words|
  {
    if words != [] {
      var first := if Short(p, round, words[0]) then Max(alpha, p.need(round, words[0], under)) else alpha;
      StrongestIsAsked(p, round, words[1..], under, first);
      var r := Strongest(p, round, words[1..], under, first);
      if r == first {
        if first != alpha { assert Short(p, round, words[0]) && r == p.need(round, words[0], under); }
      } else {
        var k :| 0 <= k < |words[1..]| && Short(p, round, words[1..][k]) && r == p.need(round, words[1..][k], under);
        assert words[k + 1] == words[1..][k];
      }
    }
  }

  /** At least as strong under every group, and never past the cap. */
  ghost predicate Rises(was: seq<real>, now: seq<real>) {
    |was| == |now| && forall n :: 0 <= n < |was| ==> was[n] <= now[n] <= LOCAL_MAX
  }

  /** From one round to the next no plate weakens, none passes the cap, every short word of a group
      gets at least what it asked for, and no group gets more than some short word of it asked. */
  lemma NextRoundRises(p: Page, round: nat, groups: seq<seq<nat>>, alphas: seq<real>)
    requires |groups| == |alphas| && NeedsInRange(p) && forall n :: 0 <= n < |alphas| ==> alphas[n] <= LOCAL_MAX
    ensures var next := Strengthened(p, round, groups, alphas);
            && Rises(alphas, next)
            && (forall n, k :: 0 <= n < |groups| && 0 <= k < |groups[n]| && Short(p, round, groups[n][k]) ==>
                  next[n] >= p.need(round, groups[n][k], alphas[n]))
            && forall n :: 0 <= n < |groups| ==> next[n] == alphas[n] || Asked(p, round, groups[n], alphas[n], next[n])
  {
    var next := Strengthened(p, round, groups, alphas);
    forall n | 0 <= n < |alphas| ensures alphas[n] <= next[n] <= LOCAL_MAX {
      StrongestRises(p, round, groups[n], alphas[n], alphas[n]);
    }
    forall n | 0 <= n < |groups| ensures next[n] == alphas[n] || Asked(p, round, groups[n], alphas[n], next[n]) {
      StrongestIsAsked(p, round, groups[n], alphas[n], alphas[n]);
    }
    forall n, k | 0 <= n < |groups| && 0 <= k < |groups[n]| && Short(p, round, groups[n][k])
      ensures next[n] >= p.need(round, groups[n][k], alphas[n])
    {
      StrongestServes(p, round, groups[n], alphas[n], alphas[n], k);
    }
  }

  /** A frame at its bars within the measurement slack: every word at 4.5:1, a cut-out mark at 3:1. */
  predicate AtTheBars(p: Page, round: nat) {
    && (forall i :: 0 <= i < |p.inks| ==> p.reading(round, i).contrast >= 4.5 - MEASURE_SLACK)
    && (p.logo.Cutout? ==> p.reading(round, |p.inks|).contrast >= 3.0 - MEASURE_SLACK)
  }

  /** To the letter, where the ground is a picture. */
  predicate Exactly(p: Page, round: nat) {
    && (forall i :: 0 <= i < |p.inks| && !p.reading(round, i).designed ==> p.reading(round, i).contrast >= 4.5)
    && (p.logo.Cutout? && !p.reading(round, |p.inks|).designed ==> p.reading(round, |p.inks|).contrast >= 3.0)
  }

  /** Under its bar: the slack is for designed grounds only. */
  predicate Falls(r: Reading, bar: real) {
    if r.designed then r.contrast < bar - MEASURE_SLACK else r.contrast < bar
  }

  /** A word or a cut-out mark is under its bar, the pill aside if `pillToo` is not set. */
  ghost predicate SomethingFalls(p: Page, round: nat, pillToo: bool) {
    || (exists i :: 0 <= i < |p.inks| && Falls(p.reading(round, i), 4.5) && (pillToo || p.inks[i] != Cta))
    || (p.logo.Cutout? && Falls(p.reading(round, |p.inks|), 3.0))
  }

  /** There is something to strengthen, and a plate can do it: an opaque logo wants its card, or
      something other than the pill falls. */
  ghost predicate AnotherRound(p: Page, round: nat) {
    SomethingFalls(p, round, false) || (p.logo.Opaque? && round == 0 && !SomethingFalls(p, round, true))
  }

  lemma ShortIsFalling(p: Page, round: nat)
    ensures AnyShort(p, round) <==> SomethingFalls(p, round, true)
    ensures OnlyPillShort(p, round) <==> SomethingFalls(p, round, true) && !SomethingFalls(p, round, false)
    ensures WithinSlack(p, round) <==> AtTheBars(p, round)
  {
    var n := |p.inks|;
    forall i | 0 <= i < n ensures Short(p, round, i) <==> Falls(p.reading(round, i), 4.5) {
    }
    if p.logo.Cutout? { assert Short(p, round, n) <==> Falls(p.reading(round, n), 3.0); }
    if SomethingFalls(p, round, true) {
      if p.logo.Cutout? && Falls(p.reading(round, n), 3.0) {
        assert 0 <= n < Elements(p) && Short(p, round, n);
      } else {
        var i :| 0 <= i < n && Falls(p.reading(round, i), 4.5);
        assert 0 <= i < Elements(p) && Short(p, round, i);
      }
    }
    if SomethingFalls(p, round, false) {
      if p.logo.Cutout? && Falls(p.reading(round, n), 3.0) {
        assert Short(p, round, n) && !IsPill(p, n);
      } else {
        var i :| 0 <= i < n && Falls(p.reading(round, i), 4.5) && p.inks[i] != Cta;
        assert Short(p, round, i) && !IsPill(p, i);
      }
    }
  }

  ghost predicate EndsRight(p: Page, round: nat, out: Outcome) {
    && round <= out.round <= 3 && (out.Legible? <==> AtTheBars(p, out.round))
    && (forall q: nat :: round <= q < out.round ==> AnotherRound(p, q))
    && (out.round == 3 || !AnotherRound(p, out.round))
  }

  lemma RoundExactly(p: Page, groups: seq<seq<nat>>, round: nat, laid: Laid)
    requires round <= LEGIBILITY_ROUNDS && |laid.alphas| == |groups|
    ensures var out := LegibleFrom(p, groups, round, laid);
            if round < 3 && AnotherRound(p, round) then
              out == LegibleFrom(p, groups, round + 1, Laid(Strengthened(p, round, groups, laid.alphas),
                                                            MarkAfter(p, round, CardOrdered(p, round, laid.mark))))
            else out.round == round && (out.Legible? <==> AtTheBars(p, round))
  {
    ShortIsFalling(p, round);
    ShortOrAtTheBar(p, round);
  }

  /** From `round` on, the loop goes on for as long as there is another round to give and something to
      give it, and then delivers exactly the frame that is at its bars. */
  lemma {:induction false} EndsFrom(p: Page, groups: seq<seq<nat>>, round: nat, laid: Laid)
    requires round <= LEGIBILITY_ROUNDS && |laid.alphas| == |groups|
    ensures EndsRight(p, round, LegibleFrom(p, groups, round, laid))
    decreases LEGIBILITY_ROUNDS - round
  {
    RoundExactly(p, groups, round, laid);
    if round < 3 && AnotherRound(p, round) {
      var next := Laid(Strengthened(p, round, groups, laid.alphas),
                       MarkAfter(p, round, CardOrdered(p, round, laid.mark)));
      EndsFrom(p, groups, round + 1, next);
      OneRoundEarlier(p, round, LegibleFrom(p, groups, round + 1, next));
    }
  }

  lemma OneRoundEarlier(p: Page, round: nat, out: Outcome)
    requires AnotherRound(p, round) && EndsRight(p, round + 1, out)
    ensures EndsRight(p, round, out)
  {
  }

  /** When the loop stops and what it then says, from the readings alone: at the first measurement with
      nothing left for a plate to do, or the fourth; and the frame is delivered exactly when every word
      is at 4.5:1 and a cut-out mark at 3:1, within the slack. */
  lemma EndsExactly(p: Page, groups: seq<seq<nat>>)
    ensures var out := LegibleFrom(p, groups, 0, NothingLaid(groups));
            && 0 <= out.round <= 3 && (out.Legible? <==> AtTheBars(p, out.round))
            && (forall q: nat :: q < out.round ==> AnotherRound(p, q))
            && (out.round == 3 || !AnotherRound(p, out.round))
  {
    EndsFrom(p, groups, 0, NothingLaid(groups));
  }

  /** What falls short within the slack is at its bar within the slack; what does not is at it. */
  lemma ShortOrAtTheBar(p: Page, round: nat)
    ensures WithinSlack(p, round) <==> AtTheBars(p, round)
    ensures !AnyShort(p, round) ==> AtTheBars(p, round) && Exactly(p, round)
  {
    forall i | 0 <= i < Elements(p) && !Short(p, round, i)
      ensures p.reading(round, i).contrast >= Bar(p, i) - MEASURE_SLACK
      ensures !p.reading(round, i).designed ==> p.reading(round, i).contrast >= Bar(p, i)
    {
    }
    assert AtTheBars(p, round) ==> WithinSlack(p, round);
  }

  ghost predicate Promised(p: Page, round: nat, laid: Laid, out: Outcome) {
    match out
    case Legible(last, reported, shown) =>
      && round <= last <= LEGIBILITY_ROUNDS && AtTheBars(p, last)
      && (Exactly(p, last) || last == LEGIBILITY_ROUNDS || OnlyPillShort(p, last))
      && Rises(laid.alphas, shown.alphas) && reported.alphas == shown.alphas
      && (reported.mark == shown.mark || (p.logo.Opaque? && last == 0))
    case Refused(last) =>
      round <= last <= LEGIBILITY_ROUNDS && !AtTheBars(p, last) && (last == LEGIBILITY_ROUNDS || OnlyPillShort(p, last))
  }

  lemma {:induction false} EveryRoundKeepsThePromise(p: Page, groups: seq<seq<nat>>, round: nat, laid: Laid)
    requires round <= LEGIBILITY_ROUNDS && |laid.alphas| == |groups| && NeedsInRange(p)
    requires forall n :: 0 <= n < |groups| ==> laid.alphas[n] <= LOCAL_MAX
    ensures Promised(p, round, laid, LegibleFrom(p, groups, round, laid))
    decreases LEGIBILITY_ROUNDS - round
  {
    ShortOrAtTheBar(p, round);
    var changed := p.logo.Opaque? && round == 0;
    if (AnyShort(p, round) || changed) && !(round == LEGIBILITY_ROUNDS || OnlyPillShort(p, round)) {
      NextRoundRises(p, round, groups, laid.alphas);
      var next := Laid(Strengthened(p, round, groups, laid.alphas),
                       MarkAfter(p, round, CardOrdered(p, round, laid.mark)));
      EveryRoundKeepsThePromise(p, groups, round + 1, next);
    }
  }

  /** Whatever the page measures: at most four measurements; a frame is delivered only with every
      element at its bar within the slack -- to the letter where the ground is a picture, unless
      the rounds ran out or only the pill was short -- under plates no weaker than none and no
      stronger than the cap; and it is refused only over an element that is short by more. */
  lemma LegibleOrRefused(p: Page, groups: seq<seq<nat>>)
    requires NeedsInRange(p)
    ensures Promised(p, 0, NothingLaid(groups), LegibleFrom(p, groups, 0, NothingLaid(groups)))
  {
    EveryRoundKeepsThePromise(p, groups, 0, NothingLaid(groups));
  }

  function Round2(x: real): real {
    Round(100.0 * x) as real / 100.0
  }

  /** `_contrast_short`, on the report's rounded ratios. */
  predicate QaFindsShort(p: Page, round: nat) {
    exists i :: 0 <= i < Elements(p) && Round2(p.reading(round, i).contrast) < Bar(p, i) - MEASURE_SLACK
  }

  lemma RoundsUpTo(x: real, hundredths: int)
    requires hundredths % 2 == 1
    ensures Round2(x) >= hundredths as real / 100.0 <==> 100.0 * x > hundredths as real - 0.5
  {
    if Round(100.0 * x) == hundredths - 1 { assert 100.0 * x <= hundredths as real - 0.5; }
  }

  /** What the final check makes of any frame, in the ratios measured: a word up to 4.465 and a
      cut-out mark up to 2.965 come out as short, the ties with them. */
  lemma QaFindsShortExactly(p: Page, round: nat)
    ensures QaFindsShort(p, round) <==>
              ((exists i :: 0 <= i < |p.inks| && p.reading(round, i).contrast <= 4.465)
               || (p.logo.Cutout? && p.reading(round, |p.inks|).contrast <= 2.965))
  {
    forall i | 0 <= i < Elements(p)
      ensures Round2(p.reading(round, i).contrast) < Bar(p, i) - MEASURE_SLACK
              <==> p.reading(round, i).contrast <= if i < |p.inks| then 4.465 else 2.965
    {
      RoundsUpTo(p.reading(round, i).contrast, if i < |p.inks| then 447 else 297);
    }
    if p.logo.Cutout? { assert |p.inks| < Elements(p); }
  }

  /** The compositor and the final check never disagree about a delivered frame: whatever the
      first delivers, the second finds nothing short in its report. */
  lemma QaAgrees(p: Page, groups: seq<seq<nat>>)
    requires NeedsInRange(p)
    ensures var out := LegibleFrom(p, groups, 0, NothingLaid(groups)); out.Legible? ==> !QaFindsShort(p, out.round)
  {
    LegibleOrRefused(p, groups);
    QaFindsShortExactly(p, LegibleFrom(p, groups, 0, NothingLaid(groups)).round);
  }

  /** From any round on, a delivered frame's report differs from what lay on it only when an opaque
      logo's card was ordered and the frame delivered in the same breath. */
  lemma {:induction false} TruthFrom(p: Page, groups: seq<seq<nat>>, round: nat, laid: Laid)
    requires round <= LEGIBILITY_ROUNDS && |laid.alphas| == |groups|
    requires round == 0 ==> laid.mark.None?
    ensures var out := LegibleFrom(p, groups, round, laid);
            out.Legible? ==>
              (out.reported == out.shown
               <==> !(round == 0 && p.logo.Opaque? && OnlyPillShort(p, 0) && WithinSlack(p, 0)))
    decreases LEGIBILITY_ROUNDS - round
  {
    var changed := p.logo.Opaque? && round == 0;
    if (AnyShort(p, round) || changed) && !(round == LEGIBILITY_ROUNDS || OnlyPillShort(p, round)) {
      var next := Laid(Strengthened(p, round, groups, laid.alphas),
                       MarkAfter(p, round, CardOrdered(p, round, laid.mark)));
      TruthFrom(p, groups, round + 1, next);
    }
  }

  /** As the function stands the report tells the truth about what lies on the frame with one
      exception, exactly this: the logo is opaque and, at the first measurement, the pill alone is
      short, within the slack. Then the frame is delivered at once and the report names a card the
      mark was never given. */
  lemma ReportIsTrueExactly(p: Page, groups: seq<seq<nat>>)
    ensures var out := LegibleFrom(p, groups, 0, NothingLaid(groups));
            out.Legible? ==>
              (out.reported == out.shown <==> !(p.logo.Opaque? && OnlyPillShort(p, 0) && WithinSlack(p, 0)))
  {
    TruthFrom(p, groups, 0, NothingLaid(groups));
  }

  /** The pill's ground is its own flat colour, as the stylesheet's `.cta` sets it over picture,
      scrim, grain and plates alike: the slack is always its due. */
  ghost predicate PillsAreDesigned(p: Page) {
    forall i :: IsPill(p, i) ==> p.reading(0, i).designed
  }

  /** On every page the stylesheet can give, then, the exception does not arise -- a pill that has
      the slack is not short within it -- and whatever is delivered lay on the frame as reported. */
  lemma ReportIsTrue(p: Page, groups: seq<seq<nat>>)
    requires PillsAreDesigned(p)
    ensures var out := LegibleFrom(p, groups, 0, NothingLaid(groups)); out.Legible? ==> out.reported == out.shown
  {
    ReportIsTrueExactly(p, groups);
    if OnlyPillShort(p, 0) {
      var i :| 0 <= i < Elements(p) && Short(p, 0, i);
      assert IsPill(p, i) && p.reading(0, i).contrast < Bar(p, i) - MEASURE_SLACK;
    }
  }

  // ------------------------------------------------------------------ what lies under the mark

  /** The measurements before `round` at which the mark read short of its bar. */
  function TimesShort(p: Page, round: nat): set<nat> {
    set q: nat | q < round && p.reading(q, |p.inks|).contrast
                              < MARK_CONTRAST - (if p.reading(q, |p.inks|).designed then MEASURE_SLACK else 0.0)
  }

  /** The mark's plate at a measurement, from the readings before it: none without a logo; the edge's
      card from the second on under an opaque one; under a cut-out one nothing until it reads short,
      then a plate of the tone that separates it better, and after that the same at full strength. */
  ghost predicate MarkIsRight(p: Page, round: nat, mark: Option<MarkPlate>) {
    match p.logo
    case NoLogo => mark == None
    case Opaque => mark == if round == 0 then None else Some(MarkPlate(Edge, 1.0))
    case Cutout =>
      var times := |TimesShort(p, round)|;
      mark == if times == 0 then None else Some(MarkPlate(p.against, if times == 1 then 0.94 else 1.0))
  }

  lemma OnceMoreOrNot(p: Page, round: nat)
    requires p.logo.Cutout?
    ensures |TimesShort(p, round + 1)| == |TimesShort(p, round)| + (if Short(p, round, |p.inks|) then 1 else 0)
  {
    assert TimesShort(p, round + 1) == TimesShort(p, round) + if Short(p, round, |p.inks|) then {round} else {};
  }

  lemma {:induction false} MarkFrom(p: Page, groups: seq<seq<nat>>, round: nat, laid: Laid)
    requires round <= LEGIBILITY_ROUNDS && |laid.alphas| == |groups| && MarkIsRight(p, round, laid.mark)
    ensures var out := LegibleFrom(p, groups, round, laid); out.Legible? ==> MarkIsRight(p, out.round, out.shown.mark)
    decreases LEGIBILITY_ROUNDS - round
  {
    var changed := p.logo.Opaque? && round == 0;
    if (AnyShort(p, round) || changed) && !(round == LEGIBILITY_ROUNDS || OnlyPillShort(p, round)) {
      if p.logo.Cutout? { OnceMoreOrNot(p, round); }
      var next := Laid(Strengthened(p, round, groups, laid.alphas),
                       MarkAfter(p, round, CardOrdered(p, round, laid.mark)));
      MarkFrom(p, groups, round + 1, next);
    }
  }

  /** Whatever the page measures, a delivered frame carries exactly the plate its mark's own readings
      called for, and where the pill has its flat ground the report names that one. */
  lemma MarkIsPlatedExactly(p: Page, groups: seq<seq<nat>>)
    ensures var out := LegibleFrom(p, groups, 0, NothingLaid(groups));
            out.Legible? ==>
              && MarkIsRight(p, out.round, out.shown.mark)
              && (PillsAreDesigned(p) ==> MarkIsRight(p, out.round, out.reported.mark))
  {
    assert TimesShort(p, 0) == {};
    MarkFrom(p, groups, 0, NothingLaid(groups));
    if PillsAreDesigned(p) { ReportIsTrue(p, groups); }
  }

  /** It rests on the stylesheet alone: were the pill's ground a picture, one read at 4.48:1 beside a
      perfect headline would have an opaque logo's card reported and not laid. */
  lemma CardReportedNotLaid()
    ensures var p := Page([Headline, Cta], Opaque, Light, (_, i) => Reading(if i == 0 then 21.0 else 4.48, false),
                          (_, _, _) => 0.0);
            LegibleFrom(p, [[0]], 0, NothingLaid([[0]]))
            == Legible(0, Laid([0.0], Some(MarkPlate(Edge, 1.0))), Laid([0.0], None))
  {
    var p := Page([Headline, Cta], Opaque, Light, (_, i) => Reading(if i == 0 then 21.0 else 4.48, false),
                  (_, _, _) => 0.0);
    assert Short(p, 0, 1) && IsPill(p, 1) && !Short(p, 0, 0);
    assert OnlyPillShort(p, 0) && WithinSlack(p, 0);
    assert NothingLaid([[0]]).alphas == [0.0];
  }
}
