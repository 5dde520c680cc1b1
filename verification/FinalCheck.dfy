/** The final check: look at the finished card, repair it for free, and only then spend. */
module FinalCheck {
  import opened Numeric
  import opened Options

  // app/creative/pipeline.py `_final_check`, `_set_template`; app/creative/compositeqa.py
  // `order_for`, `best_free_variant`; app/creative/finalgate.py `as_codes`. Chromium, the inspector
  // and the vendor are adversaries: a function from how much has happened so far to what they
  // answer next.

  datatype Template =
    | SplitCard | TopBand | FrameCard
    | CenteredOverlay | LowerThird | PosterStack
    | Unknown(name: string)

  /** What the measurements can find: five faults, three repairs. */
  datatype Code =
    | SubjectCutByWindow | TextOverSubject | ContrastBelowBar | PhotoMostlyCropped | ExportSizeWrong
    | HeadlineAtFloor | TypeShrunk | ScrimSaturated

  /** What the inspector can object to. */
  datatype Reason =
    | TextCutOff | TextHardToRead | TextCoversSubject | SubjectCutOff
    | LogoProblem | StrayTextInPhoto | Artefacts | LooksUnfinished

  datatype Assessment = Assessment(faults: seq<Code>, repairs: seq<Code>, score: int)

  /** A finished version of the slide: the layout and the picture it was set in, and the frame. */
  datatype Variant = Variant(template: Template, picture: nat, frame: nat, assessment: Assessment) {
    predicate Ok() { assessment.faults == [] }
  }

  // ------------------------------------------------------------------ what the others answer

  datatype Rendered = Made(frame: nat, assessment: Assessment) | CannotTake | Broken
  datatype Answer = Verdict(reasons: seq<Reason>, score: int, cost: nat) | Outage(cost: nat)
  datatype Sale = Sold(picture: nat, cost: nat) | Nothing(cost: nat) | SellerBlind(cost: nat) | SellerDown

  datatype World = World(render: nat -> Rendered, look: nat -> Answer, sell: nat -> Sale)

  /** What happened, in order. */
  datatype Event =
    | Tried(template: Template, picture: nat, rendered: Rendered)
    | Looked(card: Variant, answer: Answer)
    | Asked(faults: seq<Code>, reasons: seq<Reason>, template: Template, sale: Sale)
    | Recomposed(redone: Rendered)

  /** All of it so far, newest last. */
  datatype Log = Start | Then(before: Log, last: Event)

  function Length(log: Log): nat {
    if log.Start? then 0 else Length(log.before) + 1
  }

  // ------------------------------------------------------------------ which layouts, in which order

  const WORDS_OFF := [SplitCard, TopBand, FrameCard]
  const WORDS_ON := [CenteredOverlay, LowerThird, PosterStack]

  function Families(template: Template, codes: set<Code>): seq<Template> {
    if TextOverSubject in codes || ScrimSaturated in codes then WORDS_OFF + WORDS_ON
    else if SubjectCutByWindow in codes || PhotoMostlyCropped in codes then WORDS_ON + WORDS_OFF
    else if template in WORDS_ON then WORDS_OFF + WORDS_ON
    else WORDS_ON + WORDS_OFF
  }

  function Without(names: seq<Template>, template: Template): (r: seq<Template>)
    ensures forall t :: t in r <==> t in names && t != template
  {
    if names == [] then [] else (if names[0] == template then [] else [names[0]]) + Without(names[1..], template)
  }

  function OrderFor(template: Template, codes: set<Code>): seq<Template> {
    Without(Families(template, codes), template)
  }

  predicate Distinct(names: seq<Template>) {
    forall i, j :: 0 <= i < j < |names| ==> names[i] != names[j]
  }

  lemma {:induction false} WithoutKeepsDistinct(names: seq<Template>, template: Template)
    requires Distinct(names)
    ensures Distinct(Without(names, template))
    ensures |Without(names, template)| == |names| - (if template in names then 1 else 0)
  {
    if names != [] {
      WithoutKeepsDistinct(names[1..], template);
      assert names == [names[0]] + names[1..];
      assert names[0] !in names[1..];
    }
  }

  /** Every other layout once, this one never; five of them when this is one of the six. */
  lemma OrderForIsTheOthers(template: Template, codes: set<Code>)
    ensures var order := OrderFor(template, codes);
            && Distinct(order) && template !in order
            && (forall t :: t in order <==> (t in WORDS_OFF || t in WORDS_ON) && t != template)
            && |order| == (if template in WORDS_OFF || template in WORDS_ON then 5 else 6)
  {
    var names := Families(template, codes);
    assert names == [SplitCard, TopBand, FrameCard, CenteredOverlay, LowerThird, PosterStack]
           || names == [CenteredOverlay, LowerThird, PosterStack, SplitCard, TopBand, FrameCard];
    WithoutKeepsDistinct(names, template);
  }

  /** Every layout of the first family comes before any of the second. */
  predicate FamilyFirst(order: seq<Template>, first: seq<Template>, second: seq<Template>) {
    forall i, j :: 0 <= i < |order| && 0 <= j < |order| && order[i] in first && order[j] in second ==> i < j
  }

  lemma {:induction false} WithoutKeepsOrder(names: seq<Template>, template: Template, first: seq<Template>,
                                             second: seq<Template>)
    requires FamilyFirst(names, first, second) && forall t :: t in first ==> t !in second
    ensures FamilyFirst(Without(names, template), first, second)
  {
    if names != [] {
      assert forall i :: 0 <= i < |names[1..]| ==> names[1..][i] == names[i + 1];
      WithoutKeepsOrder(names[1..], template, first, second);
      if names[0] in second {
        forall t | t in names ensures t !in first { var i :| 0 <= i < |names| && names[i] == t; }
      }
    }
  }

  lemma SoonerInTable(names: seq<Template>, template: Template, k: nat, later: seq<Template>)
    requires k < |names| && Distinct(names) && forall j :: 0 <= j <= k ==> names[j] !in later
    ensures FamilyFirst(Without(names, template), [names[k]], later)
  {
    forall i, j | 0 <= i < |names| && 0 <= j < |names| && names[i] in [names[k]] && names[j] in later ensures i < j {
      assert names[i] == names[k];
    }
    WithoutKeepsOrder(names, template, [names[k]], later);
  }

  /** Each family in the order of its table, wherever in `names` the two tables stand. */
  lemma TablesInOrder(names: seq<Template>, template: Template, off: nat, on: nat)
    requires |names| == 6 && Distinct(names) && ((off == 0 && on == 3) || (off == 3 && on == 0))
    requires names[off] == SplitCard && names[off + 1] == TopBand && names[off + 2] == FrameCard
    requires names[on] == CenteredOverlay && names[on + 1] == LowerThird && names[on + 2] == PosterStack
    ensures InTableOrder(Without(names, template))
  {
    SoonerInTable(names, template, off, [TopBand, FrameCard]);
    SoonerInTable(names, template, off + 1, [FrameCard]);
    SoonerInTable(names, template, on, [LowerThird, PosterStack]);
    SoonerInTable(names, template, on + 1, [PosterStack]);
  }

  predicate InTableOrder(order: seq<Template>) {
    && FamilyFirst(order, [SplitCard], [TopBand, FrameCard]) && FamilyFirst(order, [TopBand], [FrameCard])
    && FamilyFirst(order, [CenteredOverlay], [LowerThird, PosterStack])
    && FamilyFirst(order, [LowerThird], [PosterStack])
  }

  lemma OrderForInTableOrder(template: Template, codes: set<Code>)
    ensures InTableOrder(OrderFor(template, codes))
  {
    var names := Families(template, codes);
    if names[0] == SplitCard { TablesInOrder(names, template, 0, 3); } else { TablesInOrder(names, template, 3, 0); }
  }

  /** The fault names the cure: words on the subject send the slide to the layouts that set none on
      the picture, a subject the window cut to those that show all of it, anything else to the
      other family than its own; and each family is tried in the order of its table. */
  lemma TheFaultNamesTheCure(template: Template, codes: set<Code>)
    ensures var order := OrderFor(template, codes);
            var covered := TextOverSubject in codes || ScrimSaturated in codes;
            var cut := SubjectCutByWindow in codes || PhotoMostlyCropped in codes;
            && (if covered || (!cut && template in WORDS_ON) then FamilyFirst(order, WORDS_OFF, WORDS_ON)
                else FamilyFirst(order, WORDS_ON, WORDS_OFF))
            && InTableOrder(order)
  {
    var off, on := WORDS_OFF, WORDS_ON;
    if Families(template, codes) == off + on { WithoutKeepsOrder(off + on, template, off, on); }
    if Families(template, codes) == on + off { WithoutKeepsOrder(on + off, template, on, off); }
    OrderForInTableOrder(template, codes);
  }

  function AsCode(r: Reason): Option<Code> {
    match r
    case TextCutOff => Some(HeadlineAtFloor)
    case TextHardToRead => Some(ScrimSaturated)
    case TextCoversSubject => Some(TextOverSubject)
    case SubjectCutOff => Some(SubjectCutByWindow)
    case _ => None
  }

  function AsCodes(reasons: seq<Reason>): set<Code> {
    set r | r in reasons && AsCode(r).Some? :: AsCode(r).value
  }

  predicate PictureReason(r: Reason) {
    r == StrayTextInPhoto || r == Artefacts
  }

  function Codes(s: seq<Code>): set<Code> {
    set c | c in s
  }

  // ------------------------------------------------------------------ the free ladder

  /** (ok, score), as a pair. */
  predicate Better(a: Variant, b: Variant) {
    (a.Ok() && !b.Ok()) || (a.Ok() == b.Ok() && a.assessment.score > b.assessment.score)
  }

  predicate WorthAVariant(a: Assessment) {
    a.faults != [] || HeadlineAtFloor in a.repairs || TypeShrunk in a.repairs
  }

  /** Where a climb ended: the best it has, everything so far, and whether a render broke. */
  datatype Climbed = Climbed(best: Option<Variant>, log: Log, broke: bool)

  /** The better of what there is and a new variant; what there is, on a tie. */
  function Pick(best: Option<Variant>, newest: Variant): Variant {
    if best.None? || Better(newest, best.value) then newest else best.value
  }

  /** The rungs still to try on `first`'s picture, `left` of them to build. */
  function Climb(w: World, order: seq<Template>, first: Variant, best: Option<Variant>, left: nat, log: Log): Climbed
    decreases |order|
  {
    if order == [] || left == 0 then Climbed(best, log, false)
    else
      var rendered := w.render(Length(log));
      var after := Then(log, Tried(order[0], first.picture, rendered));
      match rendered
      case Broken => Climbed(best, after, true)
      case CannotTake => Climb(w, order[1..], first, best, left, after)
      case Made(frame, assessment) =>
        var now := Pick(best, Variant(order[0], first.picture, frame, assessment));
        if now.Ok() && now != first then Climbed(Some(now), after, false)
        else Climb(w, order[1..], first, Some(now), left - 1, after)
  }

  /** What is wrong with a card: what steers the search, or else its own measurements. */
  function Wrong(first: Variant, codes: Option<set<Code>>): set<Code> {
    if codes.Some? then codes.value else Codes(first.assessment.faults) + Codes(first.assessment.repairs)
  }

  /** best_free_variant. With `codes` the search is steered by the inspector and must change. */
  function BestFree(w: World, first: Variant, limit: nat, codes: Option<set<Code>>, mustChange: bool,
                    log: Log): Climbed {
    if codes.None? && !WorthAVariant(first.assessment) then Climbed(Some(first), log, false)
    else
      var order := OrderFor(first.template, Wrong(first, codes));
      var c := Climb(w, order, first, if mustChange then None else Some(first), limit, log);
      if c.best.None? then c.(best := Some(first)) else c
  }

  // ------------------------------------------------------------------ the check itself

  function CostOf(log: Log): nat {
    if log.Start? then 0 else CostOf(log.before) + EventCost(log.last)
  }

  function EventCost(e: Event): nat {
    match e
    case Looked(_, answer) => answer.cost
    case Asked(_, _, _, sale) => if sale.SellerDown? then 0 else sale.cost
    case _ => 0
  }

  /** `Blind` is InspectionUnavailable with the figure it carries; `Crashed` any other exception. */
  datatype Outcome =
    | Delivered(card: Variant, score: int, cost: nat, bought: nat)
    | Refused(faults: seq<Code>, reasons: seq<Reason>, cost: nat)
    | Blind(cost: nat)
    | Crashed

  /** One picture's turn: the card it came to and what the inspector said of it, if asked. */
  datatype Round =
    | Judged(best: Variant, verdict: Option<Answer>, log: Log)
    | NoAnswer(log: Log)
    | Broke(log: Log)

  predicate Passes(verdict: Option<Answer>) {
    verdict.None? || (verdict.value.Verdict? && verdict.value.reasons == [])
  }

  function Reasons(verdict: Option<Answer>): seq<Reason> {
    if verdict.Some? && verdict.value.Verdict? then verdict.value.reasons else []
  }

  /** Is there an objection some other arrangement could answer? */
  predicate Curable(reasons: seq<Reason>) {
    exists r :: r in reasons && !PictureReason(r)
  }

  function Score(best: Variant, verdict: Option<Answer>): int {
    if verdict.Some? && verdict.value.Verdict? then verdict.value.score else best.assessment.score
  }

  /** The second look: the moved card replaces the rejected one when it passes everything, or
      when the inspector objects to less of it. */
  function SecondLook(w: World, best: Variant, verdict: Answer, moved: Variant, log: Log): Round
    requires verdict.Verdict?
  {
    var second := w.look(Length(log));
    var after := Then(log, Looked(moved, second));
    if second.Outage? then NoAnswer(after)
    else if (second.reasons == [] && moved.Ok()) || |second.reasons| < |verdict.reasons|
    then Judged(moved, Some(second), after)
    else Judged(best, Some(verdict), after)
  }

  /** The layouts the inspector's reasons point at, and one more look. */
  function SecondRound(w: World, limit: nat, best: Variant, verdict: Answer, after: Log): Round
    requires verdict.Verdict?
  {
    var m := BestFree(w, best, limit, Some(AsCodes(verdict.reasons)), true, after);
    if m.broke then Broke(m.log)
    else if m.best.value == best then Judged(best, Some(verdict), m.log)
    else SecondLook(w, best, verdict, m.best.value, m.log)
  }

  /** The inspector's look at the best free card, and what follows from it. */
  function FirstLook(w: World, limit: nat, best: Variant, log: Log): Round {
    var verdict := w.look(Length(log));
    var after := Then(log, Looked(best, verdict));
    if verdict.Outage? then NoAnswer(after)
    else if !Curable(verdict.reasons) then Judged(best, Some(verdict), after)
    else SecondRound(w, limit, best, verdict, after)
  }

  function RoundOf(w: World, looking: bool, limit: nat, first: Variant, log: Log): Round {
    var c := BestFree(w, first, limit, None, false, log);
    if c.broke then Broke(c.log)
    else if !looking then Judged(c.best.value, None, c.log)
    else FirstLook(w, limit, c.best.value, c.log)
  }

  /** Where a turn leaves things: at an end, or with the next picture's card to judge. */
  datatype Step = Ended(outcome: Outcome, log: Log) | Goes(next: Variant, log: Log)

  /** Nothing free was good enough: another picture, set in the layout the slide started in. */
  function AfterBuying(w: World, started: Template, faults: seq<Code>, reasons: seq<Reason>, log: Log): Step {
    var sale := w.sell(Length(log));
    var asked := Then(log, Asked(faults, reasons, started, sale));
    match sale
    case SellerDown => Ended(Crashed, asked)
    case SellerBlind(cost) => Ended(Blind(cost), asked)
    case Nothing(_) => Ended(Refused(faults, reasons, CostOf(asked)), asked)
    case Sold(picture, _) =>
      var redone := w.render(Length(asked));
      var again := Then(asked, Recomposed(redone));
      if redone.Made? then Goes(Variant(started, picture, redone.frame, redone.assessment), again)
      else Ended(Crashed, again)
  }

  function TurnOf(w: World, looking: bool, limit: nat, mayBuy: bool, bought: nat, first: Variant,
                  log: Log): (step: Step)
    ensures step.Goes? ==> mayBuy
  {
    match RoundOf(w, looking, limit, first, log)
    case NoAnswer(after) => Ended(Blind(CostOf(after)), after)
    case Broke(after) => Ended(Crashed, after)
    case Judged(best, verdict, after) =>
      var faults, reasons := best.assessment.faults, Reasons(verdict);
      if best.Ok() && Passes(verdict) then Ended(Delivered(best, Score(best, verdict), CostOf(after), bought), after)
      else if mayBuy then AfterBuying(w, first.template, faults, reasons, after)
      else Ended(Refused(faults, reasons, CostOf(after)), after)
  }

  datatype End = End(outcome: Outcome, log: Log)

  /** The turns still allowed: this picture's, and `paid` purchases after it. */
  function CheckFrom(w: World, looking: bool, limit: nat, paid: nat, bought: nat, first: Variant, log: Log): End
    decreases paid
  {
    match TurnOf(w, looking, limit, paid > 0, bought, first, log)
    case Ended(outcome, after) => End(outcome, after)
    case Goes(next, after) => CheckFrom(w, looking, limit, paid - 1, bought + 1, next, after)
  }

  // ------------------------------------------------------------------ the objects it works on

  class Slide {
    var templateId: Option<Template>

    constructor (t: Option<Template>)
      ensures templateId == t
    {
      templateId := t;
    }
  }

  /** The brief, and the layouts of its slides other than the one in hand: the rest of a carousel,
      or (`units` cuts a single post's slide loose) whatever slides a single post's brief lists. */
  class Brief {
    const carousel: bool
    var templateId: Template
    var others: seq<Option<Template>>

    constructor (carousel: bool, t: Template, others: seq<Option<Template>>)
      ensures this.carousel == carousel && templateId == t && this.others == others
    {
      this.carousel, templateId, this.others := carousel, t, others;
    }

    /** What the compositor sets this slide in: its own layout, or else the brief's. */
    function TemplateFor(slide: Slide): Template
      reads this, slide
    {
      if slide.templateId.Some? then slide.templateId.value else templateId
    }

    /** The rest of a carousel is as it was. */
    twostate predicate OthersKept()
      reads this
    {
      carousel ==> templateId == old(templateId) && others == old(others)
    }

    /** _set_template: the slide in hand and, off a carousel, the brief it was cut from -- so
        whichever of the two the compositor reads, it reads this. */
    method SetTemplate(slide: Slide, t: Template)
      modifies this, slide
      ensures slide.templateId == Some(t) && OthersKept()
      ensures !carousel ==> templateId == t && |others| == |old(others)| && forall o :: o in others ==> o == None
    {
      slide.templateId := Some(t);
      if !carousel {
        templateId := t;
        for i := 0 to |others|
          invariant slide.templateId == Some(t) && templateId == t
          invariant |others| == |old(others)| && forall j :: 0 <= j < i ==> others[j] == None
        {
          others := others[i := None];
        }
      }
    }
  }

  /** What the closures of _final_check share. */
  class Bench {
    const w: World
    const looking: bool
    const brief: Brief
    const slide: Slide
    var picture: nat
    var spent: nat
    var log: Log

    constructor (w: World, looking: bool, brief: Brief, slide: Slide, picture: nat)
      ensures this.w == w && this.looking == looking && this.brief == brief && this.slide == slide
      ensures this.picture == picture && spent == 0 && log == Start
    {
      this.w, this.looking, this.brief, this.slide, this.picture := w, looking, brief, slide, picture;
      spent, log := 0, Start;
    }

    /** The same picture in another layout; the slide is left in the layout it was in. */
    method Render(template: Template) returns (rendered: Rendered)
      modifies this`log, brief, slide
      ensures rendered == w.render(Length(old(log))) && log == Then(old(log), Tried(template, picture, rendered))
      ensures brief.TemplateFor(slide) == old(brief.TemplateFor(slide)) && brief.OthersKept()
    {
      var was := brief.TemplateFor(slide);
      brief.SetTemplate(slide, template);
      rendered := w.render(Length(log));
      log := Then(log, Tried(brief.TemplateFor(slide), picture, rendered));
      brief.SetTemplate(slide, was);
    }

    method BestFreeVariant(first: Variant, limit: nat, codes: Option<set<Code>>, mustChange: bool)
      returns (best: Variant, broke: bool)
      requires first.picture == picture
      modifies this`log, brief, slide
      ensures var c := BestFree(w, first, limit, codes, mustChange, old(log));
              broke == c.broke && log == c.log && (!broke ==> Some(best) == c.best)
      ensures best.picture == picture
      ensures brief.TemplateFor(slide) == old(brief.TemplateFor(slide)) && brief.OthersKept()
    {
      best, broke := first, false;
      if codes.None? && !WorthAVariant(first.assessment) {
        return;
      }
      var rest := OrderFor(first.template, Wrong(first, codes));
      var found := if mustChange then None else Some(first);
      ghost var whole := Climb(w, rest, first, found, limit, log);
      var built: nat := 0;
      while rest != [] && built < limit
        invariant built <= limit && (found.Some? ==> found.value.picture == picture)
        invariant whole == Climb(w, rest, first, found, limit - built, log)
        invariant brief.TemplateFor(slide) == old(brief.TemplateFor(slide)) && brief.OthersKept()
        decreases |rest|
      {
        var template := rest[0];
        rest := rest[1..];
        var rendered := Render(template);
        if rendered.Broken? {
          return first, true;
        }
        if rendered.Made? {
          built := built + 1;
          found := Some(Pick(found, Variant(template, picture, rendered.frame, rendered.assessment)));
          if found.value.Ok() && found.value != first {
            return found.value, false;
          }
        }
      }
      best := if found.None? then first else found.value;
    }

    /** One look, on the tally; None when nothing is looked at. */
    method Inspected(card: Variant) returns (answer: Option<Answer>)
      requires spent == CostOf(log)
      modifies this`log, this`spent
      ensures !looking ==> answer == None && log == old(log)
      ensures looking ==> answer == Some(w.look(Length(old(log)))) && log == Then(old(log), Looked(card, answer.value))
      ensures spent == CostOf(log)
    {
      if !looking {
        return None;
      }
      answer := Some(w.look(Length(log)));
      log := Then(log, Looked(card, answer.value));
      spent := spent + answer.value.cost;
    }

    /** A picture's turn: the best of it that is free, and what the inspector says. */
    method PlayRound(first: Variant, limit: nat)
      returns (best: Variant, verdict: Option<Answer>, blind: bool, broke: bool)
      requires spent == CostOf(log) && first.picture == picture
      modifies this`log, this`spent, brief, slide
      ensures RoundOf(w, looking, limit, first, old(log))
           == (if blind then NoAnswer(log) else if broke then Broke(log) else Judged(best, verdict, log))
      ensures spent == CostOf(log)
      ensures brief.TemplateFor(slide) == old(brief.TemplateFor(slide)) && brief.OthersKept()
    {
      blind, verdict := false, None;
      FreeOfCharge(w, first, limit, None, false, log);
      best, broke := BestFreeVariant(first, limit, None, false);
      if broke {
        return;
      }
      verdict := Inspected(best);
      if verdict.Some? && verdict.value.Outage? {
        blind := true;
        return;
      }
      if verdict.Some? && Curable(verdict.value.reasons) {
        var codes := Some(AsCodes(verdict.value.reasons));
        FreeOfCharge(w, best, limit, codes, true, log);
        var moved;
        moved, broke := BestFreeVariant(best, limit, codes, true);
        if broke {
          return;
        }
        if moved != best {
          var second := Inspected(moved);
          if second.value.Outage? {
            blind := true;
            return;
          }
          if second.value.reasons == [] && moved.Ok() {
            best, verdict := moved, second;
          } else if |second.value.reasons| < |verdict.value.reasons| {
            best, verdict := moved, second;
          }
        }
      }
    }

    /** `buy`, and the card set again in the layout it started in. */
    method BuyAnother(faults: seq<Code>, reasons: seq<Reason>) returns (step: Step)
      requires spent == CostOf(log)
      modifies this, brief, slide
      ensures step == AfterBuying(w, old(brief.TemplateFor(slide)), faults, reasons, old(log)) && step.log == log
      ensures step.Goes? ==> spent == CostOf(log) && step.next.picture == picture
      ensures brief.TemplateFor(slide) == old(brief.TemplateFor(slide)) && brief.OthersKept()
    {
      var started := brief.TemplateFor(slide);
      var sale := w.sell(Length(log));
      log := Then(log, Asked(faults, reasons, started, sale));
      if sale.SellerDown? {
        return Ended(Crashed, log);
      }
      if sale.SellerBlind? {
        return Ended(Blind(sale.cost), log);
      }
      spent := spent + sale.cost;
      if sale.Nothing? {
        return Ended(Refused(faults, reasons, spent), log);
      }
      picture := sale.picture;
      brief.SetTemplate(slide, started);
      var redone := w.render(Length(log));
      log := Then(log, Recomposed(redone));
      step := if redone.Made? then Goes(Variant(started, picture, redone.frame, redone.assessment), log)
              else Ended(Crashed, log);
    }

    /** One picture of _final_check: how it ended, or the next card to judge. */
    method Turn(first: Variant, limit: nat, mayBuy: bool, bought: nat) returns (step: Step)
      requires spent == CostOf(log) && first.picture == picture && first.template == brief.TemplateFor(slide)
      modifies this, brief, slide
      ensures step == TurnOf(w, looking, limit, mayBuy, bought, first, old(log)) && step.log == log
      ensures step.Goes? ==>
                mayBuy && spent == CostOf(log) && step.next.picture == picture && step.next.template == first.template
      ensures brief.TemplateFor(slide) == old(brief.TemplateFor(slide)) && brief.OthersKept()
    {
      var best, verdict, blind, broke := PlayRound(first, limit);
      if blind {
        return Ended(Blind(spent), log);
      }
      if broke {
        return Ended(Crashed, log);
      }
      if best.Ok() && Passes(verdict) {
        return Ended(Delivered(best, Score(best, verdict), spent, bought), log);
      }
      var faults, reasons := best.assessment.faults, Reasons(verdict);
      if !mayBuy {
        return Ended(Refused(faults, reasons, spent), log);
      }
      step := BuyAnother(faults, reasons);
    }

    /** _final_check. `paid` is the purchases allowed: none when the lane has no `buy`. */
    method Check(frame: nat, assessment: Assessment, limit: nat, paid: nat) returns (outcome: Outcome)
      requires spent == 0 && log == Start
      modifies this, brief, slide
      ensures var first := Variant(old(brief.TemplateFor(slide)), old(picture), frame, assessment);
              End(outcome, log) == CheckFrom(w, looking, limit, paid, 0, first, Start)
      ensures brief.TemplateFor(slide) == if outcome.Delivered? then outcome.card.template
                                          else old(brief.TemplateFor(slide))
      ensures brief.OthersKept()
    {
      var started := brief.TemplateFor(slide);
      var first := Variant(started, picture, frame, assessment);
      ghost var whole := CheckFrom(w, looking, limit, paid, 0, first, log);
      for purchase := 0 to paid + 1
        invariant spent == CostOf(log) && first.picture == picture && purchase <= paid
        invariant brief.TemplateFor(slide) == first.template == started && brief.OthersKept()
        invariant whole == CheckFrom(w, looking, limit, paid - purchase, purchase, first, log)
      {
        var step := Turn(first, limit, purchase < paid, purchase);
        if step.Ended? {
          outcome := step.outcome;
          if outcome.Delivered? || outcome.Refused? {
            brief.SetTemplate(slide, if outcome.Delivered? then outcome.card.template else started);
          }
          return;
        }
        first := step.next;
      }
      assert false;
    }
  }

  // ------------------------------------------------------------------ what a climb keeps

  lemma {:induction false} ClimbIsFree(w: World, order: seq<Template>, first: Variant, best: Option<Variant>, left: nat,
                                       log: Log)
    ensures CostOf(Climb(w, order, first, best, left, log).log) == CostOf(log)
    decreases |order|
  {
    if order != [] && left > 0 {
      var rendered := w.render(Length(log));
      var after := Then(log, Tried(order[0], first.picture, rendered));
      if rendered.CannotTake? {
        ClimbIsFree(w, order[1..], first, best, left, after);
      } else if rendered.Made? {
        var now := Pick(best, Variant(order[0], first.picture, rendered.frame, rendered.assessment));
        ClimbIsFree(w, order[1..], first, Some(now), left - 1, after);
      }
    }
  }

  lemma FreeOfCharge(w: World, first: Variant, limit: nat, codes: Option<set<Code>>, mustChange: bool, log: Log)
    ensures CostOf(BestFree(w, first, limit, codes, mustChange, log).log) == CostOf(log)
  {
    ClimbIsFree(w, OrderFor(first.template, Wrong(first, codes)), first,
                if mustChange then None else Some(first), limit, log);
  }

  /** The log, and a stretch of rungs after it. */
  function Plus(log: Log, rungs: seq<Event>): Log
    decreases |rungs|
  {
    if rungs == [] then log else Plus(Then(log, rungs[0]), rungs[1..])
  }

  /** The cards built along a stretch. */
  function Built(rungs: seq<Event>): seq<Variant> {
    if rungs == [] then [] else BuiltBy(rungs[0]) + Built(rungs[1..])
  }

  function BuiltBy(e: Event): seq<Variant> {
    if e.Tried? && e.rendered.Made? then [Variant(e.template, e.picture, e.rendered.frame, e.rendered.assessment)]
    else []
  }

  function Listed(best: Option<Variant>): seq<Variant> {
    if best.None? then [] else [best.value]
  }

  /** The first of the best. */
  ghost predicate FirstBest(cards: seq<Variant>, v: Variant) {
    exists k :: IsFirstBest(cards, v, k)
  }

  /** Clean if any card is; and of those as clean as it, none scores more and the earlier ones less. */
  ghost predicate IsFirstBest(cards: seq<Variant>, v: Variant, k: int) {
    && 0 <= k < |cards| && cards[k] == v
    && (forall j :: 0 <= j < |cards| && cards[j].assessment.faults == [] ==> v.assessment.faults == [])
    && (forall j :: 0 <= j < |cards| && (cards[j].assessment.faults == [] <==> v.assessment.faults == []) ==>
          cards[j].assessment.score <= v.assessment.score - (if j < k then 1 else 0))
  }

  lemma PickKeepsFirstBest(b: Variant, v: Variant, rest: seq<Variant>, r: Variant, k: int)
    requires IsFirstBest([Pick(Some(b), v)] + rest, r, k)
    ensures FirstBest([b, v] + rest, r)
  {
    var short, long := [Pick(Some(b), v)] + rest, [b, v] + rest;
    assert forall j :: 0 < j < |short| ==> short[j] == long[j + 1];
    assert short[0] == Pick(Some(b), v) && long[0] == b && long[1] == v;
    if k == 0 && !Better(v, b) {
      assert forall j :: 1 < j < |long| ==> long[j] == short[j - 1];
      assert IsFirstBest(long, r, 0);
    } else {
      assert forall j :: 1 < j < |long| ==> long[j] == short[j - 1];
      assert IsFirstBest(long, r, k + 1);
    }
  }

  /** Does the climb go on past this rung? Not past a break, nor past a clean card -- unless it is
      held to bettering `first`, which is clean and scores no less. */
  ghost predicate GoesOn(e: Event, first: Variant, held: bool) {
    && e.Tried? && !e.rendered.Broken?
    && (e.rendered.Made? && e.rendered.assessment.faults == [] ==>
          held && first.assessment.faults == [] && e.rendered.assessment.score <= first.assessment.score)
  }

  /** What a climb did: rungs in the order given, each as Chromium answered, no more built than
      allowed; it stops at the first rung it does not go on past, and short of that only when the
      allowance is spent or the layouts are. */
  ghost predicate ClimbedWell(w: World, order: seq<Template>, first: Variant, held: bool, left: nat, log: Log,
                              rungs: seq<Event>, broke: bool) {
    && |rungs| <= |order| && |Built(rungs)| <= left
    && AsAnswered(w, order, first, Length(log), rungs) && WentOn(rungs, first, held)
    && (rungs != [] ==> |Built(rungs[..|rungs| - 1])| < left)
    && (broke <==> Breaks(rungs))
    && (|rungs| < |order| ==> |Built(rungs)| == left || (rungs != [] && !GoesOn(rungs[|rungs| - 1], first, held)))
  }

  ghost predicate AsAnswered(w: World, order: seq<Template>, first: Variant, at: nat, rungs: seq<Event>)
    requires |rungs| <= |order|
  {
    forall i :: 0 <= i < |rungs| ==> rungs[i] == Tried(order[i], first.picture, w.render(at + i))
  }

  ghost predicate WentOn(rungs: seq<Event>, first: Variant, held: bool) {
    forall i :: 0 <= i < |rungs| - 1 ==> GoesOn(rungs[i], first, held)
  }

  predicate Breaks(rungs: seq<Event>) {
    rungs != [] && rungs[|rungs| - 1].Tried? && rungs[|rungs| - 1].rendered.Broken?
  }

  ghost predicate PicksTheBest(best: Option<Variant>, rungs: seq<Event>, chosen: Option<Variant>) {
    var cards := Listed(best) + Built(rungs);
    if cards == [] then chosen.None? else chosen.Some? && FirstBest(cards, chosen.value)
  }

  lemma NothingBuilt(best: Option<Variant>)
    ensures PicksTheBest(best, [], best)
  {
    assert Listed(best) + Built([]) == Listed(best);
    if best.Some? { assert IsFirstBest(Listed(best), best.value, 0); }
  }

  /** A rung on what was in hand, and the rungs after it on the pick of the two. */
  lemma RungCounts(best: Option<Variant>, rung: Event, more: seq<Event>, chosen: Option<Variant>)
    requires rung.Tried? && PicksTheBest(AfterRung(best, rung), more, chosen)
    ensures PicksTheBest(best, [rung] + more, chosen) && Built([rung] + more) == BuiltBy(rung) + Built(more)
  {
    assert ([rung] + more)[1..] == more;
    if rung.rendered.Made? {
      var v := BuiltBy(rung)[0];
      var now := Pick(best, v);
      assert Built([rung] + more) == [v] + Built(more);
      if best.Some? {
        var k :| IsFirstBest([now] + Built(more), chosen.value, k);
        PickKeepsFirstBest(best.value, v, Built(more), chosen.value, k);
        assert [best.value, v] + Built(more) == [best.value] + ([v] + Built(more));
      } else {
        assert Listed(best) + ([v] + Built(more)) == Listed(Some(now)) + Built(more);
      }
    } else {
      assert Built([rung] + more) == Built(more);
    }
  }

  function AfterRung(best: Option<Variant>, rung: Event): Option<Variant> {
    if BuiltBy(rung) == [] then best else Some(Pick(best, BuiltBy(rung)[0]))
  }

  /** Everything a climb from `best` promises of its rungs. */
  ghost predicate ClimbsTo(w: World, order: seq<Template>, first: Variant, held: bool, best: Option<Variant>, left: nat,
                           log: Log, rungs: seq<Event>, c: Climbed) {
    && c.log == Plus(log, rungs) && ClimbedWell(w, order, first, held, left, log, rungs, c.broke)
    && PicksTheBest(best, rungs, c.best)
  }

  lemma OneRungMore(w: World, order: seq<Template>, first: Variant, held: bool, best: Option<Variant>, left: nat,
                    log: Log, rung: Event, more: seq<Event>, c: Climbed)
    requires order != [] && left > 0 && rung == Tried(order[0], first.picture, w.render(Length(log)))
    requires GoesOn(rung, first, held)
    requires ClimbsTo(w, order[1..], first, held, AfterRung(best, rung), left - |BuiltBy(rung)|, Then(log, rung), more,
                      c)
    ensures ClimbsTo(w, order, first, held, best, left, log, [rung] + more, c)
  {
    RungCounts(best, rung, more, c.best);
    assert ([rung] + more)[1..] == more;
    RungBefore(w, order, first, held, left, log, rung, more, c.broke);
  }

  lemma RungBefore(w: World, order: seq<Template>, first: Variant, held: bool, left: nat, log: Log, rung: Event,
                   more: seq<Event>, broke: bool)
    requires order != [] && left > 0 && rung == Tried(order[0], first.picture, w.render(Length(log)))
    requires GoesOn(rung, first, held)
    requires ClimbedWell(w, order[1..], first, held, left - |BuiltBy(rung)|, Then(log, rung), more, broke)
    requires Built([rung] + more) == BuiltBy(rung) + Built(more)
    ensures ClimbedWell(w, order, first, held, left, log, [rung] + more, broke)
  {
    var rungs := [rung] + more;
    EachRungAsAnswered(w, order, first, Length(log), rung, more);
    EachRungGoesOn(first, held, rung, more);
    BuiltBeforeTheLast(rung, more);
    if more != [] { assert rungs[|rungs| - 1] == more[|more| - 1]; }
  }

  lemma EachRungAsAnswered(w: World, order: seq<Template>, first: Variant, at: nat, rung: Event, more: seq<Event>)
    requires |more| < |order| && rung == Tried(order[0], first.picture, w.render(at))
    requires AsAnswered(w, order[1..], first, at + 1, more)
    ensures AsAnswered(w, order, first, at, [rung] + more)
  {
    forall i | 0 < i <= |more| ensures ([rung] + more)[i] == Tried(order[i], first.picture, w.render(at + i)) {
      assert ([rung] + more)[i] == more[i - 1] && order[1..][i - 1] == order[i];
    }
  }

  lemma EachRungGoesOn(first: Variant, held: bool, rung: Event, more: seq<Event>)
    requires GoesOn(rung, first, held) && WentOn(more, first, held)
    ensures WentOn([rung] + more, first, held)
  {
    forall i | 0 < i < |more| ensures GoesOn(([rung] + more)[i], first, held) {
      assert ([rung] + more)[i] == more[i - 1];
    }
  }

  lemma BuiltBeforeTheLast(rung: Event, more: seq<Event>)
    ensures var rungs := [rung] + more;
            Built(rungs[..|rungs| - 1]) == if more == [] then [] else BuiltBy(rung) + Built(more[..|more| - 1])
  {
    var rungs := [rung] + more;
    if more == [] {
      assert rungs[..|rungs| - 1] == [];
    } else {
      assert rungs[..|rungs| - 1] == [rung] + more[..|more| - 1];
      assert ([rung] + more[..|more| - 1])[1..] == more[..|more| - 1];
    }
  }

  /** The rung a climb ends on. */
  lemma LastRung(w: World, order: seq<Template>, first: Variant, held: bool, best: Option<Variant>, left: nat, log: Log,
                 rung: Event, c: Climbed)
    requires order != [] && left > 0 && rung == Tried(order[0], first.picture, w.render(Length(log)))
    requires !GoesOn(rung, first, held)
    requires c == Climbed(AfterRung(best, rung), Then(log, rung), rung.rendered.Broken?)
    ensures ClimbsTo(w, order, first, held, best, left, log, [rung], c)
  {
    NothingBuilt(c.best);
    RungCounts(best, rung, [], c.best);
    assert [rung] + [] == [rung] && [rung][..0] == [];
    assert Plus(log, [rung]) == Then(log, rung) by { assert [rung][1..] == []; }
  }

  /** What a climb has in hand while it goes on: `first`, when it is held to bettering a clean one;
      otherwise nothing clean. */
  predicate InHand(best: Option<Variant>, first: Variant, held: bool) {
    if held && first.Ok() then best == Some(first) else best.None? || !best.value.Ok()
  }

  lemma {:induction false} ClimbPicksTheBest(w: World, order: seq<Template>, first: Variant, held: bool,
                                             best: Option<Variant>, left: nat, log: Log)
    returns (rungs: seq<Event>)
    requires InHand(best, first, held) && first.template !in order
    ensures ClimbsTo(w, order, first, held, best, left, log, rungs, Climb(w, order, first, best, left, log))
    decreases |order|
  {
    rungs := [];
    if order == [] || left == 0 {
      NothingBuilt(best);
    } else {
      var rung := Tried(order[0], first.picture, w.render(Length(log)));
      var now, allowed := AfterRung(best, rung), left - |BuiltBy(rung)|;
      var c := Climb(w, order, first, best, left, log);
      if rung.rendered.Broken? || (rung.rendered.Made? && now.value.Ok() && now.value != first) {
        LastRung(w, order, first, held, best, left, log, rung, c);
        rungs := [rung];
      } else {
        rungs := ClimbPicksTheBest(w, order[1..], first, held, now, allowed, Then(log, rung));
        OneRungMore(w, order, first, held, best, left, log, rung, rungs, c);
        rungs := [rung] + rungs;
      }
    }
  }

  // ------------------------------------------------------------------ what the ladder promises

  ghost predicate InLayoutsOfItsOwn(rungs: seq<Event>, first: Variant) {
    && (forall i :: 0 <= i < |rungs| ==>
          rungs[i].Tried? && rungs[i].template != first.template && rungs[i].picture == first.picture)
    && (forall i, j :: 0 <= i < j < |rungs| ==> rungs[i].template != rungs[j].template)
  }

  ghost predicate Tries(rungs: seq<Event>, t: Template) {
    exists i :: 0 <= i < |rungs| && rungs[i].Tried? && rungs[i].template == t
  }

  /** No layout of `later` is tried before every one of `sooner`, the card's own apart. */
  ghost predicate TriedFirst(rungs: seq<Event>, sooner: seq<Template>, later: seq<Template>, own: Template) {
    forall i, t :: 0 <= i < |rungs| && rungs[i].Tried? && rungs[i].template in later && t in sooner && t != own ==>
      Tries(rungs[..i], t)
  }

  /** The order the rungs were tried in. `covered`: words where they should not be, so the layouts that
      set none on the picture go first; `cut`: a subject cut off, so those that show all of it do;
      neither: the other family than the card's own. */
  ghost predicate Steered(rungs: seq<Event>, own: Template, covered: bool, cut: bool) {
    var off, on := [SplitCard, TopBand, FrameCard], [CenteredOverlay, LowerThird, PosterStack];
    && (if covered || (!cut && own in on) then TriedFirst(rungs, off, on, own) else TriedFirst(rungs, on, off, own))
    && TriedFirst(rungs, [SplitCard], [TopBand, FrameCard], own) && TriedFirst(rungs, [TopBand], [FrameCard], own)
    && TriedFirst(rungs, [CenteredOverlay], [LowerThird, PosterStack], own)
    && TriedFirst(rungs, [LowerThird], [PosterStack], own)
  }

  /** The rungs of one ladder from `first`: other layouts, each once, as Chromium answered; at most
      `limit` built; on until a rung it does not go on past, the allowance spent, or every other
      layout tried. */
  ghost predicate IsLadder(w: World, first: Variant, held: bool, limit: nat, log: Log, rungs: seq<Event>) {
    && InLayoutsOfItsOwn(rungs, first) && |Built(rungs)| <= limit
    && (forall i :: 0 <= i < |rungs| ==> rungs[i].rendered == w.render(Length(log) + i))
    && (forall i :: 0 <= i < |rungs| - 1 ==> GoesOn(rungs[i], first, held))
    && (rungs != [] ==> |Built(rungs[..|rungs| - 1])| < limit)
    && (|Built(rungs)| == limit || (rungs != [] && !GoesOn(rungs[|rungs| - 1], first, held))
        || TriesAll(rungs, first.template))
  }

  ghost predicate TriesAll(rungs: seq<Event>, own: Template) {
    forall t :: t in [SplitCard, TopBand, FrameCard, CenteredOverlay, LowerThird, PosterStack] && t != own ==>
      Tries(rungs, t)
  }

  lemma RungsInOrder(order: seq<Template>, rungs: seq<Event>, sooner: seq<Template>, later: seq<Template>,
                     own: Template)
    requires FamilyFirst(order, sooner, later) && |rungs| <= |order|
    requires forall i :: 0 <= i < |rungs| ==> rungs[i].Tried? && rungs[i].template == order[i]
    requires forall t :: t in sooner && t != own ==> t in order
    ensures TriedFirst(rungs, sooner, later, own)
  {
    forall i, t | 0 <= i < |rungs| && rungs[i].template in later && t in sooner && t != own
      ensures Tries(rungs[..i], t)
    {
      var j :| 0 <= j < |order| && order[j] == t;
      assert j < i && rungs[..i][j] == rungs[j];
    }
  }

  /** A climb through the layouts for some codes, as a ladder. */
  lemma ClimbIsLadder(w: World, first: Variant, held: bool, limit: nat, codes: set<Code>, log: Log, rungs: seq<Event>,
                      broke: bool)
    requires ClimbedWell(w, OrderFor(first.template, codes), first, held, limit, log, rungs, broke)
    ensures IsLadder(w, first, held, limit, log, rungs)
    ensures Steered(rungs, first.template, TextOverSubject in codes || ScrimSaturated in codes,
                    SubjectCutByWindow in codes || PhotoMostlyCropped in codes)
  {
    var own, order := first.template, OrderFor(first.template, codes);
    OrderForIsTheOthers(own, codes);
    ClimbTriesThese(w, order, first, held, limit, log, rungs, broke);
    TheFaultNamesTheCure(own, codes);
    RungsSteered(order, rungs, own, TextOverSubject in codes || ScrimSaturated in codes,
                 SubjectCutByWindow in codes || PhotoMostlyCropped in codes);
  }

  lemma ClimbTriesThese(w: World, order: seq<Template>, first: Variant, held: bool, limit: nat, log: Log,
                        rungs: seq<Event>, broke: bool)
    requires ClimbedWell(w, order, first, held, limit, log, rungs, broke)
    requires Distinct(order) && first.template !in order
    requires forall t :: t in WORDS_OFF || t in WORDS_ON ==> t == first.template || t in order
    ensures IsLadder(w, first, held, limit, log, rungs)
  {
    if |rungs| == |order| { AllTried(order, rungs, first.template); }
  }

  lemma AllTried(order: seq<Template>, rungs: seq<Event>, own: Template)
    requires |rungs| == |order| && forall i :: 0 <= i < |rungs| ==> rungs[i].Tried? && rungs[i].template == order[i]
    ensures forall t :: t in order ==> Tries(rungs, t)
  {
    forall t | t in order ensures Tries(rungs, t) {
      var i :| 0 <= i < |order| && order[i] == t;
      assert rungs[i].template == t;
    }
  }

  lemma RungsSteered(order: seq<Template>, rungs: seq<Event>, own: Template, covered: bool, cut: bool)
    requires if covered || (!cut && own in WORDS_ON) then FamilyFirst(order, WORDS_OFF, WORDS_ON)
             else FamilyFirst(order, WORDS_ON, WORDS_OFF)
    requires InTableOrder(order) && forall t :: t in WORDS_OFF || t in WORDS_ON ==> t == own || t in order
    requires |rungs| <= |order|
    requires forall i :: 0 <= i < |rungs| ==> rungs[i].Tried? && rungs[i].template == order[i]
    ensures Steered(rungs, own, covered, cut)
  {
    if covered || (!cut && own in WORDS_ON) {
      RungsInOrder(order, rungs, WORDS_OFF, WORDS_ON, own);
    } else {
      RungsInOrder(order, rungs, WORDS_ON, WORDS_OFF, own);
    }
    RungsInOrder(order, rungs, [SplitCard], [TopBand, FrameCard], own);
    RungsInOrder(order, rungs, [TopBand], [FrameCard], own);
    RungsInOrder(order, rungs, [CenteredOverlay], [LowerThird, PosterStack], own);
    RungsInOrder(order, rungs, [LowerThird], [PosterStack], own);
  }

  predicate WantsAVariant(a: Assessment) {
    a.faults != [] || HeadlineAtFloor in a.repairs || TypeShrunk in a.repairs
  }

  predicate Found(a: Assessment, c: Code) {
    c in a.faults || c in a.repairs
  }

  /** The rungs of the first ladder: none for a card with no fault and no repair worth one; otherwise
      steered by what was measured on it. */
  ghost predicate FreeLadder(w: World, first: Variant, limit: nat, log: Log, rungs: seq<Event>) {
    var a := first.assessment;
    if !WantsAVariant(a) then rungs == []
    else
      && IsLadder(w, first, true, limit, log, rungs)
      && Steered(rungs, first.template, Found(a, TextOverSubject) || Found(a, ScrimSaturated),
                 Found(a, SubjectCutByWindow) || Found(a, PhotoMostlyCropped))
  }

  lemma FreeClimb(w: World, first: Variant, limit: nat, log: Log) returns (rungs: seq<Event>)
    ensures var c := BestFree(w, first, limit, None, false, log);
            && c.log == Plus(log, rungs) && FreeLadder(w, first, limit, log, rungs)
            && |Built(rungs)| <= limit && InLayoutsOfItsOwn(rungs, first) && (c.broke <==> Breaks(rungs))
            && c.best.Some? && FirstBest([first] + Built(rungs), c.best.value)
  {
    var wrong := Wrong(first, None);
    OrderForIsTheOthers(first.template, wrong);
    if !WorthAVariant(first.assessment) {
      rungs := [];
      NothingBuilt(Some(first));
    } else {
      var c := Climb(w, OrderFor(first.template, wrong), first, Some(first), limit, log);
      rungs := ClimbPicksTheBest(w, OrderFor(first.template, wrong), first, true, Some(first), limit, log);
      ClimbIsLadder(w, first, true, limit, wrong, log, rungs, c.broke);
      FoundOrSteered(first);
    }
    assert Listed(Some(first)) + Built(rungs) == [first] + Built(rungs);
  }

  lemma FoundOrSteered(first: Variant)
    ensures forall c :: c in Wrong(first, None) <==> Found(first.assessment, c)
  {
  }

  lemma NoWorse(first: Variant, built: seq<Variant>, best: Variant)
    requires FirstBest([first] + built, best)
    ensures first.assessment.faults == [] ==> best.assessment.faults == []
    ensures best == first || (first.assessment.faults != [] && best.assessment.faults == [])
            || best.assessment.score > first.assessment.score
  {
    var k :| IsFirstBest([first] + built, best, k);
    assert ([first] + built)[0] == first;
  }

  /** The free ladder, whatever Chromium does: it is climbed for a card worth one, the other layouts in
      the order its own faults and repairs ask for; at most `limit` cards are built; and what it gives
      back is the first of the best it had -- clean if any was, and none as clean scores more -- so
      never a card worse than it was given. */
  lemma LadderGivesTheBest(w: World, first: Variant, limit: nat, log: Log) returns (rungs: seq<Event>)
    ensures var c := BestFree(w, first, limit, None, false, log);
            && c.log == Plus(log, rungs) && FreeLadder(w, first, limit, log, rungs)
            && |Built(rungs)| <= limit && InLayoutsOfItsOwn(rungs, first) && (c.broke <==> Breaks(rungs))
            && c.best.Some? && FirstBest([first] + Built(rungs), c.best.value)
            && (first.assessment.faults == [] ==> c.best.value.assessment.faults == [])
            && (c.best.value == first || (first.assessment.faults != [] && c.best.value.assessment.faults == [])
                || c.best.value.assessment.score > first.assessment.score)
  {
    rungs := FreeClimb(w, first, limit, log);
    NoWorse(first, Built(rungs), BestFree(w, first, limit, None, false, log).best.value);
  }

  /** Steered by the inspector, it must change: it gives back what it was given only when no other
      layout could take the slide at all, and otherwise the first of the best it built. */
  lemma LadderMustChange(w: World, first: Variant, limit: nat, codes: set<Code>, log: Log) returns (rungs: seq<Event>)
    ensures var c := BestFree(w, first, limit, Some(codes), true, log);
            && c.log == Plus(log, rungs) && IsLadder(w, first, false, limit, log, rungs)
            && Steered(rungs, first.template, TextOverSubject in codes || ScrimSaturated in codes,
                       SubjectCutByWindow in codes || PhotoMostlyCropped in codes)
            && (c.broke <==> Breaks(rungs)) && c.best.Some?
            && (Built(rungs) == [] ==> c.best.value == first)
            && (Built(rungs) != [] ==> FirstBest(Built(rungs), c.best.value) && c.best.value.template != first.template)
  {
    var order := OrderFor(first.template, codes);
    OrderForIsTheOthers(first.template, codes);
    rungs := ClimbPicksTheBest(w, order, first, false, None, limit, log);
    assert Listed(None) + Built(rungs) == Built(rungs);
    var c := Climb(w, order, first, None, limit, log);
    ClimbIsLadder(w, first, false, limit, codes, log, rungs, c.broke);
    if Built(rungs) != [] {
      var k :| IsFirstBest(Built(rungs), c.best.value, k);
      BuiltFromRungs(rungs, k);
    }
  }

  lemma {:induction false} BuiltFromRungs(rungs: seq<Event>, k: int)
    requires 0 <= k < |Built(rungs)| && forall i :: 0 <= i < |rungs| ==> rungs[i].Tried?
    ensures exists i :: 0 <= i < |rungs| && rungs[i].template == Built(rungs)[k].template
                        && rungs[i].picture == Built(rungs)[k].picture
    decreases |rungs|
  {
    var here := |BuiltBy(rungs[0])|;
    if k >= here {
      BuiltFromRungs(rungs[1..], k - here);
      var i :| 0 <= i < |rungs[1..]| && rungs[1..][i].template == Built(rungs)[k].template
               && rungs[1..][i].picture == Built(rungs)[k].picture;
      assert rungs[i + 1] == rungs[1..][i];
    }
  }

  // ------------------------------------------------------------------ one picture's turn, event by event

  /** The rungs climbed after the inspector's look: none when every objection is the picture's own
      fault, or there is none; otherwise for something else than the card, steered by the reasons. */
  ghost predicate SecondLadder(w: World, card: Variant, limit: nat, reasons: seq<Reason>, log: Log, rungs: seq<Event>) {
    if forall r :: r in reasons ==> r == StrayTextInPhoto || r == Artefacts then rungs == []
    else
      && IsLadder(w, card, false, limit, log, rungs)
      && Steered(rungs, card.template, TextCoversSubject in reasons || TextHardToRead in reasons,
                 SubjectCutOff in reasons)
  }

  /** After the first look: an outage ends the round. Otherwise the second ladder; and a card from it
      is looked at once, and takes over when it is clean and passes, or when less is said of it. */
  ghost predicate RoundAfterLook(w: World, limit: nat, card: Variant, log: Log, r: Round, steered: seq<Event>,
                                 moved: Variant) {
    var answer := w.look(Length(log));
    var looked := Then(log, Looked(card, answer));
    var after := Plus(looked, steered);
    if answer.Outage? then r == NoAnswer(looked)
    else
      && SecondLadder(w, card, limit, answer.reasons, looked, steered)
      && if Breaks(steered) then r == Broke(after)
         else if Built(steered) == [] then r == Judged(card, Some(answer), after)
         else
           && FirstBest(Built(steered), moved)
           && var second := w.look(Length(after));
              var last := Then(after, Looked(moved, second));
              if second.Outage? then r == NoAnswer(last)
              else if (second.reasons == [] && moved.assessment.faults == [])
                      || |second.reasons| < |answer.reasons| then r == Judged(moved, Some(second), last)
              else r == Judged(card, Some(answer), last)
  }

  lemma CodesOf(reasons: seq<Reason>)
    ensures var codes := AsCodes(reasons);
            && (TextOverSubject in codes || ScrimSaturated in codes
                <==> TextCoversSubject in reasons || TextHardToRead in reasons)
            && (SubjectCutByWindow in codes || PhotoMostlyCropped in codes <==> SubjectCutOff in reasons)
  {
    forall r | r in reasons && AsCode(r).Some? ensures AsCode(r).value in AsCodes(reasons) {
    }
    assert TextCoversSubject in reasons ==> AsCode(TextCoversSubject).value in AsCodes(reasons);
    assert TextHardToRead in reasons ==> AsCode(TextHardToRead).value in AsCodes(reasons);
    assert SubjectCutOff in reasons ==> AsCode(SubjectCutOff).value in AsCodes(reasons);
  }

  lemma LookExactly(w: World, limit: nat, card: Variant, log: Log) returns (steered: seq<Event>, moved: Variant)
    ensures RoundAfterLook(w, limit, card, log, FirstLook(w, limit, card, log), steered, moved)
  {
    var answer := w.look(Length(log));
    var looked := Then(log, Looked(card, answer));
    steered, moved := [], card;
    if answer.Verdict? && Curable(answer.reasons) {
      CodesOf(answer.reasons);
      steered := LadderMustChange(w, card, limit, AsCodes(answer.reasons), looked);
      moved := BestFree(w, card, limit, Some(AsCodes(answer.reasons)), true, looked).best.value;
    }
  }

  /** One picture's turn, for every behaviour of Chromium and the inspector and in terms of their
      answers alone: the free ladder steered by what was measured; the look; whether there is a second
      ladder, which layouts it tries first, and which card comes out of it. */
  lemma RoundExactly(w: World, looking: bool, limit: nat, first: Variant, log: Log)
    returns (free: seq<Event>, card: Variant, steered: seq<Event>, moved: Variant)
    ensures var r := RoundOf(w, looking, limit, first, log);
            && FreeLadder(w, first, limit, log, free)
            && if Breaks(free) then r == Broke(Plus(log, free))
               else
                 && FirstBest([first] + Built(free), card)
                 && if looking then RoundAfterLook(w, limit, card, Plus(log, free), r, steered, moved)
                    else r == Judged(card, None, Plus(log, free))
  {
    free := LadderGivesTheBest(w, first, limit, log);
    var c := BestFree(w, first, limit, None, false, log);
    card, steered, moved := c.best.value, [], first;
    if !c.broke && looking { steered, moved := LookExactly(w, limit, card, c.log); }
  }

  // ------------------------------------------------------------------ what the check promises

  /** The inspector passed a card the measurements had nothing against. */
  predicate GoodLook(e: Event) {
    e.Looked? && e.card.Ok() && e.answer.Verdict? && e.answer.reasons == []
  }

  predicate Seen(log: Log, e: Event) {
    log.Then? && (log.last == e || Seen(log.before, e))
  }

  /** What is held against a card, and by whom: faults and reasons are those of one card and of a look
      at that very card; no reasons where nothing is looked at. */
  ghost predicate OfOneCard(looking: bool, log: Log, faults: seq<Code>, reasons: seq<Reason>) {
    && (faults != [] || reasons != [])
    && if looking then exists card: Variant, answer: Answer ::
                         Seen(log, Looked(card, answer)) && IsAbout(card, answer, faults, reasons)
       else reasons == []
  }

  predicate IsAbout(card: Variant, answer: Answer, faults: seq<Code>, reasons: seq<Reason>) {
    card.assessment.faults == faults && answer.Verdict? && answer.reasons == reasons
  }

  ghost predicate FairEvent(looking: bool, before: Log, e: Event) {
    && !GoodLook(e) && (e.Looked? ==> looking)
    && (e.Asked? ==> OfOneCard(looking, before, e.faults, e.reasons))
  }

  /** So far: no good card has gone by, no purchase was asked for without a fault to name that one
      card had, and nothing was looked at in a run that looks at nothing. */
  ghost predicate Fair(looking: bool, log: Log) {
    log.Start? || (Fair(looking, log.before) && FairEvent(looking, log.before, log.last))
  }

  datatype Tally = Tally(built: nat, looks: nat, sales: nat)

  function TallyOf(log: Log): Tally {
    if log.Start? then Tally(0, 0, 0)
    else
      var t := TallyOf(log.before);
      match log.last
      case Tried(_, _, rendered) => if rendered.Made? then t.(built := t.built + 1) else t
      case Looked(_, _) => t.(looks := t.looks + 1)
      case Asked(_, _, _, _) => t.(sales := t.sales + 1)
      case Recomposed(_) => t
  }

  /** From `before`, at most this many more were built and looked at, and nothing was bought. */
  predicate Spends(before: Log, after: Log, built: nat, looks: nat) {
    var was, now := TallyOf(before), TallyOf(after);
    && was.sales == now.sales && was.built <= now.built <= was.built + built
    && was.looks <= now.looks <= was.looks + looks && LastSold(before) == LastSold(after)
  }

  /** The last picture bought, if any was. */
  function LastSold(log: Log): Option<nat> {
    if log.Start? then None
    else if log.last.Asked? && log.last.sale.Sold? then Some(log.last.sale.picture)
    else LastSold(log.before)
  }

  function PictureNow(log: Log, original: nat): nat {
    if LastSold(log).Some? then LastSold(log).value else original
  }

  lemma {:induction false} ClimbIsFair(w: World, looking: bool, order: seq<Template>, first: Variant,
                                       best: Option<Variant>, left: nat, log: Log)
    requires Fair(looking, log) && (best.Some? ==> best.value.picture == first.picture)
    ensures var c := Climb(w, order, first, best, left, log);
            && Fair(looking, c.log) && Spends(log, c.log, left, 0)
            && (c.best.Some? ==> c.best.value.picture == first.picture)
            && forall e :: Seen(log, e) ==> Seen(c.log, e)
    decreases |order|
  {
    if order != [] && left > 0 {
      var rendered := w.render(Length(log));
      var after := Then(log, Tried(order[0], first.picture, rendered));
      if rendered.CannotTake? {
        ClimbIsFair(w, looking, order[1..], first, best, left, after);
      } else if rendered.Made? {
        var now := Pick(best, Variant(order[0], first.picture, rendered.frame, rendered.assessment));
        ClimbIsFair(w, looking, order[1..], first, Some(now), left - 1, after);
      }
    }
  }

  lemma LadderIsFair(w: World, looking: bool, first: Variant, limit: nat, codes: Option<set<Code>>, mustChange: bool,
                     log: Log)
    requires Fair(looking, log)
    ensures var c := BestFree(w, first, limit, codes, mustChange, log);
            Fair(looking, c.log) && Spends(log, c.log, limit, 0) && c.best.Some?
            && c.best.value.picture == first.picture && forall e :: Seen(log, e) ==> Seen(c.log, e)
  {
    ClimbIsFair(w, looking, OrderFor(first.template, Wrong(first, codes)), first,
                if mustChange then None else Some(first), limit, log);
  }

  /** The log after one look: fair, unless that look was the good one. */
  ghost predicate FairBut(looking: bool, log: Log, good: bool) {
    if good then log.Then? && GoodLook(log.last) && Fair(looking, log.before) else Fair(looking, log)
  }

  lemma OneLook(looking: bool, log: Log, card: Variant, answer: Answer, after: Log)
    requires looking && Fair(looking, log) && after == Then(log, Looked(card, answer))
    ensures FairBut(looking, after, GoodLook(Looked(card, answer))) && Spends(log, after, 0, 1)
  {
  }

  /** How a round leaves the log, and what its verdict is worth. */
  ghost predicate RoundFair(looking: bool, limit: nat, picture: nat, log: Log, r: Round) {
    match r
    case NoAnswer(after) =>
      Fair(looking, after) && Spends(log, after, 2 * limit, 2) && after.Then? && after.last.Looked?
    case Broke(after) => Fair(looking, after) && Spends(log, after, 2 * limit, 2)
    case Judged(best, verdict, after) =>
      && best.picture == picture && Spends(log, after, 2 * limit, 2)
      && (verdict.Some? <==> looking)
      && (looking ==> verdict.value.Verdict? && Seen(after, Looked(best, verdict.value)))
      && FairBut(looking, after, looking && best.Ok() && Passes(verdict))
      && (looking && best.Ok() && Passes(verdict) ==> after.last == Looked(best, verdict.value))
  }

  lemma FirstIsFair(w: World, limit: nat, best: Variant, log: Log)
    requires Fair(true, log)
    ensures var r := FirstLook(w, limit, best, log);
            RoundFair(true, limit, best.picture, log, r) && Spends(log, r.log, limit, 2)
  {
    var verdict := w.look(Length(log));
    var after := Then(log, Looked(best, verdict));
    OneLook(true, log, best, verdict, after);
    if verdict.Verdict? && Curable(verdict.reasons) {
      SecondIsFair(w, limit, best, verdict, after);
    }
  }

  lemma RoundIsFair(w: World, looking: bool, limit: nat, first: Variant, log: Log)
    requires Fair(looking, log)
    ensures RoundFair(looking, limit, first.picture, log, RoundOf(w, looking, limit, first, log))
  {
    var c := BestFree(w, first, limit, None, false, log);
    LadderIsFair(w, looking, first, limit, None, false, log);
    if !c.broke && looking {
      FirstIsFair(w, limit, c.best.value, c.log);
    }
  }

  lemma SecondIsFair(w: World, limit: nat, best: Variant, verdict: Answer, after: Log)
    requires verdict.Verdict? && verdict.reasons != [] && Fair(true, after) && Seen(after, Looked(best, verdict))
    ensures var r := SecondRound(w, limit, best, verdict, after);
            RoundFair(true, limit, best.picture, after, r) && Spends(after, r.log, limit, 1)
  {
    var codes := Some(AsCodes(verdict.reasons));
    LadderIsFair(w, true, best, limit, codes, true, after);
    var m := BestFree(w, best, limit, codes, true, after);
    if !m.broke && m.best.value != best {
      var second := w.look(Length(m.log));
      OneLook(true, m.log, m.best.value, second, Then(m.log, Looked(m.best.value, second)));
    }
  }

  /** How a run that went on from `log`, with `bought` purchases behind it, may end. */
  ghost predicate EndsFair(looking: bool, limit: nat, paid: nat, bought: nat, original: nat, log: Log, end: End) {
    && FairBut(looking, end.log, looking && end.outcome.Delivered?)
    && WithinBudget(limit, paid, TallyOf(log), TallyOf(end.log))
    && OutcomeFair(looking, original, bought + TallyOf(end.log).sales - TallyOf(log).sales, end)
  }

  predicate WithinBudget(limit: nat, paid: nat, was: Tally, now: Tally) {
    && was.sales <= now.sales <= was.sales + paid
    && now.built as real <= was.built as real + Times(now.sales - was.sales + 1, (2 * limit) as real)
    && now.looks <= was.looks + 2 * (now.sales - was.sales + 1)
  }

  ghost predicate OutcomeFair(looking: bool, original: nat, sales: int, end: End) {
    match end.outcome
    case Delivered(card, score, cost, bought) =>
      && card.Ok() && cost == CostOf(end.log) && bought == sales && card.picture == PictureNow(end.log, original)
      && (if looking then end.log.Then? && LooksAt(end.log.last, card, score) else score == card.assessment.score)
    case Refused(faults, reasons, cost) => OfOneCard(looking, end.log, faults, reasons) && cost == CostOf(end.log)
    case Blind(cost) =>
      end.log.Then? && CostOf(end.log) == cost + (if end.log.last.Asked? then CostOf(end.log.before) else 0)
    case Crashed => true
  }

  predicate LooksAt(e: Event, card: Variant, score: int) {
    e.Looked? && e.card == card && e.answer.Verdict? && e.answer.score == score
  }

  /** One round and the purchase after it. */
  predicate Spent(was: Tally, now: Tally, limit: nat) {
    now.sales == was.sales + 1 && now.built <= was.built + 2 * limit && now.looks <= was.looks + 2
  }

  lemma BuyingIsFair(w: World, looking: bool, limit: nat, bought: nat, original: nat, started: Template,
                     faults: seq<Code>, reasons: seq<Reason>, log: Log, mid: Log)
    requires Fair(looking, mid) && Spends(log, mid, 2 * limit, 2) && OfOneCard(looking, mid, faults, reasons)
    ensures StepFair(looking, limit, 1, bought, original, log, AfterBuying(w, started, faults, reasons, mid))
  {
    var asked := Then(mid, Asked(faults, reasons, started, w.sell(Length(mid))));
    assert Fair(looking, asked) && TallyOf(asked).sales == TallyOf(log).sales + 1;
    assert asked.last.sale.Sold? ==> LastSold(asked) == Some(asked.last.sale.picture);
    TimesIsWhole(2, 2 * limit);
  }

  ghost predicate StepFair(looking: bool, limit: nat, paid: nat, bought: nat, original: nat, log: Log, step: Step) {
    match step
    case Ended(outcome, after) => EndsFair(looking, limit, paid, bought, original, log, End(outcome, after))
    case Goes(next, after) =>
      Fair(looking, after) && next.picture == PictureNow(after, original) && Spent(TallyOf(log), TallyOf(after), limit)
  }

  lemma TurnIsFair(w: World, looking: bool, limit: nat, mayBuy: bool, bought: nat, original: nat, first: Variant,
                   log: Log)
    requires Fair(looking, log) && first.picture == PictureNow(log, original)
    ensures StepFair(looking, limit, if mayBuy then 1 else 0, bought, original, log,
                     TurnOf(w, looking, limit, mayBuy, bought, first, log))
  {
    RoundIsFair(w, looking, limit, first, log);
    var r := RoundOf(w, looking, limit, first, log);
    if r.Judged? && !(r.best.Ok() && Passes(r.verdict)) && mayBuy {
      BuyingIsFair(w, looking, limit, bought, original, first.template, r.best.assessment.faults, Reasons(r.verdict),
                   log, r.log);
    }
  }

  lemma {:induction false} EveryRunIsFair(w: World, looking: bool, limit: nat, paid: nat, bought: nat, original: nat,
                                          first: Variant, log: Log)
    requires Fair(looking, log) && first.picture == PictureNow(log, original)
    ensures EndsFair(looking, limit, paid, bought, original, log,
                     CheckFrom(w, looking, limit, paid, bought, first, log))
    decreases paid
  {
    TurnIsFair(w, looking, limit, paid > 0, bought, original, first, log);
    var step := TurnOf(w, looking, limit, paid > 0, bought, first, log);
    if step.Goes? {
      EveryRunIsFair(w, looking, limit, paid - 1, bought + 1, original, step.next, step.log);
      var end := CheckFrom(w, looking, limit, paid - 1, bought + 1, step.next, step.log);
      OneRoundMore(limit, TallyOf(log), TallyOf(step.log), TallyOf(end.log), paid);
    }
  }

  lemma OneRoundMore(limit: nat, was: Tally, mid: Tally, now: Tally, paid: nat)
    requires paid > 0 && Spent(was, mid, limit) && WithinBudget(limit, paid - 1, mid, now)
    ensures WithinBudget(limit, paid, was, now)
  {
    var each := (2 * limit) as real;
    assert Times(now.sales - was.sales + 1, each) == Times(now.sales - mid.sales + 1, each) + each;
  }

  /** The final check, over everything Chromium, the inspector and the vendor can do. A card is
      delivered only with no measured fault and, where cards are looked at, on the inspector's
      passing verdict of that very card, on the last picture there is; no card that passed both is
      ever refused or bought over, and nothing is bought without a fault to name. The bill is every
      look and every purchase. Per picture: at most 2 * limit variants and two looks. */
  lemma FinalCheckPromises(w: World, looking: bool, limit: nat, paid: nat, first: Variant)
    ensures var end := CheckFrom(w, looking, limit, paid, 0, first, Start);
            var spent := TallyOf(end.log);
            && spent.sales <= paid && spent.built <= 2 * limit * (spent.sales + 1)
            && spent.looks <= 2 * (spent.sales + 1)
            && (!end.outcome.Delivered? ==> Fair(looking, end.log))
            && match end.outcome
               case Delivered(card, score, cost, bought) =>
                 && card.Ok() && cost == CostOf(end.log) && bought == spent.sales
                 && card.picture == PictureNow(end.log, first.picture)
                 && (if looking then end.log.Then? && GoodLook(end.log.last) && LooksAt(end.log.last, card, score)
                                     && Fair(looking, end.log.before)
                     else Fair(looking, end.log) && score == card.assessment.score)
               case Refused(faults, reasons, cost) =>
                 OfOneCard(looking, end.log, faults, reasons) && cost == CostOf(end.log)
               case _ => true
  {
    EveryRunIsFair(w, looking, limit, paid, 0, first.picture, first, Start);
    TimesIsWhole(TallyOf(CheckFrom(w, looking, limit, paid, 0, first, Start).log).sales + 1, 2 * limit);
  }

  /** An outage's figure is everything spent, except when it happened inside a purchase: then the
      looks and purchases before it are not in it. So it is the whole bill exactly when the outage
      was the final inspector's, or nothing had been spent before the purchase. */
  lemma OutageFigureExactly(w: World, looking: bool, limit: nat, paid: nat, first: Variant)
    ensures var end := CheckFrom(w, looking, limit, paid, 0, first, Start);
            end.outcome.Blind? ==>
              && end.log.Then?
              && (end.outcome.cost == CostOf(end.log) <==> !end.log.last.Asked? || CostOf(end.log.before) == 0)
  {
    EveryRunIsFair(w, looking, limit, paid, 0, first.picture, first, Start);
  }

  /** It happens: a card refused for its picture after one paid look, and the inspector of the
      bought picture's own gate does not answer. The figure is what that gate spent -- the picture,
      and the looks it got before -- and the final check's own look is not in it. */
  lemma OutageForgetsTheLook(fee: nat, spent: nat)
    requires fee > 0
    ensures var w := World(_ => CannotTake, _ => Verdict([Artefacts], 40, fee), _ => SellerBlind(spent));
            var first := Variant(LowerThird, 0, 0, Assessment([], [], 90));
            var end := CheckFrom(w, true, 2, 1, 0, first, Start);
            end.outcome == Blind(spent) && CostOf(end.log) == fee + spent
  {
  }
}
