/** Lay out first, place second: the rectangle the measured words and mark leave free, and the
    product stood in it. */
module Placement {
  import opened Geometry
  import opened Numeric

  // app/creative/pipeline.py `_free_rect`; app/creative/product.py `placed_size`, `place`. Boxes are
  // real pixels as the browser measured them; the answer is whole pixels.

  const KEEP_OUT_MARGIN := 0.03
  const LOGO_CLEAR := 0.25
  const PLACE_MARGIN := 0.04
  const MAX_PLACE_UPSCALE := 1.25

  datatype Pad = Pad(x: int, top: int, bottom: int)

  /** Everything the product keeps clear of, in the order the source looks at it. */
  const KEEP_OUT := [Headline, Subhead, Cta, Logo, Brandline]

  // ------------------------------------------------------------------ the greedy rectangle

  /** The window, less what the safe zone forbids, in canvas pixels. */
  function Region(window: Rect, pad: Pad, w: int, h: int): Rect {
    Rect(MaxInt(window.l, pad.x), MaxInt(window.t, pad.top),
         MinInt(window.r, w - pad.x), MinInt(window.b, h - pad.bottom))
  }

  /** The clear space the layout owes an element: none but the logo's. */
  function ClearSpace(e: Element, b: Box): Box {
    var g := if e == Logo then LOGO_CLEAR * (b.b - b.t) else 0.0;
    Box(b.l - g, b.t - g, b.r + g, b.b + g)
  }

  /** What one element keeps the product off, if it is on the card. */
  function KeptFor(boxes: map<Element, Box>, grow: real, e: Element): seq<Box> {
    if e in boxes then [Grown(ClearSpace(e, boxes[e]), grow)] else []
  }

  function KeepOuts(boxes: map<Element, Box>, grow: real, order: seq<Element>): seq<Box> {
    if order == [] then [] else KeptFor(boxes, grow, order[0]) + KeepOuts(boxes, grow, order[1..])
  }

  function Larger(a: Box, b: Box): Box {
    if Area(b) > Area(a) then b else a
  }

  /** The largest of the four rectangles left around `hit`; the first of them on a tie. */
  function Cut(rect: Box, hit: Box): Box {
    Larger(Larger(Larger(rect.(b := hit.t), rect.(t := hit.b)), rect.(r := hit.l)), rect.(l := hit.r))
  }

  /** Where the first keep-out that still intersects is, or |keep|. */
  function FirstHit(rect: Box, keep: seq<Box>): (i: nat)
    ensures i <= |keep|
    ensures i < |keep| ==> Hits(rect, keep[i])
    ensures i == |keep| <==> forall j :: 0 <= j < |keep| ==> !Hits(rect, keep[j])
  {
    if keep == [] then 0 else if Hits(rect, keep[0]) then 0 else 1 + FirstHit(rect, keep[1..])
  }

  lemma {:induction false} FirstHitIsFirst(rect: Box, keep: seq<Box>, j: nat)
    requires j < FirstHit(rect, keep)
    ensures !Hits(rect, keep[j])
  {
    if j > 0 { FirstHitIsFirst(rect, keep[1..], j - 1); }
  }

  /** `rounds` passes of the greedy loop. */
  function Greedy(rect: Box, keep: seq<Box>, rounds: nat): Box
    decreases rounds
  {
    if rounds == 0 then rect
    else
      var i := FirstHit(rect, keep);
      if i == |keep| then rect else Greedy(Cut(rect, keep[i]), keep, rounds - 1)
  }

  function Margin(w: int): real {
    w as real * KEEP_OUT_MARGIN
  }

  function FreeBox(boxes: map<Element, Box>, region: Rect, grow: real): Box {
    var keep := KeepOuts(boxes, grow, KEEP_OUT);
    Greedy(AsBox(region), keep, |keep| + 1)
  }

  /** In window pixels, rounded. */
  function InWindow(b: Box, window: Rect): Rect {
    Rect(Round(b.l - window.l as real), Round(b.t - window.t as real),
         Round(b.r - window.l as real), Round(b.b - window.t as real))
  }

  /** The keep-outs, in the order of the table. */
  method Keep(boxes: map<Element, Box>, grow: real) returns (keep: seq<Box>)
    ensures keep == KeepOuts(boxes, grow, KEEP_OUT)
  {
    keep := [];
    var order := KEEP_OUT;
    while order != []
      invariant KeepOuts(boxes, grow, KEEP_OUT) == keep + KeepOuts(boxes, grow, order)
      decreases |order|
    {
      if order[0] in boxes {
        keep := keep + [Grown(ClearSpace(order[0], boxes[order[0]]), grow)];
      }
      order := order[1..];
    }
  }

  /** The greedy loop. */
  method CutAround(start: Box, keep: seq<Box>) returns (rect: Box)
    ensures rect == Greedy(start, keep, |keep| + 1)
  {
    rect := start;
    for done := 0 to |keep| + 1
      invariant Greedy(start, keep, |keep| + 1) == Greedy(rect, keep, |keep| + 1 - done)
    {
      var hit := FirstHit(rect, keep);
      if hit == |keep| {
        return;
      }
      rect := Cut(rect, keep[hit]);
    }
  }

  method FreeRect(boxes: map<Element, Box>, window: Rect, pad: Pad, w: int, h: int) returns (free: Rect)
    ensures free == InWindow(FreeBox(boxes, Region(window, pad, w, h), Margin(w)), window)
  {
    var keep := Keep(boxes, Margin(w));
    var rect := CutAround(AsBox(Region(window, pad, w, h)), keep);
    free := InWindow(rect, window);
  }

  // ------------------------------------------------------------------ it is clear, and fast enough

  /** The region leaves nothing out: what lies in it is what lies in the window and in the safe zone. */
  lemma RegionExactly(window: Rect, pad: Pad, w: int, h: int, b: Box)
    ensures Within(b, AsBox(Region(window, pad, w, h)))
            <==> Within(b, AsBox(window)) && Within(b, AsBox(Rect(pad.x, pad.top, w - pad.x, h - pad.bottom)))
  {
  }

  /** Each edge of the answer is the nearest pixel of the window to the edge it came from. */
  lemma RoundedExactly(b: Box, window: Rect)
    ensures var r := Shifted(InWindow(b, window), window.l, window.t);
            && -0.5 <= r.l as real - b.l <= 0.5 && -0.5 <= r.t as real - b.t <= 0.5
            && -0.5 <= r.r as real - b.r <= 0.5 && -0.5 <= r.b as real - b.b <= 0.5
  {
  }

  predicate Free(b: Box, keep: seq<Box>) {
    forall j :: 0 <= j < |keep| ==> !Hits(b, keep[j])
  }

  function HitCount(rect: Box, keep: seq<Box>): nat {
    if keep == [] then 0 else (if Hits(rect, keep[0]) then 1 else 0) + HitCount(rect, keep[1..])
  }

  lemma CutClears(rect: Box, hit: Box)
    requires Hits(rect, hit)
    ensures Within(Cut(rect, hit), rect) && !Hits(Cut(rect, hit), hit)
  {
  }

  lemma {:induction false} FewerHits(small: Box, rect: Box, keep: seq<Box>, i: nat)
    requires Within(small, rect)
    requires i < |keep| ==> Hits(rect, keep[i]) && !Hits(small, keep[i])
    ensures HitCount(small, keep) <= HitCount(rect, keep) - (if i < |keep| then 1 else 0)
    decreases |keep|
  {
    if keep != [] {
      FewerHits(small, rect, keep[1..], if i > 0 then i - 1 else |keep|);
    }
  }

  lemma {:induction false} GreedyClears(rect: Box, keep: seq<Box>, rounds: nat)
    requires HitCount(rect, keep) < rounds
    ensures var out := Greedy(rect, keep, rounds);
            Within(out, rect) && Free(out, keep)
    decreases rounds
  {
    var i := FirstHit(rect, keep);
    if i < |keep| {
      CutClears(rect, keep[i]);
      FewerHits(Cut(rect, keep[i]), rect, keep, i);
      GreedyClears(Cut(rect, keep[i]), keep, rounds - 1);
    }
  }

  lemma {:induction false} HitCountBound(rect: Box, keep: seq<Box>)
    ensures HitCount(rect, keep) <= |keep|
  {
    if keep != [] { HitCountBound(rect, keep[1..]); }
  }

  lemma {:induction false} KeepOutsContain(boxes: map<Element, Box>, grow: real, order: seq<Element>, e: Element)
    requires e in boxes && e in order
    ensures Grown(ClearSpace(e, boxes[e]), grow) in KeepOuts(boxes, grow, order)
    decreases |order|
  {
    if order[0] != e { KeepOutsContain(boxes, grow, order[1..], e); }
  }

  lemma EveryElementIsKeptOut(e: Element)
    ensures e in KEEP_OUT
  {
  }

  lemma ClearSpaceIs(e: Element, b: Box, grow: real, d: real)
    requires d == if e == Logo then 0.25 * (b.b - b.t) else 0.0
    ensures ClearSpace(e, b) == Box(b.l - d, b.t - d, b.r + d, b.b + d)
    ensures Grown(ClearSpace(e, b), grow)
            == Box(b.l - (grow + d), b.t - (grow + d), b.r + (grow + d), b.b + (grow + d))
  {
  }

  lemma {:induction false} KeepOutsAreOfElements(boxes: map<Element, Box>, grow: real, order: seq<Element>, k: nat)
    returns (e: Element)
    requires k < |KeepOuts(boxes, grow, order)|
    ensures e in boxes && e in order && KeepOuts(boxes, grow, order)[k] == Grown(ClearSpace(e, boxes[e]), grow)
    decreases |order|
  {
    var here := |KeptFor(boxes, grow, order[0])|;
    if k < here { e := order[0]; } else { e := KeepOutsAreOfElements(boxes, grow, order[1..], k - here); }
  }

  /** What is kept out, in coordinates: the box of every element on the card, with the margin on every side,
      and a quarter of its height more for the mark -- all of them, nothing else, and nothing larger. */
  lemma KeepOutsExactly(boxes: map<Element, Box>, grow: real, out: Box)
    ensures out in KeepOuts(boxes, grow, KEEP_OUT)
            <==> exists e :: e in boxes && (
                   var b, d := boxes[e], grow + (if e == Logo then 0.25 * (boxes[e].b - boxes[e].t) else 0.0);
                   out == Box(b.l - d, b.t - d, b.r + d, b.b + d))
  {
    var keep := KeepOuts(boxes, grow, KEEP_OUT);
    forall e | e in boxes
      ensures var b, d := boxes[e], grow + (if e == Logo then 0.25 * (boxes[e].b - boxes[e].t) else 0.0);
              Box(b.l - d, b.t - d, b.r + d, b.b + d) in keep
    {
      EveryElementIsKeptOut(e);
      KeepOutsContain(boxes, grow, KEEP_OUT, e);
      ClearSpaceIs(e, boxes[e], grow, if e == Logo then 0.25 * (boxes[e].b - boxes[e].t) else 0.0);
    }
    if out in keep {
      var k :| 0 <= k < |keep| && keep[k] == out;
      var e := KeepOutsAreOfElements(boxes, grow, KEEP_OUT, k);
      ClearSpaceIs(e, boxes[e], grow, if e == Logo then 0.25 * (boxes[e].b - boxes[e].t) else 0.0);
    }
  }

  /** One round per keep-out is enough: whatever was measured, the rectangle ends inside the region
      and clear of every word and the pill, each with the margin on every side, and of the mark with
      the margin and a quarter of its height. */
  lemma FreeBoxIsFree(boxes: map<Element, Box>, region: Rect, grow: real)
    ensures var free := FreeBox(boxes, region, grow);
            && Within(free, AsBox(region))
            && forall e :: e in boxes ==>
                 var b, d := boxes[e], grow + (if e == Logo then 0.25 * (boxes[e].b - boxes[e].t) else 0.0);
                 !Hits(free, Box(b.l - d, b.t - d, b.r + d, b.b + d))
  {
    var keep := KeepOuts(boxes, grow, KEEP_OUT);
    HitCountBound(AsBox(region), keep);
    GreedyClears(AsBox(region), keep, |keep| + 1);
    var free := FreeBox(boxes, region, grow);
    forall e | e in boxes
      ensures var b, d := boxes[e], grow + (if e == Logo then 0.25 * (boxes[e].b - boxes[e].t) else 0.0);
              !Hits(free, Box(b.l - d, b.t - d, b.r + d, b.b + d))
    {
      EveryElementIsKeptOut(e);
      KeepOutsContain(boxes, grow, KEEP_OUT, e);
      ClearSpaceIs(e, boxes[e], grow, if e == Logo then 0.25 * (boxes[e].b - boxes[e].t) else 0.0);
    }
  }

  // ------------------------------------------------------------------ how large it is

  lemma Product(x: real, y: real, u: real, v: real)
    requires 0.0 < x <= u && 0.0 < y <= v
    ensures x * y <= u * v
  {
  }

  lemma SmallerArea(a: Box, b: Box)
    requires Within(a, b) && a.l < a.r && a.t < a.b
    ensures Area(a) <= Area(b)
  {
    Product(a.r - a.l, a.b - a.t, b.r - b.l, b.b - b.t);
  }

  /** A rectangle inside `rect`, of positive size, that misses `hit` is no larger than the cut. */
  lemma CutIsLargest(rect: Box, hit: Box, other: Box)
    requires Hits(rect, hit)
    requires Within(other, rect) && other.l < other.r && other.t < other.b && !Hits(other, hit)
    ensures Area(other) <= Area(Cut(rect, hit))
  {
    if other.b <= hit.t { SmallerArea(other, rect.(b := hit.t)); }
    else if other.t >= hit.b { SmallerArea(other, rect.(t := hit.b)); }
    else if other.r <= hit.l { SmallerArea(other, rect.(r := hit.l)); }
    else { SmallerArea(other, rect.(l := hit.r)); }
  }

  /** The side a cut keeps, of above, below, left of and right of: the first that is no smaller than
      any other. */
  lemma CutIsFirstOfTheLargest(rect: Box, hit: Box)
    ensures var above, below := Box(rect.l, rect.t, rect.r, hit.t), Box(rect.l, hit.b, rect.r, rect.b);
            var left, right := Box(rect.l, rect.t, hit.l, rect.b), Box(hit.r, rect.t, rect.r, rect.b);
            var most := Max(Max(Area(above), Area(below)), Max(Area(left), Area(right)));
            Cut(rect, hit) == if Area(above) == most then above else if Area(below) == most then below
                              else if Area(left) == most then left else right
  {
  }

  // The source calls its answer the largest free rectangle. When is it?

  /** A rectangle of positive size inside `rect` that misses every keep-out. */
  predicate Candidate(b: Box, rect: Box, keep: seq<Box>) {
    Within(b, rect) && b.l < b.r && b.t < b.b && Free(b, keep)
  }

  ghost predicate IsLargestFree(b: Box, rect: Box, keep: seq<Box>) {
    forall other {:trigger Candidate(other, rect, keep)} :: Candidate(other, rect, keep) ==> Area(other) <= Area(b)
  }

  datatype Side = Above | Below | LeftOf | RightOf

  /** What the cut chooses from. */
  function Beside(rect: Box, hit: Box, side: Side): Box {
    match side
    case Above => rect.(b := hit.t)
    case Below => rect.(t := hit.b)
    case LeftOf => rect.(r := hit.l)
    case RightOf => rect.(l := hit.r)
  }

  predicate OthersWithin(rect: Box, hit: Box, least: real) {
    forall s: Side :: Beside(rect, hit, s) != Cut(rect, hit) ==> Area(Beside(rect, hit, s)) <= least
  }

  predicate OthersFree(rect: Box, hit: Box, keep: seq<Box>) {
    forall s: Side :: Beside(rect, hit, s) != Cut(rect, hit) ==> Free(Beside(rect, hit, s), keep)
  }

  /** Every side the greedy loop passes over, at any of its cuts, has an area of at most `least`. */
  predicate PassedOverWithin(rect: Box, keep: seq<Box>, rounds: nat, least: real)
    decreases rounds
  {
    var i := FirstHit(rect, keep);
    rounds == 0 || i == |keep|
    || (OthersWithin(rect, keep[i], least) && PassedOverWithin(Cut(rect, keep[i]), keep, rounds - 1, least))
  }

  /** Every side the greedy loop passes over, at any of its cuts, is itself free. */
  predicate PassedOverFree(rect: Box, keep: seq<Box>, rounds: nat)
    decreases rounds
  {
    var i := FirstHit(rect, keep);
    rounds == 0 || i == |keep|
    || (OthersFree(rect, keep[i], keep) && PassedOverFree(Cut(rect, keep[i]), keep, rounds - 1))
  }

  /** What misses a keep-out lies on one of its sides. */
  lemma OnOneSide(rect: Box, hit: Box, other: Box) returns (s: Side)
    requires Within(other, rect) && other.l < other.r && other.t < other.b && !Hits(other, hit)
    ensures Within(other, Beside(rect, hit, s))
  {
    s := if other.b <= hit.t then Above else if other.t >= hit.b then Below
         else if other.r <= hit.l then LeftOf else RightOf;
  }

  /** A guard read off the cuts: when no side passed over is larger than what is left in the end,
      nothing free is larger either. */
  lemma {:induction false} NothingLargerPassedOver(rect: Box, keep: seq<Box>, rounds: nat, other: Box)
    requires Candidate(other, rect, keep)
    requires PassedOverWithin(rect, keep, rounds, Area(Greedy(rect, keep, rounds)))
    ensures Area(other) <= Area(Greedy(rect, keep, rounds))
    decreases rounds
  {
    var i := FirstHit(rect, keep);
    if rounds == 0 || i == |keep| {
      SmallerArea(other, rect);
    } else {
      var s := OnOneSide(rect, keep[i], other);
      if Beside(rect, keep[i], s) == Cut(rect, keep[i]) {
        NothingLargerPassedOver(Cut(rect, keep[i]), keep, rounds - 1, other);
      } else {
        SmallerArea(other, Beside(rect, keep[i], s));
      }
    }
  }

  /** One cut is enough: whatever else is kept out, once the first keep-out hit has been cut away
      nothing is hit any more. */
  predicate OneCutSuffices(rect: Box, keep: seq<Box>) {
    var i := FirstHit(rect, keep);
    i < |keep| ==> FirstHit(Cut(rect, keep[i]), keep) == |keep|
  }

  /** Then the answer is the largest free rectangle, for every list of keep-outs. */
  lemma OneCutIsLargest(region: Box, keep: seq<Box>)
    requires OneCutSuffices(region, keep)
    ensures IsLargestFree(Greedy(region, keep, |keep| + 1), region, keep)
  {
    var i := FirstHit(region, keep);
    forall other | Candidate(other, region, keep) ensures Area(other) <= Area(Greedy(region, keep, |keep| + 1)) {
      if i < |keep| {
        CutIsLargest(region, keep[i], other);
        assert Greedy(Cut(region, keep[i]), keep, |keep|) == Cut(region, keep[i]);
      } else {
        SmallerArea(other, region);
      }
    }
  }

  /** The same cuts, but with the side to keep given for each. */
  function Following(rect: Box, keep: seq<Box>, path: seq<Side>): Box
    decreases |path|
  {
    var i := FirstHit(rect, keep);
    if path == [] || i == |keep| then rect else Following(Beside(rect, keep[i], path[0]), keep, path[1..])
  }

  lemma BesideClears(rect: Box, hit: Box, s: Side)
    requires Hits(rect, hit)
    ensures Within(Beside(rect, hit, s), rect) && !Hits(Beside(rect, hit, s), hit)
  {
  }

  /** Whatever sides are kept, they end on a free rectangle, */
  lemma {:induction false} FollowingIsFree(rect: Box, keep: seq<Box>, path: seq<Side>)
    requires HitCount(rect, keep) < |path|
    ensures Within(Following(rect, keep, path), rect) && Free(Following(rect, keep, path), keep)
    decreases |path|
  {
    var i := FirstHit(rect, keep);
    if i < |keep| {
      var side := Beside(rect, keep[i], path[0]);
      BesideClears(rect, keep[i], path[0]);
      FewerHits(side, rect, keep, i);
      FollowingIsFree(side, keep, path[1..]);
    }
  }

  /** and whatever is free lies in what some of them end on. */
  lemma {:induction false} FreeLiesOnAPath(rect: Box, keep: seq<Box>, n: nat, other: Box) returns (path: seq<Side>)
    requires Candidate(other, rect, keep)
    ensures |path| == n && Within(other, Following(rect, keep, path))
    decreases n
  {
    var i := FirstHit(rect, keep);
    if n == 0 {
      path := [];
    } else if i == |keep| {
      path := seq(n, _ => Above);
    } else {
      var s := OnOneSide(rect, keep[i], other);
      var rest := FreeLiesOnAPath(Beside(rect, keep[i], s), keep, n - 1, other);
      path := [s] + rest;
      assert path[1..] == rest;
    }
  }

  /** No other choice of sides, one for each cut, ends on a larger rectangle. */
  ghost predicate NoChoiceIsLarger(b: Box, region: Box, keep: seq<Box>) {
    forall path: seq<Side> :: |path| == |keep| + 1 ==> Area(Following(region, keep, path)) <= Area(b)
  }

  lemma NoArea(b: Box)
    requires !(b.l < b.r && b.t < b.b)
    ensures Area(b) == 0.0
  {
  }

  lemma SomeArea(b: Box)
    ensures Area(b) >= 0.0
  {
  }

  lemma NoLargerThan(out: Box, b: Box, region: Box, keep: seq<Box>)
    requires Within(out, region) && Free(out, keep) && IsLargestFree(b, region, keep)
    ensures Area(out) <= Area(b)
  {
    if out.l < out.r && out.t < out.b {
      assert Candidate(out, region, keep);
    } else {
      NoArea(out);
      SomeArea(b);
    }
  }

  /** So a rectangle is the largest exactly when no choice of sides ends on a larger one. */
  lemma LargestExactly(region: Box, keep: seq<Box>, b: Box)
    ensures IsLargestFree(b, region, keep) <==> NoChoiceIsLarger(b, region, keep)
  {
    if NoChoiceIsLarger(b, region, keep) {
      forall other | Candidate(other, region, keep) ensures Area(other) <= Area(b) {
        var path := FreeLiesOnAPath(region, keep, |keep| + 1, other);
        SmallerArea(other, Following(region, keep, path));
      }
    }
    if IsLargestFree(b, region, keep) {
      forall path: seq<Side> | |path| == |keep| + 1 ensures Area(Following(region, keep, path)) <= Area(b) {
        HitCountBound(region, keep);
        FollowingIsFree(region, keep, path);
        NoLargerThan(Following(region, keep, path), b, region, keep);
      }
    }
  }

  lemma OthersCount(rect: Box, keep: seq<Box>, i: nat, b: Box, least: real)
    requires i < |keep| && Hits(rect, keep[i]) && OthersFree(rect, keep[i], keep)
    requires IsLargestFree(b, rect, keep) && least == Area(b)
    ensures OthersWithin(rect, keep[i], least)
  {
    forall s: Side | Beside(rect, keep[i], s) != Cut(rect, keep[i]) ensures Area(Beside(rect, keep[i], s)) <= Area(b) {
      BesideClears(rect, keep[i], s);
      NoLargerThan(Beside(rect, keep[i], s), b, rect, keep);
    }
  }

  lemma LargestInside(rect: Box, keep: seq<Box>, i: nat, b: Box)
    requires i < |keep| && Hits(rect, keep[i]) && IsLargestFree(b, rect, keep)
    ensures IsLargestFree(b, Cut(rect, keep[i]), keep)
  {
    CutClears(rect, keep[i]);
    forall other | Candidate(other, Cut(rect, keep[i]), keep) ensures Area(other) <= Area(b) {
      assert Candidate(other, rect, keep);
    }
  }

  /** Where every side passed over is free, the guard is exact. */
  lemma {:induction false} PassedOverCounts(rect: Box, keep: seq<Box>, rounds: nat, b: Box, least: real)
    requires PassedOverFree(rect, keep, rounds) && IsLargestFree(b, rect, keep) && least == Area(b)
    ensures PassedOverWithin(rect, keep, rounds, least)
    decreases rounds
  {
    var i := FirstHit(rect, keep);
    if rounds > 0 && i < |keep| {
      OthersCount(rect, keep, i, b, least);
      LargestInside(rect, keep, i, b);
      PassedOverCounts(Cut(rect, keep[i]), keep, rounds - 1, b, least);
    }
  }

  lemma GuardDecides(region: Box, keep: seq<Box>, rounds: nat, b: Box)
    requires b == Greedy(region, keep, rounds)
    ensures PassedOverWithin(region, keep, rounds, Area(b)) ==> IsLargestFree(b, region, keep)
    ensures PassedOverFree(region, keep, rounds) && IsLargestFree(b, region, keep) ==>
              PassedOverWithin(region, keep, rounds, Area(b))
  {
    if PassedOverWithin(region, keep, rounds, Area(b)) {
      forall other | Candidate(other, region, keep) ensures Area(other) <= Area(b) {
        NothingLargerPassedOver(region, keep, rounds, other);
      }
    }
    if PassedOverFree(region, keep, rounds) && IsLargestFree(b, region, keep) {
      PassedOverCounts(region, keep, rounds, b, Area(b));
    }
  }

  /** For whatever the browser measured: the free rectangle is the largest there is if and only if
      no other choice of sides would have ended on a larger one; it is whenever one cut suffices or
      no side passed over is larger than the answer; and where the sides passed over are free, that
      last guard is exact. */
  lemma FreeBoxIsLargestExactly(boxes: map<Element, Box>, region: Rect, grow: real)
    ensures var keep := KeepOuts(boxes, grow, KEEP_OUT);
            var free := FreeBox(boxes, region, grow);
            var largest := IsLargestFree(free, AsBox(region), keep);
            var guarded := PassedOverWithin(AsBox(region), keep, |keep| + 1, Area(free));
            && (largest <==> NoChoiceIsLarger(free, AsBox(region), keep))
            && (OneCutSuffices(AsBox(region), keep) ==> largest)
            && (guarded ==> largest)
            && (PassedOverFree(AsBox(region), keep, |keep| + 1) ==> (largest <==> guarded))
  {
    var keep := KeepOuts(boxes, grow, KEEP_OUT);
    var free := FreeBox(boxes, region, grow);
    LargestExactly(AsBox(region), keep, free);
    if OneCutSuffices(AsBox(region), keep) { OneCutIsLargest(AsBox(region), keep); }
    GuardDecides(AsBox(region), keep, |keep| + 1, free);
  }

  // A card on which it is not.

  lemma LargerIs(p: Box, pw: real, ph: real, q: Box, qw: real, qh: real)
    requires pw == Max(0.0, p.r - p.l) && ph == Max(0.0, p.b - p.t)
    requires qw == Max(0.0, q.r - q.l) && qh == Max(0.0, q.b - q.t)
    ensures Larger(p, q) == if qw * qh > pw * ph then q else p
  {
  }

  lemma CutIs(rect: Box, hit: Box, first: Box, second: Box, best: Box)
    requires Larger(rect.(b := hit.t), rect.(t := hit.b)) == first
    requires Larger(first, rect.(r := hit.l)) == second && Larger(second, rect.(l := hit.r)) == best
    ensures Cut(rect, hit) == best
  {
  }

  lemma GreedyStep(rect: Box, keep: seq<Box>, rounds: nat, i: nat, next: Box, out: Box)
    requires rounds > 0 && i < |keep| && Hits(rect, keep[i]) && forall j :: 0 <= j < i ==> !Hits(rect, keep[j])
    requires Cut(rect, keep[i]) == next && Greedy(next, keep, rounds - 1) == out
    ensures Greedy(rect, keep, rounds) == out
  {
    if i < FirstHit(rect, keep) { FirstHitIsFirst(rect, keep, i); }
  }

  lemma GreedyEnds(rect: Box, keep: seq<Box>, rounds: nat)
    requires Free(rect, keep)
    ensures Greedy(rect, keep, rounds) == rect
  {
  }

  lemma AreaIs(x: Box, w: real, h: real)
    requires w == Max(0.0, x.r - x.l) && h == Max(0.0, x.b - x.t)
    ensures Area(x) == w * h
  {
  }

  lemma KeepOutsStep(boxes: map<Element, Box>, grow: real, e: Element, rest: seq<Element>)
    ensures KeepOuts(boxes, grow, [e] + rest) == KeptFor(boxes, grow, e) + KeepOuts(boxes, grow, rest)
  {
    assert ([e] + rest)[1..] == rest;
  }

  lemma KeepOutsInOrder(boxes: map<Element, Box>, grow: real)
    ensures KeepOuts(boxes, grow, KEEP_OUT)
            == KeptFor(boxes, grow, Headline) + (KeptFor(boxes, grow, Subhead) + (KeptFor(boxes, grow, Cta)
               + (KeptFor(boxes, grow, Logo) + KeptFor(boxes, grow, Brandline))))
  {
    KeepOutsStep(boxes, grow, Brandline, []);
    KeepOutsStep(boxes, grow, Logo, [Brandline]);
    KeepOutsStep(boxes, grow, Cta, [Logo, Brandline]);
    KeepOutsStep(boxes, grow, Subhead, [Cta, Logo, Brandline]);
    KeepOutsStep(boxes, grow, Headline, [Subhead, Cta, Logo, Brandline]);
    assert KEEP_OUT == [Headline] + ([Subhead] + ([Cta] + ([Logo] + ([Brandline] + []))));
  }

  /** A card as lower_third sets it at 1080 by 1350: the brand's name at the top; at the foot a
      headline of three lines of one word each, a subhead of three lines, and the pill. */
  function StackedCard(): map<Element, Box> {
    map[Headline := Box(90.0, 646.0, 550.0, 929.0), Subhead := Box(90.0, 969.0, 700.0, 1110.0),
        Cta := Box(90.0, 1162.0, 370.0, 1258.0), Brandline := Box(90.0, 98.0, 400.0, 120.0)]
  }

  predicate StackedKeep(keep: seq<Box>) {
    keep == [Box(57.6, 613.6, 582.4, 961.4), Box(57.6, 936.6, 732.4, 1142.4),
             Box(57.6, 1129.6, 402.4, 1290.4), Box(57.6, 65.6, 432.4, 152.4)]
  }

  lemma KeptOut(grow: real) returns (keep: seq<Box>)
    requires grow == 32.4
    ensures keep == KeepOuts(StackedCard(), grow, KEEP_OUT) && StackedKeep(keep)
  {
    KeepOutsInOrder(StackedCard(), grow);
    keep := KeepOuts(StackedCard(), grow, KEEP_OUT);
  }

  lemma BesideTheHeadline(rect: Box, hit: Box)
    requires rect == Box(90.0, 90.0, 990.0, 1258.0) && hit == Box(57.6, 613.6, 582.4, 961.4)
    ensures Cut(rect, hit) == Box(582.4, 90.0, 990.0, 1258.0)
  {
    var above, below, left, right := rect.(b := hit.t), rect.(t := hit.b), rect.(r := hit.l), rect.(l := hit.r);
    LargerIs(above, 900.0, 523.6, below, 900.0, 296.6);
    LargerIs(above, 900.0, 523.6, left, 0.0, 1168.0);
    LargerIs(above, 900.0, 523.6, right, 407.6, 1168.0);
    CutIs(rect, hit, above, above, right);
  }

  lemma AboveTheSubhead(rect: Box, hit: Box)
    requires rect == Box(582.4, 90.0, 990.0, 1258.0) && hit == Box(57.6, 936.6, 732.4, 1142.4)
    ensures Cut(rect, hit) == Box(582.4, 90.0, 990.0, 936.6)
  {
    var above, below, left, right := rect.(b := hit.t), rect.(t := hit.b), rect.(r := hit.l), rect.(l := hit.r);
    LargerIs(above, 407.6, 846.6, below, 407.6, 115.6);
    LargerIs(above, 407.6, 846.6, left, 0.0, 1168.0);
    LargerIs(above, 407.6, 846.6, right, 257.6, 1168.0);
    CutIs(rect, hit, above, above, above);
  }

  lemma TwoCuts(keep: seq<Box>, rounds: nat)
    requires rounds >= 2 && StackedKeep(keep)
    ensures Greedy(Box(90.0, 90.0, 990.0, 1258.0), keep, rounds) == Box(582.4, 90.0, 990.0, 936.6)
  {
    var r0, r1, r2 := Box(90.0, 90.0, 990.0, 1258.0), Box(582.4, 90.0, 990.0, 1258.0), Box(582.4, 90.0, 990.0, 936.6);
    BesideTheHeadline(r0, keep[0]);
    AboveTheSubhead(r1, keep[1]);
    GreedyEnds(r2, keep, rounds - 2);
    GreedyStep(r1, keep, rounds - 1, 1, r2, r2);
    GreedyStep(r0, keep, rounds, 0, r1, r2);
  }

  lemma FreeOnTheStackedCard()
    ensures FreeBox(StackedCard(), Region(Rect(0, 0, 1080, 1350), Pad(90, 90, 92), 1080, 1350), Margin(1080))
            == Box(582.4, 90.0, 990.0, 936.6)
  {
    var keep := KeptOut(Margin(1080));
    TwoCuts(keep, |keep| + 1);
  }

  lemma AboveIsBetter(keep: seq<Box>, free: Box, better: Box)
    requires StackedKeep(keep) && free == Box(582.4, 90.0, 990.0, 936.6) && better == Box(90.0, 152.4, 990.0, 613.6)
    ensures Candidate(better, Box(90.0, 90.0, 990.0, 1258.0), keep) && Area(better) > 1.2 * Area(free)
  {
    AreaIs(free, 407.6, 846.6);
    AreaIs(better, 900.0, 461.2);
  }

  /** On that card the column beside the headline is a little larger than what is above it, so the
      first cut goes there and the subhead then takes a quarter of it: the whole width between brand
      name and headline, a fifth larger than what is left in the end, stood free. */
  lemma FreeBoxCanMislead(better: Box)
    requires better == Box(90.0, 152.4, 990.0, 613.6)
    ensures var region := Region(Rect(0, 0, 1080, 1350), Pad(90, 90, 92), 1080, 1350);
            var free := FreeBox(StackedCard(), region, Margin(1080));
            && free == Box(582.4, 90.0, 990.0, 936.6)
            && Candidate(better, AsBox(region), KeepOuts(StackedCard(), Margin(1080), KEEP_OUT))
            && Area(better) > 1.2 * Area(free)
  {
    FreeOnTheStackedCard();
    var keep := KeptOut(Margin(1080));
    AboveIsBetter(keep, Box(582.4, 90.0, 990.0, 936.6), better);
  }

  // ------------------------------------------------------------------ standing the product

  function PlaceMargin(width: int): int {
    Round(width as real * PLACE_MARGIN)
  }

  function Zone(lo: int, hi: int, margin: int): int {
    MaxInt(1, hi - lo - 2 * margin)
  }

  /** placed_size: the largest the cut-out fits inside the zone, never enlarged past the cap. */
  function PlacedScale(cutW: int, cutH: int, zoneW: int, zoneH: int): real
    requires cutW > 0 && cutH > 0
  {
    Min(Min(zoneW as real / cutW as real, zoneH as real / cutH as real), MAX_PLACE_UPSCALE)
  }

  function PlacedSide(side: int, scale: real): int
    requires side > 0 && scale >= 0.0
  {
    MaxInt(1, Trunc(side as real * scale))
  }

  lemma SideFits(side: int, scale: real, zone: int)
    requires side > 0 && zone >= 1 && 0.0 <= scale <= zone as real / side as real
    ensures 1 <= PlacedSide(side, scale) <= zone
  {
  }

  /** The anchor's point across the zone. */
  function AskedFor(free: Rect, margin: int, anchor: real): real {
    (free.l + margin) as real + Zone(free.l, free.r, margin) as real * anchor
  }

  /** `pw` by `ph` on the floor of `free`, its centre aimed at `asked`, never past the margins. */
  function Stood(pw: int, ph: int, margin: int, free: Rect, asked: real): Rect {
    var x := MaxInt(free.l + margin, MinInt(Round(asked - pw as real / 2.0), free.r - margin - pw));
    var y := free.b - margin - ph;
    Rect(x, y, x + pw, y + ph)
  }

  /** place: the product's box on the window. It stands on the floor of its space. */
  function Place(cutW: int, cutH: int, width: int, free: Rect, anchor: real): Rect
    requires cutW > 0 && cutH > 0
  {
    var margin := PlaceMargin(width);
    var zoneW, zoneH := Zone(free.l, free.r, margin), Zone(free.t, free.b, margin);
    var scale := PlacedScale(cutW, cutH, zoneW, zoneH);
    Stood(PlacedSide(cutW, scale), PlacedSide(cutH, scale), margin, free, AskedFor(free, margin, anchor))
  }

  /** What placed_size promises the gate: the product fits its zone both ways. */
  lemma PlacedSizeFits(cutW: int, cutH: int, zoneW: int, zoneH: int)
    requires cutW > 0 && cutH > 0 && zoneW >= 1 && zoneH >= 1
    ensures var scale := PlacedScale(cutW, cutH, zoneW, zoneH);
            0.0 <= scale <= MAX_PLACE_UPSCALE
            && 1 <= PlacedSide(cutW, scale) <= zoneW && 1 <= PlacedSide(cutH, scale) <= zoneH
  {
    var scale := PlacedScale(cutW, cutH, zoneW, zoneH);
    SideFits(cutW, scale, zoneW);
    SideFits(cutH, scale, zoneH);
  }

  /** And no larger would: any enlargement within the cap that fits the zone both ways is at most
      the one chosen. */
  lemma PlacedAsLargeAsFits(cutW: int, cutH: int, zoneW: int, zoneH: int, scale: real)
    requires cutW > 0 && cutH > 0 && scale <= MAX_PLACE_UPSCALE
    requires cutW as real * scale <= zoneW as real && cutH as real * scale <= zoneH as real
    ensures scale <= PlacedScale(cutW, cutH, zoneW, zoneH)
  {
    NoLarger(cutW as real, scale, zoneW as real);
    NoLarger(cutH as real, scale, zoneH as real);
  }

  lemma NoLarger(side: real, scale: real, zone: real)
    requires side > 0.0 && side * scale <= zone
    ensures scale <= zone / side
  {
    assert zone / side * side == zone;
  }

  predicate Inside(inner: Rect, outer: Rect) {
    outer.l <= inner.l < inner.r <= outer.r && outer.t <= inner.t < inner.b <= outer.b
  }

  function Shrunk(r: Rect, m: int): Rect {
    Rect(r.l + m, r.t + m, r.r - m, r.b - m)
  }

  /** The product stands inside its rectangle, the margin kept on every side, exactly when the
      rectangle is more than two margins across and high -- whatever the anchor. */
  lemma PlaceInsideExactly(cutW: int, cutH: int, width: int, free: Rect, anchor: real)
    requires cutW > 0 && cutH > 0
    ensures var m := PlaceMargin(width);
            Inside(Place(cutW, cutH, width, free, anchor), Shrunk(free, m))
            <==> (free.r - free.l > 2 * m && free.b - free.t > 2 * m)
  {
    var m := PlaceMargin(width);
    PlacedSizeFits(cutW, cutH, Zone(free.l, free.r, m), Zone(free.t, free.b, m));
  }

  /** Held between `lo` and `hi`, `size` long and aimed at `asked`: its centre is within half a pixel
      of there unless a side holds it back. */
  predicate StandsAt(l: int, r: int, lo: int, hi: int, asked: real) {
    var off := (l + r) as real / 2.0 - asked;
    && (lo < l && r < hi ==> -0.5 <= off <= 0.5)
    && (l == lo && r < hi ==> off >= -0.5)
    && (r == hi && lo < l ==> off <= 0.5)
  }

  lemma StoodStands(pw: int, ph: int, m: int, free: Rect, asked: real)
    requires pw <= Zone(free.l, free.r, m)
    ensures var p := Stood(pw, ph, m, free, asked);
            p.b == free.b - m && (free.r - free.l > 2 * m ==> StandsAt(p.l, p.r, free.l + m, free.r - m, asked))
  {
  }

  lemma PlacedStands(cutW: int, cutH: int, width: int, free: Rect, anchor: real, asked: real)
    requires cutW > 0 && cutH > 0 && asked == AskedFor(free, PlaceMargin(width), anchor)
    ensures var m := PlaceMargin(width);
            var p := Place(cutW, cutH, width, free, anchor);
            p.b == free.b - m && (free.r - free.l > 2 * m ==> StandsAt(p.l, p.r, free.l + m, free.r - m, asked))
  {
    var m := PlaceMargin(width);
    var zoneW, zoneH := Zone(free.l, free.r, m), Zone(free.t, free.b, m);
    var scale := PlacedScale(cutW, cutH, zoneW, zoneH);
    PlacedSizeFits(cutW, cutH, zoneW, zoneH);
    StoodStands(PlacedSide(cutW, scale), PlacedSide(cutH, scale), m, free, asked);
  }

  lemma AskedIs(free: Rect, m: int, anchor: real, across: real)
    requires free.r - free.l > 2 * m && across == (free.r - free.l - 2 * m) as real * anchor
    ensures AskedFor(free, m, anchor) == (free.l + m) as real + across
  {
  }

  /** It stands on the floor of its rectangle, the margin kept, and where it was asked to: its
      centre is within half a pixel of the anchor's point across the zone between the margins, unless
      the zone's side holds it back. */
  lemma PlaceStandsWhereAsked(cutW: int, cutH: int, width: int, free: Rect, anchor: real, m: int, across: real)
    requires cutW > 0 && cutH > 0
    requires m == Round(0.04 * width as real) && across == (free.r - free.l - 2 * m) as real * anchor
    ensures var p := Place(cutW, cutH, width, free, anchor);
            && p.b == free.b - m
            && (free.r - free.l > 2 * m ==>
                  StandsAt(p.l, p.r, free.l + m, free.r - m, (free.l + m) as real + across))
  {
    PlacedStands(cutW, cutH, width, free, anchor, AskedFor(free, m, anchor));
    if free.r - free.l > 2 * m { AskedIs(free, m, anchor, across); }
  }

  /** Whole pixels of a length, at least one. */
  predicate WholePixels(n: int, length: real) {
    if length < 1.0 then n == 1 else n as real <= length < n as real + 1.0
  }

  /** And in whole pixels it is the cut-out's own shape, as large as both sides of the zone and the cap
      on enlargement let it be. */
  lemma PlaceKeepsItsShape(cutW: int, cutH: int, width: int, free: Rect, anchor: real, scale: real)
    requires cutW > 0 && cutH > 0
    requires var m := Round(0.04 * width as real);
             var across := MaxInt(1, free.r - free.l - 2 * m) as real / cutW as real;
             var down := MaxInt(1, free.b - free.t - 2 * m) as real / cutH as real;
             scale == if across <= down && across <= 1.25 then across else if down <= 1.25 then down else 1.25
    ensures var p := Place(cutW, cutH, width, free, anchor);
            WholePixels(p.r - p.l, cutW as real * scale) && WholePixels(p.b - p.t, cutH as real * scale)
  {
    var m := PlaceMargin(width);
    var zoneW, zoneH := Zone(free.l, free.r, m), Zone(free.t, free.b, m);
    assert scale == PlacedScale(cutW, cutH, zoneW, zoneH);
    PlacedSizeFits(cutW, cutH, zoneW, zoneH);
    SideIs(cutW, scale);
    SideIs(cutH, scale);
  }

  lemma SideIs(side: int, scale: real)
    requires side > 0 && scale >= 0.0
    ensures WholePixels(PlacedSide(side, scale), side as real * scale)
  {
  }

  function Shifted(r: Rect, dx: int, dy: int): Rect {
    Rect(r.l + dx, r.t + dy, r.r + dx, r.b + dy)
  }

  /** Rounding moves the rectangle by at most half a pixel, and not at all where the window or the
      safe zone bounds it. */
  lemma RoundedRegion(free: Box, region: Rect, window: Rect)
    requires Within(free, AsBox(region))
    ensures var r := Shifted(InWindow(free, window), window.l, window.t);
            && region.l <= r.l && region.t <= r.t && r.r <= region.r && r.b <= region.b
            && Within(AsBox(r), Grown(free, 0.5))
  {
  }

  lemma MissesWhatItWasGrownFrom(free: Box, keep: Box, grow: real, d: real, product: Box)
    requires grow >= 0.5 && Within(product, Grown(free, 0.5))
    requires !Hits(free, Box(keep.l - (grow + d), keep.t - (grow + d), keep.r + (grow + d), keep.b + (grow + d)))
    ensures !Hits(product, Box(keep.l - d, keep.t - d, keep.r + d, keep.b + d))
  {
  }

  /** Lay out first, place second. When the free rectangle is more than two margins across and
      high, the product placed in it lands, on the canvas and in whole pixels, inside the photo
      window and the safe zone and on no word, not on the pill, and outside the mark's clear space
      -- for every layout the browser can measure. (A canvas under 17 pixels wide would leave the
      rounding more than the margin.) */
  lemma ProductIsClear(boxes: map<Element, Box>, window: Rect, pad: Pad, w: int, h: int,
                       cutW: int, cutH: int, anchor: real)
    requires cutW > 0 && cutH > 0 && w >= 17 && window.r >= window.l
    ensures var free := InWindow(FreeBox(boxes, Region(window, pad, w, h), Margin(w)), window);
            var m := PlaceMargin(window.r - window.l);
            var product := Shifted(Place(cutW, cutH, window.r - window.l, free, anchor), window.l, window.t);
            free.r - free.l > 2 * m && free.b - free.t > 2 * m ==>
              && Inside(product, window)
              && Inside(product, Rect(pad.x, pad.top, w - pad.x, h - pad.bottom))
              && forall e :: e in boxes ==>
                   var b, d := boxes[e], (if e == Logo then 0.25 * (boxes[e].b - boxes[e].t) else 0.0);
                   !Hits(AsBox(product), Box(b.l - d, b.t - d, b.r + d, b.b + d))
  {
    var region := Region(window, pad, w, h);
    var free := FreeBox(boxes, region, Margin(w));
    var r, m := InWindow(free, window), PlaceMargin(window.r - window.l);
    if r.r - r.l > 2 * m && r.b - r.t > 2 * m {
      FreeBoxIsFree(boxes, region, Margin(w));
      PlacedClear(free, region, window, cutW, cutH, anchor);
      var product := Shifted(Place(cutW, cutH, window.r - window.l, r, anchor), window.l, window.t);
      forall e | e in boxes
        ensures var b, d := boxes[e], (if e == Logo then 0.25 * (boxes[e].b - boxes[e].t) else 0.0);
                !Hits(AsBox(product), Box(b.l - d, b.t - d, b.r + d, b.b + d))
      {
        var d := if e == Logo then 0.25 * (boxes[e].b - boxes[e].t) else 0.0;
        MissesWhatItWasGrownFrom(free, boxes[e], Margin(w), d, AsBox(product));
      }
    }
  }

  lemma MarginIsNotNegative(width: int)
    requires width >= 0
    ensures PlaceMargin(width) >= 0
  {
    RoundMonotone(0.0, width as real * PLACE_MARGIN);
    RoundOfWhole(0);
  }

  /** What stands inside a rectangle, margins kept, stands no further out when both are moved. */
  lemma ShiftedInside(placed: Rect, r: Rect, m: int, dx: int, dy: int)
    requires m >= 0 && Inside(placed, Shrunk(r, m))
    ensures Inside(Shifted(placed, dx, dy), Shifted(r, dx, dy))
  {
  }

  lemma InsideTheRegion(placed: Rect, r: Rect, region: Rect, free: Box)
    requires Inside(placed, r) && Within(AsBox(r), Grown(free, 0.5))
    requires region.l <= r.l && region.t <= r.t && r.r <= region.r && r.b <= region.b
    ensures Inside(placed, region) && Within(AsBox(placed), Grown(free, 0.5))
  {
  }

  lemma PlacedClear(free: Box, region: Rect, window: Rect, cutW: int, cutH: int, anchor: real)
    requires cutW > 0 && cutH > 0 && window.r >= window.l && Within(free, AsBox(region))
    requires var r := InWindow(free, window);
             var m := PlaceMargin(window.r - window.l);
             r.r - r.l > 2 * m && r.b - r.t > 2 * m
    ensures var product := Shifted(Place(cutW, cutH, window.r - window.l, InWindow(free, window), anchor),
                                   window.l, window.t);
            Inside(product, region) && Within(AsBox(product), Grown(free, 0.5))
  {
    var r := InWindow(free, window);
    var width := window.r - window.l;
    MarginIsNotNegative(width);
    PlaceInsideExactly(cutW, cutH, width, r, anchor);
    ShiftedInside(Place(cutW, cutH, width, r, anchor), r, PlaceMargin(width), window.l, window.t);
    RoundedRegion(free, region, window);
    InsideTheRegion(Shifted(Place(cutW, cutH, width, r, anchor), window.l, window.t), Shifted(r, window.l, window.t),
                    region, free);
  }
}
