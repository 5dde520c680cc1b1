/** Cropping a photograph to the window a layout shows, around its subject, and the final check's
    reconstruction of it (app/creative/compose.py `_focus_crop`, `fit_background`, `fits_kept`,
    `picture_fit`; app/creative/compositeqa.py `subject_on_canvas` and the cut in `assess`). */
module FocusCrop {
  import opened Geometry
  import opened Numeric
  import opened Options

  const MAX_PHOTO_UPSCALE := 1.15
  const FOCUS_MARGIN := 0.04
  const GENERATED_CROP_TOLERANCE := 4.0
  const REUSE_CROP_SHARE := 0.15
  const SUBJECT_CUT_MAX := 0.08

  datatype Size = Size(w: int, h: int)

  // ------------------------------------------------------------------ one axis

  /** `place` inside _focus_crop: where the crop starts along one axis, before rounding. */
  function Start(lo: int, hi: int, span: real, full: int): real {
    var margin := Min(FOCUS_MARGIN * span, (span - (hi - lo) as real) / 2.0);
    var start := (lo + hi) as real / 2.0 - span / 2.0;
    var kept := Max(Min(start, lo as real - margin), hi as real + margin - span);
    Min(Max(0.0, kept), full as real - span)
  }

  /** The source says the crop keeps a margin round the subject where there is room. Centring
      already does that: neither margin clamp ever changes the answer. */
  lemma MarginClampsDoNothing(lo: int, hi: int, span: real, full: int)
    ensures Start(lo, hi, span, full)
            == Min(Max(0.0, (lo + hi) as real / 2.0 - span / 2.0), full as real - span)
  {
  }

  /** A focus inside the picture and at most half a pixel longer than the crop. */
  predicate Croppable(lo: int, hi: int, span: real, full: int) {
    0 <= lo <= hi <= full && 0.0 < span <= full as real && (hi - lo) as real <= span + 0.5
  }

  /** Where the pixels end up along one axis: the crop [Near, Far) cut from the source. */
  function Near(lo: int, hi: int, span: real, full: int): int {
    Round(Start(lo, hi, span, full))
  }

  function Far(lo: int, hi: int, span: real, full: int): int {
    Round(Near(lo, hi, span, full) as real + span)
  }

  /** The real crop lies inside the picture and holds the focus but for a quarter pixel a side;
      rounded, it never cuts the focus on the near side, cuts it by at most three quarters of a
      source pixel on the far side, and by at most one whole pixel in the pixels actually kept. */
  lemma CropKeepsFocus(lo: int, hi: int, span: real, full: int)
    requires Croppable(lo, hi, span, full)
    ensures var s := Start(lo, hi, span, full);
            && 0.0 <= s <= full as real - span
            && s - 0.25 <= lo as real && hi as real <= s + span + 0.25
    ensures 0 <= Near(lo, hi, span, full) <= lo
    ensures hi as real <= Near(lo, hi, span, full) as real + span + 0.75
    ensures hi - 1 <= Far(lo, hi, span, full) <= full + 1
  {
  }

  /** The pixels stay inside the picture except in one case: the crop is pushed against the far
      edge, starts half-way between two pixels, and both ends round outward. Then one column (or
      row) beyond the picture is cut in with it. */
  lemma OverhangExactly(lo: int, hi: int, span: real, full: int)
    requires Croppable(lo, hi, span, full)
    ensures Far(lo, hi, span, full) > full
            <==> (&& Start(lo, hi, span, full) == full as real - span
                  && (full as real - span) - (full as real - span).Floor as real == 0.5
                  && (full as real - span).Floor % 2 == 1
                  && full % 2 == 1)
  {
  }

  // ------------------------------------------------------------------ both axes

  predicate Picture(src: Size) {
    src.w > 0 && src.h > 0
  }

  function Scale(src: Size, win: Size): real
    requires Picture(src)
  {
    Max(win.w as real / src.w as real, win.h as real / src.h as real)
  }

  /** How many window pixels the cover-crop loses. */
  function Lost(src: Size, win: Size): real
    requires Picture(src)
  {
    Max(src.w as real * Scale(src, win) - win.w as real, src.h as real * Scale(src, win) - win.h as real)
  }

  /** _focus_crop: the corner of the crop, or None when the focus fits no crop. */
  function FocusCorner(src: Size, cw: real, ch: real, focus: Option<Rect>): Option<(int, int)> {
    match focus
    case None => Some((Round((src.w as real - cw) / 2.0), Round((src.h as real - ch) / 2.0)))
    case Some(f) =>
      if (f.r - f.l) as real > cw + 0.5 || (f.b - f.t) as real > ch + 0.5 then None
      else Some((Near(f.l, f.r, cw, src.w), Near(f.t, f.b, ch, src.h)))
  }

  /** Along one axis, without a subject: the crop stays inside the picture, and leaves as much on one
      side as on the other to within a pixel. */
  lemma CentredAlong(span: real, full: int, near: int)
    requires 0.0 < span <= full as real && near == Round((full as real - span) / 2.0)
    ensures 0 <= near && Round(near as real + span) <= full
    ensures -1.0 <= near as real - (full as real - (near as real + span)) <= 1.0
  {
  }

  /** With no subject to keep, the crop is centred. With one there is no crop exactly when the subject
      is more than half a pixel longer than the crop, either way. */
  lemma CornerExactly(src: Size, cw: real, ch: real, focus: Option<Rect>)
    requires 0.0 < cw <= src.w as real && 0.0 < ch <= src.h as real
    ensures var corner := FocusCorner(src, cw, ch, focus);
            match focus
            case None =>
              && corner.Some? && 0 <= corner.value.0 && 0 <= corner.value.1
              && Within(AsBox(Shown(corner.value, cw, ch)), AsBox(WholeOf(src)))
              && (var l, t := corner.value.0 as real, corner.value.1 as real;
                  -1.0 <= l - (src.w as real - (l + cw)) <= 1.0 && -1.0 <= t - (src.h as real - (t + ch)) <= 1.0)
            case Some(f) =>
              corner == None <==> (f.r - f.l) as real - cw > 0.5 || (f.b - f.t) as real - ch > 0.5
  {
    if focus.None? {
      CentredAlong(cw, src.w, Round((src.w as real - cw) / 2.0));
      CentredAlong(ch, src.h, Round((src.h as real - ch) / 2.0));
    }
  }

  datatype Mode = Whole | Crop | Letterbox

  datatype Fit = Fit(mode: Mode, visible: Rect, scale: real, dx: real, dy: real)

  function WholeOf(src: Size): Rect {
    Rect(0, 0, src.w, src.h)
  }

  function Shown(at: (int, int), cw: real, ch: real): Rect {
    Rect(at.0, at.1, Round(at.0 as real + cw), Round(at.1 as real + ch))
  }

  function CropFit(scale: real, cw: real, ch: real, at: (int, int)): Fit {
    Fit(Crop, Shown(at, cw, ch), scale, -(at.0 as real) * scale, -(at.1 as real) * scale)
  }

  function LetterboxFit(src: Size, win: Size, fit: real): Fit {
    Fit(Letterbox, WholeOf(src), fit,
        (win.w as real - src.w as real * fit) / 2.0, (win.h as real - src.h as real * fit) / 2.0)
  }

  function CoverFit(src: Size, win: Size, scale: real, cw: real, ch: real, focus: Option<Rect>): Fit
    requires Picture(src)
  {
    match FocusCorner(src, cw, ch, focus)
    case None => LetterboxFit(src, win, Min(win.w as real / src.w as real, win.h as real / src.h as real))
    case Some(at) => CropFit(scale, cw, ch, at)
  }

  function PictureFit(src: Size, win: Size, focus: Option<Rect>): Fit
    requires Picture(src) && Picture(win)
  {
    if src == win then Fit(Whole, WholeOf(src), 1.0, 0.0, 0.0)
    else
      var scale := Scale(src, win);
      ScalePositive(src, win);
      if Lost(src, win) <= 1.0 then Fit(Whole, WholeOf(src), scale, 0.0, 0.0)
      else CoverFit(src, win, scale, win.w as real / scale, win.h as real / scale, focus)
  }

  lemma ScalePositive(src: Size, win: Size)
    requires Picture(src) && Picture(win)
    ensures Scale(src, win) > 0.0
  {
  }

  /** May a picture kept from an earlier version be shown in this window? */
  predicate FitsKept(src: Size, win: Size)
    requires Picture(src) && Picture(win)
  {
    && Scale(src, win) <= 1.000001
    && Max((src.w as real * Scale(src, win) - win.w as real) / win.w as real,
           (src.h as real * Scale(src, win) - win.h as real) / win.h as real) <= REUSE_CROP_SHARE
  }

  datatype Lane = Photo | Generated | KeptGenerated

  datatype Rendered = PictureMismatch | PhotoTooSmall | Untouched | Resampled(mode: Mode, visible: Rect)

  /** fit_background, as far as the pixels it keeps; `turned` is an EXIF rotation. */
  function FitBackground(src: Size, win: Size, lane: Lane, focus: Option<Rect>, turned: bool): Rendered
    requires Picture(src) && Picture(win)
  {
    if src == win && !turned then Untouched
    else
      var scale := Scale(src, win);
      var lost := Lost(src, win);
      ScalePositive(src, win);
      if lane.KeptGenerated? && !FitsKept(src, win) then PictureMismatch
      else if lane.Generated? && !(scale <= 1.000001 && lost <= GENERATED_CROP_TOLERANCE) then PictureMismatch
      else if lane.Photo? && scale > MAX_PHOTO_UPSCALE then PhotoTooSmall
      else if lost > 1.0 then
        var cw, ch := win.w as real / scale, win.h as real / scale;
        match FocusCorner(src, cw, ch, focus)
        case None => Resampled(Letterbox, WholeOf(src))
        case Some(at) => Resampled(Crop, Shown(at, cw, ch))
      else Resampled(Whole, WholeOf(src))
  }

  /** The final check re-derives the crop instead of being told it. Whenever the compositor does
      not refuse, the two agree on how the picture was fitted and on the pixels it shows. */
  lemma QaSeesTheSameCrop(src: Size, win: Size, lane: Lane, focus: Option<Rect>, turned: bool)
    requires Picture(src) && Picture(win)
    ensures var out := FitBackground(src, win, lane, focus, turned);
            var fit := PictureFit(src, win, focus);
            && (out.Resampled? ==> out.mode == fit.mode && out.visible == fit.visible)
            && (out.Untouched? ==> fit.mode == Whole && fit.visible == WholeOf(src))
  {
    if src == win { SameSizeLosesNothing(src); }
  }

  lemma SameSizeLosesNothing(src: Size)
    requires Picture(src)
    ensures Scale(src, src) == 1.0 && Lost(src, src) == 0.0
  {
  }

  /** How far a picture overshoots its window when enlarged to cover it, either way. */
  predicate Overshoots(src: Size, win: Size, scale: real, overW: real, overH: real) {
    overW == src.w as real * scale - win.w as real && overH == src.h as real * scale - win.h as real
  }

  lemma ScaleAndLost(src: Size, win: Size, across: real, down: real, overW: real, overH: real)
    requires Picture(src) && Picture(win)
    requires across == win.w as real / src.w as real && down == win.h as real / src.h as real
    requires Overshoots(src, win, if across >= down then across else down, overW, overH)
    ensures Scale(src, win) == if across >= down then across else down
    ensures Lost(src, win) == if overW >= overH then overW else overH
    ensures FitsKept(src, win)
            <==> Scale(src, win) <= 1.000001 && overW / win.w as real <= 0.15 && overH / win.h as real <= 0.15
  {
  }

  /** How a picture is fitted: whole when it is its window, or covering it loses at most a pixel either
      way; otherwise cropped, unless its subject is more than half a pixel longer than the crop -- then
      kept whole. Scaled to cover the window, or, kept whole, to fit it. */
  lemma FittedExactly(src: Size, win: Size, focus: Option<Rect>, across: real, down: real, overW: real, overH: real)
    requires Picture(src) && Picture(win)
    requires across == win.w as real / src.w as real && down == win.h as real / src.h as real
    requires Overshoots(src, win, if across >= down then across else down, overW, overH)
    ensures var fit, larger := PictureFit(src, win, focus), if across >= down then across else down;
            var whole := src == win || (overW <= 1.0 && overH <= 1.0);
            && larger > 0.0
            && (fit.mode == Whole <==> whole)
            && (fit.mode == Letterbox <==>
                  !whole && focus.Some?
                  && ((focus.value.r - focus.value.l) as real - win.w as real / larger > 0.5
                      || (focus.value.b - focus.value.t) as real - win.h as real / larger > 0.5))
            && fit.scale == if fit.mode == Letterbox then (if across <= down then across else down) else larger
  {
    ScaleAndLost(src, win, across, down, overW, overH);
    var scale, cw, ch := CoverSize(src, win);
    if src == win { SameSizeLosesNothing(src); }
    FitOf(src, win, focus, scale, Lost(src, win), cw, ch);
  }

  lemma FitOf(src: Size, win: Size, focus: Option<Rect>, scale: real, lost: real, cw: real, ch: real)
    requires Picture(src) && Picture(win) && scale == Scale(src, win) > 0.0 && lost == Lost(src, win)
    requires cw == win.w as real / scale && ch == win.h as real / scale
    ensures PictureFit(src, win, focus)
            == if src == win then Fit(Whole, WholeOf(src), 1.0, 0.0, 0.0)
               else if lost <= 1.0 then Fit(Whole, WholeOf(src), scale, 0.0, 0.0)
               else CoverFit(src, win, scale, cw, ch, focus)
  {
  }

  /** When a picture is refused, and why. Nothing is done to one that already is its window; an owner's
      photograph is refused only when either side would be enlarged past the cap; a generated one when
      it would be enlarged at all, or -- kept from an earlier version -- lose more than its share of
      either side, or -- new -- more than the tolerance in pixels. */
  lemma RefusedExactly(src: Size, win: Size, lane: Lane, focus: Option<Rect>, turned: bool, across: real, down: real,
                       overW: real, overH: real)
    requires Picture(src) && Picture(win)
    requires across == win.w as real / src.w as real && down == win.h as real / src.h as real
    requires Overshoots(src, win, if across >= down then across else down, overW, overH)
    ensures var out := FitBackground(src, win, lane, focus, turned);
            var enlarged := across > 1.000001 || down > 1.000001;
            if src == win && !turned then out == Untouched
            else
              && (out == PhotoTooSmall <==> lane == Photo && (across > 1.15 || down > 1.15))
              && (out == PictureMismatch <==>
                    || (lane == Generated && (enlarged || overW > 4.0 || overH > 4.0))
                    || (lane == KeptGenerated
                        && (enlarged || overW / win.w as real > 0.15 || overH / win.h as real > 0.15)))
              && (out.Resampled? <==> out != PhotoTooSmall && out != PictureMismatch)
  {
    ScaleAndLost(src, win, across, down, overW, overH);
    ScalePositive(src, win);
    RefusalOf(src, win, lane, focus, turned, Scale(src, win), Lost(src, win));
  }

  lemma RefusalOf(src: Size, win: Size, lane: Lane, focus: Option<Rect>, turned: bool, scale: real, lost: real)
    requires Picture(src) && Picture(win) && scale == Scale(src, win) && lost == Lost(src, win)
    ensures var out := FitBackground(src, win, lane, focus, turned);
            if src == win && !turned then out == Untouched
            else if lane == Photo then if scale > 1.15 then out == PhotoTooSmall else out.Resampled?
            else if lane == Generated then
              if scale <= 1.000001 && lost <= 4.0 then out.Resampled? else out == PictureMismatch
            else if FitsKept(src, win) then out.Resampled? else out == PictureMismatch
  {
  }

  /** The overhang is not hypothetical: a 2593x1944 photograph on a 1080x1920 story, its subject
      against the right edge, is cropped to columns 1500..2594 of 2593. */
  lemma OverhangHappens()
    ensures FitBackground(Size(2593, 1944), Size(1080, 1920), Photo, Some(Rect(2000, 100, 2593, 1000)), false)
            == Resampled(Crop, Rect(1500, 0, 2594, 1944))
  {
    var src, win := Size(2593, 1944), Size(1080, 1920);
    assert Scale(src, win) == 1920.0 / 1944.0;
    assert 1080.0 / Scale(src, win) == 1093.5 && 1920.0 / Scale(src, win) == 1944.0;
    RoundUnique(1499.5, 1500);
    RoundUnique(2593.5, 2594);
    assert Start(2000, 2593, 1093.5, 2593) == 1499.5;
    assert Start(100, 1000, 1944.0, 1944) == 0.0;
  }

  // ------------------------------------------------------------------ the subject on the canvas

  function SubjectOnCanvas(subject: Rect, fit: Fit, window: Rect): Box {
    Box(window.l as real + subject.l as real * fit.scale + fit.dx,
        window.t as real + subject.t as real * fit.scale + fit.dy,
        window.l as real + subject.r as real * fit.scale + fit.dx,
        window.t as real + subject.b as real * fit.scale + fit.dy)
  }

  function Overlap(a: Box, b: Box): real {
    Area(Box(Max(a.l, b.l), Max(a.t, b.t), Min(a.r, b.r), Min(a.b, b.b)))
  }

  /** assess: the share of the subject the window does not show. */
  function SubjectCut(placed: Box, window: Rect): real
    requires Area(placed) > 0.0
  {
    Max(0.0, 1.0 - Overlap(placed, AsBox(window)) / Area(placed))
  }

  /** The cut is the share of the subject's area outside the window: none exactly when all of it is
      inside, everything exactly when none of it is. */
  lemma CutExactly(placed: Box, window: Rect, w: real, h: real, shownW: real, shownH: real)
    requires w == placed.r - placed.l > 0.0 && h == placed.b - placed.t > 0.0
    requires window.l < window.r && window.t < window.b
    requires shownW == Min(placed.r, window.r as real) - Max(placed.l, window.l as real)
    requires shownH == Min(placed.b, window.b as real) - Max(placed.t, window.t as real)
    ensures Area(placed) == w * h > 0.0
    ensures var cut := SubjectCut(placed, window);
            && (cut == 0.0 <==> Within(placed, AsBox(window))) && (cut == 1.0 <==> !Hits(placed, AsBox(window)))
            && (Hits(placed, AsBox(window)) ==> (1.0 - cut) * (w * h) == shownW * shownH)
  {
    ShareOfArea(shownW, shownH, w, h);
    AreaOf(placed, w, h);
    CutIs(placed, window, w, h, shownW, shownH);
  }

  lemma CutIs(placed: Box, window: Rect, w: real, h: real, shownW: real, shownH: real)
    requires Area(placed) == w * h > 0.0
    requires shownW == Min(placed.r, window.r as real) - Max(placed.l, window.l as real)
    requires shownH == Min(placed.b, window.b as real) - Max(placed.t, window.t as real)
    ensures SubjectCut(placed, window)
            == if shownW > 0.0 && shownH > 0.0 then Max(0.0, 1.0 - shownW * shownH / (w * h)) else 1.0
  {
    if shownW > 0.0 && shownH > 0.0 {
      OverlapIs(placed, window, shownW, shownH);
      SubjectCutIs(placed, window, shownW * shownH, w * h);
    } else {
      NoAreaIn(Box(Max(placed.l, window.l as real), Max(placed.t, window.t as real),
                   Min(placed.r, window.r as real), Min(placed.b, window.b as real)));
      SubjectCutIs(placed, window, 0.0, w * h);
    }
  }

  lemma NoAreaIn(b: Box)
    requires b.r - b.l <= 0.0 || b.b - b.t <= 0.0
    ensures Area(b) == 0.0
  {
  }

  lemma ShareOfArea(x: real, y: real, w: real, h: real)
    requires w > 0.0 && h > 0.0 && x <= w && y <= h
    ensures w * h > 0.0
    ensures x > 0.0 && y > 0.0 ==>
              0.0 < x * y <= w * h && 0.0 < x * y / (w * h) <= 1.0 && (x * y / (w * h)) * (w * h) == x * y
              && (x * y == w * h <==> x == w && y == h) && (x * y / (w * h) == 1.0 <==> x == w && y == h)
  {
    if x > 0.0 && y > 0.0 {
      assert x * y <= w * y <= w * h;
      if x < w { assert x * y < w * y; }
      if y < h { assert w * y < w * h; }
    }
  }

  /** How far along an axis a source interval lands: scaled, and from the window's edge as far as it
      is from the edge of what is shown. */
  predicate LandsAlong(w0: int, a: real, b: real, lo: int, hi: int, near: int, s: real) {
    b - a == (hi - lo) as real * s && a - w0 as real == (lo - near) as real * s
  }

  /** Scaled, and the whole picture, `full` long, in the middle. */
  predicate LandsCentred(w0: int, w1: int, a: real, b: real, lo: int, hi: int, full: int, s: real) {
    && b - a == (hi - lo) as real * s
    && (a - w0 as real) - lo as real * s == (w1 as real - b) - (full - hi) as real * s
  }

  lemma AlongAnAxis(w0: int, lo: int, hi: int, near: int, s: real, d: real)
    requires d == -(near as real) * s
    ensures LandsAlong(w0, w0 as real + lo as real * s + d, w0 as real + hi as real * s + d, lo, hi, near, s)
  {
    Differ(hi as real, lo as real, s);
    Differ(lo as real, near as real, s);
  }

  lemma CentredOnAnAxis(w0: int, w1: int, lo: int, hi: int, full: int, s: real, d: real)
    requires d + d == (w1 - w0) as real - full as real * s
    ensures LandsCentred(w0, w1, w0 as real + lo as real * s + d, w0 as real + hi as real * s + d, lo, hi, full, s)
  {
    Differ(hi as real, lo as real, s);
    Differ(full as real, hi as real, s);
  }

  lemma FitIsOneOf(src: Size, win: Size, focus: Option<Rect>) returns (s: real, cw: real, ch: real, at: (int, int))
    requires Picture(src) && Picture(win)
    ensures var fit := PictureFit(src, win, focus);
            || fit == Fit(Whole, WholeOf(src), s, 0.0, 0.0) || fit == CropFit(s, cw, ch, at)
            || fit == LetterboxFit(src, win, s)
  {
    s, cw, ch := CoverSize(src, win);
    at := (0, 0);
    if src == win {
      s := 1.0;
    } else if Lost(src, win) > 1.0 {
      assert PictureFit(src, win, focus) == CoverFit(src, win, s, cw, ch, focus);
      var corner := FocusCorner(src, cw, ch, focus);
      if corner.Some? { at := corner.value; }
      else { s := Min(win.w as real / src.w as real, win.h as real / src.h as real); }
    }
  }

  predicate Lands(window: Rect, p: Box, subject: Rect, at: (int, int), s: real) {
    && LandsAlong(window.l, p.l, p.r, subject.l, subject.r, at.0, s)
    && LandsAlong(window.t, p.t, p.b, subject.t, subject.b, at.1, s)
  }

  lemma CropLands(window: Rect, subject: Rect, s: real, cw: real, ch: real, at: (int, int))
    ensures Lands(window, SubjectOnCanvas(subject, CropFit(s, cw, ch, at), window), subject, at, s)
  {
    var fit := CropFit(s, cw, ch, at);
    AlongAnAxis(window.l, subject.l, subject.r, at.0, s, fit.dx);
    AlongAnAxis(window.t, subject.t, subject.b, at.1, s, fit.dy);
  }

  lemma WholeLands(src: Size, window: Rect, subject: Rect, s: real)
    ensures Lands(window, SubjectOnCanvas(subject, Fit(Whole, WholeOf(src), s, 0.0, 0.0), window), subject, (0, 0), s)
  {
    AlongAnAxis(window.l, subject.l, subject.r, 0, s, 0.0);
    AlongAnAxis(window.t, subject.t, subject.b, 0, s, 0.0);
  }

  lemma LetterboxLands(src: Size, window: Rect, subject: Rect, s: real)
    ensures var p := SubjectOnCanvas(subject, LetterboxFit(src, SizeOf(window), s), window);
            && LandsCentred(window.l, window.r, p.l, p.r, subject.l, subject.r, src.w, s)
            && LandsCentred(window.t, window.b, p.t, p.b, subject.t, subject.b, src.h, s)
  {
    var fit := LetterboxFit(src, SizeOf(window), s);
    LetterboxHalves(src, SizeOf(window), s);
    CentredOnAnAxis(window.l, window.r, subject.l, subject.r, src.w, s, fit.dx);
    CentredOnAnAxis(window.t, window.b, subject.t, subject.b, src.h, s, fit.dy);
  }

  /** Where a source pixel lands, for every picture, window and subject: scaled alike both ways; the
      corner of what the window shows on the window's own corner; a photograph kept whole in the middle. */
  lemma LandsWhereShown(src: Size, window: Rect, focus: Option<Rect>, subject: Rect, fit: Fit)
    requires Picture(src) && Picture(SizeOf(window)) && fit == PictureFit(src, SizeOf(window), focus)
    ensures var p := SubjectOnCanvas(subject, fit, window);
            if fit.mode == Letterbox then
              && LandsCentred(window.l, window.r, p.l, p.r, subject.l, subject.r, src.w, fit.scale)
              && LandsCentred(window.t, window.b, p.t, p.b, subject.t, subject.b, src.h, fit.scale)
            else Lands(window, p, subject, (fit.visible.l, fit.visible.t), fit.scale)
  {
    var s, cw, ch, at := FitIsOneOf(src, SizeOf(window), focus);
    if fit == CropFit(s, cw, ch, at) { CropLands(window, subject, s, cw, ch, at); }
    else if fit.mode == Letterbox { LetterboxLands(src, window, subject, s); }
    else { WholeLands(src, window, subject, s); }
  }

  lemma Differ(a: real, b: real, s: real)
    ensures (a - b) * s == a * s - b * s == a * s + (-b) * s
  {
  }

  /** The share of a side that is certain to be shown: all but three quarters of a pixel. */
  function Kept(side: int): real
    requires side > 0
  {
    1.0 - 0.75 / side as real
  }

  lemma KeptIs(side: int)
    requires side > 0
    ensures KeepsAllBut(Kept(side), side as real)
  {
    assert 0.75 / side as real * side as real == 0.75;
  }

  lemma KeptGrows(least: int, side: int)
    requires 0 < least <= side
    ensures Kept(least) <= Kept(side)
  {
  }

  /** `share` of the whole is shown. */
  predicate ShareOf(shown: real, whole: real, share: real) {
    shown >= share * whole
  }

  /** One axis of the subject, scaled by s: it starts inside the window and ends at most `lost`
      source pixels beyond it. */
  lemma AxisShown(w0: real, w1: real, lo: real, hi: real, near: real, span: real, s: real, a: real, b: real, lost: real)
    requires s > 0.0 && span * s == w1 - w0
    requires near <= lo < hi <= near + span + lost
    requires a == w0 + lo * s + (-near) * s && b == w0 + hi * s + (-near) * s
    ensures w0 <= a && b <= w1 + lost * s && b - a == (hi - lo) * s > 0.0
  {
  }

  lemma ScaledShare(side: real, share: real, s: real, lost: real, whole: real)
    requires share * side == side - lost && whole == side * s
    ensures share * whole == whole - lost * s
  {
  }

  /** `share` of a side is all of it but three quarters of a pixel. */
  predicate KeepsAllBut(share: real, side: real) {
    share * side == side - 0.75 && 0.0 <= share <= 1.0
  }

  lemma AxisKept(w0: real, w1: real, lo: real, hi: real, near: real, span: real, s: real, a: real, b: real, share: real)
    requires s > 0.0 && span * s == w1 - w0
    requires near <= lo < hi <= near + span + 0.75 && KeepsAllBut(share, hi - lo)
    requires a == w0 + lo * s + (-near) * s && b == w0 + hi * s + (-near) * s
    ensures b > a && ShareOf(Min(b, w1) - Max(a, w0), b - a, share)
  {
    var lost := 0.75;
    AxisShown(w0, w1, lo, hi, near, span, s, a, b, lost);
    ScaledShare(hi - lo, share, s, lost, b - a);
    ShownOfAxis(w0, w1, a, b, lost * s, share);
  }

  lemma ShownOfAxis(w0: real, w1: real, a: real, b: real, lost: real, share: real)
    requires w0 <= a < b <= w1 + lost && lost >= 0.0 && share * (b - a) == b - a - lost
    ensures ShareOf(Min(b, w1) - Max(a, w0), b - a, share)
  {
  }

  lemma ProductShare(a: real, b: real, x: real, y: real, p: real, q: real)
    requires x > 0.0 && y > 0.0 && 0.0 <= p <= 1.0 && 0.0 <= q <= 1.0 && a >= p * x && b >= q * y
    ensures a >= 0.0 && b >= 0.0 && a * b >= (p * q) * (x * y) && x * y > 0.0 && p * q <= 1.0
  {
    var px, qy := p * x, q * y;
    assert px >= 0.0 && qy >= 0.0;
    assert a * b >= px * b >= px * qy;
    assert px * qy == (p * q) * (x * y);
    assert (1.0 - p) * q >= 0.0;
  }

  lemma CutShare(shown: real, whole: real, share: real)
    requires whole > 0.0 && shown >= share * whole
    ensures 1.0 - shown / whole <= 1.0 - share
  {
    assert shown / whole * whole == shown;
  }

  predicate ShownAcross(placed: Box, window: Rect, share: real) {
    ShareOf(Min(placed.r, window.r as real) - Max(placed.l, window.l as real), placed.r - placed.l, share)
  }

  predicate ShownDown(placed: Box, window: Rect, share: real) {
    ShareOf(Min(placed.b, window.b as real) - Max(placed.t, window.t as real), placed.b - placed.t, share)
  }

  /** Share of the subject's area, from the share of its two sides. */
  lemma CutFromSides(placed: Box, window: Rect, p: real, q: real)
    requires placed.r > placed.l && placed.b > placed.t && 0.0 <= p <= 1.0 && 0.0 <= q <= 1.0
    requires ShownAcross(placed, window, p) && ShownDown(placed, window, q)
    ensures Area(placed) > 0.0 && SubjectCut(placed, window) <= 1.0 - p * q
  {
    var w, h := placed.r - placed.l, placed.b - placed.t;
    var shownW := Min(placed.r, window.r as real) - Max(placed.l, window.l as real);
    var shownH := Min(placed.b, window.b as real) - Max(placed.t, window.t as real);
    ProductShare(shownW, shownH, w, h, p, q);
    CutOf(placed, window, shownW, shownH, w, h, p * q);
  }

  lemma AreaOf(b: Box, w: real, h: real)
    requires w == b.r - b.l >= 0.0 && h == b.b - b.t >= 0.0
    ensures Area(b) == w * h
  {
  }

  lemma SubjectCutIs(placed: Box, window: Rect, shown: real, whole: real)
    requires Area(placed) == whole > 0.0 && Overlap(placed, AsBox(window)) == shown
    ensures SubjectCut(placed, window) == Max(0.0, 1.0 - shown / whole)
  {
  }

  lemma OverlapIs(placed: Box, window: Rect, shownW: real, shownH: real)
    requires shownW == Min(placed.r, window.r as real) - Max(placed.l, window.l as real) >= 0.0
    requires shownH == Min(placed.b, window.b as real) - Max(placed.t, window.t as real) >= 0.0
    ensures Overlap(placed, AsBox(window)) == shownW * shownH
  {
    AreaOf(Box(Max(placed.l, window.l as real), Max(placed.t, window.t as real),
               Min(placed.r, window.r as real), Min(placed.b, window.b as real)), shownW, shownH);
  }

  lemma CutOf(placed: Box, window: Rect, shownW: real, shownH: real, w: real, h: real, share: real)
    requires w == placed.r - placed.l > 0.0 && h == placed.b - placed.t > 0.0
    requires shownW == Min(placed.r, window.r as real) - Max(placed.l, window.l as real) >= 0.0
    requires shownH == Min(placed.b, window.b as real) - Max(placed.t, window.t as real) >= 0.0
    requires shownW * shownH >= share * (w * h) && w * h > 0.0 && share <= 1.0
    ensures Area(placed) > 0.0 && SubjectCut(placed, window) <= 1.0 - share
  {
    AreaOf(placed, w, h);
    OverlapIs(placed, window, shownW, shownH);
    SubjectCutIs(placed, window, shownW * shownH, w * h);
    CutShare(shownW * shownH, w * h, share);
  }

  predicate FocusIn(src: Size, f: Rect) {
    0 <= f.l <= f.r <= src.w && 0 <= f.t <= f.b <= src.h
  }

  /** The cropped window is no larger than the picture, and covers the window exactly. */
  lemma CoverSize(src: Size, win: Size) returns (s: real, cw: real, ch: real)
    requires Picture(src) && Picture(win)
    ensures s == Scale(src, win) > 0.0 && cw == win.w as real / s && ch == win.h as real / s
    ensures 0.0 < cw <= src.w as real && cw * s == win.w as real
    ensures 0.0 < ch <= src.h as real && ch * s == win.h as real
  {
    s := Scale(src, win);
    ScalePositive(src, win);
    cw, ch := win.w as real / s, win.h as real / s;
    Covers(win.w as real, src.w as real, s);
    Covers(win.h as real, src.h as real, s);
  }

  lemma Covers(w: real, iw: real, s: real)
    requires w > 0.0 && iw > 0.0 && s >= w / iw
    ensures s > 0.0 && 0.0 < w / s <= iw && (w / s) * s == w
  {
  }

  /** One axis of a crop, whatever the scale it was cut for. */
  lemma CropFitKeepsFocus(src: Size, cw: real, ch: real, f: Rect)
    requires FocusIn(src, f) && 0.0 < cw <= src.w as real && 0.0 < ch <= src.h as real
    requires FocusCorner(src, cw, ch, Some(f)).Some?
    ensures var at := FocusCorner(src, cw, ch, Some(f)).value;
            && at.0 <= f.l && f.r as real <= at.0 as real + cw + 0.75
            && at.1 <= f.t && f.b as real <= at.1 as real + ch + 0.75
  {
    CropKeepsFocus(f.l, f.r, cw, src.w);
    CropKeepsFocus(f.t, f.b, ch, src.h);
  }

  lemma FocusedAcross(scale: real, at: (int, int), window: Rect, f: Rect, cw: real, ch: real, p: real)
    requires scale > 0.0 && f.l < f.r && KeepsAllBut(p, (f.r - f.l) as real)
    requires cw * scale == (window.r - window.l) as real
    requires at.0 <= f.l && f.r as real <= at.0 as real + cw + 0.75
    ensures var placed := SubjectOnCanvas(f, CropFit(scale, cw, ch, at), window);
            placed.r > placed.l && ShownAcross(placed, window, p)
  {
    var placed := SubjectOnCanvas(f, CropFit(scale, cw, ch, at), window);
    AxisKept(window.l as real, window.r as real, f.l as real, f.r as real, at.0 as real, cw, scale,
             placed.l, placed.r, p);
  }

  lemma FocusedDown(scale: real, at: (int, int), window: Rect, f: Rect, cw: real, ch: real, q: real)
    requires scale > 0.0 && f.t < f.b && KeepsAllBut(q, (f.b - f.t) as real)
    requires ch * scale == (window.b - window.t) as real
    requires at.1 <= f.t && f.b as real <= at.1 as real + ch + 0.75
    ensures var placed := SubjectOnCanvas(f, CropFit(scale, cw, ch, at), window);
            placed.b > placed.t && ShownDown(placed, window, q)
  {
    var placed := SubjectOnCanvas(f, CropFit(scale, cw, ch, at), window);
    AxisKept(window.t as real, window.b as real, f.t as real, f.b as real, at.1 as real, ch, scale,
             placed.t, placed.b, q);
  }

  function SizeOf(window: Rect): Size {
    Size(window.r - window.l, window.b - window.t)
  }

  /** Everything the crop's placement rests on, with the divisions done. */
  ghost predicate CropFacts(src: Size, win: Size, f: Rect, fit: Fit, scale: real, cw: real, ch: real) {
    && FocusCorner(src, cw, ch, Some(f)).Some? && fit == CropFit(scale, cw, ch, FocusCorner(src, cw, ch, Some(f)).value)
    && scale > 0.0 && 0.0 < cw <= src.w as real && 0.0 < ch <= src.h as real
    && cw * scale == win.w as real && ch * scale == win.h as real
  }

  lemma CropFactsHold(src: Size, win: Size, f: Rect) returns (scale: real, cw: real, ch: real)
    requires Picture(src) && Picture(win) && PictureFit(src, win, Some(f)).mode == Crop
    ensures CropFacts(src, win, f, PictureFit(src, win, Some(f)), scale, cw, ch)
  {
    scale, cw, ch := CoverSize(src, win);
    assert PictureFit(src, win, Some(f)) == CoverFit(src, win, scale, cw, ch, Some(f));
  }

  lemma FocusedCrop(src: Size, window: Rect, f: Rect, fit: Fit, scale: real, cw: real, ch: real, p: real, q: real)
    requires CropFacts(src, SizeOf(window), f, fit, scale, cw, ch)
    requires FocusIn(src, f) && f.l < f.r && f.t < f.b
    requires KeepsAllBut(p, (f.r - f.l) as real) && KeepsAllBut(q, (f.b - f.t) as real)
    ensures var placed := SubjectOnCanvas(f, fit, window);
            Area(placed) > 0.0 && SubjectCut(placed, window) <= 1.0 - p * q
  {
    CropFitKeepsFocus(src, cw, ch, f);
    FocusedAcross(scale, FocusCorner(src, cw, ch, Some(f)).value, window, f, cw, ch, p);
    FocusedDown(scale, FocusCorner(src, cw, ch, Some(f)).value, window, f, cw, ch, q);
    CutFromSides(SubjectOnCanvas(f, fit, window), window, p, q);
  }

  /** A photograph cropped around its own subject loses at most three quarters of a pixel of each
      side: over every picture, window and subject, however small, the share the final check
      measures as cut off is at most what that leaves of the area. */
  lemma FocusedCropKeepsTheSubject(src: Size, window: Rect, subject: Rect, fit: Fit, across: real, down: real)
    requires Picture(src) && Picture(SizeOf(window)) && fit == PictureFit(src, SizeOf(window), Some(subject))
             && fit.mode == Crop
    requires FocusIn(src, subject) && subject.l < subject.r && subject.t < subject.b
    requires across == Kept(subject.r - subject.l) && down == Kept(subject.b - subject.t)
    ensures var placed := SubjectOnCanvas(subject, fit, window);
            Area(placed) > 0.0 && SubjectCut(placed, window) <= 1.0 - across * down
  {
    KeptIs(subject.r - subject.l);
    KeptIs(subject.b - subject.t);
    var scale, cw, ch := CropFactsHold(src, SizeOf(window), subject);
    FocusedCrop(src, window, subject, fit, scale, cw, ch, across, down);
  }

  lemma KeptOfNineteen(p: real, q: real)
    requires p >= 0.96 && q >= 0.96
    ensures p * q >= 0.92
  {
    assert (p - 0.96) * q >= 0.0;
  }

  /** So a subject of 19 pixels a side or more is never refused for being cut by its own crop,
      rounding included. */
  lemma FocusedCropIsNeverACut(src: Size, window: Rect, subject: Rect)
    requires Picture(src) && Picture(SizeOf(window))
    requires FocusIn(src, subject) && subject.r - subject.l >= 19 && subject.b - subject.t >= 19
    ensures var fit := PictureFit(src, SizeOf(window), Some(subject));
            var placed := SubjectOnCanvas(subject, fit, window);
            fit.mode == Crop ==> Area(placed) > 0.0 && SubjectCut(placed, window) <= SUBJECT_CUT_MAX
  {
    var fit := PictureFit(src, SizeOf(window), Some(subject));
    if fit.mode == Crop {
      var p, q := Kept(subject.r - subject.l), Kept(subject.b - subject.t);
      FocusedCropKeepsTheSubject(src, window, subject, fit, p, q);
      KeptGrows(19, subject.r - subject.l);
      KeptGrows(19, subject.b - subject.t);
      assert Kept(19) >= 0.96;
      KeptOfNineteen(p, q);
    }
  }

  /** One axis of a picture shown whole: it lands inside the window it is centred in. */
  lemma AxisContained(w0: real, w: real, iw: real, across: real, f: real, lo: real, hi: real, half: real, a: real,
                      b: real)
    requires across * iw == w && 0.0 < f <= across && 0.0 <= lo < hi <= iw && half + half == w - iw * f
    requires a == w0 + lo * f + half && b == w0 + hi * f + half
    ensures w0 <= a < b <= w0 + w
  {
  }

  /** And a letterboxed photograph is shown whole, so nothing of its subject is cut at all. */
  lemma LetterboxCutsNothing(src: Size, window: Rect, subject: Rect, fit: Fit)
    requires Picture(src) && Picture(SizeOf(window)) && FocusIn(src, subject)
    requires fit == PictureFit(src, SizeOf(window), Some(subject)) && fit.mode == Letterbox
    requires subject.l < subject.r && subject.t < subject.b
    ensures var placed := SubjectOnCanvas(subject, fit, window);
            Area(placed) > 0.0 && SubjectCut(placed, window) == 0.0
  {
    var across, down := LetterboxFactsHold(src, SizeOf(window), subject, fit);
    LetterboxInside(src, window, subject, fit, across, down);
    WholeInside(SubjectOnCanvas(subject, fit, window), window);
  }

  lemma LetterboxFactsHold(src: Size, win: Size, f: Rect, fit: Fit) returns (across: real, down: real)
    requires Picture(src) && Picture(win) && fit == PictureFit(src, win, Some(f)) && fit.mode == Letterbox
    ensures 0.0 < fit.scale <= across && fit.scale <= down
    ensures across * src.w as real == win.w as real && down * src.h as real == win.h as real
    ensures fit.dx + fit.dx == win.w as real - src.w as real * fit.scale
    ensures fit.dy + fit.dy == win.h as real - src.h as real * fit.scale
  {
    across, down := win.w as real / src.w as real, win.h as real / src.h as real;
    Quotient(win.w as real, src.w as real);
    Quotient(win.h as real, src.h as real);
    LetterboxHalves(src, win, Min(across, down));
  }

  lemma Quotient(w: real, iw: real)
    requires w > 0.0 && iw > 0.0
    ensures w / iw > 0.0 && w / iw * iw == w
  {
  }

  lemma LetterboxHalves(src: Size, win: Size, scale: real)
    ensures var fit := LetterboxFit(src, win, scale);
            && fit.dx + fit.dx == win.w as real - src.w as real * scale
            && fit.dy + fit.dy == win.h as real - src.h as real * scale
  {
  }

  lemma LetterboxInside(src: Size, window: Rect, f: Rect, fit: Fit, across: real, down: real)
    requires Picture(src) && Picture(SizeOf(window)) && FocusIn(src, f) && f.l < f.r && f.t < f.b
    requires 0.0 < fit.scale <= across && fit.scale <= down
    requires across * src.w as real == SizeOf(window).w as real && down * src.h as real == SizeOf(window).h as real
    requires fit.dx + fit.dx == SizeOf(window).w as real - src.w as real * fit.scale
    requires fit.dy + fit.dy == SizeOf(window).h as real - src.h as real * fit.scale
    ensures var placed := SubjectOnCanvas(f, fit, window);
            && window.l as real <= placed.l < placed.r <= window.r as real
            && window.t as real <= placed.t < placed.b <= window.b as real
  {
    var placed := SubjectOnCanvas(f, fit, window);
    AxisContained(window.l as real, SizeOf(window).w as real, src.w as real, across, fit.scale,
                  f.l as real, f.r as real, fit.dx, placed.l, placed.r);
    AxisContained(window.t as real, SizeOf(window).h as real, src.h as real, down, fit.scale,
                  f.t as real, f.b as real, fit.dy, placed.t, placed.b);
  }

  lemma WholeInside(placed: Box, window: Rect)
    requires window.l as real <= placed.l < placed.r <= window.r as real
    requires window.t as real <= placed.t < placed.b <= window.b as real
    ensures Area(placed) > 0.0 && SubjectCut(placed, window) == 0.0
  {
  }
}
