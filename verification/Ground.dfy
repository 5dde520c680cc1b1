/** How bright and how dark the ground under a line of type gets, read in windows
    (app/creative/legibility.py `_windows`, `windows_for`, `ground`). The sweep goes through an
    integral image; what it answers is the plain mean of every window. */
module Ground {
  import opened Numeric
  import opened Legibility

  const GROUND_CELL_EM := 0.3
  const GROUND_STRIP_EM := 0.15
  const GROUND_WINDOW_MIN := 3

  /** Luminances by row and column; a line's box always holds a pixel. */
  datatype Table = Table(rows: nat, cols: nat, at: (nat, nat) -> real)
  type Plane = t: Table | t.rows > 0 && t.cols > 0 witness Table(1, 1, (y: nat, x: nat) => 0.0)

  // ------------------------------------------------------------------ the integral image

  /** np.pad, mode edge: at least height by width, filled out with the last row and column. */
  function PadEdge(p: Plane, height: nat, width: nat): Plane
  {
    Table(p.rows + MaxInt(0, height - p.rows), p.cols + MaxInt(0, width - p.cols),
          (y: nat, x: nat) => p.at(if y < p.rows then y else p.rows - 1, if x < p.cols then x else p.cols - 1))
  }

  /** np.pad with a row and a column of zeros in front. */
  function PadZero(p: Plane): Plane {
    Table(p.rows + 1, p.cols + 1, (y: nat, x: nat) => if y == 0 || x == 0 then 0.0 else p.at(y - 1, x - 1))
  }

  function Down(f: (nat, nat) -> real, y: nat, x: nat): real {
    if y == 0 then f(0, x) else Down(f, y - 1, x) + f(y, x)
  }

  function Across(f: (nat, nat) -> real, y: nat, x: nat): real {
    if x == 0 then f(y, 0) else Across(f, y, x - 1) + f(y, x)
  }

  /** cumsum down the columns. */
  function CumDown(p: Plane): Plane {
    Table(p.rows, p.cols, (y: nat, x: nat) => Down(p.at, y, x))
  }

  /** cumsum along the rows. */
  function CumAcross(p: Plane): Plane {
    Table(p.rows, p.cols, (y: nat, x: nat) => Across(p.at, y, x))
  }

  function Integral(p: Plane): Plane {
    CumAcross(CumDown(PadZero(p)))
  }

  /** A sum over so many pixels, per pixel. */
  function Share(sum: real, pixels: nat): real
    requires pixels > 0
  {
    sum / pixels as real
  }

  function Corners(integral: Plane, y: nat, x: nat, height: nat, width: nat): real {
    integral.at(y + height, x + width) - integral.at(y, x + width) - integral.at(y + height, x) + integral.at(y, x)
  }

  /** _windows: the answer at every position. */
  function Windows(plane: Plane, height: nat, width: nat): Plane
    requires height > 0 && width > 0
  {
    var p := PadEdge(plane, height, width);
    var integral := Integral(p);
    Table(p.rows - height + 1, p.cols - width + 1,
          (y: nat, x: nat) => Share(Corners(integral, y, x, height, width), height * width))
  }

  // ------------------------------------------------------------------ the plain mean

  /** `width` pixels of row y, from x on. */
  function RowSum(p: Plane, y: nat, x: nat, width: nat): real {
    if width == 0 then 0.0 else RowSum(p, y, x, width - 1) + p.at(y, x + width - 1)
  }

  function BlockSum(p: Plane, y: nat, x: nat, height: nat, width: nat): real
    decreases height
  {
    if height == 0 then 0.0 else BlockSum(p, y, x, height - 1, width) + RowSum(p, y + height - 1, x, width)
  }

  function Mean(p: Plane, y: nat, x: nat, height: nat, width: nat): real
    requires height > 0 && width > 0
  {
    Share(BlockSum(p, y, x, height, width), height * width)
  }

  lemma {:induction false} DownIsColumn(p: Plane, y: nat, x: nat)
    ensures Down(PadZero(p).at, y, x) == if x == 0 then 0.0 else BlockSum(p, 0, x - 1, y, 1)
  {
    if y > 0 {
      DownIsColumn(p, y - 1, x);
      if x > 0 { assert RowSum(p, y - 1, x - 1, 1) == RowSum(p, y - 1, x - 1, 0) + p.at(y - 1, x - 1); }
    }
  }

  /** A block and the column to its right. */
  lemma {:induction false} WidenBlock(p: Plane, y: nat, x: nat, height: nat, width: nat)
    ensures BlockSum(p, y, x, height, width + 1)
            == BlockSum(p, y, x, height, width) + BlockSum(p, y, x + width, height, 1)
    decreases height
  {
    if height > 0 {
      WidenBlock(p, y, x, height - 1, width);
      assert RowSum(p, y + height - 1, x + width, 1)
             == RowSum(p, y + height - 1, x + width, 0) + p.at(y + height - 1, x + width);
    }
  }

  lemma {:induction false} NoWidth(p: Plane, y: nat, x: nat, height: nat)
    ensures BlockSum(p, y, x, height, 0) == 0.0
    decreases height
  {
    if height > 0 { NoWidth(p, y, x, height - 1); }
  }

  /** The integral image at (y, x) is everything above and to the left. */
  lemma {:induction false} IntegralIsBlock(p: Plane, y: nat, x: nat)
    ensures Integral(p).at(y, x) == BlockSum(p, 0, 0, y, x)
    decreases x
  {
    DownIsColumn(p, y, x);
    if x == 0 {
      NoWidth(p, 0, 0, y);
    } else {
      IntegralIsBlock(p, y, x - 1);
      WidenBlock(p, 0, 0, y, x - 1);
    }
  }

  lemma {:induction false} RowFrom(p: Plane, y: nat, x: nat, width: nat)
    ensures RowSum(p, y, 0, x + width) == RowSum(p, y, 0, x) + RowSum(p, y, x, width)
    decreases width
  {
    if width > 0 { RowFrom(p, y, x, width - 1); }
  }

  /** Inclusion and exclusion: a block from the four corners. */
  lemma {:induction false} FourCorners(p: Plane, y: nat, x: nat, height: nat, width: nat)
    ensures BlockSum(p, y, x, height, width)
         == BlockSum(p, 0, 0, y + height, x + width) - BlockSum(p, 0, 0, y, x + width)
          - BlockSum(p, 0, 0, y + height, x) + BlockSum(p, 0, 0, y, x)
    decreases height
  {
    if height > 0 {
      FourCorners(p, y, x, height - 1, width);
      RowFrom(p, y + height - 1, x, width);
    }
  }

  lemma CornersAreBlock(p: Plane, y: nat, x: nat, height: nat, width: nat)
    ensures Corners(Integral(p), y, x, height, width) == BlockSum(p, y, x, height, width)
  {
    IntegralIsBlock(p, y + height, x + width);
    IntegralIsBlock(p, y, x + width);
    IntegralIsBlock(p, y + height, x);
    IntegralIsBlock(p, y, x);
    FourCorners(p, y, x, height, width);
  }

  /** The plane's pixel nearest to a position past its foot or its right. */
  function Nearest(plane: Plane, r: nat, c: nat): real {
    plane.at(MinInt(r, plane.rows - 1), MinInt(c, plane.cols - 1))
  }

  /** The plane filled out to at least a window, every pixel beyond it the nearest one of its edge. */
  ghost predicate FilledOut(plane: Plane, p: Plane, height: nat, width: nat) {
    && p.rows == MaxInt(plane.rows, height) && p.cols == MaxInt(plane.cols, width)
    && forall r: nat, c: nat :: p.at(r, c) == Nearest(plane, r, c)
  }

  /** The sweep through the integral image answers, at every position a window of the filled-out plane
      can take and at no other, the mean of that window -- whatever the plane, the window and the
      position. */
  lemma WindowsAreMeans(plane: Plane, height: nat, width: nat, y: nat, x: nat)
    requires height > 0 && width > 0
    ensures FilledOut(plane, PadEdge(plane, height, width), height, width)
    ensures var w := Windows(plane, height, width);
            && w.rows == MaxInt(plane.rows, height) - height + 1 && w.cols == MaxInt(plane.cols, width) - width + 1
            && w.at(y, x) == Mean(PadEdge(plane, height, width), y, x, height, width)
  {
    CornersAreBlock(PadEdge(plane, height, width), y, x, height, width);
  }

  // ------------------------------------------------------------------ the extremes

  predicate On(p: Plane, y: int, x: int) {
    0 <= y < p.rows && 0 <= x < p.cols
  }

  /** The largest and the smallest of a window's means. */
  ghost predicate Spans(w: Plane, hi: real, lo: real) {
    && (forall y, x :: On(w, y, x) ==> lo <= w.at(y, x) <= hi)
    && (exists y, x :: On(w, y, x) && w.at(y, x) == hi)
    && (exists y, x :: On(w, y, x) && w.at(y, x) == lo)
  }

  /** means.max() and means.min(). */
  method Extremes(means: Plane) returns (hi: real, lo: real)
    ensures Spans(means, hi, lo)
  {
    hi, lo := means.at(0, 0), means.at(0, 0);
    assert On(means, 0, 0);
    for r := 0 to means.rows
      invariant forall y, x :: On(means, y, x) && y < r ==> lo <= means.at(y, x) <= hi
      invariant exists y, x :: On(means, y, x) && means.at(y, x) == hi
      invariant exists y, x :: On(means, y, x) && means.at(y, x) == lo
    {
      for c := 0 to means.cols
        invariant forall y, x :: On(means, y, x) && (y < r || (y == r && x < c)) ==> lo <= means.at(y, x) <= hi
        invariant exists y, x :: On(means, y, x) && means.at(y, x) == hi
        invariant exists y, x :: On(means, y, x) && means.at(y, x) == lo
      {
        assert On(means, r, c);
        hi, lo := Max(hi, means.at(r, c)), Min(lo, means.at(r, c));
      }
    }
  }

  /** Some reading means this somewhere. */
  ghost predicate IsReading(readings: seq<Plane>, v: real) {
    exists i, y, x :: 0 <= i < |readings| && On(readings[i], y, x) && readings[i].at(y, x) == v
  }

  /** Nothing read is brighter or darker than the two ends, and each end is read somewhere, or is
      where the sweep starts. */
  ghost predicate Spanned(readings: seq<Plane>, s: Stats) {
    && (forall i, y, x :: 0 <= i < |readings| && On(readings[i], y, x) ==> s.dark <= readings[i].at(y, x) <= s.bright)
    && (s.bright == 0.0 || IsReading(readings, s.bright)) && (s.dark == 1.0 || IsReading(readings, s.dark))
  }

  lemma IsReadingOfMore(readings: seq<Plane>, w: Plane, v: real)
    requires IsReading(readings, v)
    ensures IsReading(readings + [w], v)
  {
    var i, y, x :| 0 <= i < |readings| && On(readings[i], y, x) && readings[i].at(y, x) == v;
    assert (readings + [w])[i] == readings[i];
  }

  lemma IsReadingOfLast(readings: seq<Plane>, w: Plane, y: int, x: int)
    requires On(w, y, x)
    ensures IsReading(readings + [w], w.at(y, x))
  {
    assert (readings + [w])[|readings|] == w;
  }

  lemma SpansOneMore(readings: seq<Plane>, s: Stats, w: Plane, hi: real, lo: real)
    requires Spanned(readings, s) && Spans(w, hi, lo)
    ensures Spanned(readings + [w], Stats(Max(s.bright, hi), Min(s.dark, lo)))
  {
    var y, x :| On(w, y, x) && w.at(y, x) == hi;
    var y', x' :| On(w, y', x') && w.at(y', x') == lo;
    IsReadingOfLast(readings, w, y, x);
    IsReadingOfLast(readings, w, y', x');
    if IsReading(readings, s.bright) { IsReadingOfMore(readings, w, s.bright); }
    if IsReading(readings, s.dark) { IsReadingOfMore(readings, w, s.dark); }
  }

  /** Everything `read` makes of some lines. */
  function Gathered(lines: seq<Plane>, read: Plane -> seq<Plane>): seq<Plane> {
    if lines == [] then [] else Gathered(lines[..|lines| - 1], read) + read(lines[|lines| - 1])
  }

  lemma {:induction false} GatheredAt(lines: seq<Plane>, read: Plane -> seq<Plane>, i: nat, k: nat) returns (n: nat)
    requires i < |lines| && k < |read(lines[i])|
    ensures n < |Gathered(lines, read)| && Gathered(lines, read)[n] == read(lines[i])[k]
    decreases |lines|
  {
    var front := lines[..|lines| - 1];
    if i == |front| { n := |Gathered(front, read)| + k; } else { n := GatheredAt(front, read, i, k); }
  }

  lemma {:induction false} GatheredFrom(lines: seq<Plane>, read: Plane -> seq<Plane>, n: nat) returns (i: nat, k: nat)
    requires n < |Gathered(lines, read)|
    ensures i < |lines| && k < |read(lines[i])| && Gathered(lines, read)[n] == read(lines[i])[k]
    decreases |lines|
  {
    var front := lines[..|lines| - 1];
    if n >= |Gathered(front, read)| { i, k := |front|, n - |Gathered(front, read)|; }
    else { i, k := GatheredFrom(front, read, n); }
  }

  lemma GatheredOneMore(lines: seq<Plane>, read: Plane -> seq<Plane>, n: nat)
    requires n < |lines|
    ensures Gathered(lines[..n + 1], read) == Gathered(lines[..n], read) + read(lines[n])
  {
    assert lines[..n + 1][..n] == lines[..n];
  }

  /** The loops of `ground`: over every line, and every reading of it. */
  method Sweep(lines: seq<Plane>, read: Plane -> seq<Plane>) returns (s: Stats)
    ensures Spanned(Gathered(lines, read), s)
  {
    var bright, dark := 0.0, 1.0;
    for n := 0 to |lines|
      invariant Spanned(Gathered(lines[..n], read), Stats(bright, dark))
    {
      ghost var before := Gathered(lines[..n], read);
      var means := read(lines[n]);
      assert before + means[..0] == before;
      for k := 0 to |means|
        invariant Spanned(before + means[..k], Stats(bright, dark))
      {
        var hi, lo := Extremes(means[k]);
        SpansOneMore(before + means[..k], Stats(bright, dark), means[k], hi, lo);
        assert before + means[..k] + [means[k]] == before + means[..k + 1];
        bright, dark := Max(bright, hi), Min(dark, lo);
      }
      assert means[..|means|] == means;
      GatheredOneMore(lines, read, n);
    }
    assert lines[..|lines|] == lines;
    s := Stats(bright, dark);
  }

  /** windows_for: the cell and the strip, in pixels, for type `em` pixels tall. */
  function WindowsFor(em: real): (nat, nat) {
    (MaxInt(GROUND_WINDOW_MIN, Round(em * GROUND_CELL_EM)), MaxInt(GROUND_WINDOW_MIN, Round(em * GROUND_STRIP_EM)))
  }

  datatype Shape = Cell | Strip | Column

  /** The three shapes a line is read in: cells, strips along it, columns across it. */
  function SizeOf(shape: Shape, p: Plane, em: real): (s: (nat, nat))
    ensures s.0 > 0 && s.1 > 0
  {
    var (cell, strip) := WindowsFor(em);
    match shape
    case Cell => (cell, cell)
    case Strip => (strip, p.cols)
    case Column => (p.rows, strip)
  }

  function Read(shape: Shape, p: Plane, em: real): Plane {
    var (height, width) := SizeOf(shape, p, em);
    Windows(p, height, width)
  }

  function Readings(em: real): Plane -> seq<Plane> {
    (line: Plane) => [Read(Cell, line, em), Read(Strip, line, em), Read(Column, line, em)]
  }

  /** ground: over every line, every shape, every position. */
  method GroundOf(lines: seq<Plane>, em: real) returns (s: Stats)
    ensures Spanned(Gathered(lines, Readings(em)), s)
  {
    s := Sweep(lines, Readings(em));
  }

  // ------------------------------------------------------------------ what it means

  lemma {:induction false} RowBetween(p: Plane, y: nat, x: nat, width: nat, lo: real, hi: real)
    requires forall c :: x <= c < x + width ==> lo <= p.at(y, c) <= hi
    ensures Times(width, lo) <= RowSum(p, y, x, width) <= Times(width, hi)
  {
    if width > 0 { RowBetween(p, y, x, width - 1, lo, hi); }
  }

  lemma {:induction false} RowsBetween(p: Plane, y: nat, x: nat, height: nat, width: nat, lo: real, hi: real)
    requires forall r :: y <= r < y + height ==> lo <= RowSum(p, r, x, width) <= hi
    ensures Times(height, lo) <= BlockSum(p, y, x, height, width) <= Times(height, hi)
    decreases height
  {
    if height > 0 { RowsBetween(p, y, x, height - 1, width, lo, hi); }
  }

  lemma Area(height: nat, width: nat, pixels: nat, v: real)
    requires pixels == height * width
    ensures Times(height, Times(width, v)) == v * pixels as real
  {
    TimesIsProduct(width, v);
    TimesIsProduct(height, width as real * v);
    AsReals(height, width);
  }

  lemma AsReals(height: nat, width: nat)
    ensures (height * width) as real == height as real * width as real
  {
  }

  ghost predicate Between(p: Plane, y: nat, x: nat, height: nat, width: nat, lo: real, hi: real) {
    forall r, c :: y <= r < y + height && x <= c < x + width ==> lo <= p.at(r, c) <= hi
  }

  lemma BlockBetween(p: Plane, y: nat, x: nat, height: nat, width: nat, lo: real, hi: real)
    requires Between(p, y, x, height, width, lo, hi)
    ensures Times(height, Times(width, lo)) <= BlockSum(p, y, x, height, width) <= Times(height, Times(width, hi))
  {
    forall r | y <= r < y + height ensures Times(width, lo) <= RowSum(p, r, x, width) <= Times(width, hi) {
      RowBetween(p, r, x, width, lo, hi);
    }
    RowsBetween(p, y, x, height, width, Times(width, lo), Times(width, hi));
  }

  /** A mean lies between what every pixel of its window lies between. */
  lemma MeanBetween(p: Plane, y: nat, x: nat, height: nat, width: nat, lo: real, hi: real)
    requires height > 0 && width > 0 && Between(p, y, x, height, width, lo, hi)
    ensures lo <= Mean(p, y, x, height, width) <= hi
  {
    BlockBetween(p, y, x, height, width, lo, hi);
    var pixels := height * width;
    Area(height, width, pixels, lo);
    Area(height, width, pixels, hi);
    ShareBetween(BlockSum(p, y, x, height, width), pixels, lo, hi);
  }

  lemma ShareBetween(sum: real, pixels: nat, lo: real, hi: real)
    requires pixels > 0 && lo * pixels as real <= sum <= hi * pixels as real
    ensures lo <= Share(sum, pixels) <= hi
  {
  }

  /** No feature as large as a window goes unseen. Wherever it falls, a patch that fills a cell, a
      band a strip thick across the whole line, or a column a strip wide down it, with every pixel
      between `lo` and `hi`, keeps the bright end at `lo` or above and the dark end at `hi` or
      below. (A line smaller than the window is filled out with its own edge.) */
  lemma FeatureIsSeen(lines: seq<Plane>, read: Plane -> seq<Plane>, s: Stats, i: nat, k: nat,
                      height: nat, width: nat, y: nat, x: nat, lo: real, hi: real)
    requires Spanned(Gathered(lines, read), s) && i < |lines| && k < |read(lines[i])| && height > 0 && width > 0
    requires var w := read(lines[i])[k]; w == Windows(lines[i], height, width) && On(w, y, x)
    requires Between(PadEdge(lines[i], height, width), y, x, height, width, lo, hi)
    ensures s.bright >= lo && s.dark <= hi
  {
    WindowBetween(lines[i], height, width, y, x, lo, hi);
    ReadIsSpanned(lines, read, s, i, k, y, x);
  }

  /** The windows type `em` pixels tall is read in: cells of three tenths of it, strips of fifteen
      hundredths along the whole line and down the whole of it, none under three pixels. */
  predicate IsWindowFor(em: real, line: Plane, height: nat, width: nat) {
    var cell, strip := MaxInt(3, Round(0.3 * em)), MaxInt(3, Round(0.15 * em));
    (height == cell && width == cell) || (height == strip && width == line.cols)
    || (height == line.rows && width == strip)
  }

  lemma ReadInEachWindow(em: real, line: Plane, height: nat, width: nat) returns (k: nat)
    requires IsWindowFor(em, line, height, width)
    ensures height > 0 && width > 0 && k < |Readings(em)(line)|
    ensures Readings(em)(line)[k] == Windows(line, height, width)
  {
    var (cell, strip) := WindowsFor(em);
    k := if (height, width) == SizeOf(Cell, line, em) then 0
         else if (height, width) == SizeOf(Strip, line, em) then 1 else 2;
  }

  lemma FilledBetween(line: Plane, height: nat, width: nat, y: nat, x: nat, lo: real, hi: real)
    requires forall r: nat, c: nat :: y <= r < y + height && x <= c < x + width ==> lo <= Nearest(line, r, c) <= hi
    requires FilledOut(line, PadEdge(line, height, width), height, width)
    ensures Between(PadEdge(line, height, width), y, x, height, width, lo, hi)
  {
    var p := PadEdge(line, height, width);
    forall r, c | y <= r < y + height && x <= c < x + width ensures lo <= p.at(r, c) <= hi {
      assert p.at(r, c) == Nearest(line, r, c);
    }
  }

  /** `read` reads every line in every window for type of this size. */
  ghost predicate ReadsInAll(read: Plane -> seq<Plane>, em: real) {
    forall line: Plane, height: nat, width: nat :: IsWindowFor(em, line, height, width) ==>
      height > 0 && width > 0 && Windows(line, height, width) in read(line)
  }

  lemma ReadingsAreInAll(em: real)
    ensures ReadsInAll(Readings(em), em)
  {
    forall line: Plane, height: nat, width: nat | IsWindowFor(em, line, height, width)
      ensures height > 0 && width > 0 && Windows(line, height, width) in Readings(em)(line)
    {
      var k := ReadInEachWindow(em, line, height, width);
    }
  }

  lemma SpannedThere(lines: seq<Plane>, read: Plane -> seq<Plane>, s: Stats, i: nat, w: Plane, y: nat, x: nat)
    requires Spanned(Gathered(lines, read), s) && i < |lines| && w in read(lines[i]) && On(w, y, x)
    ensures s.dark <= w.at(y, x) <= s.bright
  {
    var k :| 0 <= k < |read(lines[i])| && read(lines[i])[k] == w;
    ReadIsSpanned(lines, read, s, i, k, y, x);
  }

  /** So whatever the type's size, a feature of any of the three shapes, wherever in a line it lies,
      is seen by `ground` for what it is. */
  lemma GroundSeesIt(lines: seq<Plane>, read: Plane -> seq<Plane>, em: real, s: Stats, i: nat, height: nat,
                     width: nat, y: nat, x: nat, lo: real, hi: real)
    requires ReadsInAll(read, em)  // ReadingsAreInAll
    requires Spanned(Gathered(lines, read), s) && i < |lines| && IsWindowFor(em, lines[i], height, width)
    requires y + height <= MaxInt(lines[i].rows, height) && x + width <= MaxInt(lines[i].cols, width)
    requires forall r: nat, c: nat :: y <= r < y + height && x <= c < x + width ==> lo <= Nearest(lines[i], r, c) <= hi
    ensures s.bright >= lo && s.dark <= hi
  {
    WindowsAreMeans(lines[i], height, width, y, x);
    FilledBetween(lines[i], height, width, y, x, lo, hi);
    WindowBetween(lines[i], height, width, y, x, lo, hi);
    SpannedThere(lines, read, s, i, Windows(lines[i], height, width), y, x);
  }

  lemma WindowBetween(line: Plane, height: nat, width: nat, y: nat, x: nat, lo: real, hi: real)
    requires height > 0 && width > 0 && Between(PadEdge(line, height, width), y, x, height, width, lo, hi)
    ensures lo <= Windows(line, height, width).at(y, x) <= hi
  {
    WindowsAreMeans(line, height, width, y, x);
    MeanBetween(PadEdge(line, height, width), y, x, height, width, lo, hi);
  }

  lemma ReadIsSpanned(lines: seq<Plane>, read: Plane -> seq<Plane>, s: Stats, i: nat, k: nat, y: nat, x: nat)
    requires Spanned(Gathered(lines, read), s) && i < |lines| && k < |read(lines[i])| && On(read(lines[i])[k], y, x)
    ensures s.dark <= read(lines[i])[k].at(y, x) <= s.bright
  {
    var n := GatheredAt(lines, read, i, k);
  }

  /** Luminances are between 0 and 1. */
  ghost predicate Luminous(p: Plane) {
    forall y: nat, x: nat :: Unit(p.at(y, x))
  }

  lemma ReadIsLuminance(line: Plane, em: real, shape: Shape, y: nat, x: nat)
    requires Luminous(line)
    ensures Unit(Read(shape, line, em).at(y, x))
  {
    var (height, width) := SizeOf(shape, line, em);
    var p := PadEdge(line, height, width);
    forall r, c | y <= r < y + height && x <= c < x + width ensures 0.0 <= p.at(r, c) <= 1.0 {
      assert Unit(line.at(if r < line.rows then r else line.rows - 1, if c < line.cols then c else line.cols - 1));
    }
    WindowBetween(line, height, width, y, x, 0.0, 1.0);
  }

  ghost predicate UnitPlane(p: Plane) {
    forall y, x :: On(p, y, x) ==> Unit(p.at(y, x))
  }

  ghost predicate AllUnit(readings: seq<Plane>) {
    forall n :: 0 <= n < |readings| ==> UnitPlane(readings[n])
  }

  lemma UnitReadings(lines: seq<Plane>, read: Plane -> seq<Plane>, s: Stats)
    requires lines != [] && read(lines[0]) != [] && Spanned(Gathered(lines, read), s)
    requires forall i :: 0 <= i < |lines| ==> AllUnit(read(lines[i]))
    ensures var readings := Gathered(lines, read);
            Measured(s) && s.dark <= s.bright && IsReading(readings, s.bright) && IsReading(readings, s.dark)
  {
    var readings := Gathered(lines, read);
    forall n | 0 <= n < |readings| ensures UnitPlane(readings[n]) {
      var i, k := GatheredFrom(lines, read, n);
      assert AllUnit(read(lines[i]));
    }
    var n := GatheredAt(lines, read, 0, 0);
    assert On(readings[n], 0, 0);
    assert IsReading(readings, readings[n].at(0, 0)) && Unit(readings[n].at(0, 0));
  }

  /** On lines of real luminances the ends are themselves luminances, in order, and each is the
      mean of some window: where the sweep starts never shows. */
  lemma EndsAreReadings(lines: seq<Plane>, em: real, s: Stats)
    requires lines != [] && forall i :: 0 <= i < |lines| ==> Luminous(lines[i])
    requires Spanned(Gathered(lines, Readings(em)), s)
    ensures var readings := Gathered(lines, Readings(em));
            Measured(s) && s.dark <= s.bright && IsReading(readings, s.bright) && IsReading(readings, s.dark)
  {
    forall i | 0 <= i < |lines| ensures AllUnit(Readings(em)(lines[i])) {
      ReadingsAreUnit(lines[i], em);
    }
    UnitReadings(lines, Readings(em), s);
  }

  lemma ReadIsUnit(line: Plane, em: real, shape: Shape)
    requires Luminous(line)
    ensures UnitPlane(Read(shape, line, em))
  {
    forall y, x | On(Read(shape, line, em), y, x) ensures Unit(Read(shape, line, em).at(y, x)) {
      ReadIsLuminance(line, em, shape, y, x);
    }
  }

  lemma ThreeAreUnit(a: Plane, b: Plane, c: Plane)
    requires UnitPlane(a) && UnitPlane(b) && UnitPlane(c)
    ensures AllUnit([a, b, c])
  {
  }

  lemma ReadingsAreUnit(line: Plane, em: real)
    requires Luminous(line)
    ensures AllUnit(Readings(em)(line))
  {
    ReadIsUnit(line, em, Cell);
    ReadIsUnit(line, em, Strip);
    ReadIsUnit(line, em, Column);
    ThreeAreUnit(Read(Cell, line, em), Read(Strip, line, em), Read(Column, line, em));
  }
}
