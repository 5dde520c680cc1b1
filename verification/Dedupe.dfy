/** The perceptual fingerprint and the duplicate report (app/creative/dedupe.py). The picture
    arrives as its 9x8 greyscale thumbnail, one byte a pixel, row-major. */
module Dedupe {
  import opened Numeric
  import opened Options

  // The grid is 9 columns by 8 rows: 8 comparisons a row, 64 in all.
  const DUPLICATE_DISTANCE := 10

  datatype Duplicate = Duplicate(position: int, matches: int, distance: nat)

  // ------------------------------------------------------------------ the hash

  predicate Thumbnail(px: seq<int>) {
    |px| == 72 && forall i :: 0 <= i < |px| ==> 0 <= px[i] < 256
  }

  /** Does the picture get brighter to the right at this cell of the grid? */
  predicate Brighter(px: seq<int>, row: nat, col: nat)
    requires |px| == 72 && row < 8 && col < 8
  {
    px[9 * row + col] < px[9 * row + col + 1]
  }

  /** The first n comparisons, row by row, in the order they are shifted in. */
  function Compared(px: seq<int>, n: nat): (bits: seq<bool>)
    requires |px| == 72 && n <= 64
    ensures |bits| == n
    ensures forall k :: 0 <= k < n ==> bits[k] == Brighter(px, k / 8, k % 8)
  {
    if n == 0 then [] else Compared(px, n - 1) + [Brighter(px, (n - 1) / 8, (n - 1) % 8)]
  }

  function Bit(b: bool): nat {
    if b then 1 else 0
  }

  /** The bits as a number, the first one the most significant. */
  function Pack(bits: seq<bool>): nat {
    if bits == [] then 0 else 2 * Pack(bits[..|bits| - 1]) + Bit(bits[|bits| - 1])
  }

  /** The hash after n comparisons. */
  function Hash(px: seq<int>, n: nat): nat
    requires |px| == 72 && n <= 64
  {
    if n == 0 then 0 else 2 * Hash(px, n - 1) + Bit(Brighter(px, (n - 1) / 8, (n - 1) % 8))
  }

  lemma HashIsPacked(px: seq<int>, n: nat)
    requires |px| == 72 && n <= 64
    ensures Hash(px, n) == Pack(Compared(px, n))
  {
  }

  lemma HashStep(px: seq<int>, n: nat, row: nat, col: nat)
    requires |px| == 72 && n < 64 && n / 8 == row && n % 8 == col
    ensures Hash(px, n + 1) == 2 * Hash(px, n) + Bit(Brighter(px, row, col))
  {
  }

  lemma HashNext(px: seq<int>, row: nat, col: nat)
    requires |px| == 72 && row < 8 && col < 8
    ensures Hash(px, 8 * row + col + 1) == 2 * Hash(px, 8 * row + col) + Bit(Brighter(px, row, col))
  {
    DivUnique(8 * row + col, row, col, 8);
    HashStep(px, 8 * row + col, row, col);
  }

  method DHash(px: seq<int>) returns (bits: nat)
    requires Thumbnail(px)
    ensures bits == Hash(px, 64)
  {
    bits := 0;
    for row := 0 to 8
      invariant bits == Hash(px, 8 * row)
    {
      var start := row * 9;
      for col := 0 to 8
        invariant bits == Hash(px, 8 * row + col)
      {
        HashNext(px, row, col);
        bits := 2 * bits + Bit(px[start + col] < px[start + col + 1]);
      }
    }
  }

  /** (a ^ b).bit_count(): the binary digits at which the two numbers differ. */
  function Distance(a: nat, b: nat): nat {
    if a == 0 && b == 0 then 0 else Bit(a % 2 != b % 2) + Distance(a / 2, b / 2)
  }

  function Cells(x: seq<bool>, y: seq<bool>): set<int>
    requires |x| == |y|
  {
    set k | 0 <= k < |x| && x[k] != y[k]
  }

  /** One more binary digit on each. */
  lemma DistanceSnoc(a: nat, b: nat, p: bool, q: bool)
    ensures Distance(2 * a + Bit(p), 2 * b + Bit(q)) == Distance(a, b) + Bit(p != q)
  {
  }

  lemma CellsSnoc(x: seq<bool>, y: seq<bool>)
    requires |x| == |y| > 0
    ensures var n := |x| - 1; |Cells(x, y)| == |Cells(x[..n], y[..n])| + Bit(x[n] != y[n])
  {
    var n := |x| - 1;
    var rest := Cells(x[..n], y[..n]);
    assert Cells(x, y) == if x[n] != y[n] then rest + {n} else rest;
    assert n !in rest;
  }

  lemma {:induction false} PackedDistance(x: seq<bool>, y: seq<bool>)
    requires |x| == |y|
    ensures Distance(Pack(x), Pack(y)) == |Cells(x, y)|
  {
    if x == [] {
      assert Cells(x, y) == {};
    } else {
      var n := |x| - 1;
      PackedDistance(x[..n], y[..n]);
      DistanceSnoc(Pack(x[..n]), Pack(y[..n]), x[n], y[n]);
      CellsSnoc(x, y);
    }
  }

  lemma SameCells(px: seq<int>, py: seq<int>)
    requires |px| == 72 && |py| == 72
    ensures Cells(Compared(px, 64), Compared(py, 64))
            == set k | 0 <= k < 64 && (px[9 * (k / 8) + k % 8] < px[9 * (k / 8) + k % 8 + 1])
                                      != (py[9 * (k / 8) + k % 8] < py[9 * (k / 8) + k % 8 + 1])
  {
    forall k | 0 <= k < 64
      ensures Compared(px, 64)[k] == (px[9 * (k / 8) + k % 8] < px[9 * (k / 8) + k % 8 + 1])
      ensures Compared(py, 64)[k] == (py[9 * (k / 8) + k % 8] < py[9 * (k / 8) + k % 8 + 1])
    {
      assert Compared(px, 64)[k] == Brighter(px, k / 8, k % 8) && Compared(py, 64)[k] == Brighter(py, k / 8, k % 8);
    }
  }

  /** What the distance between two fingerprints is: the number of grid cells at which one picture
      brightens to the right and the other does not. Cell k compares column k % 8 of row k / 8, nine
      pixels long, with the next. */
  lemma DistanceCountsCells(px: seq<int>, py: seq<int>)
    requires Thumbnail(px) && Thumbnail(py)
    ensures Distance(Hash(px, 64), Hash(py, 64))
            == |set k | 0 <= k < 64 && (px[9 * (k / 8) + k % 8] < px[9 * (k / 8) + k % 8 + 1])
                                       != (py[9 * (k / 8) + k % 8] < py[9 * (k / 8) + k % 8 + 1])|
  {
    var x, y := Compared(px, 64), Compared(py, 64);
    HashIsPacked(px, 64);
    HashIsPacked(py, 64);
    PackedDistance(x, y);
    SameCells(px, py);
  }

  lemma {:induction false} DistanceIsMetric(a: nat, b: nat, c: nat)
    ensures Distance(a, b) == 0 <==> a == b
    ensures Distance(a, b) == Distance(b, a)
    ensures Distance(a, c) <= Distance(a, b) + Distance(b, c)
    decreases a + b + c
  {
    if a != 0 || b != 0 || c != 0 {
      DistanceIsMetric(a / 2, b / 2, c / 2);
    }
  }

  // ------------------------------------------------------------------ the report

  ghost predicate Ascending(xs: seq<int>) {
    forall i, j :: 0 <= i < j < |xs| ==> xs[i] < xs[j]
  }

  /** sorted(): the keys of a dict in order. */
  method Sorted(keys: set<int>) returns (xs: seq<int>)
    ensures Ascending(xs)
    ensures forall k :: k in xs <==> k in keys
  {
    xs := [];
    var rest := keys;
    while exists k :: k in rest
      invariant rest <= keys
      invariant Ascending(xs)
      invariant forall k :: k in xs <==> k in keys && k !in rest
      invariant forall i, k :: 0 <= i < |xs| && k in rest ==> xs[i] < k
      decreases |rest|
    {
      var least := Least(rest);
      xs := xs + [least];
      rest := rest - {least};
    }
  }

  method Least(keys: set<int>) returns (least: int)
    requires exists k :: k in keys
    ensures least in keys && forall k :: k in keys ==> least <= k
  {
    least :| least in keys;
    var rest := keys - {least};
    while exists k :: k in rest
      invariant least in keys && rest <= keys
      invariant forall k :: k in keys && k !in rest ==> least <= k
      decreases |rest|
    {
      var k :| k in rest;
      if k < least { least := k; }
      rest := rest - {k};
    }
  }

  ghost predicate KeysInOrder(hashes: map<int, nat>, positions: seq<int>) {
    Ascending(positions) && forall k :: k in positions <==> k in hashes
  }

  ghost predicate Close(hashes: map<int, nat>, threshold: int, a: int, b: int)
    requires a in hashes && b in hashes
  {
    Distance(hashes[b], hashes[a]) <= threshold
  }

  /** The slide repeats some earlier one. */
  ghost predicate Repeats(hashes: map<int, nat>, threshold: int, b: int)
    requires b in hashes
  {
    exists a :: a in hashes && a < b && Close(hashes, threshold, a, b)
  }

  /** The report is right about d: an earlier slide is that close, and it is the first one. */
  ghost predicate Justified(hashes: map<int, nat>, threshold: int, d: Duplicate) {
    && d.position in hashes && d.matches in hashes && d.matches < d.position
    && d.distance == Distance(hashes[d.position], hashes[d.matches]) <= threshold
    && forall a :: a in hashes && a < d.matches ==> !Close(hashes, threshold, a, d.position)
  }

  /** The inner loop: the first earlier slide close to the one at place i. */
  method FirstMatch(hashes: map<int, nat>, positions: seq<int>, i: nat, threshold: int)
    returns (found: Option<Duplicate>)
    requires KeysInOrder(hashes, positions) && i < |positions|
    ensures found.Some? ==> Justified(hashes, threshold, found.value) && found.value.position == positions[i]
    ensures found.Some? <==> Repeats(hashes, threshold, positions[i])
  {
    var pos := positions[i];
    found := None;
    for e := 0 to i
      invariant found.None?
      invariant forall p :: 0 <= p < e ==> !Close(hashes, threshold, positions[p], pos)
    {
      var d := Distance(hashes[pos], hashes[positions[e]]);
      if d <= threshold {
        EarlierPositions(hashes, positions, e);
        assert Close(hashes, threshold, positions[e], pos);
        return Some(Duplicate(pos, positions[e], d));
      }
    }
    EarlierPositions(hashes, positions, i);
  }

  lemma EarlierPositions(hashes: map<int, nat>, positions: seq<int>, i: nat)
    requires KeysInOrder(hashes, positions) && i < |positions|
    ensures forall a :: a in hashes && a < positions[i] ==> exists p :: 0 <= p < i && positions[p] == a
  {
  }

  ghost predicate Reported(out: seq<Duplicate>, position: int) {
    exists i :: 0 <= i < |out| && out[i].position == position
  }

  ghost predicate AllJustified(hashes: map<int, nat>, threshold: int, out: seq<Duplicate>) {
    forall k :: 0 <= k < |out| ==> Justified(hashes, threshold, out[k])
  }

  ghost predicate InOrder(out: seq<Duplicate>) {
    forall k, l :: 0 <= k < l < |out| ==> out[k].position < out[l].position
  }

  ghost predicate AllBefore(out: seq<Duplicate>, position: int) {
    forall k :: 0 <= k < |out| ==> out[k].position < position
  }

  /** A slide that repeats an earlier one is in the report. */
  ghost predicate ReportedIfRepeats(hashes: map<int, nat>, threshold: int, out: seq<Duplicate>, position: int) {
    position in hashes && Repeats(hashes, threshold, position) ==> Reported(out, position)
  }

  lemma AllReported(hashes: map<int, nat>, threshold: int, out: seq<Duplicate>, positions: seq<int>)
    requires forall k :: k in hashes ==> k in positions
    requires forall p :: 0 <= p < |positions| ==> ReportedIfRepeats(hashes, threshold, out, positions[p])
    ensures forall b :: b in hashes && Repeats(hashes, threshold, b) ==> Reported(out, b)
  {
    forall b | b in hashes && Repeats(hashes, threshold, b) ensures Reported(out, b) {
      assert b in positions;
      var p :| 0 <= p < |positions| && positions[p] == b;
      assert ReportedIfRepeats(hashes, threshold, out, positions[p]);
    }
  }

  method FindDuplicates(hashes: map<int, nat>, threshold: int) returns (out: seq<Duplicate>)
    ensures AllJustified(hashes, threshold, out) && InOrder(out)
    ensures forall b :: b in hashes && Repeats(hashes, threshold, b) ==> Reported(out, b)
  {
    out := [];
    var positions := Sorted(hashes.Keys);
    for i := 0 to |positions|
      invariant AllJustified(hashes, threshold, out) && InOrder(out)
      invariant forall p :: i <= p < |positions| ==> AllBefore(out, positions[p])
      invariant forall p :: 0 <= p < i ==> ReportedIfRepeats(hashes, threshold, out, positions[p])
    {
      var found := FirstMatch(hashes, positions, i, threshold);
      if found.Some? {
        ReportedGrows(out, found.value);
        out := out + [found.value];
      }
    }
    AllReported(hashes, threshold, out, positions);
  }

  lemma ReportedGrows(out: seq<Duplicate>, d: Duplicate)
    ensures Reported(out + [d], d.position)
    ensures forall b :: Reported(out, b) ==> Reported(out + [d], b)
  {
    assert (out + [d])[|out|] == d;
    forall b | Reported(out, b) ensures Reported(out + [d], b) {
      var k :| 0 <= k < |out| && out[k].position == b;
      assert (out + [d])[k].position == b;
    }
  }

  /** These two slides are no nearer than `least`, */
  ghost predicate NoNearer(hashes: map<int, nat>, least: nat, a: int, b: int)
    requires a in hashes && b in hashes
  {
    least <= Distance(hashes[a], hashes[b])
  }

  /** and these exactly as near. */
  ghost predicate Apart(hashes: map<int, nat>, least: nat, a: int, b: int) {
    a in hashes && b in hashes && a < b && least == Distance(hashes[a], hashes[b])
  }

  function Between(hashes: map<int, nat>, positions: seq<int>, p: nat, q: nat): nat
    requires p < |positions| && q < |positions| && positions[p] in hashes && positions[q] in hashes
  {
    Distance(hashes[positions[p]], hashes[positions[q]])
  }

  lemma NoneNearer(hashes: map<int, nat>, positions: seq<int>, least: nat)
    requires KeysInOrder(hashes, positions) && forall p :: 0 <= p < |positions| ==> positions[p] in hashes
    requires forall p, q :: 0 <= p < q < |positions| ==> least <= Between(hashes, positions, p, q)
    ensures forall x, y :: x in hashes && y in hashes && x < y ==> NoNearer(hashes, least, x, y)
  {
    forall x, y | x in hashes && y in hashes && x < y ensures NoNearer(hashes, least, x, y) {
      assert y in positions;
      var q :| 0 <= q < |positions| && positions[q] == y;
      EarlierPositions(hashes, positions, q);
      var p :| 0 <= p < q && positions[p] == x;
      assert least <= Between(hashes, positions, p, q);
    }
  }

  /** min(pairs): the smallest distance between two slides, and the pair it is between. */
  method LeastDistance(hashes: map<int, nat>) returns (least: Option<nat>, a: int, b: int)
    ensures least.None? ==> forall x, y :: x in hashes && y in hashes ==> x == y
    ensures least.Some? ==> Apart(hashes, least.value, a, b)
    ensures least.Some? ==> forall x, y :: x in hashes && y in hashes && x < y ==> NoNearer(hashes, least.value, x, y)
  {
    var positions := Sorted(hashes.Keys);
    assert forall p :: 0 <= p < |positions| ==> positions[p] in positions;
    least, a, b := None, 0, 0;
    for i := 0 to |positions|
      invariant least.None? <==> i <= 1
      invariant least.Some? ==> Apart(hashes, least.value, a, b)
      invariant least.Some? ==> forall p, q :: 0 <= p < q < i ==> least.value <= Between(hashes, positions, p, q)
    {
      for j := 0 to i
        invariant least.None? <==> j == 0 && i <= 1
        invariant least.Some? ==> Apart(hashes, least.value, a, b)
        invariant least.Some? ==> forall p, q :: 0 <= p < q < i ==> least.value <= Between(hashes, positions, p, q)
        invariant least.Some? ==> forall p :: 0 <= p < j ==> least.value <= Between(hashes, positions, p, i)
      {
        var d := Between(hashes, positions, j, i);
        if least.None? || d < least.value { least, a, b := Some(d), positions[j], positions[i]; }
      }
    }
    if least.Some? { NoneNearer(hashes, positions, least.value); }
  }

  /** report: the duplicates, and the smallest distance between any two slides; a slide is
      reported exactly when that distance is within the threshold. */
  method Report(hashes: map<int, nat>, threshold: int) returns (duplicates: seq<Duplicate>, least: Option<nat>)
    ensures least.None? <==> forall x, y :: x in hashes && y in hashes ==> x == y
    ensures least.Some? ==> exists x, y :: Apart(hashes, least.value, x, y)
    ensures least.Some? ==> forall x, y :: x in hashes && y in hashes && x < y ==> NoNearer(hashes, least.value, x, y)
    ensures duplicates != [] <==> least.Some? && least.value <= threshold
    ensures AllJustified(hashes, threshold, duplicates) && InOrder(duplicates)
    ensures forall b :: b in hashes && Repeats(hashes, threshold, b) ==> Reported(duplicates, b)
  {
    duplicates := FindDuplicates(hashes, threshold);
    var a, b;
    least, a, b := LeastDistance(hashes);
    if least.Some? {
      DistanceIsMetric(hashes[a], hashes[b], 0);
      assert Apart(hashes, least.value, a, b);
      assert Close(hashes, threshold, a, b) ==> Repeats(hashes, threshold, b);
    }
    if duplicates != [] {
      var d := duplicates[0];
      assert Justified(hashes, threshold, d);
      DistanceIsMetric(hashes[d.position], hashes[d.matches], 0);
      assert least.Some? && NoNearer(hashes, least.value, d.matches, d.position);
    }
  }
}
