/** The word error rate of the speech bake-off (scripts/stt_bakeoff.py `wer`): the classic
    two-dimensional table, against the meaning it is meant to have -- the least number of
    single-word insertions, deletions and substitutions that turn one text into the other. */
module EditDistance {

  type Word = string
  type Text = seq<Word>

  function Least(a: nat, b: nat, c: nat): nat {
    var m := if a <= b then a else b;
    if m <= c then m else c
  }

  function Front(t: Text): Text
    requires t != []
  {
    t[..|t| - 1]
  }

  function Final(t: Text): Word
    requires t != []
  {
    t[|t| - 1]
  }

  /** What a cell of the table must hold, by its two prefixes. */
  function Dist(r: Text, h: Text): nat {
    if r == [] then |h|
    else if h == [] then |r|
    else Least(Dist(Front(r), h) + 1,
               Dist(r, Front(h)) + 1,
               Dist(Front(r), Front(h)) + (if Final(r) == Final(h) then 0 else 1))
  }

  /** The same number by row and column. */
  function Cell(r: Text, h: Text, i: nat, j: nat): nat
    requires i <= |r| && j <= |h|
  {
    if i == 0 then j
    else if j == 0 then i
    else Least(Cell(r, h, i - 1, j) + 1,
               Cell(r, h, i, j - 1) + 1,
               Cell(r, h, i - 1, j - 1) + (if r[i - 1] == h[j - 1] then 0 else 1))
  }

  lemma {:induction false} CellIsDist(r: Text, h: Text, i: nat, j: nat, a: Text, b: Text)
    requires i <= |r| && j <= |h| && a == r[..i] && b == h[..j]
    ensures Cell(r, h, i, j) == Dist(a, b)
  {
    if i > 0 && j > 0 {
      assert Front(a) == r[..i - 1] && Front(b) == h[..j - 1];
      CellIsDist(r, h, i - 1, j, Front(a), b);
      CellIsDist(r, h, i, j - 1, a, Front(b));
      CellIsDist(r, h, i - 1, j - 1, Front(a), Front(b));
    }
  }

  lemma LastCellIsDist(r: Text, h: Text)
    ensures Cell(r, h, |r|, |h|) == Dist(r, h)
  {
    CellIsDist(r, h, |r|, |h|, r, h);
  }

  /** The first `count` cells of row `p` are filled in. */
  ghost predicate Filled(d: array2<nat>, r: Text, h: Text, p: nat, count: nat)
    requires p <= |r| && count <= |h| + 1 && d.Length0 == |r| + 1 && d.Length1 == |h| + 1
    reads d
  {
    forall q :: 0 <= q < count ==> d[p, q] == Cell(r, h, p, q)
  }

  method Wer(r: Text, h: Text) returns (rate: real)
    ensures r == [] ==> rate == 0.0
    ensures r != [] ==> rate == Dist(r, h) as real / |r| as real
  {
    if r == [] {
      return 0.0;
    }
    var d := new nat[|r| + 1, |h| + 1];
    for i := 0 to |r| + 1
      invariant forall p :: 0 <= p < i ==> d[p, 0] == p
    {
      d[i, 0] := i;
    }
    for j := 0 to |h| + 1
      invariant forall p :: 1 <= p <= |r| ==> d[p, 0] == p
      invariant forall q :: 0 <= q < j ==> d[0, q] == q
    {
      d[0, j] := j;
    }
    for i := 1 to |r| + 1
      invariant Filled(d, r, h, i - 1, |h| + 1)
      invariant forall p :: i <= p <= |r| ==> d[p, 0] == p
    {
      for j := 1 to |h| + 1
        invariant Filled(d, r, h, i - 1, |h| + 1) && Filled(d, r, h, i, j)
        invariant forall p :: i <= p <= |r| ==> d[p, 0] == p
      {
        var cost := if r[i - 1] == h[j - 1] then 0 else 1;
        d[i, j] := Least(d[i - 1, j] + 1, d[i, j - 1] + 1, d[i - 1, j - 1] + cost);
        assert d[i, j] == Cell(r, h, i, j);
      }
    }
    LastCellIsDist(r, h);
    rate := d[|r|, |h|] as real / |r| as real;
  }

  // ------------------------------------------------------------------ edits

  /** One edit at one place: at most one word out, at most one word in. */
  datatype Edit = Edit(before: Text, out: Text, into: Text, after: Text)

  predicate OneWord(e: Edit) {
    |e.out| <= 1 && |e.into| <= 1
  }

  function From(e: Edit): Text {
    e.before + e.out + e.after
  }

  function To(e: Edit): Text {
    e.before + e.into + e.after
  }

  /** A script from a to b: edits end to end. */
  ghost predicate Script(edits: seq<Edit>, a: Text, b: Text) {
    if edits == [] then a == b
    else OneWord(edits[0]) && From(edits[0]) == a && Script(edits[1..], To(edits[0]), b)
  }

  /** Taking or leaving one final word moves the distance by at most one. */
  lemma FinalWord(u: Text, x: Word, c: Text)
    ensures Dist(u + [x], c) <= Dist(u, c) + 1
    ensures Dist(u, c) <= Dist(u + [x], c) + 1
    decreases |c|
  {
    assert Front(u + [x]) == u;
    if c != [] { FinalWord(u, x, Front(c)); }
  }

  lemma SwapFinal(u: Text, x: Word, y: Word, c: Text)
    ensures Dist(u + [x], c) <= Dist(u + [y], c) + 1
    decreases |c|
  {
  }

  lemma EditAtEnd(e: Edit, c: Text)
    requires OneWord(e) && e.after == []
    ensures Dist(From(e), c) <= Dist(To(e), c) + 1
  {
    assert From(e) == e.before + e.out && To(e) == e.before + e.into;
    if e.out == [] {
      assert From(e) == e.before;
      if e.into == [] { assert To(e) == e.before; } else { FinalWord(e.before, e.into[0], c); }
    } else if e.into == [] {
      assert To(e) == e.before;
      FinalWord(e.before, e.out[0], c);
    } else {
      SwapFinal(e.before, e.out[0], e.into[0], c);
    }
  }

  /** One edit anywhere moves the distance to any text by at most one. */
  lemma {:induction false} OneEdit(e: Edit, c: Text)
    requires OneWord(e)
    ensures Dist(From(e), c) <= Dist(To(e), c) + 1
    decreases |e.after|, |c|
  {
    if e.after == [] {
      EditAtEnd(e, c);
    } else {
      var shorter := e.(after := Front(e.after));
      var a, b := From(e), To(e);
      assert Front(a) == From(shorter) && Front(b) == To(shorter) && Final(a) == Final(b);
      if c == [] {
        assert Dist(a, c) == |a| && Dist(b, c) == |b|;
      } else {
        OneEdit(shorter, c);
        OneEdit(shorter, Front(c));
        OneEdit(e, Front(c));
      }
    }
  }

  lemma DistSelf(a: Text)
    ensures Dist(a, a) == 0
  {
  }

  /** No script is shorter than the distance. */
  lemma {:induction false} ScriptsAreLongEnough(edits: seq<Edit>, a: Text, b: Text, c: Text)
    requires Script(edits, a, b)
    ensures Dist(a, c) <= |edits| + Dist(b, c)
    decreases |edits|
  {
    if edits != [] {
      OneEdit(edits[0], c);
      ScriptsAreLongEnough(edits[1..], To(edits[0]), b, c);
    }
  }

  lemma ScriptJoin(first: seq<Edit>, rest: seq<Edit>, a: Text, b: Text, c: Text)
    requires Script(first, a, b) && Script(rest, b, c)
    ensures Script(first + rest, a, c)
    decreases |first|
  {
    if first == [] {
      assert first + rest == rest;
    } else {
      assert (first + rest)[1..] == first[1..] + rest;
      ScriptJoin(first[1..], rest, To(first[0]), b, c);
    }
  }

  function KeepFinal(edits: seq<Edit>, x: Word): seq<Edit> {
    if edits == [] then [] else [edits[0].(after := edits[0].after + [x])] + KeepFinal(edits[1..], x)
  }

  /** A script still works with one more word carried along behind it. */
  lemma ScriptKeepsFinal(edits: seq<Edit>, a: Text, b: Text, x: Word)
    requires Script(edits, a, b)
    ensures Script(KeepFinal(edits, x), a + [x], b + [x])
    ensures |KeepFinal(edits, x)| == |edits|
    decreases |edits|
  {
    if edits != [] {
      var e := edits[0].(after := edits[0].after + [x]);
      assert From(e) == From(edits[0]) + [x] && To(e) == To(edits[0]) + [x];
      ScriptKeepsFinal(edits[1..], To(edits[0]), b, x);
    }
  }

  lemma AddEdit(edits: seq<Edit>, a: Text, e: Edit)
    requires OneWord(e) && Script(edits, a, From(e))
    ensures Script(edits + [e], a, To(e))
  {
    assert Script([e], From(e), To(e)) by { assert [e][1..] == []; }
    ScriptJoin(edits, [e], a, From(e), To(e));
  }

  lemma AddFirst(e: Edit, edits: seq<Edit>, b: Text)
    requires OneWord(e) && Script(edits, To(e), b)
    ensures Script([e] + edits, From(e), b)
  {
  }

  /** Both texts end: carry the shorter script, then make the final words agree. */
  lemma Align(r: Text, h: Text, rest: seq<Edit>) returns (edits: seq<Edit>)
    requires r != [] && h != [] && Script(rest, Front(r), Front(h))
    ensures Script(edits, r, h) && |edits| == |rest| + (if Final(r) == Final(h) then 0 else 1)
  {
    ScriptKeepsFinal(rest, Front(r), Front(h), Final(r));
    assert Front(r) + [Final(r)] == r && Front(h) + [Final(h)] == h;
    edits := KeepFinal(rest, Final(r));
    if Final(r) != Final(h) {
      var e := Edit(Front(h), [Final(r)], [Final(h)], []);
      assert From(e) == Front(h) + [Final(r)] && To(e) == h;
      AddEdit(edits, r, e);
      edits := edits + [e];
    }
  }

  lemma PutIn(rest: seq<Edit>, r: Text, h: Text) returns (edits: seq<Edit>)
    requires h != [] && Script(rest, r, Front(h))
    ensures Script(edits, r, h) && |edits| == |rest| + 1
  {
    var e := Edit(Front(h), [], [Final(h)], []);
    assert From(e) == Front(h) && To(e) == h;
    AddEdit(rest, r, e);
    edits := rest + [e];
  }

  lemma TakeOut(rest: seq<Edit>, r: Text, h: Text) returns (edits: seq<Edit>)
    requires r != [] && Script(rest, Front(r), h)
    ensures Script(edits, r, h) && |edits| == |rest| + 1
  {
    var e := Edit(Front(r), [Final(r)], [], []);
    assert From(e) == r && To(e) == Front(r);
    AddFirst(e, rest, h);
    edits := [e] + rest;
  }

  /** And one script of exactly that length exists. */
  lemma {:induction false} ScriptOfThatLength(r: Text, h: Text) returns (edits: seq<Edit>)
    ensures Script(edits, r, h) && |edits| == Dist(r, h)
    decreases |r| + |h|
  {
    if r == [] && h == [] {
      edits := [];
    } else if r == [] || (h != [] && Dist(r, h) == Dist(r, Front(h)) + 1) {
      var rest := ScriptOfThatLength(r, Front(h));
      edits := PutIn(rest, r, h);
    } else if h == [] || Dist(r, h) == Dist(Front(r), h) + 1 {
      var rest := ScriptOfThatLength(Front(r), h);
      edits := TakeOut(rest, r, h);
    } else {
      var rest := ScriptOfThatLength(Front(r), Front(h));
      edits := Align(r, h, rest);
    }
  }

  /** Sound and optimal over all edit scripts: the table's number is the minimum. */
  lemma DistIsLeastScript(r: Text, h: Text)
    ensures exists edits :: Script(edits, r, h) && |edits| == Dist(r, h)
    ensures forall edits :: Script(edits, r, h) ==> |edits| >= Dist(r, h)
  {
    var witness' := ScriptOfThatLength(r, h);
    forall edits | Script(edits, r, h) ensures |edits| >= Dist(r, h) {
      ScriptsAreLongEnough(edits, r, h, h);
      DistSelf(h);
    }
  }

  lemma DistAtMostLonger(r: Text, h: Text)
    ensures Dist(r, h) <= if |r| >= |h| then |r| else |h|
    decreases |r| + |h|
  {
  }

  lemma NotLongerBack(a: Text, b: Text)
    ensures Dist(b, a) <= Dist(a, b)
  {
  }

  /** The distance is a metric, at most the longer length. */
  lemma DistIsMetric(a: Text, b: Text, c: Text)
    ensures Dist(a, b) == 0 <==> a == b
    ensures Dist(a, b) == Dist(b, a)
    ensures Dist(a, c) <= Dist(a, b) + Dist(b, c)
    ensures Dist(a, b) <= if |a| >= |b| then |a| else |b|
  {
    var ab := ScriptOfThatLength(a, b);
    ScriptsAreLongEnough(ab, a, b, c);
    DistSelf(a);
    NotLongerBack(a, b);
    NotLongerBack(b, a);
    DistAtMostLonger(a, b);
  }
}
