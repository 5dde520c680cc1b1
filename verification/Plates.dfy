/** Which words share a plate, and how a plate is pulled back off the product
    (app/creative/compose.py `_union`, `_clusters`, `_kept_off`). */
module Plates {
  import opened Geometry
  import opened Numeric
  import opened Options
  import opened Placement

  const CLUSTER_GAP := 0.07
  const PLATE_FEATHER := 0.10

  /** A measured piece of type: which element it is, where it stands, and whether its ground is a
      designed one (a panel, a band, the pill). */
  datatype Word = Word(cls: Element, box: Box, luminance: real, opacity: real, solid: bool)

  type Group = seq<Word>

  // ------------------------------------------------------------------ off the product

  /** _kept_off: `box` pulled back on the side that overlaps `keep` least; Python takes the first
      in alphabetical order of a tie. */
  function KeptOff(box: Box, keep: Box): Box {
    if !Hits(box, keep) then box
    else
      var bottom, left, right, top := box.b - keep.t, keep.r - box.l, box.r - keep.l, keep.b - box.t;
      if bottom <= left && bottom <= right && bottom <= top then box.(b := keep.t)
      else if left <= right && left <= top then box.(l := keep.r)
      else if right <= top then box.(r := keep.l)
      else box.(t := keep.b)
  }

  /** Pulling a feathered plate off the product: it ends inside what it was and clear of the
      product, and it still lies under the whole of its words' box exactly when that box never met
      the product -- the pull is never deeper than the feather. */
  lemma KeptOffKeepsItsWords(words: Box, feather: real, keep: Box)
    requires feather >= 0.0
    ensures var plate := Grown(words, feather);
            var p := KeptOff(plate, keep);
            && Within(p, plate) && !Hits(p, keep)
            && (Within(words, p) <==> !Hits(words, keep))
  {
  }

  /** It is pulled on the side that costs it least -- the foot, the left, the right, the head on a
      tie, in that order -- and only as far as the product's edge. */
  lemma KeptOffPullsLeast(box: Box, keep: Box)
    ensures var foot, left, right, head := box.b - keep.t, keep.r - box.l, box.r - keep.l, keep.b - box.t;
            var least := Min(Min(foot, left), Min(right, head));
            KeptOff(box, keep) == if !Hits(box, keep) then box
                                  else if foot == least then Box(box.l, box.t, box.r, box.b - least)
                                  else if left == least then Box(box.l + least, box.t, box.r, box.b)
                                  else if right == least then Box(box.l, box.t, box.r - least, box.b)
                                  else Box(box.l, box.t + least, box.r, box.b)
  {
  }

  // ------------------------------------------------------------------ blocks that read as one

  /** _union: the box around a group. */
  function Union(group: Group): Box
    requires group != []
  {
    if |group| == 1 then group[0].box
    else
      var rest, last := Union(group[..|group| - 1]), group[|group| - 1].box;
      Box(Min(rest.l, last.l), Min(rest.t, last.t), Max(rest.r, last.r), Max(rest.b, last.b))
  }

  /** Near enough below the group, and somewhere under it. */
  predicate Joins(group: Group, word: Word, gap: real)
    requires group != []
  {
    var g := Union(group);
    word.box.t - g.b <= gap && Min(g.r, word.box.r) > Max(g.l, word.box.l)
  }

  /** sorted(words, key=top), which keeps the order of words equally high. */
  function ByTop(words: seq<Word>): seq<Word> {
    if words == [] then [] else Placed(ByTop(words[..|words| - 1]), words[|words| - 1])
  }

  /** `word` after everything that stands no lower. */
  function Placed(sorted: seq<Word>, word: Word): seq<Word> {
    if sorted == [] || sorted[|sorted| - 1].box.t <= word.box.t then sorted + [word]
    else Placed(sorted[..|sorted| - 1], word) + [sorted[|sorted| - 1]]
  }

  predicate Formed(groups: seq<Group>) {
    forall i :: 0 <= i < |groups| ==> groups[i] != []
  }

  /** The first group the word joins takes it; else it starts one. */
  function Taken(groups: seq<Group>, word: Word, gap: real): (r: seq<Group>)
    requires Formed(groups)
    ensures Formed(r)
  {
    if groups == [] then [[word]]
    else if Joins(groups[0], word, gap) then [groups[0] + [word]] + groups[1..]
    else [groups[0]] + Taken(groups[1..], word, gap)
  }

  function Grouped(groups: seq<Group>, words: seq<Word>, gap: real): (r: seq<Group>)
    requires Formed(groups)
    ensures Formed(r)
    decreases |words|
  {
    if words == [] then groups else Grouped(Taken(groups, words[0], gap), words[1..], gap)
  }

  function ClustersOf(words: seq<Word>, width: int): (r: seq<Group>)
    ensures Formed(r)
  {
    Grouped([], ByTop(words), width as real * CLUSTER_GAP)
  }

  lemma {:induction false} TakenAt(groups: seq<Group>, word: Word, gap: real, i: nat)
    requires Formed(groups) && i <= |groups|
    requires forall j :: 0 <= j < i ==> !Joins(groups[j], word, gap)
    requires i < |groups| ==> Joins(groups[i], word, gap)
    ensures Taken(groups, word, gap) == if i == |groups| then groups + [[word]] else groups[i := groups[i] + [word]]
  {
    if i > 0 { TakenAt(groups[1..], word, gap, i - 1); }
  }

  method Clusters(words: seq<Word>, width: int) returns (groups: seq<Group>)
    ensures groups == ClustersOf(words, width)
  {
    groups := [];
    var rest, gap := ByTop(words), width as real * CLUSTER_GAP;
    while rest != []
      invariant Formed(groups) && Grouped(groups, rest, gap) == ClustersOf(words, width)
      decreases |rest|
    {
      var i := 0;
      while i < |groups| && !Joins(groups[i], rest[0], gap)
        invariant i <= |groups| && forall j :: 0 <= j < i ==> !Joins(groups[j], rest[0], gap)
      {
        i := i + 1;
      }
      TakenAt(groups, rest[0], gap, i);
      if i < |groups| {
        groups := groups[i := groups[i] + [rest[0]]];
      } else {
        groups := groups + [[rest[0]]];
      }
      rest := rest[1..];
    }
  }

  // ------------------------------------------------------------------ what a grouping keeps

  function Flat(groups: seq<Group>): seq<Word> {
    if groups == [] then [] else groups[0] + Flat(groups[1..])
  }

  /** Read down the page: every word after the first joined the block above it. */
  ghost predicate ReadsAsOne(group: Group, gap: real) {
    && (forall k :: 1 <= k < |group| ==> Joins(group[..k], group[k], gap))
    && (forall j, k :: 0 <= j < k < |group| ==> group[j].box.t <= group[k].box.t)
  }

  ghost predicate AllReadAsOne(groups: seq<Group>, gap: real) {
    forall i :: 0 <= i < |groups| ==> ReadsAsOne(groups[i], gap)
  }

  ghost predicate NoneLower(words: seq<Word>, word: Word) {
    forall w :: w in words ==> w.box.t <= word.box.t
  }

  predicate DownThePage(words: seq<Word>) {
    forall j, k :: 0 <= j < k < |words| ==> words[j].box.t <= words[k].box.t
  }

  lemma AppendSorts(front: seq<Word>, last: Word)
    requires DownThePage(front) && NoneLower(front, last)
    ensures DownThePage(front + [last]) && multiset(front + [last]) == multiset(front) + multiset{last}
  {
  }

  lemma {:induction false} PlacedSorts(sorted: seq<Word>, word: Word)
    requires DownThePage(sorted)
    ensures DownThePage(Placed(sorted, word)) && multiset(Placed(sorted, word)) == multiset(sorted) + multiset{word}
  {
    if sorted == [] || sorted[|sorted| - 1].box.t <= word.box.t {
      AppendSorts(sorted, word);
    } else {
      var front, last := sorted[..|sorted| - 1], sorted[|sorted| - 1];
      assert sorted == front + [last];
      PlacedSorts(front, word);
      forall w | w in Placed(front, word) ensures w.box.t <= last.box.t {
        assert w in multiset(Placed(front, word));
      }
      AppendSorts(Placed(front, word), last);
    }
  }

  lemma {:induction false} ByTopSorts(words: seq<Word>)
    ensures DownThePage(ByTop(words)) && multiset(ByTop(words)) == multiset(words)
  {
    if words != [] {
      var front := words[..|words| - 1];
      ByTopSorts(front);
      PlacedSorts(ByTop(front), words[|words| - 1]);
      assert words == front + [words[|words| - 1]];
    }
  }

  lemma ExtendsReading(group: Group, word: Word, gap: real)
    requires group != [] && ReadsAsOne(group, gap) && Joins(group, word, gap) && NoneLower(group, word)
    ensures ReadsAsOne(group + [word], gap)
  {
    var all := group + [word];
    forall k | 1 <= k < |all| ensures Joins(all[..k], all[k], gap) {
      assert all[..k] == group[..k];
      if k == |group| { assert group[..k] == group; }
    }
  }

  lemma {:induction false} TakenKeeps(groups: seq<Group>, word: Word, gap: real)
    requires Formed(groups) && AllReadAsOne(groups, gap) && NoneLower(Flat(groups), word)
    ensures AllReadAsOne(Taken(groups, word, gap), gap)
    ensures multiset(Flat(Taken(groups, word, gap))) == multiset(Flat(groups)) + multiset{word}
  {
    if groups == [] {
      assert Flat([[word]]) == [word] + Flat([[word]][1..]);
    } else if Joins(groups[0], word, gap) {
      ExtendsReading(groups[0], word, gap);
      assert ([groups[0] + [word]] + groups[1..])[1..] == groups[1..];
    } else {
      TakenKeeps(groups[1..], word, gap);
      var more := Taken(groups[1..], word, gap);
      assert ([groups[0]] + more)[1..] == more;
    }
  }

  /** What comes next stands no higher than what has been grouped. */
  lemma NextStandsNoHigher(groups: seq<Group>, words: seq<Word>, gap: real)
    requires Formed(groups) && DownThePage(words) && |words| > 1 && NoneLower(Flat(groups), words[0])
    requires multiset(Flat(Taken(groups, words[0], gap))) == multiset(Flat(groups)) + multiset{words[0]}
    ensures NoneLower(Flat(Taken(groups, words[0], gap)), words[1])
  {
    var next := Flat(Taken(groups, words[0], gap));
    forall w | w in next ensures w.box.t <= words[1].box.t { assert w in multiset(next); }
  }

  lemma {:induction false} GroupedKeeps(groups: seq<Group>, words: seq<Word>, gap: real)
    requires Formed(groups) && AllReadAsOne(groups, gap) && DownThePage(words)
    requires words != [] ==> NoneLower(Flat(groups), words[0])
    ensures AllReadAsOne(Grouped(groups, words, gap), gap)
    ensures multiset(Flat(Grouped(groups, words, gap))) == multiset(Flat(groups)) + multiset(words)
    decreases |words|
  {
    if words != [] {
      TakenKeeps(groups, words[0], gap);
      var next := Taken(groups, words[0], gap);
      assert words == [words[0]] + words[1..];
      if |words| > 1 { NextStandsNoHigher(groups, words, gap); }
      GroupedKeeps(next, words[1..], gap);
    }
  }

  /** Every word is in one block and in one only, and each block reads as one: down the page, each
      word somewhere under what the block was before it and within the gap of it. */
  lemma ClustersPartition(words: seq<Word>, width: int)
    ensures var groups := ClustersOf(words, width);
            && multiset(Flat(groups)) == multiset(words)
            && forall i :: 0 <= i < |groups| ==> groups[i] != [] && ReadsAsOne(groups[i], width as real * CLUSTER_GAP)
  {
    ByTopSorts(words);
    GroupedKeeps([], ByTop(words), width as real * CLUSTER_GAP);
  }

  // ------------------------------------------------------------------ which block a word joins

  ghost predicate Reaches(group: Group, plate: Box) {
    && (exists k :: 0 <= k < |group| && group[k].box.l == plate.l)
    && (exists k :: 0 <= k < |group| && group[k].box.t == plate.t)
    && (exists k :: 0 <= k < |group| && group[k].box.r == plate.r)
    && (exists k :: 0 <= k < |group| && group[k].box.b == plate.b)
  }

  lemma StillReached(group: Group, k: int, last: Word)
    requires 0 <= k < |group|
    ensures (group + [last])[k] == group[k] && (group + [last])[|group|] == last
  {
  }

  lemma UnionMoves(rest: Group, last: Word)
    requires rest != []
    ensures var u, r := Union(rest + [last]), Union(rest);
            u == Box(Min(r.l, last.box.l), Min(r.t, last.box.t), Max(r.r, last.box.r), Max(r.b, last.box.b))
  {
    assert (rest + [last])[..|rest|] == rest;
  }

  /** The box around a group is the least there is: it has every word in it, and a word at each side. */
  lemma {:induction false} UnionExactly(group: Group)
    requires group != []
    ensures (forall k :: 0 <= k < |group| ==> Within(group[k].box, Union(group))) && Reaches(group, Union(group))
    decreases |group|
  {
    UnionIsCovered(group, Union(group));
    if |group| == 1 {
      assert group[0].box == Union(group);
    } else {
      var rest, last := group[..|group| - 1], group[|group| - 1];
      assert group == rest + [last];
      UnionExactly(rest);
      UnionMoves(rest, last);
      var l :| 0 <= l < |rest| && rest[l].box.l == Union(rest).l;
      var t :| 0 <= t < |rest| && rest[t].box.t == Union(rest).t;
      var r :| 0 <= r < |rest| && rest[r].box.r == Union(rest).r;
      var b :| 0 <= b < |rest| && rest[b].box.b == Union(rest).b;
      assert group[l] == rest[l] && group[t] == rest[t] && group[r] == rest[r] && group[b] == rest[b];
      assert group[|rest|] == last;
    }
  }

  /** Near a block, read off its words: within the gap of some word's foot, and between the sides of
      what the block spans. */
  ghost predicate Near(group: Group, word: Word, gap: real) {
    && (exists v :: v in group && word.box.t - v.box.b <= gap)
    && (exists v, w :: v in group && w in group && v.box.l < w.box.r)
    && (exists v :: v in group && v.box.l < word.box.r)
    && (exists v :: v in group && word.box.l < v.box.r)
    && word.box.l < word.box.r
  }

  lemma JoinsExactly(group: Group, word: Word, gap: real)
    requires group != []
    ensures Joins(group, word, gap) <==> Near(group, word, gap)
  {
    UnionExactly(group);
    var u := Union(group);
    var l :| 0 <= l < |group| && group[l].box.l == u.l;
    var r :| 0 <= r < |group| && group[r].box.r == u.r;
    var b :| 0 <= b < |group| && group[b].box.b == u.b;
    assert group[l] in group && group[r] in group && group[b] in group;
    assert forall v :: v in group ==> Within(v.box, u);
  }

  lemma {:induction false} GroupedSnoc(groups: seq<Group>, words: seq<Word>, last: Word, gap: real)
    requires Formed(groups)
    ensures Grouped(groups, words + [last], gap) == Taken(Grouped(groups, words, gap), last, gap)
    decreases |words|
  {
    if words == [] {
      assert [] + [last] == [last] && [last][1..] == [];
    } else {
      assert (words + [last])[0] == words[0] && (words + [last])[1..] == words[1..] + [last];
      GroupedSnoc(Taken(groups, words[0], gap), words[1..], last, gap);
    }
  }

  lemma {:induction false} FirstJoined(groups: seq<Group>, word: Word, gap: real) returns (i: nat)
    requires Formed(groups)
    ensures i <= |groups| && forall j :: 0 <= j < i ==> !Joins(groups[j], word, gap)
    ensures i < |groups| ==> Joins(groups[i], word, gap)
  {
    if groups == [] || Joins(groups[0], word, gap) {
      i := 0;
    } else {
      i := FirstJoined(groups[1..], word, gap);
      i := i + 1;
    }
  }

  /** The grouping, one word at a time down the page: each joins the first block it is near, and
      starts a new one exactly when it is near none. */
  lemma EachJoinsTheFirst(words: seq<Word>, width: int, n: nat) returns (i: nat)
    requires n < |words|
    ensures var order, gap := ByTop(words), width as real * CLUSTER_GAP;
            && |order| == |words|
            && var before, after := Grouped([], order[..n], gap), Grouped([], order[..n + 1], gap);
               && i <= |before| && (forall j :: 0 <= j < i ==> !Near(before[j], order[n], gap))
               && (if i < |before| then
                     Near(before[i], order[n], gap) && after == before[i := before[i] + [order[n]]]
                   else after == before + [[order[n]]])
    ensures ClustersOf(words, width) == Grouped([], ByTop(words)[..|words|], width as real * CLUSTER_GAP)
  {
    var order, gap := ByTop(words), width as real * CLUSTER_GAP;
    ByTopSorts(words);
    assert |order| == |multiset(order)| == |multiset(words)| == |words|;
    assert order[..|words|] == order;
    var before: seq<Group> := Grouped([], order[..n], gap);
    assert order[..n + 1] == order[..n] + [order[n]];
    GroupedSnoc([], order[..n], order[n], gap);
    i := FirstJoined(before, order[n], gap);
    TakenAt(before, order[n], gap, i);
    forall j | 0 <= j < |before| ensures Joins(before[j], order[n], gap) <==> Near(before[j], order[n], gap) {
      JoinsExactly(before[j], order[n], gap);
    }
  }

  /** The words that start at one height, in order. */
  function AtHeight(words: seq<Word>, t: real): seq<Word> {
    if words == [] then []
    else AtHeight(words[..|words| - 1], t)
         + (if words[|words| - 1].box.t == t then [words[|words| - 1]] else [])
  }

  lemma AtHeightSnoc(front: seq<Word>, last: Word, t: real)
    ensures AtHeight(front + [last], t) == AtHeight(front, t) + (if last.box.t == t then [last] else [])
  {
    assert (front + [last])[..|front|] == front;
  }

  lemma {:induction false} PlacedKeepsTies(sorted: seq<Word>, word: Word, t: real)
    requires DownThePage(sorted)
    ensures AtHeight(Placed(sorted, word), t) == AtHeight(sorted, t) + (if word.box.t == t then [word] else [])
  {
    if sorted == [] || sorted[|sorted| - 1].box.t <= word.box.t {
      AtHeightSnoc(sorted, word, t);
    } else {
      var front, last := sorted[..|sorted| - 1], sorted[|sorted| - 1];
      assert sorted == front + [last];
      PlacedKeepsTies(front, word, t);
      AtHeightSnoc(Placed(front, word), last, t);
      AtHeightSnoc(front, last, t);
    }
  }

  /** Down the page, and words that start equally high in the order they were measured. */
  lemma {:induction false} ByTopKeepsTies(words: seq<Word>, t: real)
    ensures DownThePage(ByTop(words)) && AtHeight(ByTop(words), t) == AtHeight(words, t)
  {
    ByTopSorts(words);
    if words != [] {
      var front, last := words[..|words| - 1], words[|words| - 1];
      ByTopSorts(front);
      ByTopKeepsTies(front, t);
      PlacedKeepsTies(ByTop(front), last, t);
    }
  }

  // ------------------------------------------------------------------ one colour to a block

  /** Words of different colours stand further apart, one above the other, than a block reaches. */
  ghost predicate InksApart(words: seq<Word>, gap: real) {
    forall v, w :: v in words && w in words && v.luminance != w.luminance ==>
      v.box.t - w.box.b > gap || w.box.t - v.box.b > gap
  }

  predicate Proper(words: seq<Word>) {
    forall w :: w in words ==> w.box.t <= w.box.b
  }

  lemma {:induction false} UnionEndsOnAWord(group: Group)
    requires group != []
    ensures exists k :: 0 <= k < |group| && Union(group).b == group[k].box.b
    decreases |group|
  {
    if |group| == 1 {
      assert Union(group).b == group[0].box.b;
    } else {
      var rest := group[..|group| - 1];
      UnionEndsOnAWord(rest);
      var k :| 0 <= k < |rest| && Union(rest).b == rest[k].box.b;
      assert group[k] == rest[k] && Union(group).b == Max(rest[k].box.b, group[|group| - 1].box.b);
    }
  }

  /** A word joins a block by coming near some word of it. */
  lemma JoinsAWord(group: Group, word: Word, gap: real) returns (k: nat)
    requires group != [] && Joins(group, word, gap)
    ensures k < |group| && word.box.t - group[k].box.b <= gap
  {
    UnionEndsOnAWord(group);
    k :| 0 <= k < |group| && Union(group).b == group[k].box.b;
  }

  lemma SameInk(words: seq<Word>, upper: Word, lower: Word, gap: real)
    requires gap >= 0.0 && Proper(words) && InksApart(words, gap) && upper in words && lower in words
    requires upper.box.t <= lower.box.t && lower.box.t - upper.box.b <= gap
    ensures upper.luminance == lower.luminance
  {
  }

  /** And takes its ink from there. */
  lemma InkFromAbove(group: Group, gap: real, n: nat) returns (k: nat)
    requires gap >= 0.0 && ReadsAsOne(group, gap) && Proper(group) && InksApart(group, gap) && 1 <= n < |group|
    ensures k < n && group[k].luminance == group[n].luminance
  {
    assert Joins(group[..n], group[n], gap);
    k := JoinsAWord(group[..n], group[n], gap);
    SameInk(group, group[k], group[n], gap);
  }

  lemma {:induction false} OneInk(group: Group, gap: real, n: nat)
    requires gap >= 0.0 && ReadsAsOne(group, gap) && Proper(group) && InksApart(group, gap) && n < |group|
    ensures group[n].luminance == group[0].luminance
    decreases n
  {
    if n > 0 {
      var k := InkFromAbove(group, gap, n);
      OneInk(group, gap, k);
    }
  }

  lemma {:induction false} InFlat(groups: seq<Group>, n: nat, w: Word)
    requires n < |groups| && w in groups[n]
    ensures w in Flat(groups)
  {
    if n > 0 { InFlat(groups[1..], n - 1, w); }
  }

  lemma GroupedFrom(words: seq<Word>, width: int, n: nat)
    requires n < |ClustersOf(words, width)|
    ensures forall w :: w in ClustersOf(words, width)[n] ==> w in words
  {
    ClustersPartition(words, width);
    var groups := ClustersOf(words, width);
    forall w | w in groups[n] ensures w in words {
      InFlat(groups, n, w);
      assert w in multiset(Flat(groups));
    }
  }

  /** A block never mixes colours that stand apart: the plate that takes its colour from a block's
      first word takes it from all of them. */
  lemma ClustersAreOneInk(words: seq<Word>, width: int)
    requires width >= 0 && Proper(words) && InksApart(words, width as real * CLUSTER_GAP)
    ensures var groups := ClustersOf(words, width);
            forall n, k :: 0 <= n < |groups| && 0 <= k < |groups[n]| ==>
              groups[n][k].luminance == groups[n][0].luminance
  {
    var groups: seq<Group> := ClustersOf(words, width);
    var gap := width as real * CLUSTER_GAP;
    ClustersPartition(words, width);
    forall n, k | 0 <= n < |groups| && 0 <= k < |groups[n]| ensures groups[n][k].luminance == groups[n][0].luminance {
      GroupedFrom(words, width, n);
      OneInk(groups[n], gap, k);
    }
  }

  // ------------------------------------------------------------------ what a plate covers

  ghost predicate Covers(plate: Box, group: Group) {
    forall k :: 0 <= k < |group| ==> Within(group[k].box, plate)
  }

  lemma {:induction false} UnionIsCovered(group: Group, plate: Box)
    requires group != []
    ensures Covers(plate, group) <==> Within(Union(group), plate)
    decreases |group|
  {
    if |group| > 1 {
      var rest := group[..|group| - 1];
      UnionIsCovered(rest, plate);
      assert forall k :: 0 <= k < |group| ==> group[k] == if k < |rest| then rest[k] else group[|group| - 1];
    }
  }

  /** The plate a group is given on a canvas `width` wide with this product, if any, in it. */
  function PlateOf(group: Group, width: int, subject: Option<Box>): Box
    requires group != []
  {
    var box := Grown(Union(group), width as real * PLATE_FEATHER);
    match subject
    case None => box
    case Some(s) => KeptOff(box, s)
  }

  /** A plate never lies on the product. It lies under every word of its group exactly when the box
      around the group is clear of the product. */
  lemma PlateCoversExactly(group: Group, width: int, subject: Option<Box>)
    requires group != [] && width >= 0
    ensures var plate := PlateOf(group, width, subject);
            && (subject.Some? ==> !Hits(plate, subject.value))
            && (Covers(plate, group) <==> subject.None? || !Hits(Union(group), subject.value))
  {
    UnionIsCovered(group, PlateOf(group, width, subject));
    if subject.Some? { KeptOffKeepsItsWords(Union(group), width as real * PLATE_FEATHER, subject.value); }
  }

  /** On which side of the product something stands clear of it. */
  predicate StandsClear(side: Side, word: Box, product: Box) {
    match side
    case Above => word.b <= product.t
    case Below => word.t >= product.b
    case LeftOf => word.r <= product.l
    case RightOf => word.l >= product.r
  }

  predicate AllStandClear(side: Side, group: Group, product: Box) {
    forall k :: 0 <= k < |group| ==> StandsClear(side, group[k].box, product)
  }

  lemma {:induction false} UnionStandsClear(group: Group, side: Side, product: Box)
    requires group != []
    ensures StandsClear(side, Union(group), product) <==> AllStandClear(side, group, product)
    decreases |group|
  {
    if |group| > 1 {
      var rest := group[..|group| - 1];
      UnionStandsClear(rest, side, product);
      assert forall k :: 0 <= k < |group| ==> group[k] == if k < |rest| then rest[k] else group[|group| - 1];
    }
  }

  /** Read off the words: the plate lies under all of them if and only if some one side of the
      product has them all. That each is clear of it is not enough. */
  lemma CoversOnOneSideExactly(group: Group, width: int, product: Box)
    requires group != [] && width >= 0
    ensures Covers(PlateOf(group, width, Some(product)), group)
            <==> exists side :: AllStandClear(side, group, product)
  {
    PlateCoversExactly(group, width, Some(product));
    var u := Union(group);
    var side := if u.b <= product.t then Above else if u.t >= product.b then Below
                else if u.r <= product.l then LeftOf else RightOf;
    if !Hits(u, product) { assert StandsClear(side, u, product); }
    forall s: Side ensures StandsClear(s, u, product) <==> AllStandClear(s, group, product) {
      UnionStandsClear(group, s, product);
    }
  }

  lemma TwoInOne(upper: Word, lower: Word, width: int)
    requires upper.box.t <= lower.box.t && Joins([upper], lower, width as real * CLUSTER_GAP)
    ensures ClustersOf([upper, lower], width) == [[upper, lower]]
  {
    var gap := width as real * CLUSTER_GAP;
    var both := [upper, lower];
    assert both[..1] == [upper] && [upper][..0] == [] && both[1..] == [lower] && [lower][1..] == [];
    assert ByTop([upper]) == Placed(ByTop([]), upper) == [upper];
    assert ByTop(both) == Placed([upper], lower) == [upper] + [lower] == both;
    assert Taken([], upper, gap) == [[upper]];
    var one := [[upper]];
    assert one[1..] == [] && Taken(one, lower, gap) == [[upper] + [lower]] + one[1..] == [both];
    assert Grouped([both], [], gap) == [both];
    assert Grouped(one, [lower], gap) == Grouped([both], [], gap);
  }

  // A card on which it is not: the one of Placement.FreeBoxCanMislead.

  lemma PlacedThere(free: Rect)
    requires free == Rect(582, 90, 990, 937)
    ensures Place(644, 1400, 1080, free, 0.5) == Rect(625, 194, 947, 894)
  {
    RoundUnique(1080.0 * PLACE_MARGIN, 43);
    assert PlacedScale(644, 1400, 322, 761) == 0.5;
    RoundUnique(625.0, 625);
    assert AskedFor(free, 43, 0.5) == 786.0;
    assert Stood(322, 700, 43, free, 786.0) == Rect(625, 194, 947, 894);
  }

  lemma PulledOffTheSubhead(upper: Word, lower: Word, product: Box)
    requires upper.box == StackedCard()[Headline] && lower.box == StackedCard()[Subhead]
    requires product == Box(625.0, 194.0, 947.0, 894.0)
    ensures Hits(Union([upper, lower]), product)
    ensures PlateOf([upper, lower], 1080, Some(product)) == Box(-18.0, 538.0, 625.0, 1218.0)
  {
    assert [upper, lower][..1] == [upper];
    assert Union([upper, lower]) == Box(90.0, 646.0, 700.0, 1110.0);
  }

  /** Words that each keep clear of the product are not enough. Under a narrow headline stands a
      wider subhead; the product, a bottle, goes where the source puts it, beside the headline and
      above the subhead's end. It misses both and meets the box around them, and the plate pulled
      off it stops 75 pixels short of the subhead's end. */
  lemma NotchedWordsLoseTheirPlate(upper: Word, lower: Word)
    requires upper.cls == Headline && upper.box == StackedCard()[Headline]
    requires lower.cls == Subhead && lower.box == StackedCard()[Subhead]
    ensures var window := Rect(0, 0, 1080, 1350);
            var free := InWindow(FreeBox(StackedCard(), Region(window, Pad(90, 90, 92), 1080, 1350), Margin(1080)),
                                 window);
            var product := AsBox(Shifted(Place(644, 1400, 1080, free, 0.5), 0, 0));
            && !Hits(upper.box, product) && !Hits(lower.box, product)
            && ClustersOf([upper, lower], 1080) == [[upper, lower]]
            && Hits(Union([upper, lower]), product)
            && PlateOf([upper, lower], 1080, Some(product)).r == product.l == lower.box.r - 75.0
  {
    FreeOnTheStackedCard();
    var free := Box(582.4, 90.0, 990.0, 936.6);
    RoundUnique(582.4, 582);
    RoundUnique(936.6, 937);
    assert InWindow(free, Rect(0, 0, 1080, 1350)) == Rect(582, 90, 990, 937);
    PlacedThere(Rect(582, 90, 990, 937));
    TwoInOne(upper, lower, 1080);
    PulledOffTheSubhead(upper, lower, Box(625.0, 194.0, 947.0, 894.0));
  }
}
