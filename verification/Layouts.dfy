/** What the shipped layouts make of the legibility loop: the words measured, the blocks they form
    and the ink they are set in. */
module Layouts {
  import opened Geometry
  import opened Legibility
  import opened LegibleFrame
  import opened Numeric
  import opened Options
  import opened PlatedFrame
  import Plates

  // app/creative/compose.py `_make_legible` (1681-1682), `_clusters` and the inks chosen in
  // `render_html` (518-523). The full-bleed layouts set every word in `ink_photo`; on the others the
  // words are all in `ink`, but for top_band's brand line, which stands in `ink_photo` at the foot.

  type Type = Plates.Word

  // ------------------------------------------------------------------ ink for photographs

  /** contrast(ink, black) >= 7, or white. */
  function InkPhoto(ink: real): real
    requires ink >= 0.0
  {
    if ContrastRatio(ink, 0.0) >= 7.0 then ink else 1.0
  }

  /** The curve lifts a luminance of 0.022 to what the strongest plate leaves of white. sRGB's lifts
      it to 0.16. */
  predicate LiftsTheDark(c: Curve) {
    c.enc(0.022) >= 1.0 - LOCAL_MAX
  }

  lemma BlackIsZero(c: Curve)
    requires IsCurve(c)
    ensures c.enc(0.0) == 0.0
  {
    assert UndoneAt(c, 0.0) && RisesFrom(c, 0.0, c.dec(0.0));
  }

  lemma KeepsEnough(room: real, have: real)
    requires room >= 1.0 - LOCAL_MAX && Unit(have)
    ensures Keep(room, have) >= 1.0 - LOCAL_MAX
  {
    QuotientAtLeast(room, Max(have, TINY), 1.0 - LOCAL_MAX);
  }

  /** Light ink can be served over every ground there is if and only if its limit, encoded, is at
      least what the strongest plate leaves of white. */
  lemma ServableOverAnything(c: Curve, ink: real)
    requires IsCurve(c) && Clear(ink) && IsLight(ink)
    ensures (forall g :: Bare(g) ==> Servable(c, Lettering(ink, g))) <==> Room(c, ink) >= 1.0 - LOCAL_MAX
  {
    if Room(c, ink) >= 1.0 - LOCAL_MAX {
      BlackIsZero(c);
      forall g | Bare(g) ensures Servable(c, Lettering(ink, g)) {
        NeededFromBare(c, ink, g, 0.0, g.bright);
        KeepsEnough(Room(c, ink), Fade(g.bright, 0.0));
      }
    } else {
      var white := Ground(1.0, 0.0);
      NeededFromBare(c, ink, white, 0.0, 1.0);
      assert Keep(Room(c, ink), Fade(1.0, 0.0)) == Room(c, ink);
      assert !Servable(c, Lettering(ink, white));
    }
  }

  /** On photographs the brand's own ink is kept from a luminance of 0.3 on, and white taken below. */
  lemma InkPhotoExactly(ink: real)
    requires Unit(ink)
    ensures InkPhoto(ink) == if ink >= 0.3 then ink else 1.0
  {
    ReadsAtLeastExactly(ink, 0.0, 7.0);
  }

  lemma InkPhotoHasRoom(c: Curve, ink: real)
    requires IsCurve(c) && LiftsTheDark(c) && Unit(ink)
    ensures var i := InkPhoto(ink); Clear(i) && IsLight(i) && Room(c, i) >= 1.0 - LOCAL_MAX
  {
    QuotientReaches(ink + 0.05, 0.05, 7.0);
    var limit := Limit(InkPhoto(ink), TEXT_CONTRAST);
    LimitIsReached(InkPhoto(ink), TEXT_CONTRAST);
    EncodesInOrder(c, 0.022, Clamp(limit));
  }

  /** The ink chosen for photographs can be served over every photograph. */
  lemma InkPhotoIsServable(c: Curve, ink: real, g: Ground)
    requires IsCurve(c) && LiftsTheDark(c) && Unit(ink) && Bare(g)
    ensures IsLight(InkPhoto(ink)) && Servable(c, Lettering(InkPhoto(ink), g))
  {
    InkPhotoHasRoom(c, ink);
    ServableOverAnything(c, InkPhoto(ink));
  }

  // ------------------------------------------------------------------ blocks, by index

  /** words = [i for i in inks if i is not the pill] */
  function Words(inks: seq<Type>): (words: seq<Type>)
    ensures forall w :: w in words <==> w in inks && w.cls != Cta
  {
    if inks == [] then []
    else
      var rest := Words(inks[1..]);
      if inks[0].cls == Cta then rest else [inks[0]] + rest
  }

  function IndexOf(inks: seq<Type>, w: Type): (i: nat)
    ensures w in inks ==> i < |inks| && inks[i] == w
  {
    if inks == [] || inks[0] == w then 0 else 1 + IndexOf(inks[1..], w)
  }

  function Indices(inks: seq<Type>, group: seq<Type>): (r: seq<nat>)
    ensures |r| == |group|
    ensures forall k :: 0 <= k < |group| ==> r[k] == IndexOf(inks, group[k])
  {
    seq(|group|, k requires 0 <= k < |group| => IndexOf(inks, group[k]))
  }

  /** The blocks the loop lays its plates under, each word by its place among the inks. */
  function BlocksOf(inks: seq<Type>, width: int): (r: seq<seq<nat>>)
    ensures var groups := Plates.ClustersOf(Words(inks), width);
            |r| == |groups| && forall n :: 0 <= n < |groups| ==> r[n] == Indices(inks, groups[n])
  {
    var groups := Plates.ClustersOf(Words(inks), width);
    seq(|groups|, n requires 0 <= n < |groups| => Indices(inks, groups[n]))
  }

  lemma BlocksAreClusters(inks: seq<Type>, width: int, n: nat, k: nat)
    requires n < |BlocksOf(inks, width)| && k < |BlocksOf(inks, width)[n]|
    ensures var groups, i := Plates.ClustersOf(Words(inks), width), BlocksOf(inks, width)[n][k];
            && k < |groups[n]| && i < |inks| && inks[i] == groups[n][k] && inks[i].cls != Cta
            && BlocksOf(inks, width)[n][0] == IndexOf(inks, groups[n][0]) < |inks|
            && inks[BlocksOf(inks, width)[n][0]] == groups[n][0]
  {
    var words := Words(inks);
    var groups: seq<seq<Type>> := Plates.ClustersOf(words, width);
    Plates.GroupedFrom(words, width, n);
    assert groups[n][k] in groups[n] && groups[n][0] in groups[n];
  }

  /** The words of a block are all set in one ink, on every layout whose inks stand apart. */
  lemma BlocksAreOneInk(inks: seq<Type>, width: int, n: nat, k: nat)
    requires width >= 0 && Plates.Proper(inks) && Plates.InksApart(Words(inks), width as real * Plates.CLUSTER_GAP)
    requires n < |BlocksOf(inks, width)| && k < |BlocksOf(inks, width)[n]|
    ensures var block := BlocksOf(inks, width)[n];
            block[k] < |inks| && block[0] < |inks| && inks[block[k]].luminance == inks[block[0]].luminance
  {
    BlocksAreClusters(inks, width, n, k);
    Plates.ClustersAreOneInk(Words(inks), width);
  }

  // ------------------------------------------------------------------ every word, once

  /** Each element is on the page once. */
  predicate Distinct(inks: seq<Type>) {
    forall i, j :: 0 <= i < j < |inks| ==> inks[i].cls != inks[j].cls
  }

  lemma {:induction false} FromFlat(groups: seq<seq<Type>>, w: Type) returns (n: nat, k: nat)
    requires w in Plates.Flat(groups)
    ensures n < |groups| && k < |groups[n]| && groups[n][k] == w
  {
    if w in groups[0] {
      n := 0;
      k :| 0 <= k < |groups[0]| && groups[0][k] == w;
    } else {
      n, k := FromFlat(groups[1..], w);
      n := n + 1;
    }
  }

  lemma EveryWordIsInABlock(inks: seq<Type>, width: int, i: nat)
    requires Distinct(inks) && i < |inks| && inks[i].cls != Cta
    ensures Grouped(BlocksOf(inks, width), i)
  {
    var groups := Plates.ClustersOf(Words(inks), width);
    Plates.ClustersPartition(Words(inks), width);
    assert inks[i] in multiset(Plates.Flat(groups));
    var n, k := FromFlat(groups, inks[i]);
    assert BlocksOf(inks, width)[n][k] == IndexOf(inks, inks[i]) == i;
  }

  lemma {:induction false} TwiceInFlat(groups: seq<seq<Type>>, n: nat, m: nat, w: Type)
    requires n < m < |groups| && w in groups[n] && w in groups[m]
    ensures multiset(Plates.Flat(groups))[w] >= 2
  {
    if n == 0 {
      Plates.InFlat(groups[1..], m - 1, w);
    } else {
      TwiceInFlat(groups[1..], n - 1, m - 1, w);
    }
  }

  lemma {:induction false} WordsOnce(inks: seq<Type>, w: Type)
    requires Distinct(inks)
    ensures multiset(Words(inks))[w] <= 1
  {
    if inks != [] {
      WordsOnce(inks[1..], w);
      assert inks == [inks[0]] + inks[1..];
      assert w == inks[0] ==> w !in Words(inks[1..]);
    }
  }

  lemma InOneBlockOnly(inks: seq<Type>, width: int, n: nat, m: nat, w: Type)
    requires var groups := Plates.ClustersOf(Words(inks), width);
             Distinct(inks) && n < |groups| && m < |groups| && w in groups[n] && w in groups[m]
    ensures n == m
  {
    var groups := Plates.ClustersOf(Words(inks), width);
    Plates.ClustersPartition(Words(inks), width);
    WordsOnce(inks, w);
    if n < m { TwiceInFlat(groups, n, m, w); }
    if m < n { TwiceInFlat(groups, m, n, w); }
  }

  /** Which block a word is in. */
  function BlockOf(blocks: seq<seq<nat>>, i: nat): nat {
    if blocks == [] || i in blocks[0] then 0 else 1 + BlockOf(blocks[1..], i)
  }

  lemma {:induction false} FirstBlock(blocks: seq<seq<nat>>, n: nat, i: nat)
    requires n < |blocks| && i in blocks[n]
    ensures BlockOf(blocks, i) <= n && i in blocks[BlockOf(blocks, i)]
  {
    if i !in blocks[0] { FirstBlock(blocks[1..], n - 1, i); }
  }

  // ------------------------------------------------------------------ the full-bleed layouts

  /** All the words in one ink chosen for photographs, over grounds of any kind. */
  ghost predicate FullBleed(inks: seq<Type>, letters: seq<Lettering>, brand: real) {
    && Unit(brand) && Distinct(inks) && |letters| == |inks|
    && forall i :: 0 <= i < |inks| && inks[i].cls != Cta ==>
         letters[i].ink == InkPhoto(brand) && Bare(letters[i].ground)
  }

  lemma FullBleedIsOneTone(c: Curve, inks: seq<Type>, letters: seq<Lettering>, brand: real, width: int, n: nat)
    requires IsCurve(c) && LiftsTheDark(c) && FullBleed(inks, letters, brand) && n < |BlocksOf(inks, width)|
    ensures OneTone(c, letters, BlocksOf(inks, width)[n])
  {
    var block := BlocksOf(inks, width)[n];
    forall k | 0 <= k < |block|
      ensures block[k] < |letters| && block[0] < |letters| && Servable(c, letters[block[k]])
              && letters[block[k]].ink == letters[block[0]].ink
    {
      BlocksAreClusters(inks, width, n, k);
      BlocksAreClusters(inks, width, n, 0);
      InkPhotoIsServable(c, brand, letters[block[k]].ground);
    }
  }

  /** Every word whose plate, pulled off the product if there is one, lies under the whole of it is
      photographed over that plate in every round. Of the others nothing is said. */
  ghost predicate PhotographedAround(p: Page, c: Curve, inks: seq<Type>, letters: seq<Lettering>, width: int,
                                     product: Option<Box>)
    requires IsCurve(c)
  {
    var blocks, groups := BlocksOf(inks, width), Plates.ClustersOf(Words(inks), width);
    forall r: nat, n: nat, k: nat :: r <= LEGIBILITY_ROUNDS && n < |blocks| && k < |blocks[n]| ==>
      Within(groups[n][k].box, Plates.PlateOf(groups[n], width, product)) ==> RenderedAt(p, c, letters, blocks, r, n, k)
  }

  /** The block stands on one side of the product. */
  ghost predicate OnOneSide(group: seq<Type>, product: Option<Box>) {
    product.None? || exists side :: Plates.AllStandClear(side, group, product.value)
  }

  /** Word i is in a block the product notches. */
  ghost predicate Notched(inks: seq<Type>, width: int, product: Option<Box>, i: nat) {
    exists n :: 0 <= n < |BlocksOf(inks, width)| && i in BlocksOf(inks, width)[n]
                && !OnOneSide(Plates.ClustersOf(Words(inks), width)[n], product)
  }

  lemma WhollyPlated(inks: seq<Type>, width: int, product: Option<Box>, n: nat, k: nat)
    requires var groups := Plates.ClustersOf(Words(inks), width);
             width >= 0 && n < |groups| && k < |groups[n]| && OnOneSide(groups[n], product)
    ensures var group := Plates.ClustersOf(Words(inks), width)[n];
            Within(group[k].box, Plates.PlateOf(group, width, product))
  {
    var group := Plates.ClustersOf(Words(inks), width)[n];
    match product
    case None => Plates.PlateCoversExactly(group, width, product);
    case Some(box) => Plates.CoversOnOneSideExactly(group, width, box);
  }

  lemma RescuedUnlessNotched(p: Page, c: Curve, inks: seq<Type>, letters: seq<Lettering>, brand: real, width: int,
                             product: Option<Box>, round: nat, i: nat)
    requires IsCurve(c) && Gentle(c) && LiftsTheDark(c) && FullBleed(inks, letters, brand) && width >= 0
    requires NeedsInRange(p) && PhotographedAround(p, c, inks, letters, width, product)
    requires 1 <= round <= LEGIBILITY_ROUNDS && i < |inks| && inks[i].cls != Cta
    ensures Short(p, round, i) ==> Notched(inks, width, product, i)
  {
    var blocks := BlocksOf(inks, width);
    EveryWordIsInABlock(inks, width, i);
    var n, k :| 0 <= n < |blocks| && 0 <= k < |blocks[n]| && blocks[n][k] == i;
    if OnOneSide(Plates.ClustersOf(Words(inks), width)[n], product) {
      WhollyPlated(inks, width, product, n, k);
      FullBleedIsOneTone(c, inks, letters, brand, width, n);
      assert RenderedAt(p, c, letters, blocks, round - 1, n, k) && RenderedAt(p, c, letters, blocks, round, n, k);
      OneRoundServes(p, c, letters, blocks, round, n, k);
    }
  }

  /** On a full-bleed layout, whatever the photograph, the brand's ink, the words, where they stand
      and the product set among them: after the first round of plates no word is short but in a
      block the product notches, and a frame is refused over such a word, its pill or its mark
      alone. Without a product, or with every block on one side of it, over pill or mark alone. */
  lemma FullBleedWordsAreRescued(p: Page, c: Curve, inks: seq<Type>, letters: seq<Lettering>, brand: real, width: int,
                                 product: Option<Box>)
    requires IsCurve(c) && Gentle(c) && LiftsTheDark(c) && FullBleed(inks, letters, brand) && width >= 0
    requires p.inks == seq(|inks|, i requires 0 <= i < |inks| => inks[i].cls)
    requires NeedsInRange(p) && PhotographedAround(p, c, inks, letters, width, product)
    ensures var blocks := BlocksOf(inks, width);
            var out := LegibleFrom(p, blocks, 0, NothingLaid(blocks));
            && (forall round: nat, i: nat ::
                  1 <= round <= LEGIBILITY_ROUNDS && i < |inks| && inks[i].cls != Cta && Short(p, round, i) ==>
                    Notched(inks, width, product, i))
            && (out.Refused? ==> forall i :: 0 <= i < Elements(p) && Short(p, out.round, i) ==>
                  IsPill(p, i) || i == |p.inks| || Notched(inks, width, product, i))
  {
    var blocks := BlocksOf(inks, width);
    LegibleOrRefused(p, blocks);
    forall round: nat, i: nat | 1 <= round <= LEGIBILITY_ROUNDS && i < |inks| && inks[i].cls != Cta
                                && Short(p, round, i)
      ensures Notched(inks, width, product, i)
    {
      RescuedUnlessNotched(p, c, inks, letters, brand, width, product, round, i);
    }
  }

  /** A curve of two straight pieces, steep where it is dark, with all that is asked of sRGB's. */
  const BENT := Curve(x => if x <= 0.1 then 5.5 * x else 0.5 + 0.5 * x,
                      y => if y <= 0.55 then y / 5.5 else 2.0 * y - 1.0)

  lemma BentIsCurve()
    ensures IsCurve(BENT) && Gentle(BENT) && LiftsTheDark(BENT)
  {
    assert forall x {:trigger UndoneAt(BENT, x)} :: UndoneAt(BENT, x);
    assert forall x, y {:trigger RisesFrom(BENT, x, y)} :: RisesFrom(BENT, x, y);
  }

  /** And for every such layout and photograph, product or none, there is a page that measures it. */
  lemma FullBleedHasItsPage(c: Curve, inks: seq<Type>, letters: seq<Lettering>, brand: real, width: int, logo: Logo,
                            against: Colour, product: Option<Box>) returns (p: Page)
    requires IsCurve(c) && FullBleed(inks, letters, brand)
    ensures p.inks == seq(|inks|, i requires 0 <= i < |inks| => inks[i].cls) && p.logo == logo && p.against == against
    ensures NeedsInRange(p) && Photographed(p, c, letters, BlocksOf(inks, width))
    ensures PhotographedAround(p, c, inks, letters, width, product)
  {
    var blocks := BlocksOf(inks, width);
    var owner := (i: nat) => BlockOf(blocks, i);
    forall n: nat, k: nat | n < |blocks| && k < |blocks[n]| ensures InItsGroup(letters, owner, blocks[n][k], n) {
      OwnedByItsBlock(inks, width, n, k);
      BlocksAreClusters(inks, width, n, k);
    }
    p := EveryLayoutHasItsPage(c, letters, blocks, owner, seq(|inks|, i requires 0 <= i < |inks| => inks[i].cls),
                               logo, against);
  }

  lemma OwnedByItsBlock(inks: seq<Type>, width: int, n: nat, k: nat)
    requires Distinct(inks) && n < |BlocksOf(inks, width)| && k < |BlocksOf(inks, width)[n]|
    ensures BlockOf(BlocksOf(inks, width), BlocksOf(inks, width)[n][k]) == n
  {
    var blocks := BlocksOf(inks, width);
    var groups: seq<seq<Type>> := Plates.ClustersOf(Words(inks), width);
    var i := blocks[n][k];
    FirstBlock(blocks, n, i);
    var m := BlockOf(blocks, i);
    var j :| 0 <= j < |blocks[m]| && blocks[m][j] == i;
    BlocksAreClusters(inks, width, n, k);
    BlocksAreClusters(inks, width, m, j);
    assert inks[i] in groups[n] && inks[i] in groups[m];
    InOneBlockOnly(inks, width, n, m, inks[i]);
  }
}
