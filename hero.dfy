/**
 * The home page's hero section (frontend/src/app/components/HeroPage.jsx):
 * the slide carousel's index arithmetic and the two product strips chosen
 * from the product list, best sellers and premium products. Fetching the
 * list, the five-second timer and the rendering are left out; the timer's
 * tick is the Tick action.
 */
module Hero {
  import opened Text
  import opened Seqs
  import opened Listings

  /** The carousel has four slides. */
  const SlideCount := 4

  /** JavaScript's `%`, whose remainder takes the sign of the dividend. */
  function JsRem(a: int, n: int): (r: int)
    requires n > 0
    ensures a >= 0 ==> 0 <= r < n && r == a % n
    ensures -n < r < n
  {
    if a >= 0 then a % n else -((-a) % n)
  }

  /** The auto-advance step `(prev + 1) % slides.length`. */
  function AutoAdvance(prev: int): int
  {
    JsRem(prev + 1, SlideCount)
  }

  /** changeSlide: step by `direction`, wrapping below 0 to the last slide and past the last to the first. */
  function ChangeSlide(prev: int, direction: int): int
  {
    var next := prev + direction;
    if next < 0 then SlideCount - 1 else if next >= SlideCount then 0 else next
  }

  /** goToSlide: the dot's index. */
  function GoToSlide(index: int): int
  {
    index
  }

  /**
   * The arrows keep an index in range and wrap at both ends; the forward arrow
   * agrees with the timer, and the back arrow undoes it.
   */
  lemma ChangeSlideSpec(prev: int)
    requires 0 <= prev < SlideCount
    ensures 0 <= ChangeSlide(prev, 1) < SlideCount && 0 <= ChangeSlide(prev, -1) < SlideCount
    ensures prev == 0 ==> ChangeSlide(prev, -1) == SlideCount - 1
    ensures prev == SlideCount - 1 ==> ChangeSlide(prev, 1) == 0
    ensures ChangeSlide(prev, 1) == AutoAdvance(prev)
    ensures ChangeSlide(ChangeSlide(prev, 1), -1) == prev && ChangeSlide(ChangeSlide(prev, -1), 1) == prev
  {
  }

  /** What can move the carousel: the arrows, the timer and the dots. */
  datatype SlideAction = Back | Forward | Tick | Dot(index: int)

  function Step(prev: int, a: SlideAction): int
  {
    match a
    case Back => ChangeSlide(prev, -1)
    case Forward => ChangeSlide(prev, 1)
    case Tick => AutoAdvance(prev)
    case Dot(i) => GoToSlide(i)
  }

  function Run(start: int, actions: seq<SlideAction>): int
    decreases |actions|
  {
    if actions == [] then start else Run(Step(start, actions[0]), actions[1..])
  }

  /** The dots are one per slide, so their indices are in range. */
  predicate DotsInRange(actions: seq<SlideAction>)
  {
    forall k :: 0 <= k < |actions| && actions[k].Dot? ==> 0 <= actions[k].index < SlideCount
  }

  /** Whatever the visitor and the timer do, the carousel shows one of its slides, starting from slide 0. */
  lemma {:induction false} RunStaysInRange(start: int, actions: seq<SlideAction>)
    requires 0 <= start < SlideCount && DotsInRange(actions)
    ensures 0 <= Run(start, actions) < SlideCount
    decreases |actions|
  {
    if actions != [] {
      RunStaysInRange(Step(start, actions[0]), actions[1..]);
    }
  }

  /** `n` timer ticks move the carousel `n` slides on, cyclically. */
  lemma {:induction false} TicksRotate(start: int, n: nat)
    requires 0 <= start < SlideCount
    ensures Run(start, seq(n, _ => Tick)) == (start + n) % SlideCount
    decreases n
  {
    if n > 0 {
      var ticks := seq(n, _ => Tick);
      assert ticks[0] == Tick;
      assert ticks[1..] == seq(n - 1, _ => Tick);
      var next := AutoAdvance(start);
      assert next == if start == SlideCount - 1 then 0 else start + 1;
      assert Run(start, ticks) == Run(next, ticks[1..]);
      TicksRotate(next, n - 1);
      if start == SlideCount - 1 {
        assert start + n == (n - 1) + SlideCount;
      }
    }
  }

  // ---------------------------------------------------------------- product strips

  function Reviews(p: Listing): int
  {
    p.reviews
  }

  function Price(p: Listing): int
  {
    p.price
  }

  /** The first `n` qualifying products by descending key (JavaScript's sort is stable; so is SortDesc). */
  function TopBy(products: seq<Listing>, keep: Listing -> bool, key: Listing -> int, n: nat): seq<Listing>
  {
    Take(SortDesc(Filter(products, keep), key), n)
  }

  /**
   * A strip holds min(n, number of qualifying products) products, all of them
   * qualifying products of the list, in descending key order, and no
   * qualifying product left out has a larger key than one shown.
   */
  lemma TopBySpec(products: seq<Listing>, keep: Listing -> bool, key: Listing -> int, n: nat)
    ensures var r := TopBy(products, keep, key, n);
            var m := |Filter(products, keep)|;
            && |r| == (if m < n then m else n)
            && (forall p :: p in r ==> keep(p) && p in products)
            && SortedDesc(r, key)
            && (forall q, p :: q in products && keep(q) && q !in r && p in r ==> key(p) >= key(q))
  {
    var sorted := SortDesc(Filter(products, keep), key);
    TopFromList(products, keep, sorted, n);
    TakeSortedIsTop(sorted, key, n);
    TopBeatsLeftOut(products, keep, key, sorted, n);
  }

  /** What the sorted filtered list holds comes from the list and qualifies. */
  lemma TopFromList(products: seq<Listing>, keep: Listing -> bool, sorted: seq<Listing>, n: nat)
    requires multiset(sorted) == multiset(Filter(products, keep))
    ensures forall p :: p in Take(sorted, n) ==> keep(p) && p in products
  {
    var r := Take(sorted, n);
    forall i | 0 <= i < |r|
      ensures keep(r[i]) && r[i] in products
    {
      assert r[i] == sorted[i];
      assert r[i] in multiset(sorted);
    }
  }

  /** A qualifying product that was not taken sits after every taken one, so its key is no larger. */
  lemma TopBeatsLeftOut(products: seq<Listing>, keep: Listing -> bool, key: Listing -> int, sorted: seq<Listing>, n: nat)
    requires multiset(sorted) == multiset(Filter(products, keep))
    requires forall i, j :: 0 <= i < |Take(sorted, n)| <= j < |sorted| ==> key(Take(sorted, n)[i]) >= key(sorted[j])
    ensures forall q, p :: q in products && keep(q) && q !in Take(sorted, n) && p in Take(sorted, n) ==> key(p) >= key(q)
  {
    var r := Take(sorted, n);
    forall q, p | q in products && keep(q) && q !in r && p in r
      ensures key(p) >= key(q)
    {
      var i :| 0 <= i < |r| && r[i] == p;
      assert q in Filter(products, keep);
      assert q in multiset(sorted);
      var j :| 0 <= j < |sorted| && sorted[j] == q;
      assert j >= |r|;
    }
  }

  /** The best-seller strip: displayable products, most reviewed first, at most six. */
  function BestSellers(products: seq<Listing>): seq<Listing>
  {
    TopBy(products, Displayable, Reviews, 6)
  }

  /** The category test of the premium strip, on the lower-cased category. */
  predicate PremiumCategory(p: Listing)
  {
    var c := ToLower(p.category);
    Contains(c, "decorative") || Contains(c, "furniture") || Contains(c, "candle") || Contains(c, "houseware")
  }

  predicate Premium(p: Listing)
  {
    Displayable(p) && PremiumCategory(p)
  }

  /** The premium strip: displayable products in the four categories, most expensive first, at most four. */
  function PremiumProducts(products: seq<Listing>): seq<Listing>
  {
    TopBy(products, Premium, Price, 4)
  }

  /**
   * At most six best sellers, six whenever six products are displayable;
   * each is a displayable product of the list; most reviewed first; no
   * displayable product left out has more reviews than one shown.
   */
  lemma BestSellersSpec(products: seq<Listing>)
    ensures |BestSellers(products)| <= 6
    ensures |Filter(products, Displayable)| >= 6 ==> |BestSellers(products)| == 6
    ensures forall p :: p in BestSellers(products) ==> Displayable(p) && p in products
    ensures SortedDesc(BestSellers(products), Reviews)
    ensures forall q, p :: q in products && Displayable(q) && q !in BestSellers(products) && p in BestSellers(products) ==>
              Reviews(p) >= Reviews(q)
  {
    TopBySpec(products, Displayable, Reviews, 6);
  }

  /**
   * At most four premium products, four whenever four qualify; each is a
   * displayable product of the list in one of the four categories; most
   * expensive first; no qualifying product left out costs more than one shown.
   */
  lemma PremiumProductsSpec(products: seq<Listing>)
    ensures |PremiumProducts(products)| <= 4
    ensures |Filter(products, Premium)| >= 4 ==> |PremiumProducts(products)| == 4
    ensures forall p :: p in PremiumProducts(products) ==> Displayable(p) && PremiumCategory(p) && p in products
    ensures SortedDesc(PremiumProducts(products), Price)
    ensures forall q, p :: q in products && Premium(q) && q !in PremiumProducts(products) && p in PremiumProducts(products) ==>
              Price(p) >= Price(q)
  {
    TopBySpec(products, Premium, Price, 4);
  }

  /** The category test ignores letter case, as the page lower-cases the category first. */
  lemma PremiumCategoryIgnoresCase(p: Listing)
    ensures PremiumCategory(p.(category := ToLower(p.category))) == PremiumCategory(p)
  {
    ToLowerIdempotent(p.category);
  }
}
