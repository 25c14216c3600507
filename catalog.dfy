/**
 * The product catalog of the pottery shop API: a fixed list of products, the
 * `/api/products` listing with its optional type and price filters, and the
 * `/api/products/{slug}` lookup.
 */
module Catalog {
  import opened Wrappers
  import opened Text
  import opened Subsequences

  /**
   * A catalog entry. `kind` is the record's `type` field (a reserved word in Dafny).
   * Prices are real numbers: the API only ever compares them.
   */
  datatype Product = Product(
    slug: string,
    title: string,
    description: string,
    price: real,
    kind: string,
    image: string)

  // The built-in catalog's products.
  const TerraMug := Product("terra-mug", "Terra Mug",
    "Hand-thrown stoneware mug with a warm terracotta glaze.", 28.0, "mug",
    "https://images.unsplash.com/photo-1529107386315-e1a2ed48a620?q=80&w=1600&auto=format&fit=crop")
  const OliveBowl := Product("olive-bowl", "Olive Bowl",
    "Muted olive glaze with a subtle matte finish.", 34.0, "bowl",
    "https://images.unsplash.com/photo-1533321942807-08e8a5f1a3f9?q=80&w=1600&auto=format&fit=crop")
  const BeigePlate := Product("beige-plate", "Beige Dinner Plate",
    "Warm beige plate with light speckle texture.", 42.0, "plate",
    "https://images.unsplash.com/photo-1549880338-65ddcdfd017b?q=80&w=1600&auto=format&fit=crop")
  const ClayVase := Product("clay-vase", "Clay Vase",
    "Elegant tall vase inspired by natural forms.", 68.0, "vase",
    "https://images.unsplash.com/photo-1519710164239-da123dc03ef4?q=80&w=1600&auto=format&fit=crop")
  const WheelMug := Product("wheel-mug", "Wheel Mug",
    "Classic wheel-thrown mug with ergonomic handle.", 26.0, "mug",
    "https://images.unsplash.com/photo-1522335789203-aabd1fc54bc9?q=80&w=1600&auto=format&fit=crop")
  const SandBowl := Product("sand-bowl", "Sand Bowl",
    "Neutral sand-toned bowl for everyday use.", 30.0, "bowl",
    "https://images.unsplash.com/photo-1519710164239-da123dc03ef4?q=80&w=1600&auto=format&fit=crop")
  const HorizonPlate := Product("horizon-plate", "Horizon Plate",
    "Wide rim plate with horizon gradient glaze.", 48.0, "plate",
    "https://images.unsplash.com/photo-1515543237350-b3eea1ec8082?q=80&w=1600&auto=format&fit=crop")
  const UrbanVase := Product("urban-vase", "Urban Vase",
    "Minimalist vase with soft clay brown finish.", 72.0, "vase",
    "https://images.unsplash.com/photo-1512203492609-8f7f6db6c9f9?q=80&w=1600&auto=format&fit=crop")

  /** The built-in catalog, in its fixed order. Slugs are meant to be unique. */
  const SampleProducts: seq<Product> := [
    TerraMug, OliveBowl, BeigePlate, ClayVase,
    WheelMug, SandBowl, HorizonPlate, UrbanVase
  ]

  // ---------------------------------------------------------------------------
  // Listing
  // ---------------------------------------------------------------------------

  /** The query parameters of the listing: `type`, `minPrice` and `maxPrice`, each optional. */
  datatype Query = Query(kind: Option<string>, minPrice: Option<real>, maxPrice: Option<real>)

  /** The `type` filter runs only when the parameter is truthy: absent and "" both switch it off. */
  predicate KindFilterActive(q: Query) {
    q.kind.Some? && q.kind.value != ""
  }

  /** The price bounds run whenever they are present, a bound of 0 included. */
  predicate NoFilters(q: Query) {
    !KindFilterActive(q) && q.minPrice.None? && q.maxPrice.None?
  }

  /** What a listed product must satisfy: every active filter, combined with AND. */
  predicate Matches(p: Product, q: Query) {
    && (KindFilterActive(q) ==> Lower(p.kind) == Lower(q.kind.value))
    && (q.minPrice.Some? ==> p.price >= q.minPrice.value)
    && (q.maxPrice.Some? ==> p.price <= q.maxPrice.value)
  }

  /** The condition of one list comprehension of the listing. */
  datatype Criterion = KindIs(kind: string) | PriceAtLeast(bound: real) | PriceAtMost(bound: real)

  predicate Satisfies(p: Product, c: Criterion) {
    match c
    case KindIs(k) => Lower(p.kind) == Lower(k)
    case PriceAtLeast(b) => p.price >= b
    case PriceAtMost(b) => p.price <= b
  }

  /** `[p for p in s if c(p)]`: the products of `s` that satisfy `c`, in order, with all their copies. */
  function Keep(s: seq<Product>, c: Criterion): (r: seq<Product>)
    ensures |r| <= |s|
  {
    if s == [] then []
    else (if Satisfies(s[0], c) then [s[0]] else []) + Keep(s[1..], c)
  }

  /** Each comprehension keeps only products that satisfy its condition. */
  lemma {:induction false} KeepSound(s: seq<Product>, c: Criterion)
    ensures forall i :: 0 <= i < |Keep(s, c)| ==> Satisfies(Keep(s, c)[i], c)
  {
    if s != [] {
      KeepSound(s[1..], c);
      var head := if Satisfies(s[0], c) then [s[0]] else [];
      forall i | |head| <= i < |Keep(s, c)|
        ensures Satisfies(Keep(s, c)[i], c)
      {
        assert Keep(s, c)[i] == Keep(s[1..], c)[i - |head|];
      }
    }
  }

  /** Each comprehension keeps every copy of each product that satisfies its condition. */
  lemma {:induction false} KeepCounts(s: seq<Product>, c: Criterion)
    ensures forall p :: multiset(Keep(s, c))[p] == if Satisfies(p, c) then multiset(s)[p] else 0
  {
    if s != [] {
      KeepCounts(s[1..], c);
      assert s == [s[0]] + s[1..];
    }
  }

  /** Each comprehension keeps the catalog order. */
  lemma {:induction false} KeepInOrder(s: seq<Product>, c: Criterion)
    ensures SubsequenceOf(Keep(s, c), s)
  {
    if s != [] {
      KeepInOrder(s[1..], c);
      if Satisfies(s[0], c) {
        var r := Keep(s, c);
        assert r == [s[0]] + Keep(s[1..], c);
        assert r[0] == s[0] && r[1..] == Keep(s[1..], c);
        assert SubsequenceOf(r[1..], s[1..]);
      } else {
        assert Keep(s, c) == Keep(s[1..], c);
      }
    }
  }

  /** `GET /api/products`: the three filters applied in turn to the catalog. */
  function ListProducts(catalog: seq<Product>, q: Query): (r: seq<Product>)
    ensures |r| <= |catalog|
  {
    var byKind := if KindFilterActive(q) then Keep(catalog, KindIs(q.kind.value)) else catalog;
    var byMin := if q.minPrice.Some? then Keep(byKind, PriceAtLeast(q.minPrice.value)) else byKind;
    if q.maxPrice.Some? then Keep(byMin, PriceAtMost(q.maxPrice.value)) else byMin
  }

  /**
   * `r` is what a listing by `q` should give on `s`: the products of `s` that match `q`,
   * every copy of each, in the order of `s`.
   */
  ghost predicate Selects(r: seq<Product>, s: seq<Product>, q: Query) {
    && SubsequenceOf(r, s)
    && forall p :: multiset(r)[p] == if Matches(p, q) then multiset(s)[p] else 0
  }

  /** Two listings that both select by `q` from `s` are equal. */
  lemma SelectsUnique(r1: seq<Product>, r2: seq<Product>, s: seq<Product>, q: Query)
    requires Selects(r1, s, q) && Selects(r2, s, q)
    ensures r1 == r2
  {
    assert multiset(r1) == multiset(r2);
    SelectionUnique(r1, r2, s);
  }

  /**
   * Soundness, completeness and order of the listing: every listed product matches every
   * active filter, every catalog product that matches is listed (as often as it occurs),
   * and the listing is a sub-sequence of the catalog.
   */
  lemma ListProductsSelects(catalog: seq<Product>, q: Query)
    ensures forall i :: 0 <= i < |ListProducts(catalog, q)| ==> Matches(ListProducts(catalog, q)[i], q)
    ensures forall p :: p in catalog && Matches(p, q) ==> p in ListProducts(catalog, q)
    ensures Selects(ListProducts(catalog, q), catalog, q)
  {
    var r := ListProducts(catalog, q);
    var order := [KindStage, MinPriceStage, MaxPriceStage];
    ListProductsInStages(catalog, q);
    ApplyStagesSelects(catalog, q, order);
    forall p
      ensures PassesAll(p, q, order) == Matches(p, q)
    {
      PassesListingOrder(p, q);
    }
    forall i | 0 <= i < |r|
      ensures Matches(r[i], q)
    {
      assert multiset(r)[r[i]] > 0;
    }
    forall p | p in catalog && Matches(p, q)
      ensures p in r
    {
      assert multiset(r)[p] == multiset(catalog)[p] > 0;
    }
  }

  /** The listing is the whole catalog, unchanged, exactly when every catalog product matches. */
  lemma ListAllIffAllMatch(catalog: seq<Product>, q: Query)
    ensures ListProducts(catalog, q) == catalog <==> forall i :: 0 <= i < |catalog| ==> Matches(catalog[i], q)
  {
    ListProductsSelects(catalog, q);
    if forall i :: 0 <= i < |catalog| ==> Matches(catalog[i], q) {
      SubsequenceRefl(catalog);
      forall p
        ensures multiset(catalog)[p] == if Matches(p, q) then multiset(catalog)[p] else 0
      {
        if p in catalog {
          var i :| 0 <= i < |catalog| && catalog[i] == p;
        }
      }
      SelectsUnique(ListProducts(catalog, q), catalog, catalog, q);
    }
  }

  /** With no active filter the listing is the catalog itself, in the same order. */
  lemma NoFiltersListsCatalog(catalog: seq<Product>, q: Query)
    requires NoFilters(q)
    ensures ListProducts(catalog, q) == catalog
  {
    ListAllIffAllMatch(catalog, q);
  }

  /** An empty `type` is no filter at all: it lists the same as an absent one. */
  lemma EmptyKindIgnored(catalog: seq<Product>, minPrice: Option<real>, maxPrice: Option<real>)
    ensures ListProducts(catalog, Query(Some(""), minPrice, maxPrice)) == ListProducts(catalog, Query(None, minPrice, maxPrice))
  {
  }

  /** Listing a listing again with the same filters changes nothing. */
  lemma ListProductsIdempotent(catalog: seq<Product>, q: Query)
    ensures ListProducts(ListProducts(catalog, q), q) == ListProducts(catalog, q)
  {
    var r := ListProducts(catalog, q);
    var rr := ListProducts(r, q);
    ListProductsSelects(catalog, q);
    ListProductsSelects(r, q);
    SubsequenceTrans(rr, r, catalog);
    forall p
      ensures multiset(rr)[p] == if Matches(p, q) then multiset(catalog)[p] else 0
    {
    }
    SelectsUnique(rr, r, catalog, q);
  }

  // ---------------------------------------------------------------------------
  // The order of the filters
  // ---------------------------------------------------------------------------

  /** One of the three filtering steps of the listing. */
  datatype Stage = KindStage | MinPriceStage | MaxPriceStage

  /** The criterion a stage applies under `q`, or None when its parameter switches it off. */
  function StageCriterion(q: Query, st: Stage): Option<Criterion> {
    match st
    case KindStage => if KindFilterActive(q) then Some(KindIs(q.kind.value)) else None
    case MinPriceStage => if q.minPrice.Some? then Some(PriceAtLeast(q.minPrice.value)) else None
    case MaxPriceStage => if q.maxPrice.Some? then Some(PriceAtMost(q.maxPrice.value)) else None
  }

  predicate PassesStage(p: Product, q: Query, st: Stage) {
    StageCriterion(q, st).None? || Satisfies(p, StageCriterion(q, st).value)
  }

  predicate PassesAll(p: Product, q: Query, order: seq<Stage>) {
    forall i :: 0 <= i < |order| ==> PassesStage(p, q, order[i])
  }

  function ApplyStage(s: seq<Product>, q: Query, st: Stage): seq<Product> {
    match StageCriterion(q, st)
    case None => s
    case Some(c) => Keep(s, c)
  }

  /** The listing's stages run in the given order, each possibly several times. */
  function ApplyStages(s: seq<Product>, q: Query, order: seq<Stage>): seq<Product>
    decreases |order|
  {
    if order == [] then s else ApplyStages(ApplyStage(s, q, order[0]), q, order[1..])
  }

  /** The listing runs the kind, minimum and maximum stages, in that order. */
  lemma ListProductsInStages(catalog: seq<Product>, q: Query)
    ensures ListProducts(catalog, q) == ApplyStages(catalog, q, [KindStage, MinPriceStage, MaxPriceStage])
  {
  }

  /** Passing the three stages is matching the query. */
  lemma PassesListingOrder(p: Product, q: Query)
    ensures PassesAll(p, q, [KindStage, MinPriceStage, MaxPriceStage]) == Matches(p, q)
  {
    var order := [KindStage, MinPriceStage, MaxPriceStage];
    if Matches(p, q) {
      forall i | 0 <= i < 3
        ensures PassesStage(p, q, order[i])
      {
      }
    } else {
      assert !PassesStage(p, q, order[0]) || !PassesStage(p, q, order[1]) || !PassesStage(p, q, order[2]);
    }
  }

  lemma {:induction false} ApplyStagesSelects(s: seq<Product>, q: Query, order: seq<Stage>)
    ensures SubsequenceOf(ApplyStages(s, q, order), s)
    ensures forall p :: multiset(ApplyStages(s, q, order))[p] == if PassesAll(p, q, order) then multiset(s)[p] else 0
    decreases |order|
  {
    if order == [] {
      SubsequenceRefl(s);
    } else {
      var s' := ApplyStage(s, q, order[0]);
      ApplyStagesSelects(s', q, order[1..]);
      if StageCriterion(q, order[0]).None? {
        SubsequenceRefl(s);
      } else {
        KeepCounts(s, StageCriterion(q, order[0]).value);
        KeepInOrder(s, StageCriterion(q, order[0]).value);
      }
      SubsequenceTrans(ApplyStages(s, q, order), s', s);
      forall p
        ensures PassesAll(p, q, order) == (PassesStage(p, q, order[0]) && PassesAll(p, q, order[1..]))
      {
        if PassesStage(p, q, order[0]) && PassesAll(p, q, order[1..]) {
          forall i | 0 <= i < |order|
            ensures PassesStage(p, q, order[i])
          {
            if i > 0 {
              assert order[i] == order[1..][i - 1];
            }
          }
        }
      }
    }
  }

  /**
   * The order in which the filters run does not change the listing: running the stages in
   * any order that includes all three, repeats allowed, lists the same as `ListProducts`.
   */
  lemma StageOrderIrrelevant(catalog: seq<Product>, q: Query, order: seq<Stage>)
    requires forall st: Stage :: st in order
    ensures ApplyStages(catalog, q, order) == ListProducts(catalog, q)
  {
    ApplyStagesSelects(catalog, q, order);
    ListProductsSelects(catalog, q);
    forall p
      ensures PassesAll(p, q, order) == Matches(p, q)
    {
      PassesEveryStage(p, q, order);
    }
    SelectsUnique(ApplyStages(catalog, q, order), ListProducts(catalog, q), catalog, q);
  }

  /** Passing every stage of an order that includes all three is matching the query. */
  lemma PassesEveryStage(p: Product, q: Query, order: seq<Stage>)
    requires forall st: Stage :: st in order
    ensures PassesAll(p, q, order) == Matches(p, q)
  {
    assert KindStage in order && MinPriceStage in order && MaxPriceStage in order;
    var i, j, k :| 0 <= i < |order| && 0 <= j < |order| && 0 <= k < |order|
      && order[i] == KindStage && order[j] == MinPriceStage && order[k] == MaxPriceStage;
    if PassesAll(p, q, order) {
      assert PassesStage(p, q, order[i]) && PassesStage(p, q, order[j]) && PassesStage(p, q, order[k]);
    }
  }

  // ---------------------------------------------------------------------------
  // Lookup
  // ---------------------------------------------------------------------------

  const NotFoundStatus := 404
  const NotFoundDetail := "Product not found"

  /** The position of the first product with this slug, or `|catalog|` when there is none. */
  function FirstSlugIndex(catalog: seq<Product>, slug: string): (k: nat)
    ensures k <= |catalog|
    ensures forall j :: 0 <= j < k ==> catalog[j].slug != slug
    ensures k < |catalog| ==> catalog[k].slug == slug
  {
    if catalog == [] then 0
    else if catalog[0].slug == slug then 0
    else 1 + FirstSlugIndex(catalog[1..], slug)
  }

  /** `GET /api/products/{slug}`: the first product with this slug, or a 404 error. */
  function GetProduct(catalog: seq<Product>, slug: string): (r: Result<Product, HttpError>)
    ensures r.Failure? <==> forall i :: 0 <= i < |catalog| ==> catalog[i].slug != slug
    ensures r.Failure? ==> r.error == HttpError(NotFoundStatus, NotFoundDetail)
    ensures r.Success? ==> r.value in catalog && r.value.slug == slug
    ensures forall i ::
              (0 <= i < |catalog| && catalog[i].slug == slug && forall j :: 0 <= j < i ==> catalog[j].slug != slug)
              ==> r == Success(catalog[i])
  {
    var k := FirstSlugIndex(catalog, slug);
    if k < |catalog| then Success(catalog[k]) else Failure(HttpError(NotFoundStatus, NotFoundDetail))
  }

  /** The lookup as a search loop that returns as soon as the slug matches. */
  method FindProduct(catalog: seq<Product>, slug: string) returns (r: Result<Product, HttpError>)
    ensures r == GetProduct(catalog, slug)
  {
    for i := 0 to |catalog|
      invariant forall j :: 0 <= j < i ==> catalog[j].slug != slug
    {
      if catalog[i].slug == slug {
        return Success(catalog[i]);
      }
    }
    return Failure(HttpError(NotFoundStatus, NotFoundDetail));
  }

  predicate SlugsDistinct(catalog: seq<Product>) {
    forall i, j :: 0 <= i < j < |catalog| ==> catalog[i].slug != catalog[j].slug
  }

  /** With unique slugs, looking up the slug of any catalog product gives back that product. */
  lemma GetProductOfMember(catalog: seq<Product>, i: nat)
    requires SlugsDistinct(catalog)
    requires i < |catalog|
    ensures GetProduct(catalog, catalog[i].slug) == Success(catalog[i])
  {
  }

  // ---------------------------------------------------------------------------
  // The built-in catalog
  // ---------------------------------------------------------------------------

  lemma SampleSlugsDistinct()
    ensures SlugsDistinct(SampleProducts)
  {
  }

  /** Every product of the built-in catalog is found by its own slug. */
  lemma SampleLookupRoundTrip()
    ensures forall p :: p in SampleProducts ==> GetProduct(SampleProducts, p.slug) == Success(p)
  {
    SampleSlugsDistinct();
    forall p | p in SampleProducts
      ensures GetProduct(SampleProducts, p.slug) == Success(p)
    {
      var i :| 0 <= i < |SampleProducts| && SampleProducts[i] == p;
      GetProductOfMember(SampleProducts, i);
    }
  }

  /** Filtering a sequence in which nothing satisfies `c` leaves nothing. */
  lemma {:induction false} KeepNone(s: seq<Product>, c: Criterion)
    requires forall i :: 0 <= i < |s| ==> !Satisfies(s[i], c)
    ensures Keep(s, c) == []
  {
    if s != [] {
      KeepNone(s[1..], c);
    }
  }

  /** Filtering a sequence in which exactly positions `a` and `b` satisfy `c` keeps those two. */
  lemma KeepTwo(s: seq<Product>, c: Criterion, a: nat, b: nat)
    requires a < b < |s|
    requires forall i :: 0 <= i < |s| ==> (Satisfies(s[i], c) <==> i == a || i == b)
    ensures Keep(s, c) == [s[a], s[b]]
  {
    KeepTwoFrom(s, c, a, b, 0);
  }

  lemma {:induction false} KeepTwoFrom(s: seq<Product>, c: Criterion, a: nat, b: nat, i: nat)
    requires a < b < |s| && i <= |s|
    requires forall i :: 0 <= i < |s| ==> (Satisfies(s[i], c) <==> i == a || i == b)
    ensures Keep(s[i..], c) == (if i <= a then [s[a]] else []) + (if i <= b then [s[b]] else [])
    decreases |s| - i
  {
    if i < |s| {
      KeepTwoFrom(s, c, a, b, i + 1);
      var t := s[i..];
      assert Satisfies(s[i], c) <==> i == a || i == b;
      assert t[0] == s[i] && t[1..] == s[i + 1..];
      assert Keep(t, c) == (if Satisfies(s[i], c) then [s[i]] else []) + Keep(s[i + 1..], c);
    }
  }

  /** `type=mug` lists exactly the two mugs, in catalog order. */
  lemma MugListing()
    ensures ListProducts(SampleProducts, Query(Some("mug"), None, None)) == [TerraMug, WheelMug]
  {
    var c, mug := SampleProducts, KindIs("mug");
    assert forall i :: 0 <= i < |c| ==> (|c[i].kind| == 3 <==> i == 0 || i == 4);
    assert c[0].kind == c[4].kind == "mug";
    forall i | 0 <= i < |c|
      ensures Satisfies(c[i], mug) <==> i == 0 || i == 4
    {
      assert |Lower(c[i].kind)| == |c[i].kind| && |Lower("mug")| == 3;
    }
    KeepTwo(c, mug, 0, 4);
  }

  /** A `maxPrice` of 0 is applied, not ignored: nothing in the catalog is free. */
  lemma ZeroMaxPriceApplied()
    ensures ListProducts(SampleProducts, Query(None, None, Some(0.0))) == []
  {
    var c := SampleProducts;
    assert forall i :: 0 <= i < |c| ==> c[i].price > 0.0;
    KeepNone(c, PriceAtMost(0.0));
  }
}
