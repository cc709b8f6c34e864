/** The product normaliser `simplifyProducts` (app.js): drop the records whose
    `productName` contains "22k" in any casing, keeping the order of the
    others, and project each kept record onto the fields the alert uses plus a
    derived `coupon`. */
module Normalizer {
  import opened Options
  import opened Text
  import opened JsValues

  /** `{code, discount, bestPrice}` of a product's coupon. */
  datatype Coupon = Coupon(code: JsVal, discount: JsVal, bestPrice: JsVal)

  /** The projection of a product record; a field the record lacks is
      `undefined` here too. `coupon` is `None` for JavaScript's `null`. */
  datatype Summary = Summary(
    productId: JsVal,
    productName: JsVal,
    brand: JsVal,
    sizes: JsVal,
    price: JsVal,
    mrp: JsVal,
    discount: JsVal,
    rating: JsVal,
    ratingCount: JsVal,
    landingPageUrl: JsVal,
    coupon: Option<Coupon>)

  /** `/22k/i.test(s)` */
  predicate Has22k(s: string)
  {
    exists i :: 0 <= i && i + 3 <= |s| && s[i] == '2' && s[i + 1] == '2' && Lower(s[i + 2]) == 'k'
  }

  /** The filter's test: the regex tests `String(product.productName)`, so a
      missing name is tested as "undefined" and kept. */
  predicate Kept(o: Record)
  {
    !Has22k(ToJsString(Field(o, "productName")))
  }

  /** `products.filter(product => !/22k/i.test(product.productName))` */
  function Filter22k(ps: seq<Record>): (r: seq<Record>)
    ensures |r| <= |ps|
    ensures forall o :: o in r <==> o in ps && Kept(o)
  {
    if ps == [] then []
    else (if Kept(ps[0]) then [ps[0]] else []) + Filter22k(ps[1..])
  }

  /** The filter keeps order: filtering a concatenation concatenates the
      filtered parts. */
  lemma {:induction false} Filter22kAppend(a: seq<Record>, b: seq<Record>)
    ensures Filter22k(a + b) == Filter22k(a) + Filter22k(b)
    decreases |a|
  {
    if a == [] {
      assert a + b == b;
    } else {
      var ab := a + b;
      assert ab[0] == a[0];
      assert ab[1..] == a[1..] + b;
      Filter22kAppend(a[1..], b);
      var head := if Kept(a[0]) then [a[0]] else [];
      assert Filter22k(ab) == head + Filter22k(a[1..] + b);
      assert Filter22k(a) == head + Filter22k(a[1..]);
      ConcatAssoc(head, Filter22k(a[1..]), Filter22k(b));
    }
  }

  lemma ConcatAssoc<T>(x: seq<T>, y: seq<T>, z: seq<T>)
    ensures x + (y + z) == (x + y) + z
  {
  }

  /** A record whose name carries "22k" in any casing never survives. */
  lemma Filter22kDrops(ps: seq<Record>, o: Record)
    requires o in ps && Has22k(ToJsString(Field(o, "productName")))
    ensures o !in Filter22k(ps)
  {
  }

  /** A record without a name, or with a `null` one, is tested as the text
      "undefined" or "null" and kept. */
  lemma NamelessKept(o: Record)
    requires "productName" !in o || o["productName"] == Null
    ensures Kept(o)
  {
    var v := Field(o, "productName");
    var name := ToJsString(v);
    if "productName" !in o {
      assert v == Undefined;
      assert name == "undefined";
    } else {
      assert v == Def(Null);
      assert name == "null";
    }
    forall i | 0 <= i && i + 3 <= |name| ensures name[i] != '2' {
    }
  }

  /** `product.couponData?.couponDiscount ? {...} : null`. The coupon is
      `null` when there is no coupon data or its discount is falsy; with a
      truthy discount, reading `couponDescription.couponCode` throws when the
      description is missing or `null`. */
  function CouponOf(o: Record): (c: Completion<Option<Coupon>>)
    ensures var data := Field(o, "couponData");
      var disc := OptionalMember(data, "couponDiscount");
      var desc := OptionalMember(data, "couponDescription");
      && (!Truthy(disc) ==> c == Normal(None))
      && (Truthy(disc) ==> (c == Throw <==> Nullish(desc)))
      && (Truthy(disc) && c != Throw ==>
            c == Normal(Some(Coupon(OptionalMember(desc, "couponCode"), disc, OptionalMember(desc, "bestPrice")))))
  {
    var data := Field(o, "couponData");
    var disc := OptionalMember(data, "couponDiscount");
    if !Truthy(disc) then Normal(None)
    else
      match Member(data, "couponDescription")
      case Throw => Throw
      case Normal(desc) =>
        match Member(desc, "couponCode")
        case Throw => Throw
        case Normal(code) =>
          match Member(desc, "bestPrice")
          case Throw => Throw
          case Normal(best) => Normal(Some(Coupon(code, disc, best)))
  }

  /** The object literal `simplifyProducts` maps each kept record to. */
  function Project(o: Record): (r: Completion<Summary>)
    ensures r == Throw <==> CouponOf(o) == Throw
    ensures r.Normal? ==> r.value.coupon == CouponOf(o).value
    ensures r.Normal? ==>
      && r.value.productId == Field(o, "productId")
      && r.value.productName == Field(o, "productName")
      && r.value.brand == Field(o, "brand")
      && r.value.sizes == Field(o, "sizes")
      && r.value.price == Field(o, "price")
      && r.value.mrp == Field(o, "mrp")
      && r.value.discount == Field(o, "discount")
      && r.value.rating == Field(o, "rating")
      && r.value.ratingCount == Field(o, "ratingCount")
      && r.value.landingPageUrl == Field(o, "landingPageUrl")
  {
    match CouponOf(o)
    case Throw => Throw
    case Normal(coupon) =>
      Normal(Summary(
        Field(o, "productId"),
        Field(o, "productName"),
        Field(o, "brand"),
        Field(o, "sizes"),
        Field(o, "price"),
        Field(o, "mrp"),
        Field(o, "discount"),
        Field(o, "rating"),
        Field(o, "ratingCount"),
        Field(o, "landingPageUrl"),
        coupon))
  }

  /** `.map(product => ({...}))`: one summary per record in order, or a throw
      as soon as one projection throws. */
  function ProjectAll(ps: seq<Record>): (r: Completion<seq<Summary>>)
    ensures r == Throw <==> exists i :: 0 <= i < |ps| && Project(ps[i]) == Throw
    ensures r.Normal? ==> |r.value| == |ps|
    ensures r.Normal? ==> forall i :: 0 <= i < |ps| ==> Project(ps[i]) == Normal(r.value[i])
  {
    if ps == [] then Normal([])
    else
      match Project(ps[0])
      case Throw => Throw
      case Normal(s) =>
        match ProjectAll(ps[1..])
        case Throw =>
          assert forall i :: 0 <= i < |ps[1..]| ==> ps[1..][i] == ps[i + 1];
          Throw
        case Normal(rest) =>
          assert forall i :: 1 <= i < |ps| ==> ps[i] == ps[1..][i - 1];
          Normal([s] + rest)
  }

  /** `simplifyProducts(products)` */
  function SimplifyProducts(ps: seq<Record>): (r: Completion<seq<Summary>>)
    ensures r.Normal? ==> |r.value| == |Filter22k(ps)| <= |ps|
    ensures r.Normal? ==> forall i :: 0 <= i < |r.value| ==> Project(Filter22k(ps)[i]) == Normal(r.value[i])
    ensures r.Normal? ==> forall s :: s in r.value ==> !Has22k(ToJsString(s.productName))
    ensures r == Throw <==> exists o :: o in ps && Kept(o) && CouponOf(o) == Throw
  {
    SimplifyFacts(ps);
    ProjectAll(Filter22k(ps))
  }

  lemma SimplifyFacts(ps: seq<Record>)
    ensures var r := ProjectAll(Filter22k(ps));
      && (r.Normal? ==> forall s :: s in r.value ==> !Has22k(ToJsString(s.productName)))
      && (r == Throw ==> exists o :: o in ps && Kept(o) && CouponOf(o) == Throw)
  {
    var kept := Filter22k(ps);
    var r := ProjectAll(kept);
    if r.Normal? {
      forall s | s in r.value ensures !Has22k(ToJsString(s.productName)) {
        var i :| 0 <= i < |r.value| && r.value[i] == s;
        assert kept[i] in kept;
      }
    }
    if r == Throw {
      var i :| 0 <= i < |kept| && Project(kept[i]) == Throw;
      assert kept[i] in kept;
    }
  }

  /** Coupon cases: a zero discount or no coupon data gives
      `null`; a discount of 50 with code "X5" and best price 1000 gives
      exactly that coupon. */
  lemma CouponExamples()
    ensures CouponOf(map["couponData" := Obj(map["couponDiscount" := Num(0)])]) == Normal(None)
    ensures CouponOf(map["productId" := Str("1")]) == Normal(None)
    ensures CouponOf(map["couponData" := Obj(map[
              "couponDiscount" := Num(50),
              "couponDescription" := Obj(map["couponCode" := Str("X5"), "bestPrice" := Num(1000)])])])
            == Normal(Some(Coupon(Def(Str("X5")), Def(Num(50)), Def(Num(1000)))))
  {
  }

  /** A truthy discount without a description throws. */
  lemma CouponWithoutDescriptionThrows()
    ensures CouponOf(map["couponData" := Obj(map["couponDiscount" := Num(50)])]) == Throw
  {
  }

  /** A listing record named "22K Gold Coin". */
  function ScenarioCoin22k(): Record
  {
    map["productId" := Str("1"), "productName" := Str("22K Gold Coin"), "landingPageUrl" := Str("coin-22k")]
  }

  /** A listing record named "Gold Coin". */
  function ScenarioCoin(): Record
  {
    map["productId" := Str("2"), "productName" := Str("Gold Coin"), "landingPageUrl" := Str("coin-24k")]
  }

  function ScenarioSummary(): Summary
  {
    Summary(Def(Str("2")), Def(Str("Gold Coin")), Undefined, Undefined, Undefined,
            Undefined, Undefined, Undefined, Undefined, Def(Str("coin-24k")), None)
  }

  /** Of a "22K Gold Coin" and a "Gold Coin", only the latter survives, with
      every field it lacks left undefined and no coupon. */
  lemma ScenarioSimplified()
    ensures SimplifyProducts([ScenarioCoin22k(), ScenarioCoin()]) == Normal([ScenarioSummary()])
  {
    ScenarioFiltered();
    ScenarioProjectedAll();
  }

  /** The filter drops the "22K Gold Coin" and keeps the "Gold Coin". */
  lemma ScenarioFiltered()
    ensures Filter22k([ScenarioCoin22k(), ScenarioCoin()]) == [ScenarioCoin()]
  {
    ScenarioNames();
    FilterDropsFirstOfTwo(ScenarioCoin22k(), ScenarioCoin());
  }

  /** Of two records, a dropped one followed by a kept one, only the kept one
      survives. */
  lemma FilterDropsFirstOfTwo(a: Record, b: Record)
    ensures !Kept(a) && Kept(b) ==> Filter22k([a, b]) == [b]
  {
    var ps := [a, b];
    assert ps[1..] == [b];
    assert [b][1..] == [];
  }

  lemma ScenarioNames()
    ensures !Kept(ScenarioCoin22k())
    ensures Kept(ScenarioCoin())
  {
    var n1 := "22K Gold Coin";
    assert ToJsString(Field(ScenarioCoin22k(), "productName")) == n1;
    assert n1[0] == '2' && n1[1] == '2' && Lower(n1[2]) == 'k';
    var n2 := "Gold Coin";
    assert ToJsString(Field(ScenarioCoin(), "productName")) == n2;
    forall i | 0 <= i < |n2| ensures n2[i] != '2' {
    }
  }

  lemma ScenarioProjectedAll()
    ensures ProjectAll([ScenarioCoin()]) == Normal([ScenarioSummary()])
  {
    ScenarioProjected();
    var ps := [ScenarioCoin()];
    assert ps[0] == ScenarioCoin() && ps[1..] == [];
    assert ProjectAll(ps[1..]) == Normal([]);
    assert [ScenarioSummary()] + [] == [ScenarioSummary()];
  }

  /** The plain coin projects onto its id, name and landing URL, with every
      other field undefined and no coupon. */
  lemma ScenarioProjected()
    ensures Project(ScenarioCoin()) == Normal(ScenarioSummary())
  {
    var coin := ScenarioCoin();
    assert "couponData" !in coin;
    assert CouponOf(coin) == Normal(None);
    assert Field(coin, "productId") == Def(Str("2"));
    assert Field(coin, "productName") == Def(Str("Gold Coin"));
    assert Field(coin, "landingPageUrl") == Def(Str("coin-24k"));
    assert "brand" !in coin && "sizes" !in coin && "price" !in coin && "mrp" !in coin;
    assert "discount" !in coin && "rating" !in coin && "ratingCount" !in coin;
  }
}
