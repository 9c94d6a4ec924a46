/**
 The library's own scenarios for KDGenericFactory, restated over the model:
 a plantation of fruit classes registered, created and unregistered in turn,
 and a subclass that registers its own production function.
 */
module FruitPlantation {
  import opened Memory
  import opened GenericFactory

  /** The concrete product classes; all derive from Fruit. */
  datatype Fruit = Apple | Pear | Orange

  /** `p` is a live object whose dynamic class is `cls`. */
  ghost predicate IsA(h: Heap<Fruit>, p: Ptr, cls: Fruit)
  {
    IsLive(h, p) && h.live[p.id] == cls
  }

  /** The plantation with Apple, Pear and Orange registered. */
  function FullPlantation(): (f: Factory<string, Fruit>)
    ensures "Apple" in f.products && f.products["Apple"] == DefaultCtor(Apple)
    ensures "Pear" in f.products && f.products["Pear"] == DefaultCtor(Pear)
    ensures "Orange" in f.products && f.products["Orange"] == DefaultCtor(Orange)
    ensures "Cherry" !in f.products
  {
    var f1 := RegisterProduct(NewFactory(), "Apple", Apple);
    var f2 := RegisterProduct(f1, "Pear", Pear);
    assert "Cherry" !in f2.products by { assert "Cherry" != "Apple" && "Cherry" != "Pear"; }
    assert "Cherry" != "Orange";
    RegisterProduct(f2, "Orange", Orange)
  }

  /** The product count after each registration and unregistration of the
      walk-through. */
  method Counts() returns (counts: seq<nat>)
    ensures counts == [0, 1, 2, 3, 2, 1]
  {
    var f0 := NewFactory<string, Fruit>();
    var f1 := RegisterProduct(f0, "Apple", Apple);
    var f2 := RegisterProduct(f1, "Pear", Pear);
    var f3 := RegisterProduct(f2, "Orange", Orange);
    var f4 := UnregisterProduct(f3, "Apple");
    var f5 := UnregisterProduct(f4, "Pear");
    counts := [ProductCount(f0), ProductCount(f1), ProductCount(f2),
               ProductCount(f3), ProductCount(f4), ProductCount(f5)];
  }

  /** The listing of a new plantation is empty; after registering Apple it
      is exactly ["Apple"]. */
  method Listings() returns (emptyListing: seq<string>, oneListing: seq<string>)
    ensures emptyListing == [] && oneListing == ["Apple"]
  {
    var f := NewFactory<string, Fruit>();
    emptyListing := AvailableProducts(f);
    f := RegisterProduct(f, "Apple", Apple);
    oneListing := AvailableProducts(f);
    assert oneListing[0] in oneListing;
  }

  /** create for each of the three registered fruits, in turn, yields an
      object of that fruit's class; create("Cherry") yields null. */
  method CreateEachFruit(h0: Heap<Fruit>) returns (apple: Ptr, pear: Ptr, orange: Ptr, cherry: Ptr, h: Heap<Fruit>)
    requires Valid(h0)
    ensures Valid(h)
    ensures IsA(h, apple, Apple) && IsA(h, pear, Pear) && IsA(h, orange, Orange)
    ensures cherry == Null
  {
    var f := FullPlantation();
    var r1 := Create(f, h0, "Apple");
    var r2 := Create(f, r1.0, "Pear");
    var r3 := Create(f, r2.0, "Orange");
    apple, pear, orange, h := r1.1, r2.1, r3.1, r3.0;
    cherry := Create(f, h, "Cherry").1;
  }

  /** After unregistering Apple, create("Apple") yields null while
      create("Pear") still yields a Pear; after also unregistering Pear,
      create("Pear") yields null. */
  method CreateAfterUnregistering(h0: Heap<Fruit>) returns (noApple: Ptr, pear: Ptr, noPear: Ptr, h: Heap<Fruit>)
    requires Valid(h0)
    ensures noApple == Null && IsA(h, pear, Pear) && noPear == Null
    ensures forall q :: IsLive(h0, q) ==> IsLive(h, q) && h.live[q.id] == h0.live[q.id]
  {
    var f1 := UnregisterProduct(FullPlantation(), "Apple");
    assert "Pear" in f1.products && f1.products["Pear"] == DefaultCtor(Pear);
    var f2 := UnregisterProduct(f1, "Pear");
    var r := Create(f1, h0, "Pear");
    noApple, pear, h := Create(f1, h0, "Apple").1, r.1, r.0;
    noPear := Create(f2, h, "Pear").1;
  }

  /** The non-owned sentinel address the subclass hands out. */
  const BadFood: Ptr := Addr(0xBadF00d)

  /** A subclass registers Apple normally and, through the production
      function extension point, a Pear producer that returns the sentinel. */
  function BadPearFactory(): (f: Factory<string, Fruit>)
    ensures ProductCount(f) == 2
  {
    var f := RegisterProduct(NewFactory(), "Apple", Apple);
    RegisterProductionFunction(f, "Pear", (h: Heap<Fruit>) => (h, BadFood))
  }

  /** create("Pear") returns exactly the sentinel and allocates nothing,
      while create("Apple") still builds a new Apple. */
  lemma BadPearCreatesSentinel(h: Heap<Fruit>)
    requires Valid(h)
    ensures Create(BadPearFactory(), h, "Pear") == (h, BadFood)
    ensures var r := Create(BadPearFactory(), h, "Apple");
      FreshObject(h, r.0, r.1, Apple)
  {
  }
}
