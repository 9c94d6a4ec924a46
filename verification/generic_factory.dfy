/**
 KDGenericFactory: a registry from identifiers to production functions.
 The registry is an immutable value; every mutating member returns the new
 registry, and `Create`, being const in the library, returns none.
 */
module GenericFactory {
  import opened Memory

  /** How a registered product is produced: by the default constructor of a
      concrete class (registerProduct<T>), or by a caller-supplied function
      (registerProductionFunction), which may do anything to the heap and
      return any pointer at all. */
  datatype Producer<!C> =
    | DefaultCtor(cls: C)
    | Custom(run: Heap<C> -> (Heap<C>, Ptr))

  /** The factory: each identifier maps to at most one producer. */
  datatype Factory<Id, !C> = Factory(products: map<Id, Producer<C>>)

  /** `r` is `f` except possibly at identifier `id`. */
  ghost predicate AgreeExcept<Id, C>(f: Factory<Id, C>, r: Factory<Id, C>, id: Id)
  {
    && (forall k :: k in f.products && k != id ==> k in r.products && r.products[k] == f.products[k])
    && (forall k :: k in r.products && k != id ==> k in f.products)
  }

  ghost predicate Distinct<T>(s: seq<T>)
  {
    forall i, j :: 0 <= i < j < |s| ==> s[i] != s[j]
  }

  /** productCount(): the number of different identifiers registered. */
  function ProductCount<Id, C>(f: Factory<Id, C>): nat
  {
    |f.products|
  }

  /** A freshly constructed factory knows no products. */
  function NewFactory<Id, C>(): (f: Factory<Id, C>)
    ensures ProductCount(f) == 0
    ensures f.products.Keys == {}
  {
    Factory(map[])
  }

  /** The map's insert, which must overwrite an existing entry. */
  function Insert<Id, C>(f: Factory<Id, C>, id: Id, p: Producer<C>): (r: Factory<Id, C>)
    ensures id in r.products && r.products[id] == p
    ensures AgreeExcept(f, r, id)
    ensures ProductCount(r) == if id in f.products then ProductCount(f) else ProductCount(f) + 1
  {
    Factory(f.products[id := p])
  }

  /** registerProduct<T>(id): from now on `id` produces a default-constructed
      `cls`; a product previously registered under `id` is replaced. */
  function RegisterProduct<Id, C>(f: Factory<Id, C>, id: Id, cls: C): (r: Factory<Id, C>)
    ensures id in r.products && r.products[id] == DefaultCtor(cls)
    ensures AgreeExcept(f, r, id)
    ensures ProductCount(r) == if id in f.products then ProductCount(f) else ProductCount(f) + 1
  {
    Insert(f, id, DefaultCtor(cls))
  }

  /** registerProductionFunction(id, fn): from now on `id` produces by
      calling `fn`; a product previously registered under `id` is replaced. */
  function RegisterProductionFunction<Id, C>(f: Factory<Id, C>, id: Id, fn: Heap<C> -> (Heap<C>, Ptr)): (r: Factory<Id, C>)
    ensures id in r.products && r.products[id] == Custom(fn)
    ensures AgreeExcept(f, r, id)
    ensures ProductCount(r) == if id in f.products then ProductCount(f) else ProductCount(f) + 1
  {
    Insert(f, id, Custom(fn))
  }

  /** unregisterProduct(id): forget `id`; nothing happens if it is unknown. */
  function UnregisterProduct<Id, C>(f: Factory<Id, C>, id: Id): (r: Factory<Id, C>)
    ensures id !in r.products
    ensures AgreeExcept(f, r, id)
    ensures ProductCount(r) == if id in f.products then ProductCount(f) - 1 else ProductCount(f)
    ensures id !in f.products ==> r == f
  {
    var m := f.products - {id};
    assert m.Keys == f.products.Keys - {id};
    Factory(m)
  }

  /** create(id): run the producer registered under `id` on the heap `h`,
      returning the new heap and the product; null if `id` is unknown. */
  function Create<Id, C>(f: Factory<Id, C>, h: Heap<C>, id: Id): (r: (Heap<C>, Ptr))
    requires Valid(h)
    ensures id !in f.products ==> r.0 == h && r.1 == Null
    ensures id in f.products && f.products[id].DefaultCtor? ==>
      FreshObject(h, r.0, r.1, f.products[id].cls)
    ensures id in f.products && f.products[id].Custom? ==> r == f.products[id].run(h)
  {
    if id !in f.products then (h, Null)
    else match f.products[id]
      case DefaultCtor(cls) => New(h, cls)
      case Custom(run) => run(h)
  }

  /** availableProducts(): every registered identifier exactly once, in an
      order left to the underlying map. */
  method AvailableProducts<Id(==), C>(f: Factory<Id, C>) returns (keys: seq<Id>)
    ensures Distinct(keys)
    ensures forall k :: k in keys <==> k in f.products
    ensures |keys| == ProductCount(f)
  {
    keys := [];
    var rest := f.products.Keys;
    while rest != {}
      invariant rest <= f.products.Keys
      invariant forall k :: k in keys <==> k in f.products && k !in rest
      invariant Distinct(keys)
      invariant |keys| + |rest| == |f.products|
      decreases |rest|
    {
      var k :| k in rest;
      keys := keys + [k];
      rest := rest - {k};
    }
  }

  /** create after registerProduct<T>(id) yields a new object of class T. */
  lemma CreateAfterRegister<Id, C>(f: Factory<Id, C>, h: Heap<C>, id: Id, cls: C)
    requires Valid(h)
    ensures var r := Create(RegisterProduct(f, id, cls), h, id);
      FreshObject(h, r.0, r.1, cls) && r.1 != Null
  {
  }

  /** create after registerProductionFunction(id, fn) returns exactly what
      `fn` returns. */
  lemma CreateAfterRegisterFunction<Id, C>(f: Factory<Id, C>, h: Heap<C>, id: Id, fn: Heap<C> -> (Heap<C>, Ptr))
    requires Valid(h)
    ensures Create(RegisterProductionFunction(f, id, fn), h, id) == fn(h)
  {
  }

  /** After unregisterProduct(id), create(id) yields null and leaves the
      heap alone, while every other identifier creates as before. */
  lemma CreateAfterUnregister<Id, C>(f: Factory<Id, C>, h: Heap<C>, id: Id, other: Id)
    requires Valid(h)
    requires other != id
    ensures Create(UnregisterProduct(f, id), h, id) == (h, Null)
    ensures Create(UnregisterProduct(f, id), h, other) == Create(f, h, other)
  {
  }

  /** Registering under one identifier does not affect what another creates. */
  lemma RegisterLeavesOthers<Id, C>(f: Factory<Id, C>, h: Heap<C>, id: Id, cls: C, other: Id)
    requires Valid(h)
    requires other != id
    ensures Create(RegisterProduct(f, id, cls), h, other) == Create(f, h, other)
  {
  }

  /** create through a default constructor, or of an unknown identifier,
      leaves every object already alive as it was and returns none of them. */
  lemma CreateKeepsObjects<Id, C>(f: Factory<Id, C>, h: Heap<C>, id: Id, q: Ptr)
    requires Valid(h)
    requires IsLive(h, q)
    requires id !in f.products || f.products[id].DefaultCtor?
    ensures var r := Create(f, h, id);
      Valid(r.0) && IsLive(r.0, q) && r.0.live[q.id] == h.live[q.id] && r.1 != q
  {
  }

  /** Two creates from a default-constructor registration return two
      distinct, live objects. */
  lemma CreatesAreDistinct<Id, C>(f: Factory<Id, C>, h: Heap<C>, id: Id)
    requires Valid(h)
    requires id in f.products && f.products[id].DefaultCtor?
    ensures var (h1, p1) := Create(f, h, id);
      var (h2, p2) := Create(f, h1, id);
      p1 != Null && p2 != Null && p1 != p2 && IsLive(h2, p1) && IsLive(h2, p2)
  {
    var (h1, p1) := Create(f, h, id);
    assert IsLive(h1, p1);
    var (h2, p2) := Create(f, h1, id);
    assert p2.id !in h1.live;
  }

  /** One registry mutation. */
  datatype Op<Id, !C> =
    | RegisterOp(id: Id, cls: C)
    | RegisterFunctionOp(id: Id, fn: Heap<C> -> (Heap<C>, Ptr))
    | UnregisterOp(id: Id)

  function Step<Id, C>(f: Factory<Id, C>, op: Op<Id, C>): Factory<Id, C>
  {
    match op
    case RegisterOp(id, cls) => RegisterProduct(f, id, cls)
    case RegisterFunctionOp(id, fn) => RegisterProductionFunction(f, id, fn)
    case UnregisterOp(id) => UnregisterProduct(f, id)
  }

  /** The registry after performing `ops` in order. */
  function Apply<Id, C>(f: Factory<Id, C>, ops: seq<Op<Id, C>>): Factory<Id, C>
  {
    if |ops| == 0 then f else Step(Apply(f, ops[..|ops| - 1]), ops[|ops| - 1])
  }

  /** The index of the last operation in `ops` that concerns `id`, or -1. */
  function LastFor<Id(==), C>(ops: seq<Op<Id, C>>, id: Id): (i: int)
    ensures -1 <= i < |ops|
    ensures i >= 0 ==> ops[i].id == id
    ensures forall j :: i < j < |ops| ==> ops[j].id != id
  {
    if |ops| == 0 then -1
    else if ops[|ops| - 1].id == id then |ops| - 1
    else LastFor(ops[..|ops| - 1], id)
  }

  /** The producer the registry holds for `id` according to the last
      operation concerning `id`: the independent reference definition. */
  ghost predicate HoldsAfterLast<Id, C>(f: Factory<Id, C>, r: Factory<Id, C>, ops: seq<Op<Id, C>>, id: Id)
  {
    var i := LastFor(ops, id);
    if i < 0 then
      (id in r.products <==> id in f.products) && (id in f.products ==> r.products[id] == f.products[id])
    else match ops[i]
      case RegisterOp(_, cls) => id in r.products && r.products[id] == DefaultCtor(cls)
      case RegisterFunctionOp(_, fn) => id in r.products && r.products[id] == Custom(fn)
      case UnregisterOp(_) => id !in r.products
  }

  /** The last registration or unregistration of an identifier wins: after
      any sequence of operations the registry holds exactly what the last
      operation on that identifier put there. */
  lemma {:induction false} LastOperationWins<Id, C>(f: Factory<Id, C>, ops: seq<Op<Id, C>>, id: Id)
    ensures HoldsAfterLast(f, Apply(f, ops), ops, id)
  {
    if |ops| > 0 {
      var init := ops[..|ops| - 1];
      var last := ops[|ops| - 1];
      if last.id != id {
        LastOperationWins(f, init, id);
        assert LastFor(ops, id) == LastFor(init, id);
        if LastFor(init, id) >= 0 {
          assert ops[LastFor(ops, id)] == init[LastFor(init, id)];
        }
      }
    }
  }
}
