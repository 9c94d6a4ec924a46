# KD Tools core: KDGenericFactory and pimpl_ptr

This project models two independent utilities of the KD Tools library and
proves the properties their documentation and unit tests promise.

- **KDGenericFactory** (`generic_factory.dfy`, module `GenericFactory`): a
  registry mapping an identifier to a production function for a common
  product base class. `registerProduct<T>(id)` installs a producer that
  default-constructs `T`; `registerProductionFunction(id, fn)` installs a
  caller-supplied producer; both replace an existing entry for `id`.
  `unregisterProduct(id)` removes the entry, or does nothing for an unknown
  id. `create(id)` runs the producer, or yields null for an unknown id.
  `productCount()` and `availableProducts()` report the registered ids. The
  registry is an immutable value over a Dafny `map`. Mutating operations
  return the new registry. `Create` returns no registry at all, because
  `create` is const.
- **pimpl_ptr** (`pimpl_ptr.dfy`, module `Pimpl`): an owning handle that
  holds exactly one pointer. It is built either by default-constructing a
  new object or from a caller's pointer, which may be null. `get`, `->` and
  `*` all expose that pointer, and the boolean conversion tests it for
  non-null. `swap` exchanges the pointers of two handles, and the
  destructor deletes the owned object.
- **Abstract heap** (`memory.dfy`, module `Memory`): pointers are `Null`
  or `Addr(id)`. A heap records the live objects with their dynamic class,
  a multiset counting the deletions of each address, and the next address
  never handed out. `New` is `new T`. `Delete` is `delete p`. `Observe` is
  a guarded pointer (`QPointer`): it reads null once its object is gone.
- **The library's own test scenarios** (`fruit_plantation.dfy`, module
  `FruitPlantation`): the Apple/Pear/Orange walk-through and the subclass
  that registers a producer returning the `0xBadF00d` sentinel.

The C++ dynamic type of a product is the class tag stored with the live
object in the heap. A production function is a Dafny function value from
heap to heap and pointer, so it may allocate, or it may return any pointer,
including a non-owned sentinel. `Valid(h)` is the heap's well-formedness
invariant. It holds for `EmptyHeap()` and is preserved by `New` and
`Delete`. The operations that allocate require it.

## Model

| member | source | states |
|---|---|---|
| GenericFactory.NewFactory | src/kdgenericfactory.cpp:222-225 | a new factory has product count 0 and no registered identifier |
| GenericFactory.Insert | src/kdgenericfactory.cpp:54-55 | the map's insert overwrites: the id then maps to the new producer, every other entry is unchanged, and the count grows by one only for a new id |
| GenericFactory.RegisterProduct | src/kdgenericfactory.cpp:122-130 | after registerProduct the id maps to a default-constructor producer of the class; any earlier product under that id is replaced, which leaves the count unchanged; otherwise the count grows by exactly one; other ids are untouched |
| GenericFactory.RegisterProductionFunction | src/kdgenericfactory.cpp:158-164 | after registerProductionFunction the id maps to the caller's function, with the same replace-or-add effect on the count and on the other ids |
| GenericFactory.UnregisterProduct | src/kdgenericfactory.cpp:132-137 | the id is gone and the count drops by one if it was registered; other ids are untouched; an unknown id leaves the factory exactly as it was |
| GenericFactory.Create | src/kdgenericfactory.cpp:151-156 | an unknown id yields null and leaves the heap alone; a default-constructor entry yields a never-before-allocated live object of the registered class; a custom entry yields exactly what its function returns |
| GenericFactory.AvailableProducts | src/kdgenericfactory.cpp:139-149 | the listing holds every registered id exactly once and nothing else, so its length is the product count; no order is promised |
| GenericFactory.CreateAfterRegister | src/kdgenericfactory.cpp:128-129 | create right after registerProduct<T>(id) yields a new non-null object whose class is T |
| GenericFactory.CreateAfterRegisterFunction | src/kdgenericfactory.cpp:161-163 | create right after registerProductionFunction(id, fn) returns exactly fn's result |
| GenericFactory.CreateAfterUnregister | src/kdgenericfactory.cpp:253-266 | after unregisterProduct(id), create(id) yields null without touching the heap, and any other id creates exactly as before |
| GenericFactory.RegisterLeavesOthers | src/kdgenericfactory.cpp:125-126 | registering under one id does not change what any other id creates |
| GenericFactory.CreateKeepsObjects | src/kdgenericfactory.cpp:154-155 | creating through a default constructor, or for an unknown id, keeps every live object alive with its class and never returns one of them: ownership of the product is new |
| GenericFactory.CreatesAreDistinct | src/kdgenericfactory.cpp:46-47 | two creates of the same default-constructed product return two distinct live objects |
| GenericFactory.LastOperationWins | src/kdgenericfactory.cpp:122-137 | after any sequence of registrations and unregistrations, the entry for an id is what the last operation on that id put there: that producer, or nothing after an unregistration; with no such operation it is the original entry |
| FruitPlantation.FullPlantation | src/kdgenericfactory.cpp:227-235 | registering Apple, Pear and Orange gives those three default-constructor entries and no entry for Cherry |
| FruitPlantation.Counts | src/kdgenericfactory.cpp:222-264 | the product count reads 0, 1, 2, 3 over the three registrations, then 2 and 1 over the two unregistrations |
| FruitPlantation.Listings | src/kdgenericfactory.cpp:223-229 | the listing of a new factory is empty; after registering Apple it is exactly ["Apple"] |
| FruitPlantation.CreateEachFruit | src/kdgenericfactory.cpp:237-251 | create("Apple"), create("Pear") and create("Orange") yield live objects of classes Apple, Pear and Orange; create("Cherry") yields null |
| FruitPlantation.CreateAfterUnregistering | src/kdgenericfactory.cpp:253-266 | after unregistering Apple, create("Apple") is null while create("Pear") still yields a Pear and earlier objects survive; after unregistering Pear, create("Pear") is null |
| FruitPlantation.BadPearFactory | src/kdgenericfactory.cpp:270-283 | registering Apple, then a Pear production function, gives a factory of two products |
| FruitPlantation.BadPearCreatesSentinel | src/kdgenericfactory.cpp:279-285 | create("Pear") returns exactly the 0xBadF00d sentinel and allocates nothing; create("Apple") still builds a new Apple |
| Pimpl.DefaultConstruct | src/pimpl_ptr.cpp:95-102 | the default constructor owns a newly allocated object of T, which is non-null, live and never allocated before; the handle tests true |
| Pimpl.FromPointer | src/pimpl_ptr.cpp:104-110 | constructing from t gives get() == t; the handle tests true exactly when t is non-null |
| Pimpl.Arrow | src/pimpl_ptr.cpp:153-164 | operator-> returns get() |
| Pimpl.Deref | src/pimpl_ptr.cpp:140-151 | operator* refers to the object at get(): its address is get(); it is only defined for a non-null handle |
| Pimpl.IsSet | src/pimpl_ptr.cpp:216-221 | the boolean conversion is true exactly when get() is non-null |
| Pimpl.Swap | src/pimpl_ptr.cpp:120-125 | after swap, each handle holds the other's former pointer; no heap takes part, so nothing is allocated or deleted |
| Pimpl.Destroy | src/pimpl_ptr.cpp:112-118 | destroying a non-null handle deletes the owned object: it is no longer live, its deletion count rises by one to exactly one, nothing else changes, and a guarded pointer to it reads null; a null handle leaves the heap unchanged |
| Pimpl.SwapTwice | src/pimpl_ptr.cpp:39-42 | swapping twice restores both handles |
| Pimpl.SwapKeepsOwnership | src/pimpl_ptr.cpp:33-34 | if both handles own live objects or null, they still do after swap |
| Pimpl.ContentChangesOnlyBySwap | src/pimpl_ptr.cpp:39-42 | over any sequence of reads and swaps, the two handles end up as the original pair, or as the pair exchanged, depending on whether the number of swaps is even or odd |
| Pimpl.Lifetime | src/pimpl_ptr.cpp:198-207 | for a handle made from a new object, get, -> and * all give that object; a guarded pointer to it reads non-null while the handle lives and null after destruction; the object was deleted once and is no longer owned |
| Pimpl.SwapDefaultConstructed | src/pimpl_ptr.cpp:234-241 | two default-constructed handles own distinct objects; after swap each holds the other's former pointer and both still own live objects |
| Pimpl.BooleanConversion | src/pimpl_ptr.cpp:216-221 | a default-constructed handle tests true; a handle made from null tests false, and destroying it deletes nothing |
| Memory.Observe | src/pimpl_ptr.cpp:199-206 | a guarded pointer reads as the pointer while its object is live, and as null otherwise |

`ProductCount` (productCount()) and `Get` (get()) are plain accessors. They
carry no contract of their own. Their meaning is stated by the contracts
that use them: `AvailableProducts`, the register and unregister functions,
`FromPointer` and `Swap`.

## Left out

- The choice of map container (QHash or QMap) and the explicit template
  instantiations. A Dafny `map` stands for any container that meets the
  insert-overwrite, find, size, remove and keys requirements.
- The key order of `availableProducts()`. It is whatever the container's
  `keys()` gives, so the model promises no order.
- Const and non-const overloads, including the ConstTester test. Const
  correctness is a C++ type-system matter, so each accessor is one function.
- `dynamic_cast`, virtual and multiple inheritance (Orange derives from both
  QObject and Fruit). The dynamic class is a tag on the live object.
- The `reinterpret_cast` sentinel. It is an opaque address, `Addr(0xBadF00d)`.
  Nothing stops a freshly allocated object from sitting at that address.
  This matches the test, which leaves its "Apple is not the sentinel"
  assertion commented out.
- QObject parenthood (the `p->parent()` check) and other Qt behaviour. The
  only part modelled is a `QPointer` reading null once its object is deleted.
- The `std::ostream` printing helper for string lists and the unit-test
  registration macros. They contain no library logic.
- Exception safety, allocation failure and thread safety. The library says
  exception safety was never evaluated, and allocation cannot fail in the
  model.
- Destroying the factory itself. It owns no products, so its destruction
  has no observable effect on them.
- The construction of an object is only its class tag. Constructor side
  effects of `T` are not modelled.
- Create: only for default-constructor entries does it promise the heap
  stays `Valid`. A caller-supplied production function may do anything to
  the heap, so the model only promises that its result is returned.
