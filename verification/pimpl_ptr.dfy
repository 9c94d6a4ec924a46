/**
 pimpl_ptr: an owning, immutable handle to a private implementation object.
 A handle is a value holding one pointer; construction and destruction act
 on an explicit heap, and the only operation that yields a changed handle
 is swap.
 */
module Pimpl {
  import opened Memory

  /** The handle: the one pointer it owns, possibly null. */
  datatype PimplPtr = PimplPtr(ptr: Ptr)

  /** The ownership invariant: a non-null handle points to a live object. */
  ghost predicate Owns<C>(h: Heap<C>, p: PimplPtr)
  {
    p.ptr == Null || IsLive(h, p.ptr)
  }

  /** get(): the contained pointer, const or not. */
  function Get(p: PimplPtr): Ptr
  {
    p.ptr
  }

  /** pimpl_ptr(): a handle owning a newly default-constructed `cls`. */
  function DefaultConstruct<C>(h: Heap<C>, cls: C): (r: (Heap<C>, PimplPtr))
    requires Valid(h)
    ensures FreshObject(h, r.0, Get(r.1), cls)
    ensures Owns(r.0, r.1) && IsSet(r.1)
  {
    var (h', t) := New(h, cls);
    (h', PimplPtr(t))
  }

  /** pimpl_ptr(t): a handle owning exactly `t`, which may be null. */
  function FromPointer(t: Ptr): (r: PimplPtr)
    ensures Get(r) == t
    ensures IsSet(r) <==> t != Null
  {
    PimplPtr(t)
  }

  /** operator->(): the same pointer as get(). */
  function Arrow(p: PimplPtr): (r: Ptr)
    ensures r == Get(p)
  {
    p.ptr
  }

  /** operator*(): the object `*get()`, identified by its address; calling
      it on a null handle is undefined, hence the precondition. */
  function Deref(p: PimplPtr): (obj: nat)
    requires Get(p) != Null
    ensures Addr(obj) == Get(p)
  {
    p.ptr.id
  }

  /** The boolean conversion: does the handle hold a non-null pointer. */
  function IsSet(p: PimplPtr): (b: bool)
    ensures b <==> Get(p) != Null
  {
    p.ptr.Addr?
  }

  /** swap(a, b): the two handles exchange their pointers. No heap is
      involved, so nothing is allocated or deleted. */
  function Swap(a: PimplPtr, b: PimplPtr): (r: (PimplPtr, PimplPtr))
    ensures Get(r.0) == Get(b) && Get(r.1) == Get(a)
  {
    (b, a)
  }

  /** ~pimpl_ptr(): delete the owned object; a null handle deletes nothing. */
  function Destroy<C>(h: Heap<C>, p: PimplPtr): (h': Heap<C>)
    requires Owns(h, p)
    ensures Get(p) == Null ==> h' == h
    ensures Get(p) != Null ==> DeletedOnce(h, h', Get(p).id) && Observe(h', Get(p)) == Null
    ensures Valid(h) && Get(p) != Null ==> Valid(h') && h'.deleted[Get(p).id] == 1
  {
    match p.ptr
    case Null => h
    case Addr(id) => Delete(h, id)
  }

  /** Swapping twice restores both handles. */
  lemma SwapTwice(a: PimplPtr, b: PimplPtr)
    ensures var (a1, b1) := Swap(a, b); Swap(a1, b1) == (a, b)
  {
  }

  /** Swap keeps ownership: each heap object stays owned by one of the two. */
  lemma SwapKeepsOwnership<C>(h: Heap<C>, a: PimplPtr, b: PimplPtr)
    requires Owns(h, a) && Owns(h, b)
    ensures Owns(h, Swap(a, b).0) && Owns(h, Swap(a, b).1)
  {
  }

  /** The members a client may call on a pair of handles `a` and `b`:
      reading a handle through get, ->, * or the boolean conversion, or
      swapping the two. */
  datatype Call = Read(first: bool) | SwapBoth

  function CountSwaps(calls: seq<Call>): nat
  {
    if |calls| == 0 then 0
    else CountSwaps(calls[..|calls| - 1]) + (if calls[|calls| - 1] == SwapBoth then 1 else 0)
  }

  /** The two handles after performing `calls` in order. A read leaves the
      handles as they are; only a swap produces new ones. */
  function Run(a: PimplPtr, b: PimplPtr, calls: seq<Call>): (PimplPtr, PimplPtr)
  {
    if |calls| == 0 then (a, b)
    else
      var (a', b') := Run(a, b, calls[..|calls| - 1]);
      match calls[|calls| - 1]
      case Read(_) => (a', b')
      case SwapBoth => Swap(a', b')
  }

  /** The content of a handle never changes except by swap: after any
      sequence of calls the pair is the original one, or the original one
      exchanged, according to the parity of the swaps performed. */
  lemma {:induction false} ContentChangesOnlyBySwap(a: PimplPtr, b: PimplPtr, calls: seq<Call>)
    ensures Run(a, b, calls) == if CountSwaps(calls) % 2 == 0 then (a, b) else (b, a)
  {
    if |calls| > 0 {
      ContentChangesOnlyBySwap(a, b, calls[..|calls| - 1]);
    }
  }

  /** The life of a handle: it owns a new object, get, -> and * all refer
      to that object, and once the handle is destroyed a guarded pointer to
      the object reads null, the object having been deleted exactly once. */
  lemma Lifetime<C>(h: Heap<C>, cls: C)
    requires Valid(h)
    ensures var (h1, t) := New(h, cls);
      var p := FromPointer(t);
      var h2 := Destroy(h1, p);
      && Get(p) == t && Arrow(p) == t && Addr(Deref(p)) == t
      && Observe(h1, Get(p)) == t
      && Observe(h2, Get(p)) == Null
      && h2.deleted[t.id] == 1
      && !Owns(h2, p)
  {
  }

  /** Two default-constructed handles own distinct objects; after swapping
      them each holds the other's former pointer, and the heap is the same. */
  lemma SwapDefaultConstructed<C>(h: Heap<C>, cls: C)
    requires Valid(h)
    ensures var (h1, o1) := DefaultConstruct(h, cls);
      var (h2, o2) := DefaultConstruct(h1, cls);
      var (s1, s2) := Swap(o1, o2);
      && Get(o1) != Get(o2)
      && Get(s1) == Get(o2) && Get(s2) == Get(o1)
      && Owns(h2, s1) && Owns(h2, s2)
  {
    var (h1, o1) := DefaultConstruct(h, cls);
    assert IsLive(h1, Get(o1));
  }

  /** A default-constructed handle tests true; one built from null tests
      false, and destroying it leaves the heap untouched. */
  lemma BooleanConversion<C>(h: Heap<C>, cls: C)
    requires Valid(h)
    ensures IsSet(DefaultConstruct(h, cls).1)
    ensures !IsSet(FromPointer(Null)) && Destroy(h, FromPointer(Null)) == h
  {
  }
}
