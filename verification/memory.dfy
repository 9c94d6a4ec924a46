/**
 An abstract heap shared by the factory and the owning handle: pointers are
 either null or an address; the heap records which addresses hold a live
 object (and the class it was constructed as), how many times each address
 has been deleted, and the next address that has never been handed out.
 */
module Memory {

  /** A pointer value. An address need not denote a live object: an opaque
      sentinel such as a reinterpreted integer is just an address. */
  datatype Ptr = Null | Addr(id: nat)

  /** Live objects with their dynamic class, the deletion count of every
      address, and the first address never allocated. */
  datatype Heap<C> = Heap(live: map<nat, C>, deleted: multiset<nat>, next: nat)

  /** Well-formedness: a live object has never been deleted, and every
      address that was ever used lies below `next`. */
  ghost predicate Valid<C>(h: Heap<C>)
  {
    && (forall i :: i in h.live ==> i < h.next && h.deleted[i] == 0)
    && (forall i :: i in h.deleted ==> i < h.next)
  }

  /** `p` points to a live object of `h`. */
  predicate IsLive<C>(h: Heap<C>, p: Ptr)
  {
    p.Addr? && p.id in h.live
  }

  /** `h'` is `h` plus one newly constructed object of class `cls` at `p`,
      an address that was never allocated before. */
  ghost predicate FreshObject<C>(h: Heap<C>, h': Heap<C>, p: Ptr, cls: C)
  {
    && p.Addr?
    && p.id !in h.live
    && h.deleted[p.id] == 0
    && h'.live == h.live[p.id := cls]
    && h'.deleted == h.deleted
    && Valid(h')
  }

  /** `h'` is `h` after deleting the live object at address `id`: it is no
      longer live, its deletion count went up by one, nothing else changed. */
  ghost predicate DeletedOnce<C>(h: Heap<C>, h': Heap<C>, id: nat)
  {
    && id in h.live
    && id !in h'.live
    && h'.live == h.live - {id}
    && h'.deleted[id] == h.deleted[id] + 1
    && (forall j :: j != id ==> h'.deleted[j] == h.deleted[j])
  }

  /** The heap before anything is allocated. */
  function EmptyHeap<C>(): (h: Heap<C>)
    ensures Valid(h)
    ensures forall i :: i !in h.live && h.deleted[i] == 0
  {
    Heap(map[], multiset{}, 0)
  }

  /** `new T`: construct an object of class `cls` at a fresh address. */
  function New<C>(h: Heap<C>, cls: C): (r: (Heap<C>, Ptr))
    requires Valid(h)
    ensures FreshObject(h, r.0, r.1, cls)
    ensures IsLive(r.0, r.1)
  {
    (Heap(h.live[h.next := cls], h.deleted, h.next + 1), Addr(h.next))
  }

  /** `delete p` for a pointer to a live object. */
  function Delete<C>(h: Heap<C>, id: nat): (h': Heap<C>)
    requires id in h.live
    ensures DeletedOnce(h, h', id)
    ensures Valid(h) ==> Valid(h') && h'.deleted[id] == 1
  {
    Heap(h.live - {id}, h.deleted + multiset{id}, h.next)
  }

  /** A guarded pointer (QPointer) to `p`: it reads as `p` while the object
      lives and as null once the object has been deleted. */
  function Observe<C>(h: Heap<C>, p: Ptr): (r: Ptr)
    ensures r == Null || r == p
    ensures r != Null <==> IsLive(h, p)
  {
    if IsLive(h, p) then p else Null
  }
}
