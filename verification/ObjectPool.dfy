/** object_pool.hpp: a fixed block of slots with a free list threaded through the unused ones. A
    pointer is a slot number, NULL is -1, and the union of object and link is the Slot datatype. */
module ObjectPool {
  import opened Queues

  const NULL: int := -1

  datatype Slot<T> = Free(next: int) | Live(obj: T)

  /** The slot after the i-th in a chain. */
  function NextOf(chain: seq<int>, i: nat): int
    requires i < |chain|
  {
    if i + 1 == |chain| then NULL else chain[i + 1]
  }

  function FirstOf(chain: seq<int>): int {
    if chain == [] then NULL else chain[0]
  }

  /** The slots of `free`, in order, are chained from head, none twice, and no other slot is free. */
  ghost predicate FreeList<T>(mem: seq<Slot<T>>, head: int, free: seq<int>) {
    && head == FirstOf(free)
    && (forall i :: 0 <= i < |free| ==> FreeAt(mem, free[i]) && mem[free[i]].next == NextOf(free, i))
    && NoDup(free)
    && (forall k :: 0 <= k < |mem| && mem[k].Free? ==> k in free)
  }

  predicate FreeAt<T>(mem: seq<Slot<T>>, k: int) {
    0 <= k < |mem| && mem[k].Free?
  }

  ghost function FreeSlots<T>(mem: seq<Slot<T>>): set<int> {
    set k | 0 <= k < |mem| && mem[k].Free?
  }

  /** The free list is acyclic and complete: its length is the number of free slots. */
  lemma FreeListIsComplete<T>(mem: seq<Slot<T>>, head: int, free: seq<int>)
    requires FreeList(mem, head, free)
    ensures |FreeSlots(mem)| == |free|
  {
    assert forall i :: 0 <= i < |free| ==> FreeAt(mem, free[i]);
    NoDupCardinality(free);
    assert FreeSlots(mem) == set x | x in free;
  }

  lemma FreeListPop<T>(mem: seq<Slot<T>>, head: int, free: seq<int>, obj: T)
    requires FreeList(mem, head, free) && free != []
    ensures FreeAt(mem, head)
    ensures FreeList(mem[head := Live(obj)], mem[head].next, free[1..])
  {
    assert FreeAt(mem, free[0]) && mem[free[0]].next == NextOf(free, 0);
    var mem', free' := mem[head := Live(obj)], free[1..];
    forall i | 0 <= i < |free'|
      ensures FreeAt(mem', free'[i]) && mem'[free'[i]].next == NextOf(free', i)
    {
      assert free'[i] == free[i + 1] && FreeAt(mem, free[i + 1]) && free[0] != free[i + 1];
    }
    forall k | 0 <= k < |mem'| && mem'[k].Free?
      ensures k in free'
    {
      assert k in free && k != free[0];
    }
  }

  lemma NextOfCons(p: int, chain: seq<int>, i: nat, j: nat)
    requires i < |chain| && j == i + 1
    ensures ([p] + chain)[j] == chain[i] && NextOf([p] + chain, j) == NextOf(chain, i)
  {
  }

  /** The slots of the old chain, one place further on. */
  lemma PushedAt<T>(mem: seq<Slot<T>>, head: int, free: seq<int>, p: int, i: nat)
    requires FreeList(mem, head, free) && 0 <= p < |mem| && mem[p].Live? && 0 < i <= |free|
    ensures var mem', free' := mem[p := Free(head)], [p] + free;
      FreeAt(mem', free'[i]) && mem'[free'[i]].next == NextOf(free', i) && free'[i] != p
  {
    assert FreeAt(mem, free[i - 1]);
    NextOfCons(p, free, i - 1, i);
    hide NoDup;
  }

  lemma NoDupPushed(free: seq<int>, p: int)
    requires NoDup(free) && p !in free
    ensures NoDup([p] + free)
  {
  }

  lemma FreeListPush<T>(mem: seq<Slot<T>>, head: int, free: seq<int>, p: int)
    requires FreeList(mem, head, free) && 0 <= p < |mem| && mem[p].Live?
    ensures FreeList(mem[p := Free(head)], p, [p] + free)
  {
    var mem', free' := mem[p := Free(head)], [p] + free;
    forall i | 0 < i < |free'|
      ensures FreeAt(mem', free'[i]) && mem'[free'[i]].next == NextOf(free', i) && free'[i] != p
    {
      PushedAt(mem, head, free, p, i);
    }
    assert p !in free by {
      forall i | 0 <= i < |free|
        ensures free[i] != p
      {
        PushedAt(mem, head, free, p, i + 1);
      }
    }
    NoDupPushed(free, p);
    hide NoDup;
    assert free'[0] == p && NextOf(free', 0) == head;
    forall k | 0 <= k < |mem'| && mem'[k].Free?
      ensures k in free'
    {
      if k != p {
        assert k in free;
      }
    }
  }

  lemma SomeLive<T>(mem: seq<Slot<T>>, p: int)
    requires 0 <= p < |mem| && mem[p].Live?
    ensures |FreeSlots(mem)| < |mem|
  {
    var all := seq(|mem|, i => i);
    var slots := set k | k in all;
    NoDupCardinality(all);
    forall k | k in FreeSlots(mem)
      ensures k in slots - {p}
    {
      assert all[k] == k;
    }
    SubsetSize(FreeSlots(mem), slots - {p});
    assert all[p] == p;
  }

  class Pool<T> {
    const blank: T
    const storage: array<Slot<T>>
    var head: int
    var inUse: nat
    ghost var free: seq<int>

    ghost predicate Valid()
      reads this, storage
    {
      FreeList(storage[..], head, free) && inUse + |free| == storage.Length
    }

    constructor (capacity: nat, blank: T)
      requires capacity > 0
      ensures Valid() && fresh(storage) && storage.Length == capacity && this.blank == blank
      ensures inUse == 0 && forall k :: 0 <= k < capacity ==> storage[k].Free?
    {
      ghost var all := seq(capacity, i => i);
      var slots := new Slot<T>[capacity](_ => Free(NULL));
      for i := 0 to capacity
        invariant forall k :: 0 <= k < i ==> slots[k] == Free(NextOf(all, k))
        invariant forall k :: i <= k < capacity ==> slots[k] == Free(NULL)
      {
        slots[i] := Free(if i + 1 < capacity then i + 1 else NULL);
      }
      storage := slots;
      head := 0;
      inUse := 0;
      this.blank := blank;
      free := all;
      assert forall k :: 0 <= k < capacity ==> all[k] == k;
    }

    /** Takes the head of the free list, or NULL if there is none; the slot holds a fresh object. */
    method Allocate() returns (p: int)
      requires Valid()
      modifies this, storage
      ensures Valid()
      ensures p == NULL <==> old(inUse) == storage.Length
      ensures p == NULL ==> storage[..] == old(storage[..]) && inUse == old(inUse) && free == old(free)
      ensures p != NULL ==>
        && 0 <= p < storage.Length && old(storage[p]).Free?
        && storage[..] == old(storage[..])[p := Live(blank)]
        && inUse == old(inUse) + 1
        && old(free) == [p] + free
    {
      if head == NULL {
        assert free == [];
        return NULL;
      }
      FreeListPop(storage[..], head, free, blank);
      p := head;
      head := storage[p].next;
      inUse := inUse + 1;
      storage[p] := Live(blank);
      free := free[1..];
      assert storage[..] == old(storage[..])[p := Live(blank)];
    }

    /** Gives a live slot back; it will be the next one handed out. */
    method Deallocate(p: int)
      requires Valid() && 0 <= p < storage.Length && storage[p].Live?
      modifies this, storage
      ensures Valid()
      ensures storage[p].Free? && storage[..] == old(storage[..])[p := storage[p]]
      ensures inUse == old(inUse) - 1
      ensures free == [p] + old(free)
    {
      FreeListIsComplete(storage[..], head, free);
      SomeLive(storage[..], p);
      FreeListPush(storage[..], head, free, p);
      storage[p] := Free(head);
      head := p;
      inUse := inUse - 1;
      free := [p] + free;
      assert storage[..] == old(storage[..])[p := storage[p]];
    }
  }
}
