/** The small-block allocator of an mpc input: 512 slots of 64 bytes, handed out in a ring,
    with the C heap behind them. */
module MpcPool {

  newtype Byte = x: int | 0 <= x < 256

  const SLOTS: nat := 512
  const SLOT_SIZE: nat := 64

  /** A pointer that one of the allocators returned. */
  datatype Ptr = Null | Slot(j: nat) | Heap(id: nat)

  /** m is met before stop when going round from start. */
  predicate Between(start: nat, stop: nat, m: nat) {
    if start <= stop then start <= m < stop else start <= m || m < stop
  }

  function Min(a: nat, b: nat): nat {
    if a < b then a else b
  }

  class Pool {
    const mem: array<seq<Byte>>
    const memFull: array<bool>
    var memIndex: nat
    var heap: map<nat, seq<Byte>>
    var nextId: nat

    ghost predicate Valid()
      reads this, mem, memFull
    {
      && mem.Length == memFull.Length == SLOTS
      && memIndex < SLOTS
      && (forall j :: 0 <= j < SLOTS ==> |mem[j]| == SLOT_SIZE)
      && (forall id :: id in heap ==> id < nextId)
    }

    /** The blocks that are held. */
    ghost function Live(): set<Ptr>
      requires Valid()
      reads this, mem, memFull
    {
      (set j | 0 <= j < SLOTS && memFull[j] :: Slot(j)) + (set id | id in heap :: Heap(id))
    }

    /** The bytes of a held block. */
    ghost function Block(p: Ptr): seq<Byte>
      requires Valid() && p in Live()
      reads this, mem, memFull
    {
      if p.Slot? then mem[p.j] else heap[p.id]
    }

    /** Every block held before, except for those in gone, is held with the same bytes. */
    twostate predicate Keeps(gone: set<Ptr>)
      requires old(Valid()) && Valid()
      reads this, mem, memFull
    {
      forall q :: q in old(Live()) && q !in gone ==> q in Live() && Block(q) == old(Block(q))
    }

    constructor ()
      ensures Valid() && Live() == {} && fresh(mem) && fresh(memFull)
    {
      mem := new seq<Byte>[SLOTS](_ => seq(SLOT_SIZE, _ => 0));
      memFull := new bool[SLOTS](_ => false);
      memIndex, heap, nextId := 0, map[], 0;
    }

    /** The C heap: a new block, whose bytes nobody has written. */
    method HeapAlloc(bytes: seq<Byte>) returns (p: Ptr)
      requires Valid()
      modifies this`heap, this`nextId
      ensures Valid() && p.Heap? && p !in old(Live())
      ensures Live() == old(Live()) + {p} && Block(p) == bytes && Keeps({})
    {
      p := Heap(nextId);
      heap := heap[nextId := bytes];
      nextId := nextId + 1;
    }

    /** The first free slot going round from the index, or the heap when the request is too
        big or no slot is free. The block is never one that is still held. */
    method Malloc(n: nat, junk: seq<Byte>) returns (p: Ptr)
      requires Valid() && |junk| == n
      modifies this, memFull
      ensures Valid() && p !in old(Live()) && p != Null
      ensures Live() == old(Live()) + {p} && |Block(p)| >= n && Keeps({})
      ensures p.Heap? <==> n > SLOT_SIZE || forall j :: 0 <= j < SLOTS ==> old(memFull[j])
      ensures p.Slot? ==> p.j < SLOTS && forall m :: 0 <= m < SLOTS && Between(old(memIndex), p.j, m) ==>
          old(memFull[m])
      ensures p.Slot? ==> memIndex == if p.j + 1 == SLOTS then 0 else p.j + 1
    {
      if n > SLOT_SIZE {
        p := HeapAlloc(junk);
        return;
      }
      var j := memIndex;
      while true
        invariant Valid() && heap == old(heap) && nextId == old(nextId)
        invariant forall m :: 0 <= m < SLOTS ==> memFull[m] == old(memFull[m])
        invariant forall m :: 0 <= m < SLOTS && Between(j, memIndex, m) ==> memFull[m]
        decreases if memIndex >= j then SLOTS - memIndex + j else j - memIndex
      {
        if !memFull[memIndex] {
          p := Slot(memIndex);
          memFull[memIndex] := true;
          memIndex := (memIndex + 1) % SLOTS;
          return;
        }
        memIndex := (memIndex + 1) % SLOTS;
        if j == memIndex { break; }
      }
      p := HeapAlloc(junk);
    }

    /** Releases exactly the given block. */
    method Free(p: Ptr)
      requires Valid() && (p == Null || p in Live())
      modifies this`heap, memFull
      ensures Valid() && Live() == old(Live()) - {p} && Keeps({p})
    {
      match p
      case Null =>
      case Heap(id) => heap := heap - {id};
      case Slot(j) => memFull[j] := false;
    }

    /** A block of at least n bytes that begins with the bytes of the old one. A slot that is
        big enough is kept. */
    method Realloc(p: Ptr, n: nat, junk: seq<Byte>) returns (q: Ptr)
      requires Valid() && (p == Null || p in Live()) && |junk| == n
      modifies this, memFull
      ensures Valid() && q in Live() && (q == p || q !in old(Live()))
      ensures Live() == old(Live()) - {p} + {q} && Keeps({p})
      ensures |Block(q)| >= n
      ensures p != Null ==> var k := Min(n, |old(Block(p))|); Block(q)[..k] == old(Block(p))[..k]
      ensures p.Slot? && n <= SLOT_SIZE ==> q == p && Block(q) == old(Block(p))
    {
      match p
      case Null => q := HeapAlloc(junk);
      case Heap(id) =>
        var k := Min(n, |heap[id]|);
        q := HeapAlloc(heap[id][..k] + junk[k..]);
        Free(p);
      case Slot(j) =>
        if n > SLOT_SIZE {
          q := HeapAlloc(mem[j] + junk[SLOT_SIZE..]);
          Free(p);
        } else {
          q := p;
        }
    }

    /** Moves a block out of the pool, so that it outlives the input. */
    method Export(p: Ptr) returns (q: Ptr)
      requires Valid() && (p == Null || p in Live())
      modifies this, memFull
      ensures Valid() && !q.Slot? && (q == p || q !in old(Live()))
      ensures p == Null ==> q == Null && Live() == old(Live()) && Keeps({})
      ensures p != Null ==> && Live() == old(Live()) - {p} + {q} && Keeps({p})
                            && Block(q) == old(Block(p))
    {
      if !p.Slot? { return p; }
      q := HeapAlloc(mem[p.j]);
      Free(p);
    }
  }
}
