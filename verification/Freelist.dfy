/** The block allocator with its freelist, as used by one thread at a time. */
module Freelists {
  import opened Blocks

  ghost function Nth(ps: seq<Ptr>, i: nat): (p: Ptr) {
    if i < |ps| then ps[i] else NULL
  }

  ghost predicate Distinct(ps: seq<Ptr>) {
    forall i, j :: 0 <= i < j < |ps| ==> ps[i] != ps[j]
  }

  /** `ps` is the chain that starts at `p`: each block points to the next, the last to null. */
  ghost predicate Chained(mem: Memory, ps: seq<Ptr>, p: Ptr) {
    && p == Nth(ps, 0)
    && (forall i :: 0 <= i < |ps| ==> ps[i] in mem)
    && (forall i {:trigger mem[ps[i]].next} :: 0 <= i < |ps| ==> mem[ps[i]].next == Nth(ps, i + 1))
  }

  /** The free blocks of a memory of blocks of equal size. */
  ghost predicate Pool(cap: nat, mem: Memory, list: seq<Ptr>, head: Ptr) {
    && NULL !in mem && (forall p :: p in mem ==> |mem[p].buf| == cap)
    && Chained(mem, list, head) && Distinct(list)
  }

  /** Memory is finite, so some address is unused. */
  lemma UnusedAddress(mem: Memory)
    ensures exists p: Ptr :: p != NULL && p !in mem
  {
    var bound := Above(mem.Keys);
    assert bound != NULL && bound !in mem;
  }

  lemma {:induction false} Above(s: set<Ptr>) returns (n: Ptr)
    ensures n > 0 && forall p :: p in s ==> p < n
  {
    if s == {} {
      n := 1;
    } else {
      var x :| x in s;
      n := Above(s - {x});
      n := if n > x then n else x + 1;
      assert forall p :: p in s ==> p == x || p in s - {x};
    }
  }

  class Freelist {
    const capacity: nat
    var head: Ptr
    var size: nat
    /** The blocks obtained from the heap and not given back to it. */
    var mem: Memory
    /** The free blocks, first out first. */
    ghost var list: seq<Ptr>
    /** How many blocks were ever obtained from the heap. */
    ghost var allocs: nat

    ghost predicate Valid()
      reads this
    {
      Pool(capacity, mem, list, head) && size == |list|
    }

    constructor (capacity: nat)
      ensures Valid() && list == [] && mem == map[] && allocs == 0 && this.capacity == capacity
    {
      this.capacity := capacity;
      head, size, mem := NULL, 0, map[];
      list, allocs := [], 0;
    }

    /** Hands out a block whose header is in its initial state: the most recently freed
        block, or a new one when no block is free. No other block changes. */
    method New() returns (b: Ptr)
      requires Valid()
      modifies this
      ensures Valid() && b != NULL && b in mem && b !in list
      ensures mem[b].next == NULL && mem[b].offset == 0 && mem[b].len == 0
      ensures mem == old(mem)[b := mem[b]] && (b in old(mem) ==> mem[b].buf == old(mem[b].buf))
      ensures if old(list) == [] then b !in old(mem) && list == [] && allocs == old(allocs) + 1
              else b == old(list)[0] && list == old(list)[1..] && allocs == old(allocs)
    {
      if head == NULL {
        UnusedAddress(mem);
        b :| b != NULL && b !in mem;
        assert |seq(capacity, _ => 0 as byte)| == capacity;
        var storage: seq<byte> :| |storage| == capacity;
        mem, allocs := mem[b := Block(NULL, 0, 0, storage)], allocs + 1;
      } else {
        b := head;
        head := mem[b].next;
        size := size - 1;
        mem := mem[b := Block(NULL, 0, 0, mem[b].buf)];
        list := list[1..];
      }
    }

    /** Gives a block back. */
    method Delete(b: Ptr)
      requires Valid() && b in mem && b !in list
      modifies this
      ensures Valid() && list == [b] + old(list) && allocs == old(allocs)
      ensures mem == old(mem)[b := old(mem[b]).(next := old(head))] && head == b
    {
      mem := mem[b := mem[b].(next := head)];
      head := b;
      size := size + 1;
      list := [b] + list;
    }

    /** Gives a whole chain back, keeping its order. */
    method DeleteChain(first: Ptr, ghost chain: seq<Ptr>)
      requires Valid() && Chained(mem, chain, first) && Distinct(chain)
      requires forall i :: 0 <= i < |chain| ==> chain[i] !in list
      modifies this
      ensures Valid() && list == chain + old(list) && mem.Keys == old(mem.Keys) && allocs == old(allocs)
      ensures forall p :: p in mem && p !in chain ==> mem[p] == old(mem)[p]
    {
      if first == NULL {
        return;
      }
      var count, last := 1, first;
      while mem[last].next != NULL
        invariant 1 <= count <= |chain| && last == chain[count - 1]
        decreases |chain| - count
      {
        last := mem[last].next;
        count := count + 1;
      }
      mem := mem[last := mem[last].(next := head)];
      head := first;
      size := size + count;
      list := chain + list;
    }

    /** Gives the first free block back to the heap. */
    method Release()
      requires Valid() && list != []
      modifies this
      ensures Valid() && list == old(list)[1..] && mem == old(mem) - {old(list)[0]}
    {
      var b := New();
      mem := mem - {b};
    }

    /** Gives every free block back to the heap. */
    method Clear()
      requires Valid()
      modifies this
      ensures Valid() && list == [] && size == 0
      ensures mem == old(mem) - set p | p in old(list)
    {
      hide Distinct;
      ghost var freed: set<Ptr> := {};
      while head != NULL
        invariant Valid() && mem == old(mem) - freed
        invariant forall p :: p in old(list) <==> p in freed || p in list
        decreases |list|
      {
        ghost var b := list[0];
        assert list == [b] + list[1..];
        Release();
        freed := freed + {b};
      }
    }
  }
}
