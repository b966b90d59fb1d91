/** The linked block list in memory, next to the free blocks: what each of the writes the
    buffer makes to a header does to it. */
module BlockLists {
  import opened Blocks
  import opened Freelists
  import opened Layouts

  ghost function At(cells: seq<Extent>, i: nat): (p: Ptr) {
    if i < |cells| then cells[i].block else NULL
  }

  /** Each cell mirrors the header of its block, and the blocks are linked in order. */
  ghost predicate Mirrors(mem: Memory, cells: seq<Extent>) {
    && (forall i :: 0 <= i < |cells| ==> cells[i].block in mem)
    && (forall i :: 0 <= i < |cells| ==>
          mem[cells[i].block].offset == cells[i].start && mem[cells[i].block].len == cells[i].len)
    && (forall i {:trigger mem[cells[i].block].next} :: 0 <= i < |cells| ==>
          mem[cells[i].block].next == At(cells, i + 1))
  }

  /** The memory holds the list of blocks `cells` and, apart from it, the free blocks `list`. */
  ghost predicate Linked(cap: nat, mem: Memory, list: seq<Ptr>, free: Ptr, cells: seq<Extent>) {
    && Pool(cap, mem, list, free)
    && Mirrors(mem, cells) && DistinctBlocks(cells)
    && forall i :: 0 <= i < |cells| ==> cells[i].block !in list
  }

  /** What was stored stays stored. */
  ghost predicate SameBytes(mem: Memory, mem': Memory) {
    forall p :: p in mem ==> p in mem' && mem'[p].buf == mem[p].buf
  }

  lemma LinkedPool(cap: nat, mem: Memory, list: seq<Ptr>, free: Ptr, cells: seq<Extent>)
    requires Linked(cap, mem, list, free, cells)
    ensures Pool(cap, mem, list, free)
    ensures forall i :: 0 <= i < |cells| ==> cells[i].block in mem && cells[i].block !in list && cells[i].block != NULL
  {
  }

  /** Reading the header of block k. */
  lemma Header(cap: nat, mem: Memory, list: seq<Ptr>, free: Ptr, cells: seq<Extent>, k: nat)
    requires Linked(cap, mem, list, free, cells) && k < |cells|
    ensures var p := cells[k].block;
            && p in mem && p != NULL && p !in list && |mem[p].buf| == cap
            && mem[p].offset == cells[k].start && mem[p].len == cells[k].len && mem[p].next == At(cells, k + 1)
  {
  }

  lemma Headed(cap: nat, mem: Memory, list: seq<Ptr>, free: Ptr, cells: seq<Extent>, k: nat)
    requires Linked(cap, mem, list, free, cells) && k <= |cells|
    ensures At(cells, k) == NULL <==> k == |cells|
    ensures k < |cells| ==> cells[k].block in mem && mem[cells[k].block].len == cells[k].len
  {
    if k < |cells| {
      Header(cap, mem, list, free, cells, k);
    }
  }

  /** All the data and all the space are locations of the memory. */
  lemma LinkedBacked(cap: nat, mem: Memory, list: seq<Ptr>, free: Ptr, cells: seq<Extent>)
    requires Linked(cap, mem, list, free, cells) && AllFit(cap, cells)
    ensures Backed(mem, Locs(cells)) && Backed(mem, Space(cap, cells))
  {
    ExtentsBacked(cap, mem, cells);
    ExtentsBacked(cap, mem, Rests(cap, cells));
  }

  lemma ExtentsBacked(cap: nat, mem: Memory, es: seq<Extent>)
    requires AllFit(cap, es)
    requires forall i :: 0 <= i < |es| ==> es[i].block in mem && |mem[es[i].block].buf| == cap
    ensures Backed(mem, Locs(es))
  {
    forall k | 0 <= k < |Locs(es)|
      ensures Locs(es)[k].block in mem && Locs(es)[k].index < |mem[Locs(es)[k].block].buf|
    {
      var i := LocsCover(es, k);
    }
  }

  lemma LinkedDistinct(cap: nat, mem: Memory, list: seq<Ptr>, free: Ptr, cells: seq<Extent>)
    requires Linked(cap, mem, list, free, cells)
    ensures DistinctBlocks(cells)
  {
  }

  lemma BytesStay(mem: Memory, mem': Memory, ls: seq<Loc>)
    requires Backed(mem, ls) && SameBytes(mem, mem')
    ensures Backed(mem', ls) && BytesAt(mem', ls) == BytesAt(mem, ls)
  {
  }

  lemma BytesMove(mem: Memory, mem': Memory, data: seq<Loc>, space: seq<Loc>, n: nat)
    requires Backed(mem, data) && Backed(mem, space) && SameBytes(mem, mem') && n <= |space|
    ensures Backed(mem', data + space[..n])
    ensures BytesAt(mem', data + space[..n]) == BytesAt(mem, data) + BytesAt(mem, space)[..n]
  {
  }

  lemma ChainOf(cap: nat, mem: Memory, list: seq<Ptr>, free: Ptr, cells: seq<Extent>, chain: seq<Ptr>)
    requires Linked(cap, mem, list, free, cells) && |chain| == |cells|
    requires forall i :: 0 <= i < |cells| ==> chain[i] == cells[i].block
    ensures Chained(mem, chain, At(cells, 0)) && Distinct(chain)
    ensures forall i :: 0 <= i < |chain| ==> chain[i] !in list
  {
    forall i | 0 <= i < |chain|
      ensures mem[chain[i]].next == Nth(chain, i + 1)
    {
      assert mem[cells[i].block].next == At(cells, i + 1);
    }
  }

  lemma BytesDrop(mem: Memory, mem': Memory, data: seq<Loc>, n: nat)
    requires Backed(mem, data) && SameBytes(mem, mem') && n <= |data|
    ensures Backed(mem', data[n..]) && BytesAt(mem', data[n..]) == BytesAt(mem, data)[n..]
  {
  }

  lemma SameBytesRefl(a: Memory)
    ensures SameBytes(a, a)
  {
  }

  lemma SameBytesTrans(a: Memory, b: Memory, c: Memory)
    requires SameBytes(a, b) && SameBytes(b, c)
    ensures SameBytes(a, c)
  {
  }

  /** Rewriting a block outside the freelist, storage untouched, leaves the freelist alone. */
  lemma PoolUpdate(cap: nat, mem: Memory, list: seq<Ptr>, free: Ptr, p: Ptr, b: Block)
    requires Pool(cap, mem, list, free) && p != NULL && p !in list && |b.buf| == cap
    ensures Pool(cap, mem[p := b], list, free)
  {
    var mem' := mem[p := b];
    forall i | 0 <= i < |list|
      ensures mem'[list[i]].next == Nth(list, i + 1)
    {
      assert list[i] in list;
    }
  }

  /** Changing the extent of the data in block k. */
  lemma Resize(cap: nat, mem: Memory, list: seq<Ptr>, free: Ptr, cells: seq<Extent>, k: nat, start: nat, len: nat)
    requires Linked(cap, mem, list, free, cells) && k < |cells|
    ensures var p := cells[k].block;
            && p in mem && p !in list
            && Linked(cap, mem[p := mem[p].(offset := start, len := len)], list, free,
                      cells[k := Extent(p, start, len)])
            && SameBytes(mem, mem[p := mem[p].(offset := start, len := len)])
  {
    var p := cells[k].block;
    PoolUpdate(cap, mem, list, free, p, mem[p].(offset := start, len := len));
    var mem' := mem[p := mem[p].(offset := start, len := len)];
    var cells' := cells[k := Extent(p, start, len)];
    forall i | 0 <= i < |cells|
      ensures cells'[i].block == cells[i].block && mem'[cells[i].block].next == mem[cells[i].block].next
      ensures At(cells', i + 1) == At(cells, i + 1)
    {
    }
  }

  /** Linking a block that is in its initial state behind the last one. */
  lemma Link(cap: nat, mem: Memory, list: seq<Ptr>, free: Ptr, cells: seq<Extent>, b: Ptr)
    requires Linked(cap, mem, list, free, cells) && b in mem && b !in list
    requires mem[b].next == NULL && mem[b].offset == 0 && mem[b].len == 0
    requires forall i :: 0 <= i < |cells| ==> cells[i].block != b
    ensures cells == [] ==> Linked(cap, mem, list, free, cells + [Extent(b, 0, 0)]) && SameBytes(mem, mem)
    ensures cells != [] ==>
              var t := cells[|cells| - 1].block;
              && t in mem && |mem[t].buf| == cap
              && Linked(cap, mem[t := mem[t].(next := b)], list, free, cells + [Extent(b, 0, 0)])
              && SameBytes(mem, mem[t := mem[t].(next := b)])
    ensures b != NULL
  {
    if cells != [] {
      var t := cells[|cells| - 1].block;
      var mem' := mem[t := mem[t].(next := b)];
      var cells' := cells + [Extent(b, 0, 0)];
      PoolUpdate(cap, mem, list, free, t, mem[t].(next := b));
      forall i | 0 <= i < |cells'|
        ensures mem'[cells'[i].block].next == At(cells', i + 1)
      {
        if i < |cells| - 1 {
          assert mem'[cells[i].block] == mem[cells[i].block];
          assert mem[cells[i].block].next == At(cells, i + 1);
        }
      }
    }
  }

  /** Handing out a block leaves the list as it was. */
  lemma AfterNew(cap: nat, mem: Memory, mem': Memory, list: seq<Ptr>, list': seq<Ptr>, free: Ptr, free': Ptr,
                 cells: seq<Extent>, b: Ptr)
    requires Linked(cap, mem, list, free, cells) && Pool(cap, mem', list', free')
    requires b in mem' && mem' == mem[b := mem'[b]]
    requires if list == [] then b !in mem && list' == [] else b == list[0] && list' == list[1..]
    requires b in mem ==> mem'[b].buf == mem[b].buf
    ensures Linked(cap, mem', list', free', cells) && SameBytes(mem, mem')
    ensures forall i :: 0 <= i < |cells| ==> cells[i].block != b
  {
    forall i | 0 <= i < |cells|
      ensures cells[i].block != b && mem'[cells[i].block] == mem[cells[i].block]
    {
      assert cells[i].block in mem;
    }
  }

  /** Giving the first block to the freelist. */
  lemma Unlink(cap: nat, mem: Memory, list: seq<Ptr>, free: Ptr, cells: seq<Extent>, mem': Memory)
    requires Linked(cap, mem, list, free, cells) && cells != []
    requires mem' == mem[cells[0].block := mem[cells[0].block].(next := free)]
    requires Pool(cap, mem', [cells[0].block] + list, cells[0].block)
    ensures Linked(cap, mem', [cells[0].block] + list, cells[0].block, cells[1..])
    ensures mem[cells[0].block].next == At(cells, 1) && SameBytes(mem, mem')
  {
    var rest := cells[1..];
    forall i | 0 <= i < |rest|
      ensures rest[i].block != cells[0].block && mem'[rest[i].block].next == At(rest, i + 1)
    {
      assert rest[i] == cells[i + 1];
      assert mem[cells[i + 1].block].next == At(cells, i + 2);
    }
  }
}
