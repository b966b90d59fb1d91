/** Writing bytes into extents, and what it leaves alone. */
module Storage {
  import opened Blocks
  import opened Freelists
  import opened Layouts
  import opened BlockLists

  /** Copies `bytes` to the front of an extent. */
  function Put(mem: Memory, e: Extent, bytes: seq<byte>): (mem': Memory)
    requires e.block in mem && |bytes| <= e.len && e.start + e.len <= |mem[e.block].buf|
    ensures mem'.Keys == mem.Keys
  {
    var b := mem[e.block];
    mem[e.block := b.(buf := b.buf[..e.start] + bytes + b.buf[e.start + |bytes|..])]
  }

  ghost predicate Outside(e: Extent, ls: seq<Loc>) {
    forall i :: 0 <= i < |ls| ==> !(ls[i].block == e.block && e.start <= ls[i].index < e.start + e.len)
  }

  /** A copy leaves all other locations alone. */
  lemma PutElsewhere(mem: Memory, e: Extent, bytes: seq<byte>, ls: seq<Loc>)
    requires e.block in mem && |bytes| <= e.len && e.start + e.len <= |mem[e.block].buf|
    requires Backed(mem, ls) && Outside(e, ls)
    ensures var mem' := Put(mem, e, bytes); Backed(mem', ls) && BytesAt(mem', ls) == BytesAt(mem, ls)
  {
  }

  lemma PutHere(mem: Memory, e: Extent, bytes: seq<byte>)
    requires e.block in mem && |bytes| <= e.len && e.start + e.len <= |mem[e.block].buf|
    ensures var mem' := Put(mem, e, bytes);
            Backed(mem', Span(e)[..|bytes|]) && BytesAt(mem', Span(e)[..|bytes|]) == bytes
  {
  }

  lemma PutLinked(cap: nat, mem: Memory, list: seq<Ptr>, free: Ptr, cells: seq<Extent>, e: Extent, bytes: seq<byte>)
    requires Linked(cap, mem, list, free, cells)
    requires e.block in mem && |bytes| <= e.len && e.start + e.len <= |mem[e.block].buf|
    ensures Linked(cap, Put(mem, e, bytes), list, free, cells)
  {
    var mem' := Put(mem, e, bytes);
    assert forall p :: p in mem ==> mem'[p].next == mem[p].next && |mem'[p].buf| == |mem[p].buf|;
  }

  /** Extents in distinct blocks do not overlap. */
  lemma OutsideOthers(es: seq<Extent>, k: nat)
    requires DistinctBlocks(es) && k < |es|
    ensures Outside(es[k], Locs(es[..k]))
  {
    forall i | 0 <= i < |Locs(es[..k])|
      ensures Locs(es[..k])[i].block != es[k].block
    {
      var j := LocsCover(es[..k], i);
    }
  }

  /** What was reserved does not overlap the data. */
  lemma OutsideData(cap: nat, cells: seq<Extent>, grant: seq<Extent>, k: nat)
    requires Granted(cap, cells, grant) && DistinctBlocks(cells) && k < |grant|
    ensures Outside(grant[k], Locs(cells))
  {
    LocsSplit(grant, k);
    var skip := |Locs(grant[..k])|;
    forall i | 0 <= i < |Locs(cells)|
      ensures !(Locs(cells)[i].block == grant[k].block
              && grant[k].start <= Locs(cells)[i].index < grant[k].start + grant[k].len)
    {
      var l := Locs(cells)[i];
      if l.block == grant[k].block && grant[k].start <= l.index < grant[k].start + grant[k].len {
        var j := skip + (l.index - grant[k].start);
        assert Locs(grant)[j] == l;
        assert Space(cap, cells)[j] == Locs(grant)[j];
        Disjoint(cap, cells, i, j);
      }
    }
  }

  /** What was reserved lies within blocks of the memory. */
  lemma GrantBacked(cap: nat, mem: Memory, list: seq<Ptr>, free: Ptr, cells: seq<Extent>, grant: seq<Extent>, k: nat)
    requires Linked(cap, mem, list, free, cells) && Granted(cap, cells, grant) && k < |grant|
    ensures grant[k].block in mem && grant[k].start + grant[k].len <= |mem[grant[k].block].buf|
    ensures Backed(mem, Locs(grant))
  {
    LinkedBacked(cap, mem, list, free, cells);
    LocsSplit(grant, k);
    var last := |Locs(grant[..k])| + grant[k].len - 1;
    assert Locs(grant)[last] == Span(grant[k])[grant[k].len - 1];
    assert Space(cap, cells)[last] == Locs(grant)[last];
    forall i | 0 <= i < |Locs(grant)|
      ensures Locs(grant)[i] == Space(cap, cells)[i]
    {
    }
  }

  /** One step of a scattered copy: the next chunk of `data` goes to extent k, the bytes
      copied before it and the data of the buffer stay. */
  lemma ScatterStep(cap: nat, mem: Memory, list: seq<Ptr>, free: Ptr, cells: seq<Extent>, grant: seq<Extent>,
                    k: nat, done: seq<byte>, chunk: seq<byte>)
    requires Linked(cap, mem, list, free, cells) && Granted(cap, cells, grant) && k < |grant|
    requires Backed(mem, Locs(cells)) && Backed(mem, Locs(grant[..k]))
    requires |chunk| <= grant[k].len && BytesAt(mem, Locs(grant[..k])) == done
    ensures grant[k].block in mem && grant[k].start + grant[k].len <= |mem[grant[k].block].buf|
    ensures var mem' := Put(mem, grant[k], chunk);
            && Linked(cap, mem', list, free, cells)
            && Backed(mem', Locs(cells)) && BytesAt(mem', Locs(cells)) == BytesAt(mem, Locs(cells))
            && Backed(mem', Locs(grant[..k]) + Span(grant[k])[..|chunk|])
            && BytesAt(mem', Locs(grant[..k]) + Span(grant[k])[..|chunk|]) == done + chunk
  {
    hide Linked, Granted, Locs, DistinctBlocks, Outside;
    GrantBacked(cap, mem, list, free, cells, grant, k);
    LinkedDistinct(cap, mem, list, free, cells);
    GrantDistinct(cap, cells, grant);
    OutsideOthers(grant, k);
    OutsideData(cap, cells, grant, k);
    PutElsewhere(mem, grant[k], chunk, Locs(cells));
    PutElsewhere(mem, grant[k], chunk, Locs(grant[..k]));
    PutHere(mem, grant[k], chunk);
    PutLinked(cap, mem, list, free, cells, grant[k], chunk);
    BytesAppend(Put(mem, grant[k], chunk), Locs(grant[..k]), Span(grant[k])[..|chunk|]);
  }

  lemma GrantDistinct(cap: nat, cells: seq<Extent>, grant: seq<Extent>)
    requires Granted(cap, cells, grant)
    ensures DistinctBlocks(grant)
  {
  }

  lemma BytesAppend(mem: Memory, a: seq<Loc>, b: seq<Loc>)
    requires Backed(mem, a) && Backed(mem, b)
    ensures Backed(mem, a + b) && BytesAt(mem, a + b) == BytesAt(mem, a) + BytesAt(mem, b)
  {
  }

  /** The locations a scattered copy has written after a chunk of extent k. */
  lemma ScatterLocs(es: seq<Extent>, k: nat, m: nat)
    requires k < |es| && m <= es[k].len
    ensures |Locs(es[..k])| + m <= |Locs(es)|
    ensures Locs(es[..k]) + Span(es[k])[..m] == Locs(es)[..|Locs(es[..k])| + m]
    ensures m == es[k].len ==> Locs(es[..k + 1]) == Locs(es[..k]) + Span(es[k])[..m]
  {
    LocsSplit(es, k);
    assert es[..k + 1] == es[..k] + [es[k]];
    LocsSnoc(es[..k], es[k]);
    assert m == es[k].len ==> Span(es[k])[..m] == Span(es[k]);
    var a, b, c := Locs(es[..k]), Span(es[k]), Locs(es[k + 1..]);
    assert (a + b + c)[..|a| + m] == a + b[..m];
  }

  lemma ScatterDone(cap: nat, mem: Memory, cells: seq<Extent>, grant: seq<Extent>, data: seq<byte>)
    requires Granted(cap, cells, grant) && |data| <= |Locs(grant)| && Backed(mem, Space(cap, cells))
    requires Backed(mem, Locs(grant)[..|data|]) && BytesAt(mem, Locs(grant)[..|data|]) == data
    ensures |data| <= |Space(cap, cells)| && BytesAt(mem, Space(cap, cells))[..|data|] == data
  {
    hide Locs, Space;
    assert forall i :: 0 <= i < |data| ==> Space(cap, cells)[i] == Locs(grant)[..|data|][i];
  }

  /** One step of a gathered copy: extent k holds the next bytes of the queue. */
  lemma GatherStep(mem: Memory, es: seq<Extent>, bytes: seq<byte>, k: nat, m: nat)
    requires Backed(mem, Locs(es)) && BytesAt(mem, Locs(es)) == bytes && k < |es| && 0 < es[k].len && m <= es[k].len
    ensures es[k].block in mem && es[k].start + es[k].len <= |mem[es[k].block].buf|
    ensures var skip := |Locs(es[..k])|;
            && skip + m <= |bytes|
            && mem[es[k].block].buf[es[k].start..es[k].start + m] == bytes[skip..skip + m]
  {
    LocsSplit(es, k);
    var skip := |Locs(es[..k])|;
    assert Locs(es)[skip + es[k].len - 1] == Loc(es[k].block, es[k].start + es[k].len - 1);
    assert Locs(es)[skip..skip + m] == Span(es[k])[..m];
  }

  /** One step of a copy that has taken `copied` of at most `size` bytes from the first k
      extents. */
  lemma GatherMore(mem: Memory, es: seq<Extent>, bytes: seq<byte>, k: nat, copied: nat, size: nat)
    requires Backed(mem, Locs(es)) && BytesAt(mem, Locs(es)) == bytes && k < |es| && 0 < es[k].len
    requires copied <= size && copied <= |bytes| && (copied < size ==> copied == |Locs(es[..k])|)
    ensures var m := if size - copied > es[k].len then es[k].len else size - copied;
            && es[k].block in mem && es[k].start + es[k].len <= |mem[es[k].block].buf|
            && copied + m <= |bytes|
            && mem[es[k].block].buf[es[k].start..es[k].start + m] == bytes[copied..copied + m]
            && bytes[..copied] + bytes[copied..copied + m] == bytes[..copied + m]
            && (copied + m < size ==> copied + m == |Locs(es[..k + 1])|)
  {
    hide Locs, Backed, BytesAt;
    var m := if size - copied > es[k].len then es[k].len else size - copied;
    GatherStep(mem, es, bytes, k, m);
    ScatterLocs(es, k, m);
  }
}
