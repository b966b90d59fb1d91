/** Fixed-size blocks addressed by pointers, the extents of memory handed to scatter-gather
    I/O, and the arithmetic of flattening extents into the memory locations they cover. */
module Blocks {

  newtype byte = x: int | 0 <= x < 256

  /** An address. */
  type Ptr = nat
  const NULL: Ptr := 0

  /** One node of the singly linked block list; `buf` is the storage behind the header. */
  datatype Block = Block(next: Ptr, offset: nat, len: nat, buf: seq<byte>)
  {
    ghost predicate Fits() {
      offset + len <= |buf|
    }

    function SpaceLen(): (n: nat)
      requires Fits()
    {
      |buf| - offset - len
    }

    /** Commit up to `size` bytes of the space; the second result is what is left to commit. */
    function Commit(size: nat): (r: (Block, nat))
      requires Fits()
      ensures r.1 == if size < SpaceLen() then 0 else size - SpaceLen()
      ensures r.0 == this.(len := len + (size - r.1)) && r.0.Fits()
    {
      var toCommit := if size < SpaceLen() then size else SpaceLen();
      (this.(len := len + toCommit), size - toCommit)
    }

    /** Drain up to `size` bytes of the data; the second result is what is left to drain. */
    function Drain(size: nat): (r: (Block, nat))
      ensures r.1 == if len < size then size - len else 0
      ensures r.0 == this.(offset := offset + (size - r.1), len := len - (size - r.1))
    {
      var toDrain := if len < size then len else size;
      (this.(offset := offset + toDrain, len := len - toDrain), size - toDrain)
    }
  }

  type Memory = map<Ptr, Block>

  /** A run of `len` bytes of a block, as handed out in a scatter-gather list. */
  datatype Extent = Extent(block: Ptr, start: nat, len: nat)

  /** One byte of memory. */
  datatype Loc = Loc(block: Ptr, index: nat)

  ghost predicate AllFit(cap: nat, es: seq<Extent>) {
    forall i :: 0 <= i < |es| ==> es[i].start + es[i].len <= cap
  }

  ghost function Span(e: Extent): (ls: seq<Loc>)
    ensures |ls| == e.len
    ensures forall i :: 0 <= i < e.len ==> ls[i] == Loc(e.block, e.start + i)
  {
    seq(e.len, i requires 0 <= i => Loc(e.block, e.start + i))
  }

  /** The locations covered by a scatter-gather list, in order. */
  ghost function Locs(es: seq<Extent>): (ls: seq<Loc>) {
    if es == [] then [] else Span(es[0]) + Locs(es[1..])
  }

  /** Every location lies in a block of the memory. */
  ghost predicate Backed(mem: Memory, ls: seq<Loc>) {
    forall i :: 0 <= i < |ls| ==> ls[i].block in mem && ls[i].index < |mem[ls[i].block].buf|
  }

  /** The bytes stored at a list of locations. */
  ghost function BytesAt(mem: Memory, ls: seq<Loc>): (s: seq<byte>)
    requires Backed(mem, ls)
    ensures |s| == |ls| && forall i :: 0 <= i < |ls| ==> s[i] == mem[ls[i].block].buf[ls[i].index]
  {
    seq(|ls|, i requires 0 <= i < |ls| => mem[ls[i].block].buf[ls[i].index])
  }

  lemma Assoc<T>(a: seq<T>, b: seq<T>, c: seq<T>)
    ensures a + (b + c) == a + b + c
  {
  }

  /** The first n elements of `s` have moved to the back of `d`: `d'` and `s'` are what is
      there now. */
  ghost predicate Moved<T>(d: seq<T>, s: seq<T>, n: nat, d': seq<T>, s': seq<T>) {
    n <= |s| && d' == d + s[..n] && s' == s[n..]
  }

  lemma MovedMore<T>(d: seq<T>, s: seq<T>, n: nat, d': seq<T>, s': seq<T>, m: nat, d'': seq<T>, s'': seq<T>)
    requires Moved(d, s, n, d', s') && Moved(d', s', m, d'', s'')
    ensures Moved(d, s, n + m, d'', s'')
  {
  }

  lemma MovedSoFar<T>(d: seq<T>, s: seq<T>, n: nat, d': seq<T>, s': seq<T>)
    requires Moved(d, s, n, d', s')
    ensures n <= |s| && |s'| == |s| - n && d' == d + s[..n] && s' == s[n..]
  {
  }

  lemma MovedNone<T>(d: seq<T>, s: seq<T>)
    ensures Moved(d, s, 0, d, s)
  {
  }

  lemma {:induction false} LocsAppend(a: seq<Extent>, b: seq<Extent>)
    ensures Locs(a + b) == Locs(a) + Locs(b)
  {
    if a == [] {
      assert a + b == b;
    } else {
      LocsAppend(a[1..], b);
      assert (a + b)[1..] == a[1..] + b;
      Assoc(Span(a[0]), Locs(a[1..]), Locs(b));
    }
  }

  lemma {:induction false} LocsOfEmpty(es: seq<Extent>)
    requires forall i :: 0 <= i < |es| ==> es[i].len == 0
    ensures Locs(es) == []
  {
    if es != [] {
      LocsOfEmpty(es[1..]);
    }
  }

  /** Every location of a scatter-gather list lies in one of its extents. */
  lemma {:induction false} LocsCover(es: seq<Extent>, k: nat) returns (i: nat)
    requires k < |Locs(es)|
    ensures i < |es| && es[i].block == Locs(es)[k].block
    ensures es[i].start <= Locs(es)[k].index < es[i].start + es[i].len
  {
    if k < es[0].len {
      i := 0;
    } else {
      i := LocsCover(es[1..], k - es[0].len);
      i := i + 1;
    }
  }

  /** A list of locations split around position k of the extents. */
  lemma LocsSplit(es: seq<Extent>, k: nat)
    requires k < |es|
    ensures Locs(es) == Locs(es[..k]) + Span(es[k]) + Locs(es[k + 1..])
  {
    assert es == es[..k] + es[k..];
    LocsAppend(es[..k], es[k..]);
    assert es[k..][1..] == es[k + 1..];
  }

  lemma LocsSnoc(es: seq<Extent>, e: Extent)
    ensures Locs(es + [e]) == Locs(es) + Span(e)
  {
    LocsAppend(es, [e]);
    assert Locs([e]) == Span(e);
  }
}
