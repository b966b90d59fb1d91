/** The shape of a block list, and what committing, draining, pruning and appending do to
    the queue of memory locations it holds. Each cell is the live data of one block. */
module Layouts {
  import opened Blocks

  ghost predicate Full(cap: nat, e: Extent) {
    e.start + e.len == cap
  }

  /** The unused tail of a block whose live data is `e`. */
  ghost function Rest(cap: nat, e: Extent): (r: Extent)
    requires e.start + e.len <= cap
  {
    Extent(e.block, e.start + e.len, cap - e.start - e.len)
  }

  ghost function Rests(cap: nat, es: seq<Extent>): (rs: seq<Extent>)
    requires AllFit(cap, es)
    ensures |rs| == |es| && forall i :: 0 <= i < |es| ==> rs[i] == Rest(cap, es[i])
    ensures AllFit(cap, rs)
  {
    seq(|es|, i requires 0 <= i < |es| => Rest(cap, es[i]))
  }

  /** The free locations of a block list, in the order they are handed out. */
  ghost function Space(cap: nat, cells: seq<Extent>): (ls: seq<Loc>)
    requires AllFit(cap, cells)
  {
    Locs(Rests(cap, cells))
  }

  ghost predicate DistinctBlocks(es: seq<Extent>) {
    forall i, j :: 0 <= i < j < |es| ==> es[i].block != es[j].block
  }

  /** `e` is the position of the block where the data ends. */
  ghost predicate Shape(cap: nat, cells: seq<Extent>, e: nat) {
    && cap > 0 && AllFit(cap, cells)
    && (if cells == [] then e == 0 else e < |cells|)
    && (forall i :: 0 < i < |cells| ==> cells[i].start == 0)
    && (forall i :: 0 <= i < e && i < |cells| ==> Full(cap, cells[i]) && cells[i].len > 0)
    && (forall i :: e < i < |cells| ==> cells[i].len == 0)
    && (cells != [] ==> cells[e].len > 0 || (e == 0 && !Full(cap, cells[e])))
  }

  /** `grant` covers the front of the free space, at most one extent per block. */
  ghost predicate Granted(cap: nat, cells: seq<Extent>, grant: seq<Extent>) {
    && AllFit(cap, cells) && DistinctBlocks(grant) && Locs(grant) <= Space(cap, cells)
    && forall i :: 0 <= i < |grant| ==> grant[i].len > 0
  }

  lemma GrantFits(cap: nat, cells: seq<Extent>, grant: seq<Extent>)
    requires Granted(cap, cells, grant)
    ensures AllFit(cap, cells) && Locs(grant) <= Space(cap, cells)
  {
  }

  lemma GrantStays(cap: nat, cells: seq<Extent>, cells': seq<Extent>, grant: seq<Extent>)
    requires Granted(cap, cells, grant) && AllFit(cap, cells') && Space(cap, cells') == Space(cap, cells)
    ensures Granted(cap, cells', grant)
  {
  }

  /** Where a walk over the free space starts. */
  ghost function First(cap: nat, cells: seq<Extent>, e: nat): (k: nat)
  {
    if e < |cells| && Full(cap, cells[e]) then e + 1 else e
  }

  lemma SpaceAppend(cap: nat, a: seq<Extent>, b: seq<Extent>)
    requires AllFit(cap, a) && AllFit(cap, b)
    ensures AllFit(cap, a + b) && Space(cap, a + b) == Space(cap, a) + Space(cap, b)
  {
    assert Rests(cap, a + b) == Rests(cap, a) + Rests(cap, b);
    LocsAppend(Rests(cap, a), Rests(cap, b));
  }

  lemma SpaceCons(cap: nat, cells: seq<Extent>)
    requires AllFit(cap, cells) && cells != []
    ensures Space(cap, cells) == Span(Rest(cap, cells[0])) + Space(cap, cells[1..])
  {
    assert Rests(cap, cells)[1..] == Rests(cap, cells[1..]);
  }

  /** The free space up to and including block k. */
  lemma SpaceStep(cap: nat, cells: seq<Extent>, k: nat)
    requires AllFit(cap, cells) && k < |cells|
    ensures Space(cap, cells[..k + 1]) == Space(cap, cells[..k]) + Span(Rest(cap, cells[k]))
  {
    assert cells[..k + 1] == cells[..k] + [cells[k]];
    assert Rests(cap, cells[..k + 1]) == Rests(cap, cells[..k]) + [Rest(cap, cells[k])];
    LocsSnoc(Rests(cap, cells[..k]), Rest(cap, cells[k]));
  }

  lemma SpaceSplit(cap: nat, cells: seq<Extent>, k: nat)
    requires AllFit(cap, cells) && k <= |cells|
    ensures Space(cap, cells) == Space(cap, cells[..k]) + Space(cap, cells[k..])
  {
    assert cells == cells[..k] + cells[k..];
    SpaceAppend(cap, cells[..k], cells[k..]);
  }

  lemma SpaceAround(cap: nat, cells: seq<Extent>, k: nat)
    requires AllFit(cap, cells) && k < |cells|
    ensures Space(cap, cells) == Space(cap, cells[..k]) + Span(Rest(cap, cells[k])) + Space(cap, cells[k + 1..])
  {
    SpaceStep(cap, cells, k);
    SpaceSplit(cap, cells, k + 1);
  }

  /** Blocks before the start of the walk have no space; the ones from there on all do. */
  lemma WalkStart(cap: nat, cells: seq<Extent>, e: nat)
    requires Shape(cap, cells, e)
    ensures var k := First(cap, cells, e); k <= |cells| && Space(cap, cells[..k]) == []
    ensures forall i :: First(cap, cells, e) <= i < |cells| ==> !Full(cap, cells[i])
    ensures forall i :: First(cap, cells, e) < i < |cells| ==> cells[i].len == 0
  {
    var k := First(cap, cells, e);
    assert forall i :: 0 <= i < k ==> Full(cap, cells[i]);
    LocsOfEmpty(Rests(cap, cells[..k]));
  }

  /** No data is held exactly when the end block is the first one and holds none. */
  lemma NoData(cap: nat, cells: seq<Extent>, e: nat)
    requires Shape(cap, cells, e)
    ensures Locs(cells) == [] <==> cells == [] || (e == 0 && cells[0].len == 0)
    ensures Locs(cells) == [] ==> forall i :: 0 <= i < |cells| ==> cells[i].len == 0
  {
    if cells != [] {
      if e == 0 && cells[0].len == 0 {
        LocsOfEmpty(cells);
      } else {
        LocsSplit(cells, e);
      }
    }
  }

  lemma HasData(cap: nat, cells: seq<Extent>, e: nat)
    requires Shape(cap, cells, e) && Locs(cells) != []
    ensures cells != [] && cells[0].len > 0
  {
    NoData(cap, cells, e);
  }

  /** Without data the first block is empty and can start over. */
  lemma ResetShape(cap: nat, cells: seq<Extent>, e: nat)
    requires Shape(cap, cells, e) && Locs(cells) == [] && cells != []
    ensures e == 0 && cells[0].len == 0
    ensures var anew := cells[0 := Extent(cells[0].block, 0, 0)];
            AllFit(cap, anew) && Shape(cap, anew, 0) && Locs(anew) == []
  {
    NoData(cap, cells, e);
    LocsOfEmpty(cells[0 := Extent(cells[0].block, 0, 0)]);
  }

  lemma EmptyEnd(cap: nat, cells: seq<Extent>, e: nat)
    requires Shape(cap, cells, e) && cells == []
    ensures e == 0
  {
  }

  lemma SomeHead(cap: nat, cells: seq<Extent>)
    requires AllFit(cap, cells) && Space(cap, cells) != []
    ensures cells != []
  {
  }

  /** The blocks with data come first and hold all of it. */
  lemma PeekDone(cap: nat, cells: seq<Extent>, e: nat, k: nat)
    requires Shape(cap, cells, e) && k <= |cells| && (k < |cells| ==> cells[k].len == 0)
    ensures Locs(cells[..k]) == Locs(cells)
  {
    assert forall i :: k <= i < |cells| ==> cells[i].len == 0;
    LocsOfEmpty(cells[k..]);
    assert cells == cells[..k] + cells[k..];
    LocsAppend(cells[..k], cells[k..]);
  }

  /** Filling `m` bytes of the first block with space moves `m` locations from the front of
      the space to the back of the data. */
  lemma CommitAt(cap: nat, cells: seq<Extent>, k: nat, m: nat)
    requires AllFit(cap, cells) && k < |cells| && m <= Rest(cap, cells[k]).len
    requires Space(cap, cells[..k]) == []
    requires forall i :: k < i < |cells| ==> cells[i].len == 0
    ensures var filled := cells[k := cells[k].(len := cells[k].len + m)];
            && AllFit(cap, filled) && m <= |Space(cap, cells)|
            && Locs(filled) == Locs(cells) + Space(cap, cells)[..m]
            && Space(cap, filled) == Space(cap, cells)[m..]
  {
    SpaceAround(cap, cells, k);
    assert Space(cap, cells)[..m] == Span(Rest(cap, cells[k]))[..m];
    CommitData(cap, cells, k, m);
    CommitSpace(cap, cells, k, m);
  }

  lemma CommitData(cap: nat, cells: seq<Extent>, k: nat, m: nat)
    requires AllFit(cap, cells) && k < |cells| && m <= Rest(cap, cells[k]).len
    requires forall i :: k < i < |cells| ==> cells[i].len == 0
    ensures Locs(cells[k := cells[k].(len := cells[k].len + m)]) == Locs(cells) + Span(Rest(cap, cells[k]))[..m]
  {
    var c := cells[k];
    var d := c.(len := c.len + m);
    var filled := cells[k := d];
    assert filled[..k] == cells[..k] && filled[k + 1..] == cells[k + 1..];
    LocsOfEmpty(cells[k + 1..]);
    LocsSplit(cells, k);
    LocsSplit(filled, k);
    assert Span(d) == Span(c) + Span(Rest(cap, c))[..m];
    Assoc(Locs(cells[..k]), Span(c), Span(Rest(cap, c))[..m]);
  }

  lemma CommitSpace(cap: nat, cells: seq<Extent>, k: nat, m: nat)
    requires AllFit(cap, cells) && k < |cells| && m <= Rest(cap, cells[k]).len
    requires Space(cap, cells[..k]) == []
    ensures AllFit(cap, cells[k := cells[k].(len := cells[k].len + m)]) && m <= |Space(cap, cells)|
    ensures Space(cap, cells[k := cells[k].(len := cells[k].len + m)]) == Space(cap, cells)[m..]
  {
    hide Space;
    var c := cells[k];
    var d := c.(len := c.len + m);
    var filled := cells[k := d];
    assert filled[..k] == cells[..k] && filled[k + 1..] == cells[k + 1..];
    SpaceAround(cap, cells, k);
    SpaceAround(cap, filled, k);
    assert Span(Rest(cap, d)) == Span(Rest(cap, c))[m..];
    assert Space(cap, cells) == Span(Rest(cap, c)) + Space(cap, cells[k + 1..]);
    assert Space(cap, filled) == Span(Rest(cap, c))[m..] + Space(cap, cells[k + 1..]);
  }

  /** Draining `m` bytes of the first block drops `m` locations of the data and leaves the
      space where it was. */
  lemma DrainFirst(cap: nat, cells: seq<Extent>, m: nat)
    requires AllFit(cap, cells) && cells != [] && m <= cells[0].len
    ensures var c := cells[0];
            var less := cells[0 := Extent(c.block, c.start + m, c.len - m)];
            && AllFit(cap, less) && m <= |Locs(cells)|
            && Locs(less) == Locs(cells)[m..]
            && Space(cap, less) == Space(cap, cells)
  {
    var c := cells[0];
    var d := Extent(c.block, c.start + m, c.len - m);
    assert Span(d) == Span(c)[m..];
    assert Rests(cap, cells[0 := d]) == Rests(cap, cells);
    assert Locs(cells) == Span(c) + Locs(cells[1..]);
  }

  /** Pruning an exhausted first block changes neither the data nor the space. */
  lemma PruneFirst(cap: nat, cells: seq<Extent>)
    requires AllFit(cap, cells) && cells != [] && cells[0].len == 0 && Full(cap, cells[0])
    ensures Locs(cells[1..]) == Locs(cells) && Space(cap, cells[1..]) == Space(cap, cells)
  {
    SpaceCons(cap, cells);
  }

  /** A new block at the back adds space and no data. */
  lemma AppendEmpty(cap: nat, cells: seq<Extent>, b: Ptr)
    requires AllFit(cap, cells)
    ensures AllFit(cap, cells + [Extent(b, 0, 0)])
    ensures Locs(cells + [Extent(b, 0, 0)]) == Locs(cells)
    ensures Space(cap, cells + [Extent(b, 0, 0)]) == Space(cap, cells) + Span(Extent(b, 0, cap))
  {
    LocsSnoc(cells, Extent(b, 0, 0));
    assert Rests(cap, cells + [Extent(b, 0, 0)]) == Rests(cap, cells) + [Extent(b, 0, cap)];
    LocsSnoc(Rests(cap, cells), Extent(b, 0, cap));
  }

  /** `grant` is a walk over the free space that starts at block k0 and takes each block
      it passes; it took all of their space if `whole`, the front of it otherwise. */
  ghost predicate Walked(cap: nat, cells: seq<Extent>, k0: nat, grant: seq<Extent>, whole: bool) {
    && AllFit(cap, cells) && k0 + |grant| <= |cells|
    && (forall i :: 0 <= i < |grant| ==> grant[i].block == cells[k0 + i].block && grant[i].len > 0)
    && Locs(grant) <= Space(cap, cells[..k0 + |grant|])
    && (whole ==> Locs(grant) == Space(cap, cells[..k0 + |grant|]))
  }

  lemma WalkEmpty(cap: nat, cells: seq<Extent>, e: nat)
    requires Shape(cap, cells, e)
    ensures Walked(cap, cells, First(cap, cells, e), [], true)
  {
    WalkStart(cap, cells, e);
  }

  /** One step of the walk takes `len` bytes of the next block. */
  lemma WalkStep(cap: nat, cells: seq<Extent>, k0: nat, grant: seq<Extent>, len: nat)
    requires Walked(cap, cells, k0, grant, true) && k0 + |grant| < |cells|
    requires 0 < len <= Rest(cap, cells[k0 + |grant|]).len
    ensures var r := Rest(cap, cells[k0 + |grant|]);
            var more := grant + [r.(len := len)];
            && |Locs(more)| == |Locs(grant)| + len
            && Walked(cap, cells, k0, more, len == r.len) && Walked(cap, cells, k0, more, false)
  {
    var k := k0 + |grant|;
    var r := Rest(cap, cells[k]);
    LocsSnoc(grant, r.(len := len));
    SpaceStep(cap, cells, k);
    assert Span(r.(len := len)) == Span(r)[..len];
    assert r.(len := r.len) == r;
  }

  lemma WalkAppend(cap: nat, cells: seq<Extent>, k0: nat, grant: seq<Extent>, b: Ptr)
    requires Walked(cap, cells, k0, grant, true)
    ensures Walked(cap, cells + [Extent(b, 0, 0)], k0, grant, true)
  {
    var k := k0 + |grant|;
    assert (cells + [Extent(b, 0, 0)])[..k] == cells[..k];
  }

  lemma WalkBounds(cap: nat, cells: seq<Extent>, k0: nat, grant: seq<Extent>, whole: bool)
    requires Walked(cap, cells, k0, grant, whole)
    ensures AllFit(cap, cells) && k0 + |grant| <= |cells|
  {
  }

  lemma WalkDone(cap: nat, cells: seq<Extent>, k0: nat, grant: seq<Extent>, whole: bool)
    requires Walked(cap, cells, k0, grant, whole) && DistinctBlocks(cells)
    ensures Granted(cap, cells, grant)
  {
    hide Locs, Space;
    SpaceSplit(cap, cells, k0 + |grant|);
  }

  lemma ShapeAppend(cap: nat, cells: seq<Extent>, e: nat, b: Ptr)
    requires Shape(cap, cells, e)
    ensures AllFit(cap, cells + [Extent(b, 0, 0)]) && (if cells == [] then e == 0 else e < |cells|)
    ensures Shape(cap, cells + [Extent(b, 0, 0)], e)
    ensures First(cap, cells + [Extent(b, 0, 0)], e) == First(cap, cells, e)
  {
  }

  /** The list on which a walk takes its next step: past the last block a new one is there. */
  lemma WalkOn(cap: nat, cells: seq<Extent>, e: nat, grant: seq<Extent>, cells': seq<Extent>, b: Ptr)
    requires Shape(cap, cells, e) && Walked(cap, cells, First(cap, cells, e), grant, true)
    requires cells' == if First(cap, cells, e) + |grant| < |cells| then cells else cells + [Extent(b, 0, 0)]
    ensures var k0 := First(cap, cells, e);
            && Shape(cap, cells', e) && First(cap, cells', e) == k0 && Walked(cap, cells', k0, grant, true)
            && AllFit(cap, cells') && Locs(cells') == Locs(cells)
            && k0 + |grant| < |cells'| && Rest(cap, cells'[k0 + |grant|]).len > 0
  {
    hide Walked, Shape, Locs, Space;
    var k0 := First(cap, cells, e);
    WalkBounds(cap, cells, k0, grant, true);
    if k0 + |grant| == |cells| {
      ShapeAppend(cap, cells, e, b);
      AppendEmpty(cap, cells, b);
      WalkAppend(cap, cells, k0, grant, b);
    }
    WalkStart(cap, cells', e);
    WalkBounds(cap, cells', k0, grant, true);
  }

  lemma CapacityPositive(cap: nat, cells: seq<Extent>, e: nat)
    requires Shape(cap, cells, e)
    ensures cap > 0
  {
  }

  lemma SpaceLeft(cap: nat, cells: seq<Extent>, e: nat)
    requires Shape(cap, cells, e) && Space(cap, cells) != []
    ensures First(cap, cells, e) < |cells| && AllFit(cap, cells)
    ensures Rest(cap, cells[First(cap, cells, e)]).len > 0
  {
    WalkStart(cap, cells, e);
    assert cells[..|cells|] == cells;
  }

  /** One step of a commit: `m` bytes at the start of the walk. */
  lemma CommitStep(cap: nat, cells: seq<Extent>, e: nat, m: nat)
    requires Shape(cap, cells, e) && First(cap, cells, e) < |cells|
    requires 0 < m <= Rest(cap, cells[First(cap, cells, e)]).len
    ensures var k := First(cap, cells, e);
            var filled := cells[k := cells[k].(len := cells[k].len + m)];
            && Shape(cap, filled, k) && m <= |Space(cap, cells)|
            && Locs(filled) == Locs(cells) + Space(cap, cells)[..m]
            && Space(cap, filled) == Space(cap, cells)[m..]
            && (m == Rest(cap, cells[k]).len ==> First(cap, filled, k) == k + 1)
  {
    hide Locs, Space;
    WalkStart(cap, cells, e);
    CommitAt(cap, cells, First(cap, cells, e), m);
    CommitShape(cap, cells, e, m);
  }

  lemma CommitShape(cap: nat, cells: seq<Extent>, e: nat, m: nat)
    requires Shape(cap, cells, e) && First(cap, cells, e) < |cells|
    requires 0 < m <= Rest(cap, cells[First(cap, cells, e)]).len
    ensures var k := First(cap, cells, e);
            var filled := cells[k := cells[k].(len := cells[k].len + m)];
            && Shape(cap, filled, k)
            && (m == Rest(cap, cells[k]).len ==> First(cap, filled, k) == k + 1)
  {
  }

  /** The list after draining `m` bytes of the first block and pruning it if exhausted. */
  ghost function Drained(cap: nat, cells: seq<Extent>, m: nat): (less: seq<Extent>)
    requires cells != [] && m <= cells[0].len
  {
    var c := cells[0];
    if m == c.len && Full(cap, c) then cells[1..] else cells[0 := Extent(c.block, c.start + m, c.len - m)]
  }

  ghost function DrainedEnd(cap: nat, cells: seq<Extent>, m: nat, e: nat): (e': nat)
    requires cells != [] && m <= cells[0].len
  {
    if m == cells[0].len && Full(cap, cells[0]) && e > 0 then e - 1 else e
  }

  /** One step of a drain: the data loses `m` locations, the space stays where it is, and
      the end block stays the same as long as there is data. */
  lemma DrainStep(cap: nat, cells: seq<Extent>, e: nat, m: nat)
    requires Shape(cap, cells, e) && cells != [] && m <= cells[0].len && cells[0].len > 0
    ensures var less, e' := Drained(cap, cells, m), DrainedEnd(cap, cells, m, e);
            && Shape(cap, less, e') && m <= |Locs(cells)|
            && Locs(less) == Locs(cells)[m..] && Space(cap, less) == Space(cap, cells)
            && (Locs(less) != [] ==> e' < |less| && less[e'].block == cells[e].block)
  {
    hide Locs, Space, Shape, Full, AllFit, Drained, DrainedEnd;
    DrainedFits(cap, cells, e, m);
    DrainedBytes(cap, cells, m);
    DrainShape(cap, cells, e, m);
    EndStays(cap, cells, e, m);
  }

  lemma DrainedBytes(cap: nat, cells: seq<Extent>, m: nat)
    requires AllFit(cap, cells) && cells != [] && m <= cells[0].len
    ensures m <= |Locs(cells)| && Locs(Drained(cap, cells, m)) == Locs(cells)[m..]
    ensures Space(cap, Drained(cap, cells, m)) == Space(cap, cells)
  {
    hide Locs, Space;
    var c := cells[0];
    var part := cells[0 := Extent(c.block, c.start + m, c.len - m)];
    DrainFirst(cap, cells, m);
    if m == c.len && Full(cap, c) {
      assert part[1..] == cells[1..];
      PruneFirst(cap, part);
    }
  }

  lemma DrainedFits(cap: nat, cells: seq<Extent>, e: nat, m: nat)
    requires Shape(cap, cells, e) && cells != [] && m <= cells[0].len && cells[0].len > 0
    ensures AllFit(cap, cells) && AllFit(cap, Drained(cap, cells, m)) && DrainedEnd(cap, cells, m, e) <= e < |cells|
  {
  }

  lemma NoneAfterEnd(cap: nat, cells: seq<Extent>, e: nat)
    requires Shape(cap, cells, e) && cells != []
    ensures Locs(cells[e + 1..]) == []
  {
    hide Locs;
    LocsOfEmpty(cells[e + 1..]);
  }

  lemma EndStays(cap: nat, cells: seq<Extent>, e: nat, m: nat)
    requires Shape(cap, cells, e) && cells != [] && m <= cells[0].len && cells[0].len > 0
    ensures var less, e' := Drained(cap, cells, m), DrainedEnd(cap, cells, m, e);
            Locs(less) != [] ==> e' < |less| && less[e'].block == cells[e].block
  {
    hide Locs;
    if e == 0 && m == cells[0].len && Full(cap, cells[0]) {
      NoneAfterEnd(cap, cells, e);
    }
  }

  lemma DrainShape(cap: nat, cells: seq<Extent>, e: nat, m: nat)
    requires Shape(cap, cells, e) && cells != [] && m <= cells[0].len && cells[0].len > 0
    ensures Shape(cap, Drained(cap, cells, m), DrainedEnd(cap, cells, m, e))
  {
  }

  lemma OneMore(n: nat, cap: nat)
    ensures (n + 1) * cap == n * cap + cap
  {
  }

  /** Data and space partition the blocks, apart from what was drained of the first one. */
  lemma {:induction false} Partition(cap: nat, cells: seq<Extent>)
    requires AllFit(cap, cells)
    requires forall i :: 0 < i < |cells| ==> cells[i].start == 0
    ensures |Locs(cells)| + |Space(cap, cells)| + (if cells == [] then 0 else cells[0].start) == |cells| * cap
  {
    if cells != [] {
      Partition(cap, cells[1..]);
      SpaceCons(cap, cells);
      assert |Locs(cells)| == cells[0].len + |Locs(cells[1..])|;
      OneMore(|cells[1..]|, cap);
    }
  }

  /** Without data, and with nothing drained of the first block, all is space. */
  lemma AllSpace(cap: nat, cells: seq<Extent>, e: nat)
    requires Shape(cap, cells, e) && Locs(cells) == [] && (cells != [] ==> cells[0].start == 0)
    ensures AllFit(cap, cells) && |Space(cap, cells)| == |cells| * cap
  {
    Partition(cap, cells);
  }

  /** No location is both data and space. */
  lemma Disjoint(cap: nat, cells: seq<Extent>, i: nat, j: nat)
    requires AllFit(cap, cells) && DistinctBlocks(cells)
    requires i < |Locs(cells)| && j < |Space(cap, cells)|
    ensures Locs(cells)[i] != Space(cap, cells)[j]
  {
    var p := LocsCover(cells, i);
    var q := LocsCover(Rests(cap, cells), j);
  }
}
