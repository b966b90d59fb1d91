/** The scatter-gather buffer: a linked list of blocks behind Reserve/Commit and Peek/Drain. */
module Buffers {
  import opened Blocks
  import opened Freelists
  import opened Layouts
  import opened BlockLists
  import opened Storage

  /** What the fields of a buffer stand for: the live data of each block of the list in
      order, the position of the end block, what the latest Reserve and the latest Peek
      handed out, and the largest number of blocks the list ever had. */
  datatype Shadow = Shadow(cells: seq<Extent>, endIdx: nat, grant: seq<Extent>, view: seq<Extent>, peak: nat)

  class Buffer {
    const capacity: nat
    const freelist: Freelist
    var head: Ptr
    var end: Ptr
    var tail: Ptr
    var blockCnt: nat
    var dataSize: nat
    var reserved: bool
    var peeked: bool
    ghost var shadow: Shadow

    /** The list structure: pointers, counters, shape, and the account of blocks. */
    ghost predicate Listed()
      reads this, freelist
    {
      && Linked(capacity, freelist.mem, freelist.list, freelist.head, shadow.cells)
      && freelist.size == |freelist.list| && freelist.capacity == capacity
      && head == At(shadow.cells, 0) && (shadow.cells != [] ==> tail == shadow.cells[|shadow.cells| - 1].block)
      && blockCnt == |shadow.cells|
      && freelist.allocs == |shadow.cells| + |freelist.list| == shadow.peak
      && Shape(capacity, shadow.cells, shadow.endIdx) && AllFit(capacity, shadow.cells)
    }

    /** What Reserve handed out is the front of the space; what Peek handed out is the
        front of the data. */
    ghost predicate Held()
      reads this
    {
      && (reserved ==> Granted(capacity, shadow.cells, shadow.grant))
      && (peeked ==> Locs(shadow.view) <= Locs(shadow.cells))
    }

    ghost predicate Valid()
      reads this, freelist
    {
      Listed() && end == At(shadow.cells, shadow.endIdx) && dataSize == |Locs(shadow.cells)| && Held()
    }

    /** The bytes in the queue. */
    ghost function Contents(): (s: seq<byte>)
      requires Valid()
      reads this, freelist
      ensures |s| == dataSize
    {
      LinkedBacked(capacity, freelist.mem, freelist.list, freelist.head, shadow.cells);
      BytesAt(freelist.mem, Locs(shadow.cells))
    }

    /** How much memory is reserved, and how much is being peeked at. */
    ghost function ReservedSize(): (n: nat)
      reads this
    {
      if reserved then |Locs(shadow.grant)| else 0
    }

    ghost function PeekedSize(): (n: nat)
      reads this
    {
      if peeked then |Locs(shadow.view)| else 0
    }

    /** The bytes stored in the free space. */
    ghost function SpaceBytes(): (s: seq<byte>)
      requires Valid()
      reads this, freelist
      ensures |s| == |Space(capacity, shadow.cells)|
    {
      LinkedBacked(capacity, freelist.mem, freelist.list, freelist.head, shadow.cells);
      BytesAt(freelist.mem, Space(capacity, shadow.cells))
    }

    constructor (capacity: nat)
      requires capacity > 0
      ensures Valid() && fresh(freelist) && this.capacity == capacity
      ensures shadow == Shadow([], 0, [], [], 0) && !reserved && !peeked
    {
      this.capacity := capacity;
      freelist := new Freelist(capacity);
      head, end, tail := NULL, NULL, NULL;
      blockCnt, dataSize, reserved, peeked := 0, 0, false, false;
      shadow := Shadow([], 0, [], [], 0);
    }

    /** The constant-time space computation is the total space of the blocks. */
    method SpaceSize() returns (n: nat)
      requires Valid()
      ensures n == |Space(capacity, shadow.cells)|
    {
      Partition(capacity, shadow.cells);
      if head == NULL {
        return 0;
      }
      n := blockCnt * capacity - dataSize - freelist.mem[head].offset;
    }

    method AppendNewBlock()
      requires Listed()
      modifies this, freelist
      ensures Listed() && SameBytes(old(freelist.mem), freelist.mem)
      ensures tail != NULL
      ensures shadow == old(shadow).(cells := old(shadow.cells) + [Extent(tail, 0, 0)], peak := shadow.peak)
      ensures old(end == At(shadow.cells, shadow.endIdx)) ==> end == At(shadow.cells, shadow.endIdx)
      ensures reserved == old(reserved) && peeked == old(peeked) && dataSize == old(dataSize)
    {
      hide Linked, Pool, Shape, SameBytes;
      ghost var mem, list, free := freelist.mem, freelist.list, freelist.head;
      LinkedPool(capacity, mem, list, free, shadow.cells);
      var b := freelist.New();
      AfterNew(capacity, mem, freelist.mem, list, freelist.list, free, freelist.head, shadow.cells, b);
      ghost var mem1 := freelist.mem;
      LinkLast(b);
      SameBytesTrans(mem, mem1, freelist.mem);
    }

    /** Links a block in its initial state behind the last one. */
    method LinkLast(b: Ptr)
      requires Linked(capacity, freelist.mem, freelist.list, freelist.head, shadow.cells)
      requires freelist.size == |freelist.list| && freelist.capacity == capacity
      requires head == At(shadow.cells, 0) && (shadow.cells != [] ==> tail == shadow.cells[|shadow.cells| - 1].block)
      requires blockCnt == |shadow.cells| && freelist.allocs == |shadow.cells| + |freelist.list| + 1
      requires shadow.peak == freelist.allocs || (shadow.peak == blockCnt == freelist.allocs - 1)
      requires Shape(capacity, shadow.cells, shadow.endIdx) && AllFit(capacity, shadow.cells)
      requires b in freelist.mem && b !in freelist.list
      requires forall i :: 0 <= i < |shadow.cells| ==> shadow.cells[i].block != b
      requires freelist.mem[b].next == NULL && freelist.mem[b].offset == 0 && freelist.mem[b].len == 0
      modifies this, freelist`mem
      ensures Listed() && SameBytes(old(freelist.mem), freelist.mem)
      ensures tail == b != NULL
      ensures shadow == old(shadow).(cells := old(shadow.cells) + [Extent(b, 0, 0)], peak := shadow.peak)
      ensures old(end == At(shadow.cells, shadow.endIdx)) ==> end == At(shadow.cells, shadow.endIdx)
      ensures reserved == old(reserved) && peeked == old(peeked) && dataSize == old(dataSize)
    {
      hide Linked, Shape, SameBytes;
      ShapeAppend(capacity, shadow.cells, shadow.endIdx, b);
      LinkedPool(capacity, freelist.mem, freelist.list, freelist.head, shadow.cells);
      Link(capacity, freelist.mem, freelist.list, freelist.head, shadow.cells, b);
      if head == NULL {
        head, end := b, b;
      } else {
        freelist.mem := freelist.mem[tail := freelist.mem[tail].(next := b)];
      }
      tail := b;
      blockCnt := blockCnt + 1;
      shadow := shadow.(cells := shadow.cells + [Extent(b, 0, 0)],
                        peak := if blockCnt > shadow.peak then blockCnt else shadow.peak);
    }

    /** Where a walk over the free space starts. */
    method Start() returns (block: Ptr)
      requires Listed() && end == At(shadow.cells, shadow.endIdx)
      ensures block == At(shadow.cells, First(capacity, shadow.cells, shadow.endIdx))
    {
      hide Linked;
      block := end;
      if shadow.cells != [] {
        Header(capacity, freelist.mem, freelist.list, freelist.head, shadow.cells, shadow.endIdx);
      }
      if block != NULL && freelist.mem[block].SpaceLen() == 0 {
        block := freelist.mem[block].next;
      }
    }

    /** One step of the walk; past the last block it appends a new one. */
    method Next(block: Ptr, ghost k: nat) returns (ret: Ptr, next: Ptr)
      requires Listed() && k <= |shadow.cells| && block == At(shadow.cells, k)
      modifies this, freelist
      ensures Listed() && SameBytes(old(freelist.mem), freelist.mem) && k < |shadow.cells|
      ensures ret == shadow.cells[k].block && next == At(shadow.cells, k + 1)
      ensures ret in freelist.mem && freelist.mem[ret].Fits() && |freelist.mem[ret].buf| == capacity
      ensures freelist.mem[ret].offset == shadow.cells[k].start && freelist.mem[ret].len == shadow.cells[k].len
      ensures k < |old(shadow.cells)| ==> unchanged(this) && unchanged(freelist)
      ensures k == |old(shadow.cells)| ==>
                shadow == old(shadow).(cells := old(shadow.cells) + [Extent(ret, 0, 0)], peak := shadow.peak)
      ensures old(end == At(shadow.cells, shadow.endIdx)) ==> end == At(shadow.cells, shadow.endIdx)
      ensures reserved == old(reserved) && peeked == old(peeked) && dataSize == old(dataSize)
    {
      hide Linked, SameBytes;
      var b := block;
      SameBytesRefl(freelist.mem);
      if k < |shadow.cells| {
        Header(capacity, freelist.mem, freelist.list, freelist.head, shadow.cells, k);
      }
      if b == NULL {
        AppendNewBlock();
        b := tail;
      }
      Header(capacity, freelist.mem, freelist.list, freelist.head, shadow.cells, k);
      ret, next := b, freelist.mem[b].next;
    }

    /** The list has the n blocks it had before, or more if the walk that started at block k0
        needed them; then the last one is the end of the walk. */
    ghost predicate Needed(n: nat, k0: nat, ret: seq<Extent>)
      reads this
    {
      && |shadow.cells| == (if k0 + |ret| > n then k0 + |ret| else n)
      && (|shadow.cells| > n ==> ret != [] && ret[|ret| - 1].block == tail)
    }

    lemma NeededMore(n: nat, m: nat, k0: nat, ret: seq<Extent>, more: seq<Extent>)
      requires m == (if k0 + |ret| > n then k0 + |ret| else n) && Needed(m, k0, more) && |more| == |ret| + 1
      ensures Needed(n, k0, more)
    {
    }

    /** One step of a reservation: up to `want` bytes of the next block with space. */
    method ReserveStep(block: Ptr, ghost k0: nat, ret: seq<Extent>, want: nat) returns (more: seq<Extent>, next: Ptr)
      requires Listed() && end == At(shadow.cells, shadow.endIdx) && want > 0
      requires k0 == First(capacity, shadow.cells, shadow.endIdx) && Walked(capacity, shadow.cells, k0, ret, true)
      requires block == At(shadow.cells, k0 + |ret|)
      modifies this, freelist
      ensures Listed() && end == At(shadow.cells, shadow.endIdx) && SameBytes(old(freelist.mem), freelist.mem)
      ensures shadow == old(shadow).(cells := shadow.cells, peak := shadow.peak)
      ensures Locs(shadow.cells) == old(Locs(shadow.cells))
      ensures reserved == old(reserved) && peeked == old(peeked) && dataSize == old(dataSize)
      ensures k0 == First(capacity, shadow.cells, shadow.endIdx)
      ensures more != [] && ret == more[..|more| - 1] && 0 < more[|more| - 1].len <= want
      ensures |Locs(more)| == |Locs(ret)| + more[|more| - 1].len
      ensures Walked(capacity, shadow.cells, k0, more, more[|more| - 1].len < want)
      ensures more[|more| - 1].len <= capacity
      ensures want >= capacity ==>
                && Walked(capacity, shadow.cells, k0, more, true)
                && more[|more| - 1].start + more[|more| - 1].len == capacity
      ensures next == At(shadow.cells, k0 + |more|)
      ensures Needed(|old(shadow.cells)|, k0, more)
    {
      hide Linked, SameBytes, Walked, Shape, Locs, Space, First;
      ghost var cells := shadow.cells;
      WalkBounds(capacity, cells, k0, ret, true);
      var b;
      b, next := Next(block, k0 + |ret|);
      WalkOn(capacity, cells, shadow.endIdx, ret, shadow.cells, b);
      var blk := freelist.mem[b];
      var len := if want >= blk.SpaceLen() then blk.SpaceLen() else want;
      WalkStep(capacity, shadow.cells, k0, ret, len);
      more := ret + [Extent(b, blk.offset + blk.len, len)];
    }

    /** Reserves exactly `size` bytes at the front of the free space; blocks are added only as
        far as they are needed. */
    method Reserve(size: nat) returns (ret: seq<Extent>)
      requires Valid() && !reserved
      modifies this, freelist
      ensures Valid() && reserved && |Locs(ret)| == size && |old(shadow.cells)| <= |shadow.cells|
      ensures shadow == old(shadow).(cells := shadow.cells, peak := shadow.peak, grant := ret)
      ensures Contents() == old(Contents()) && peeked == old(peeked)
      ensures |shadow.cells| > |old(shadow.cells)| ==> ret != [] && ret[|ret| - 1].block == tail
    {
      hide Linked, SameBytes, Walked, Shape, Locs, Space, Granted, First, AllFit;
      ghost var mem, cells, list, free := freelist.mem, shadow.cells, freelist.list, freelist.head;
      reserved := true;
      var block := Start();
      ghost var k0 := First(capacity, cells, shadow.endIdx);
      WalkEmpty(capacity, cells, shadow.endIdx);
      SameBytesRefl(mem);
      LocsOfEmpty([]);
      ret := [];
      var remaining: nat := size;
      ghost var whole := true;
      while remaining > 0
        invariant Listed() && end == At(shadow.cells, shadow.endIdx) && SameBytes(mem, freelist.mem)
        invariant shadow == old(shadow).(cells := shadow.cells, peak := shadow.peak)
        invariant Locs(shadow.cells) == Locs(cells) && reserved && peeked == old(peeked) && dataSize == old(dataSize)
        invariant k0 == First(capacity, shadow.cells, shadow.endIdx)
        invariant Walked(capacity, shadow.cells, k0, ret, whole) && (remaining > 0 ==> whole)
        invariant Needed(|cells|, k0, ret)
        invariant |Locs(ret)| + remaining == size && block == At(shadow.cells, k0 + |ret|)
      {
        ghost var mem1, before, m := freelist.mem, ret, |shadow.cells|;
        ret, block := ReserveStep(block, k0, ret, remaining);
        NeededMore(|cells|, m, k0, before, ret);
        SameBytesTrans(mem, mem1, freelist.mem);
        whole := ret[|ret| - 1].len < remaining;
        remaining := remaining - ret[|ret| - 1].len;
      }
      LinkedDistinct(capacity, freelist.mem, freelist.list, freelist.head, shadow.cells);
      WalkDone(capacity, shadow.cells, k0, ret, whole);
      shadow := shadow.(grant := ret);
      LinkedBacked(capacity, mem, list, free, cells);
      BytesStay(mem, freelist.mem, Locs(cells));
    }

    /** Reserves at least `size` bytes, all that is left of each block; blocks are added only as
        far as they are needed. */
    method ReserveAtLeast(size: nat) returns (ret: seq<Extent>, actual: nat)
      requires Valid() && !reserved
      modifies this, freelist
      ensures Valid() && reserved && |Locs(ret)| == actual
      ensures if size == 0 then actual == 0 else size <= actual < size + capacity
      ensures shadow == old(shadow).(cells := shadow.cells, peak := shadow.peak, grant := ret)
      ensures Contents() == old(Contents()) && peeked == old(peeked)
      ensures forall i :: 0 <= i < |ret| ==> ret[i].start + ret[i].len == capacity
      ensures |shadow.cells| > |old(shadow.cells)| ==> ret != [] && ret[|ret| - 1].block == tail
    {
      hide Linked, SameBytes, Walked, Shape, Locs, Space, Granted, First, AllFit;
      ghost var mem, cells, list, free := freelist.mem, shadow.cells, freelist.list, freelist.head;
      reserved := true;
      var block := Start();
      ghost var k0 := First(capacity, cells, shadow.endIdx);
      WalkEmpty(capacity, cells, shadow.endIdx);
      SameBytesRefl(mem);
      LocsOfEmpty([]);
      ret, actual := [], 0;
      while actual < size
        invariant Listed() && end == At(shadow.cells, shadow.endIdx) && SameBytes(mem, freelist.mem)
        invariant shadow == old(shadow).(cells := shadow.cells, peak := shadow.peak)
        invariant Locs(shadow.cells) == Locs(cells) && reserved && peeked == old(peeked) && dataSize == old(dataSize)
        invariant k0 == First(capacity, shadow.cells, shadow.endIdx)
        invariant Walked(capacity, shadow.cells, k0, ret, true)
        invariant |Locs(ret)| == actual && block == At(shadow.cells, k0 + |ret|)
        invariant if size == 0 then actual == 0 else actual < size + capacity
        invariant forall i :: 0 <= i < |ret| ==> ret[i].start + ret[i].len == capacity
        invariant Needed(|cells|, k0, ret)
      {
        ghost var mem1, before, m := freelist.mem, ret, |shadow.cells|;
        CapacityPositive(capacity, shadow.cells, shadow.endIdx);
        ret, block := ReserveStep(block, k0, ret, capacity);
        NeededMore(|cells|, m, k0, before, ret);
        SameBytesTrans(mem, mem1, freelist.mem);
        actual := actual + ret[|ret| - 1].len;
      }
      LinkedDistinct(capacity, freelist.mem, freelist.list, freelist.head, shadow.cells);
      WalkDone(capacity, shadow.cells, k0, ret, true);
      shadow := shadow.(grant := ret);
      LinkedBacked(capacity, mem, list, free, cells);
      BytesStay(mem, freelist.mem, Locs(cells));
    }

    /** One step of a commit: fills the next block with space, up to `size` bytes. */
    method CommitStep(block: Ptr, size: nat) returns (left: nat, next: Ptr)
      requires Listed() && 0 < size <= |Space(capacity, shadow.cells)|
      requires block == At(shadow.cells, First(capacity, shadow.cells, shadow.endIdx))
      modifies this, freelist
      ensures Listed() && end == At(shadow.cells, shadow.endIdx) && SameBytes(old(freelist.mem), freelist.mem)
      ensures shadow == old(shadow).(cells := shadow.cells, endIdx := shadow.endIdx)
      ensures blockCnt == old(blockCnt) && freelist.allocs == old(freelist.allocs)
      ensures left < size && Moved(old(Locs(shadow.cells)), old(Space(capacity, shadow.cells)), size - left,
                                   Locs(shadow.cells), Space(capacity, shadow.cells))
      ensures left > 0 ==> next == At(shadow.cells, First(capacity, shadow.cells, shadow.endIdx))
      ensures reserved == old(reserved) && peeked == old(peeked) && dataSize == old(dataSize)
    {
      hide Linked, SameBytes, Shape, Locs, Space;
      ghost var cells, k := shadow.cells, First(capacity, shadow.cells, shadow.endIdx);
      SpaceLeft(capacity, cells, shadow.endIdx);
      end, next := Next(block, k);
      var r := freelist.mem[end].Commit(size);
      left := r.1;
      Layouts.CommitStep(capacity, cells, shadow.endIdx, size - left);
      Resize(capacity, freelist.mem, freelist.list, freelist.head, cells, k, cells[k].start,
             cells[k].len + (size - left));
      freelist.mem := freelist.mem[end := r.0];
      shadow := shadow.(cells := cells[k := cells[k].(len := cells[k].len + (size - left))], endIdx := k);
    }

    /** The loop of a commit: `size` locations move from the front of the free space to the
        back of the data, without allocating. */
    method Extend(size: nat)
      requires Listed() && end == At(shadow.cells, shadow.endIdx) && size <= |Space(capacity, shadow.cells)|
      modifies this, freelist
      ensures Listed() && end == At(shadow.cells, shadow.endIdx) && SameBytes(old(freelist.mem), freelist.mem)
      ensures shadow == old(shadow).(cells := shadow.cells, endIdx := shadow.endIdx)
      ensures blockCnt == old(blockCnt) && freelist.allocs == old(freelist.allocs)
      ensures Locs(shadow.cells) == old(Locs(shadow.cells) + Space(capacity, shadow.cells)[..size])
      ensures Space(capacity, shadow.cells) == old(Space(capacity, shadow.cells))[size..]
      ensures reserved == old(reserved) && peeked == old(peeked) && dataSize == old(dataSize)
    {
      hide Linked, SameBytes, Shape, Locs, Space, First, AllFit, Moved;
      ghost var mem, data, space := freelist.mem, Locs(shadow.cells), Space(capacity, shadow.cells);
      SameBytesRefl(mem);
      MovedNone(data, space);
      var block := Start();
      var remaining: nat := size;
      while remaining > 0
        invariant remaining <= size
        invariant Listed() && end == At(shadow.cells, shadow.endIdx) && SameBytes(mem, freelist.mem)
        invariant shadow == old(shadow).(cells := shadow.cells, endIdx := shadow.endIdx)
        invariant blockCnt == old(blockCnt) && freelist.allocs == old(freelist.allocs)
        invariant Moved(data, space, size - remaining, Locs(shadow.cells), Space(capacity, shadow.cells))
        invariant remaining > 0 ==> block == At(shadow.cells, First(capacity, shadow.cells, shadow.endIdx))
        invariant reserved == old(reserved) && peeked == old(peeked) && dataSize == old(dataSize)
      {
        ghost var mem1, left, now, free := freelist.mem, remaining, Locs(shadow.cells), Space(capacity, shadow.cells);
        MovedSoFar(data, space, size - left, now, free);
        remaining, block := CommitStep(block, remaining);
        SameBytesTrans(mem, mem1, freelist.mem);
        MovedMore(data, space, size - left, now, free, left - remaining,
                  Locs(shadow.cells), Space(capacity, shadow.cells));
      }
      MovedSoFar(data, space, size, Locs(shadow.cells), Space(capacity, shadow.cells));
    }

    /** Moves `size` locations from the front of the free space to the back of the data,
        without allocating; within a reservation those are the first ones it handed out. */
    method Commit(size: nat)
      requires Valid() && reserved && head != NULL && size <= |Space(capacity, shadow.cells)|
      modifies this, freelist
      ensures Valid() && !reserved && peeked == old(peeked)
      ensures shadow == old(shadow).(cells := shadow.cells, endIdx := shadow.endIdx)
      ensures blockCnt == old(blockCnt) && freelist.allocs == old(freelist.allocs)
      ensures Locs(shadow.cells) == old(Locs(shadow.cells) + Space(capacity, shadow.cells)[..size])
      ensures Space(capacity, shadow.cells) == old(Space(capacity, shadow.cells))[size..]
      ensures Contents() == old(Contents() + SpaceBytes()[..size])
    {
      hide Linked, SameBytes, Shape, Locs, Space, Granted, Backed, BytesAt, AllFit;
      ghost var mem, data, space := freelist.mem, Locs(shadow.cells), Space(capacity, shadow.cells);
      LinkedBacked(capacity, mem, freelist.list, freelist.head, shadow.cells);
      Extend(size);
      BytesMove(mem, freelist.mem, data, space, size);
      dataSize := dataSize + size;
      reserved := false;
    }

    /** Everything in the queue, in order. */
    method Peek() returns (ret: seq<Extent>)
      requires Valid() && !peeked
      modifies this`peeked, this`shadow
      ensures Valid() && peeked && shadow == old(shadow).(view := ret)
      ensures Locs(ret) == Locs(shadow.cells) && |Locs(ret)| == dataSize
      ensures forall i :: 0 <= i < |ret| ==> ret[i].len > 0
      ensures Contents() == old(Contents()) && SpaceBytes() == old(SpaceBytes()) && reserved == old(reserved)
    {
      hide Linked, Shape, Locs, Space, Granted;
      peeked := true;
      ret := [];
      var b := head;
      Headed(capacity, freelist.mem, freelist.list, freelist.head, shadow.cells, 0);
      while b != NULL && freelist.mem[b].len > 0
        invariant |ret| <= |shadow.cells| && ret == shadow.cells[..|ret|] && b == At(shadow.cells, |ret|)
        invariant b != NULL ==>
                    |ret| < |shadow.cells| && b in freelist.mem && freelist.mem[b].len == shadow.cells[|ret|].len
        invariant b == NULL ==> |ret| == |shadow.cells|
        invariant forall i :: 0 <= i < |ret| ==> ret[i].len > 0
        decreases |shadow.cells| - |ret|
        modifies {}
      {
        Header(capacity, freelist.mem, freelist.list, freelist.head, shadow.cells, |ret|);
        ret := ret + [Extent(b, freelist.mem[b].offset, freelist.mem[b].len)];
        b := freelist.mem[b].next;
        Headed(capacity, freelist.mem, freelist.list, freelist.head, shadow.cells, |ret|);
      }
      PeekDone(capacity, shadow.cells, shadow.endIdx, |ret|);
      shadow := shadow.(view := ret);
    }

    /** Gives the first block back; it holds neither data nor space. */
    method Prune()
      requires Linked(capacity, freelist.mem, freelist.list, freelist.head, shadow.cells) && shadow.cells != []
      requires freelist.size == |freelist.list| && freelist.capacity == capacity
      requires head == At(shadow.cells, 0) && tail == shadow.cells[|shadow.cells| - 1].block
      requires blockCnt == |shadow.cells|
      requires freelist.allocs == |shadow.cells| + |freelist.list| == shadow.peak
      modifies this, freelist
      ensures shadow == old(shadow).(cells := old(shadow.cells)[1..])
      ensures Linked(capacity, freelist.mem, freelist.list, freelist.head, shadow.cells)
      ensures freelist.size == |freelist.list|
      ensures head == At(shadow.cells, 0) && tail == old(tail) && end == old(end)
      ensures blockCnt == |shadow.cells|
      ensures freelist.allocs == |shadow.cells| + |freelist.list| == shadow.peak
      ensures SameBytes(old(freelist.mem), freelist.mem)
      ensures reserved == old(reserved) && peeked == old(peeked) && dataSize == old(dataSize)
    {
      hide Linked, Pool, SameBytes;
      ghost var mem, list, free := freelist.mem, freelist.list, freelist.head;
      LinkedPool(capacity, mem, list, free, shadow.cells);
      Header(capacity, mem, list, free, shadow.cells, 0);
      var next := freelist.mem[head].next;
      freelist.Delete(head);
      Unlink(capacity, mem, list, free, shadow.cells, freelist.mem);
      blockCnt := blockCnt - 1;
      head := next;
      shadow := shadow.(cells := shadow.cells[1..]);
    }

    /** One step of a drain: empties the first block, up to `size` bytes. */
    method DrainStep(size: nat) returns (left: nat)
      requires Listed() && 0 < size <= |Locs(shadow.cells)|
      modifies this, freelist
      ensures Listed() && SameBytes(old(freelist.mem), freelist.mem)
      ensures shadow == old(shadow).(cells := shadow.cells, endIdx := shadow.endIdx)
      ensures left < size <= |old(Locs(shadow.cells))|
      ensures Locs(shadow.cells) == old(Locs(shadow.cells))[size - left..]
      ensures Space(capacity, shadow.cells) == old(Space(capacity, shadow.cells))
      ensures Locs(shadow.cells) != [] ==> At(shadow.cells, shadow.endIdx) == old(At(shadow.cells, shadow.endIdx))
      ensures end == old(end) && reserved == old(reserved) && peeked == old(peeked) && dataSize == old(dataSize)
    {
      hide Linked, SameBytes, Shape, Locs, Space;
      ghost var mem, cells, e := freelist.mem, shadow.cells, shadow.endIdx;
      HasData(capacity, cells, e);
      Header(capacity, mem, freelist.list, freelist.head, cells, 0);
      var r := freelist.mem[head].Drain(size);
      left := r.1;
      ghost var m := size - left;
      Layouts.DrainStep(capacity, cells, e, m);
      DrainedFits(capacity, cells, e, m);
      Resize(capacity, mem, freelist.list, freelist.head, cells, 0, cells[0].start + m, cells[0].len - m);
      freelist.mem := freelist.mem[head := r.0];
      shadow := shadow.(cells := cells[0 := Extent(cells[0].block, cells[0].start + m, cells[0].len - m)],
                        endIdx := DrainedEnd(capacity, cells, m, e));
      if r.0.len == 0 && r.0.SpaceLen() == 0 {
        ghost var mem1 := freelist.mem;
        Prune();
        SameBytesTrans(mem, mem1, freelist.mem);
      }
    }

    /** Drops the first `size` bytes of the queue. While a reservation is outstanding, or
        data is left, the free space stays where it is. */
    method Drain(size: nat)
      requires Valid() && peeked && size <= dataSize
      modifies this, freelist
      ensures Valid() && !peeked && reserved == old(reserved)
      ensures shadow == old(shadow).(cells := shadow.cells, endIdx := shadow.endIdx)
      ensures Locs(shadow.cells) == old(Locs(shadow.cells))[size..]
      ensures reserved || dataSize > 0 ==> Space(capacity, shadow.cells) == old(Space(capacity, shadow.cells))
      ensures reserved || dataSize > 0 ==> SpaceBytes() == old(SpaceBytes())
      ensures !reserved && dataSize == 0 ==> |Space(capacity, shadow.cells)| == blockCnt * capacity
      ensures Contents() == old(Contents())[size..]
    {
      hide Linked, SameBytes, Shape, Locs, Space, Granted, Backed, BytesAt;
      ghost var mem, cells, list, free := freelist.mem, shadow.cells, freelist.list, freelist.head;
      ghost var data, space := Locs(cells), Space(capacity, cells);
      SameBytesRefl(mem);
      var remaining: nat := size;
      while remaining > 0
        invariant remaining <= size
        invariant Listed() && SameBytes(mem, freelist.mem)
        invariant shadow == old(shadow).(cells := shadow.cells, endIdx := shadow.endIdx)
        invariant Locs(shadow.cells) == data[size - remaining..] && Space(capacity, shadow.cells) == space
        invariant Locs(shadow.cells) != [] ==> end == At(shadow.cells, shadow.endIdx)
        invariant reserved == old(reserved) && peeked == old(peeked) && dataSize == old(dataSize)
      {
        ghost var mem1 := freelist.mem;
        remaining := DrainStep(remaining);
        SameBytesTrans(mem, mem1, freelist.mem);
      }
      dataSize := dataSize - size;
      peeked := false;
      if reserved {
        GrantStays(capacity, cells, shadow.cells, shadow.grant);
      }
      LinkedBacked(capacity, mem, list, free, cells);
      BytesDrop(mem, freelist.mem, data, size);
      BytesStay(mem, freelist.mem, space);
      if dataSize == 0 {
        Rewind();
      }
    }

    /** After everything was drained: the end block is the first one, and it starts over
        unless part of it is reserved. */
    method Rewind()
      requires Listed() && Locs(shadow.cells) == [] && dataSize == 0 && Held() && !peeked
      modifies this, freelist
      ensures Valid() && !peeked && reserved == old(reserved) && dataSize == 0
      ensures shadow == old(shadow).(cells := shadow.cells, endIdx := shadow.endIdx)
      ensures Locs(shadow.cells) == [] && Contents() == []
      ensures !reserved ==> |Space(capacity, shadow.cells)| == blockCnt * capacity
      ensures reserved ==> shadow.cells == old(shadow.cells) && freelist.mem == old(freelist.mem)
    {
      hide Linked, Shape, Locs, Space, Granted;
      end := head;
      if shadow.cells == [] {
        EmptyEnd(capacity, shadow.cells, shadow.endIdx);
      } else {
        ResetShape(capacity, shadow.cells, shadow.endIdx);
      }
      Headed(capacity, freelist.mem, freelist.list, freelist.head, shadow.cells, 0);
      if head != NULL && !reserved {
        Resize(capacity, freelist.mem, freelist.list, freelist.head, shadow.cells, 0, 0, 0);
        freelist.mem := freelist.mem[head := freelist.mem[head].(offset := 0)];
        shadow := shadow.(cells := shadow.cells[0 := Extent(head, 0, 0)]);
      }
      if !reserved {
        AllSpace(capacity, shadow.cells, shadow.endIdx);
      }
    }

    /** Copies `data` into what Reserve handed out, front to back. */
    method Scatter(regions: seq<Extent>, data: seq<byte>)
      requires Valid() && reserved && regions == shadow.grant && |data| <= |Locs(regions)|
      modifies freelist`mem
      ensures Valid() && Contents() == old(Contents())
      ensures |data| <= |SpaceBytes()| && SpaceBytes()[..|data|] == data
    {
      hide Linked, Shape, Locs, Space, Granted;
      ghost var cells, list, free := shadow.cells, freelist.list, freelist.head;
      ghost var bytes := Contents();
      LinkedBacked(capacity, freelist.mem, list, free, cells);
      LocsOfEmpty(regions[..0]);
      assert regions[..|regions|] == regions;
      var i: nat, p: nat := 0, 0;
      while i < |regions| && p < |data|
        invariant i <= |regions| && p <= |data|
        invariant Linked(capacity, freelist.mem, list, free, cells)
        invariant Backed(freelist.mem, Locs(cells)) && BytesAt(freelist.mem, Locs(cells)) == bytes
        invariant Backed(freelist.mem, Locs(regions)[..p]) && BytesAt(freelist.mem, Locs(regions)[..p]) == data[..p]
        invariant p < |data| ==> Locs(regions[..i]) == Locs(regions)[..p]
        decreases |regions| - i
      {
        var m := if regions[i].len < |data| - p then regions[i].len else |data| - p;
        ScatterLocs(regions, i, m);
        ScatterStep(capacity, freelist.mem, list, free, cells, regions, i, data[..p], data[p..p + m]);
        freelist.mem := Put(freelist.mem, regions[i], data[p..p + m]);
        assert data[..p + m] == data[..p] + data[p..p + m];
        i, p := i + 1, p + m;
      }
      assert p == |data|;
      LinkedBacked(capacity, freelist.mem, list, free, cells);
      ScatterDone(capacity, freelist.mem, cells, regions, data);
    }

    /** With space there is a block, and the reservation lies within the space. */
    lemma HasBlock(n: nat)
      requires Valid() && reserved && n <= |SpaceBytes()| && n > 0
      ensures head != NULL && n <= |Space(capacity, shadow.cells)|
    {
      hide Linked, Shape, Locs, Space, Granted;
      SomeHead(capacity, shadow.cells);
      Headed(capacity, freelist.mem, freelist.list, freelist.head, shadow.cells, 0);
    }

    /** What a read does with the memory it was given: it stores `data` at the front, and
        the handler commits that many bytes. */
    method Receive(regions: seq<Extent>, data: seq<byte>)
      requires Valid() && reserved && regions == shadow.grant && |data| <= |Locs(regions)|
      requires head != NULL || |Locs(regions)| > 0
      modifies this, freelist
      ensures Valid() && !reserved && peeked == old(peeked)
      ensures shadow.view == old(shadow.view) && shadow.grant == old(shadow.grant)
      ensures Contents() == old(Contents()) + data
    {
      hide Linked, Shape, Locs, Space, Granted, Backed, BytesAt;
      GrantFits(capacity, shadow.cells, regions);
      Scatter(regions, data);
      if |Locs(regions)| > 0 {
        SomeHead(capacity, shadow.cells);
      }
      Headed(capacity, freelist.mem, freelist.list, freelist.head, shadow.cells, 0);
      Commit(|data|);
    }

    /** Appends `data`; to append nothing there must be a block. */
    method CopyIn(data: seq<byte>)
      requires Valid() && !reserved && (head != NULL || |data| > 0)
      modifies this, freelist
      ensures Valid() && !reserved && peeked == old(peeked) && shadow.view == old(shadow.view)
      ensures Contents() == old(Contents()) + data
    {
      hide Linked, Shape, Locs, Space, Granted, Backed, BytesAt;
      Headed(capacity, freelist.mem, freelist.list, freelist.head, shadow.cells, 0);
      var regions := Reserve(|data|);
      Headed(capacity, freelist.mem, freelist.list, freelist.head, shadow.cells, 0);
      Receive(regions, data);
    }

    /** Copies the first bytes of what Peek handed out. */
    method Gather(buffers: seq<Extent>, size: nat, discard: bool) returns (out: seq<byte>, copied: nat)
      requires Valid() && Locs(buffers) == Locs(shadow.cells)
      requires forall i :: 0 <= i < |buffers| ==> buffers[i].len > 0
      ensures copied == if size < dataSize then size else dataSize
      ensures out == if discard then [] else Contents()[..copied]
    {
      hide Linked, Shape, Locs, Space, Granted, Buffer.Held, Backed, BytesAt;
      ghost var mem, bytes := freelist.mem, Contents();
      LinkedBacked(capacity, mem, freelist.list, freelist.head, shadow.cells);
      LocsOfEmpty(buffers[..0]);
      assert buffers[..|buffers|] == buffers;
      out, copied := [], 0;
      var i := 0;
      while i < |buffers| && size > 0
        invariant i <= |buffers| && copied <= size && copied <= |Locs(buffers)|
        invariant copied < size ==> copied == |Locs(buffers[..i])|
        invariant out == if discard then [] else bytes[..copied]
        modifies {}
      {
        var buf := buffers[i];
        var remaining := size - copied;
        var toCopy := if remaining > buf.len then buf.len else remaining;
        GatherMore(mem, buffers, bytes, i, copied, size);
        if !discard {
          out := out + freelist.mem[buf.block].buf[buf.start..buf.start + toCopy];
        }
        copied := copied + toCopy;
        i := i + 1;
      }
    }

    /** Takes the first min(size, data size) bytes off the queue, and returns them unless
        they are to be discarded. */
    method CopyOut(size: nat, discard: bool) returns (out: seq<byte>, copied: nat)
      requires Valid() && !peeked
      modifies this, freelist
      ensures Valid() && !peeked && reserved == old(reserved) && shadow.grant == old(shadow.grant)
      ensures copied == if size < old(dataSize) then size else old(dataSize)
      ensures out == if discard then [] else old(Contents())[..copied]
      ensures Contents() == old(Contents())[copied..]
    {
      hide Buffer.Valid, Buffer.Contents, Buffer.SpaceBytes, Locs, Space;
      var buffers := Peek();
      out, copied := Gather(buffers, size, discard);
      Drain(copied);
    }

    /** The destructor gives the whole list to the freelist. */
    method Destroy()
      requires Valid()
      modifies freelist
      ensures freelist.Valid() && |freelist.list| == shadow.peak == freelist.allocs
      ensures freelist.size == shadow.peak
    {
      hide Linked, Shape, Locs, Space, Granted, Pool;
      ghost var cells := shadow.cells;
      ghost var chain: seq<Ptr> := seq(|cells|, i requires 0 <= i < |cells| => cells[i].block);
      LinkedPool(capacity, freelist.mem, freelist.list, freelist.head, cells);
      ChainOf(capacity, freelist.mem, freelist.list, freelist.head, cells, chain);
      freelist.DeleteChain(head, chain);
    }
  }

  function Total(ns: seq<nat>): (n: nat) {
    if ns == [] then 0 else Total(ns[..|ns| - 1]) + ns[|ns| - 1]
  }

  /** A reservation holds through any number of drains: what is stored in the memory it
      handed out is what a later commit appends, even if everything that was in the queue
      before has been drained and the blocks that held it were given back. */
  method ReserveDrainCommit(b: Buffer, size: nat, data: seq<byte>, drains: seq<nat>)
    requires b.Valid() && !b.reserved && !b.peeked && 0 < |data| <= size && Total(drains) <= b.dataSize
    modifies b, b.freelist
    ensures b.Valid() && b.Contents() == old(b.Contents())[Total(drains)..] + data
  {
    hide Buffer.Valid, Buffer.Contents, Buffer.SpaceBytes, Locs, Space;
    ghost var before := b.Contents();
    var regions := b.Reserve(size);
    b.Scatter(regions, data);
    ghost var space := b.SpaceBytes();
    for i := 0 to |drains|
      invariant b.Valid() && b.reserved && !b.peeked && b.shadow.grant == regions && b.SpaceBytes() == space
      invariant Total(drains[..i]) <= |before| && b.Contents() == before[Total(drains[..i])..]
    {
      assert drains[..i + 1][..i] == drains[..i];
      TotalUpTo(drains, i + 1);
      var view := b.Peek();
      b.Drain(drains[i]);
    }
    assert drains[..|drains|] == drains;
    b.HasBlock(|data|);
    b.Commit(|data|);
  }

  lemma {:induction false} TotalUpTo(ns: seq<nat>, k: nat)
    requires k <= |ns|
    ensures Total(ns[..k]) <= Total(ns)
    decreases |ns| - k
  {
    if k < |ns| {
      assert ns[..k + 1][..k] == ns[..k];
      TotalUpTo(ns, k + 1);
    } else {
      assert ns[..k] == ns;
    }
  }
}
