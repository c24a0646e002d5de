/** The pool allocator: blocks from operator new, slots cut from the newest block, and a free list kept
    inside the slots themselves. Addresses are numbers. Memory holds words at the addresses where they
    start, and a write forgets every other word that shares a byte with it. */
module MemoryPool {
  import opened Common

  const WordRange: int := 0x1_0000_0000_0000_0000
  const PointerSize: int := 8

  /** Block size, slot size and slot alignment. */
  datatype Layout = Layout(blockSize: int, slotSize: int, align: int)

  /** What the language and the static assertion give: a slot holds a pointer, its size is a multiple of
      its alignment, alignments divide the address range, and a block holds two slots. */
  ghost predicate LayoutOk(l: Layout) {
    && PointerSize <= l.align <= l.slotSize && l.slotSize % l.align == 0 && WordRange % l.align == 0
    && 2 * l.slotSize <= l.blockSize
  }

  // ---------------------------------------------------------------- padding

  ghost predicate Aligned(p: int, align: int) {
    align > 0 && p % align == 0
  }

  /** Unsigned arithmetic of the width of an address. */
  function PadPointer(p: int, align: int): (r: int)
    requires 0 <= p < WordRange && 0 < align < WordRange
    ensures 0 <= r < align
  {
    ((align - p) % WordRange) % align
  }

  /** The padding aligns the pointer exactly when the alignment divides the address range, or the
      pointer is so small that the subtraction does not wrap around. */
  lemma PaddingAligns(p: int, align: int)
    requires 0 <= p < WordRange && 0 < align < WordRange
    ensures (p + PadPointer(p, align)) % align == 0 <==> p <= align || WordRange % align == 0
  {
    var d := (align - p) % WordRange;
    var wrapped := if p <= align then align - p else align - p + WordRange;
    SameRemainder(align - p, WordRange, if p <= align then 0 else -1, wrapped);
    assert d == wrapped;
    var q := d / align;
    assert p + d % align == (p + d) + align * (-q);
    MultiplesVanish(p + d, -q, align);
    if p <= align {
      assert p + d == align;
      OneMultiple(0, align);
    } else {
      assert p + d == WordRange + align;
      OneMultiple(WordRange, align);
    }
  }

  // ---------------------------------------------------------------- the shape of the pool

  ghost predicate BlockOk(l: Layout, b: int) {
    0 < b && Aligned(b, l.align) && b + l.blockSize <= WordRange
  }

  ghost predicate Apart(a: int, b: int, size: int) {
    a + size <= b || b + size <= a
  }

  ghost predicate BlocksOk(l: Layout, blocks: seq<int>) {
    && (forall i :: 0 <= i < |blocks| ==> BlockOk(l, blocks[i]))
    && (forall i, j :: 0 <= i < j < |blocks| ==> Apart(blocks[i], blocks[j], l.blockSize))
  }

  /** `p` is a slot of block `b`, clear of the link at its start. */
  ghost predicate SlotIn(l: Layout, b: int, p: int) {
    b + PointerSize <= p && p + l.slotSize <= b + l.blockSize
  }

  /** `p` lies in block number `i`; in the newest block it lies below the next slot to hand out. */
  ghost predicate SlotAt(l: Layout, blocks: seq<int>, currentSlot: int, p: int, i: int) {
    && 0 <= i < |blocks| && SlotIn(l, blocks[i], p) && Aligned(p, l.align)
    && (i == 0 ==> p + l.slotSize <= currentSlot)
  }

  ghost predicate SlotOk(l: Layout, blocks: seq<int>, currentSlot: int, p: int) {
    exists i :: SlotAt(l, blocks, currentSlot, p, i)
  }

  ghost predicate SlotsOk(l: Layout, blocks: seq<int>, currentSlot: int, slots: set<int>) {
    && (forall p :: p in slots ==> SlotOk(l, blocks, currentSlot, p))
    && (forall p, q :: p in slots && q in slots && p != q ==> Apart(p, q, l.slotSize))
  }

  /** Following the links from `head` gives exactly the list, and ends in the null pointer. */
  ghost predicate Chain(mem: map<int, int>, head: int, list: seq<int>)
    decreases |list|
  {
    if list == [] then head == 0 else head == list[0] && head in mem && Chain(mem, mem[head], list[1..])
  }

  /** Where slot number `k` of block `b` starts: the first one is one alignment in. */
  ghost function Slot(l: Layout, b: int, k: int): int {
    b + l.align + k * l.slotSize
  }

  /** How many slots fit into a block. */
  ghost function Capacity(l: Layout): int
    requires LayoutOk(l)
  {
    (l.blockSize - l.align) / l.slotSize
  }

  /** `cut` slots of the newest block have been handed out. */
  ghost predicate CutOk(l: Layout, blocks: seq<int>, currentSlot: int, lastSlot: int, cut: nat)
    requires LayoutOk(l)
  {
    if blocks == [] then currentSlot == 0 && lastSlot == 0 && cut == 0
    else
      && Aligned(currentSlot, l.align) && currentSlot == Slot(l, blocks[0], cut) && cut <= Capacity(l)
      && lastSlot == blocks[0] + l.blockSize - l.slotSize + 1
  }

  ghost function SlotsOf(l: Layout, b: int, n: nat): (r: set<int>) {
    set k | 0 <= k < n :: Slot(l, b, k)
  }

  /** Every slot that was ever cut: `cut` slots of the newest block, and all there are of the others. */
  ghost function CutSlots(l: Layout, blocks: seq<int>, cut: nat): (r: set<int>)
    requires LayoutOk(l)
    decreases |blocks|
  {
    if blocks == [] then {} else SlotsOf(l, blocks[0], cut) + CutSlots(l, blocks[1..], CapacityNat(l))
  }

  ghost function CapacityNat(l: Layout): (n: nat)
    requires LayoutOk(l)
    ensures n == Capacity(l) && n > 0
  {
    HasSlot(l);
    Capacity(l)
  }

  lemma HasSlot(l: Layout)
    requires LayoutOk(l)
    ensures Capacity(l) >= 1
  {
    RoomLeft(l, 0, 0);
  }

  /** The test for room succeeds exactly while fewer slots than fit have been cut. */
  lemma RoomLeft(l: Layout, b: int, cut: nat)
    requires LayoutOk(l)
    ensures Slot(l, b, cut) < b + l.blockSize - l.slotSize + 1 <==> cut < Capacity(l)
    ensures cut < Capacity(l) ==> Slot(l, b, cut) + l.slotSize <= b + l.blockSize
  {
    var m, s, q := l.blockSize - l.align, l.slotSize, Capacity(l);
    var r := m % s;
    assert m == s * q + r && 0 <= r < s;
    if cut < q {
      Monotone(s, cut + 1, q);
      assert s * (cut + 1) == cut * s + s;
    } else {
      Monotone(s, q, cut);
      assert s * cut == cut * s;
    }
  }

  lemma Monotone(s: int, j: int, k: int)
    requires s > 0 && j <= k
    ensures s * j <= s * k
  {
    if j < k {
      AtLeastOnce(s, k - j);
      assert s * k == s * j + s * (k - j);
    }
  }

  /** The bump pointer moves to the next slot of the block. */
  lemma CutOne(l: Layout, blocks: seq<int>, cut: nat)
    requires LayoutOk(l) && blocks != []
    ensures CutSlots(l, blocks, cut + 1) == CutSlots(l, blocks, cut) + {Slot(l, blocks[0], cut)}
    ensures Slot(l, blocks[0], cut + 1) == Slot(l, blocks[0], cut) + l.slotSize
  {
    hide Slot;
    var b := blocks[0];
    assert SlotsOf(l, b, cut + 1) == SlotsOf(l, b, cut) + {Slot(l, b, cut)};
    NextSlot(l, b, cut);
  }

  lemma NextSlot(l: Layout, b: int, k: int)
    ensures Slot(l, b, k + 1) == Slot(l, b, k) + l.slotSize
  {
    assert (k + 1) * l.slotSize == k * l.slotSize + l.slotSize;
  }

  /** A new block is begun only when the one before is used up, so no slot is lost. */
  lemma CutNone(l: Layout, blocks: seq<int>, cut: nat, b: int)
    requires LayoutOk(l) && (blocks == [] || cut == Capacity(l))
    ensures CutSlots(l, [b] + blocks, 0) == CutSlots(l, blocks, cut) && Slot(l, b, 0) == b + l.align
  {
    assert ([b] + blocks)[1..] == blocks && SlotsOf(l, b, 0) == {};
    if blocks == [] { assert CutSlots(l, blocks, CapacityNat(l)) == {}; }
  }

  ghost function Listed(list: seq<int>): (r: set<int>) {
    set i | 0 <= i < |list| :: list[i]
  }

  lemma ListedMember(list: seq<int>, p: int)
    ensures p in Listed(list) <==> p in list
  {
  }

  /** The words at the two addresses have no byte in common. */
  predicate WordsApart(a: int, b: int) {
    a + PointerSize <= b || b + PointerSize <= a
  }

  /** Memory after a word is written. */
  function Store(mem: map<int, int>, a: int, value: int): (r: map<int, int>) {
    (map k | k in mem && WordsApart(k, a) :: mem[k])[a := value]
  }

  /** Memory after a block is given back: nothing in it can be read any more. */
  function Released(mem: map<int, int>, b: int, size: int): (r: map<int, int>) {
    map k | k in mem && !(b <= k < b + size) :: mem[k]
  }

  /** A write that shares no byte with the links of a list leaves it alone. */
  lemma ChainStored(mem: map<int, int>, a: int, value: int, head: int, list: seq<int>)
    requires Chain(mem, head, list) && forall p :: p in list ==> WordsApart(p, a)
    ensures Chain(Store(mem, a, value), head, list)
  {
    ChainKept(mem, Store(mem, a, value), head, list);
  }

  lemma {:induction false} ChainKept(mem: map<int, int>, mem': map<int, int>, head: int, list: seq<int>)
    requires Chain(mem, head, list) && forall p :: p in list && p in mem ==> p in mem' && mem'[p] == mem[p]
    ensures Chain(mem', head, list)
    decreases |list|
  {
    if list != [] {
      assert head in list;
      forall p | p in list[1..] ensures p in list {}
      ChainKept(mem, mem', mem[head], list[1..]);
    }
  }

  lemma ChainPushed(mem: map<int, int>, a: int, head: int, list: seq<int>)
    requires Chain(mem, head, list) && forall p :: p in list ==> WordsApart(p, a)
    ensures Chain(Store(mem, a, head), a, [a] + list)
  {
    ChainStored(mem, a, head, head, list);
    assert ([a] + list)[1..] == list;
  }

  /** Slots are not block headers, and are not null. */
  lemma SlotNotHeader(l: Layout, blocks: seq<int>, currentSlot: int, p: int, b: int)
    requires LayoutOk(l) && BlocksOk(l, blocks) && SlotOk(l, blocks, currentSlot, p) && b in blocks
    ensures 0 < p && (p + l.slotSize <= b || b + PointerSize <= p)
  {
    var i :| SlotAt(l, blocks, currentSlot, p, i);
    var j :| 0 <= j < |blocks| && blocks[j] == b;
    assert BlockOk(l, blocks[i]);
    if i < j { assert Apart(blocks[i], blocks[j], l.blockSize); }
    if j < i { assert Apart(blocks[j], blocks[i], l.blockSize); }
  }

  /** A new block is apart from every slot. */
  lemma NewBlockApart(l: Layout, blocks: seq<int>, currentSlot: int, p: int, b: int)
    requires LayoutOk(l) && SlotOk(l, blocks, currentSlot, p) && forall i :: 0 <= i < |blocks| ==> Apart(b, blocks[i], l.blockSize)
    ensures p + l.slotSize <= b || b + l.blockSize <= p
  {
    var i :| SlotAt(l, blocks, currentSlot, p, i);
    assert Apart(b, blocks[i], l.blockSize);
  }

  lemma SlotsKept(l: Layout, blocks: seq<int>, currentSlot: int, slots: set<int>, b: int, start: int)
    requires SlotsOk(l, blocks, currentSlot, slots)
    ensures SlotsOk(l, [b] + blocks, start, slots)
  {
    forall p | p in slots ensures SlotOk(l, [b] + blocks, start, p) {
      var i :| SlotAt(l, blocks, currentSlot, p, i);
      assert ([b] + blocks)[i + 1] == blocks[i];
      assert SlotAt(l, [b] + blocks, start, p, i + 1);
    }
  }

  /** The slot that is cut next is apart from all that were cut before. */
  lemma CutApart(l: Layout, blocks: seq<int>, currentSlot: int, p: int)
    requires LayoutOk(l) && BlocksOk(l, blocks) && blocks != [] && SlotOk(l, blocks, currentSlot, p)
    requires SlotIn(l, blocks[0], currentSlot)
    ensures Apart(p, currentSlot, l.slotSize)
  {
    var i :| SlotAt(l, blocks, currentSlot, p, i);
    if i > 0 { assert Apart(blocks[0], blocks[i], l.blockSize); }
  }

  lemma CutSlot(l: Layout, blocks: seq<int>, currentSlot: int, slots: set<int>)
    requires LayoutOk(l) && BlocksOk(l, blocks) && blocks != [] && SlotsOk(l, blocks, currentSlot, slots)
    requires SlotIn(l, blocks[0], currentSlot) && Aligned(currentSlot, l.align)
    ensures SlotsOk(l, blocks, currentSlot + l.slotSize, slots + {currentSlot}) && currentSlot !in slots
  {
    var next, more := currentSlot + l.slotSize, slots + {currentSlot};
    forall p | p in slots ensures Apart(p, currentSlot, l.slotSize) { CutApart(l, blocks, currentSlot, p); }
    assert SlotAt(l, blocks, next, currentSlot, 0);
    forall p | p in more ensures SlotOk(l, blocks, next, p) {
      if p in slots {
        var i :| SlotAt(l, blocks, currentSlot, p, i);
        assert SlotAt(l, blocks, next, p, i);
      }
    }
  }

  /** A fresh block, aligned for slots, has room for one: its first slot starts one alignment in. */
  lemma FreshBlockHasRoom(l: Layout, b: int)
    requires LayoutOk(l) && BlockOk(l, b)
    ensures var body := b + PointerSize;
            var first := body + PadPointer(body, l.align);
            first == b + l.align && SlotIn(l, b, first) && Aligned(first, l.align) && first < b + l.blockSize - l.slotSize + 1
  {
    var body := b + PointerSize;
    var pad := PadPointer(body, l.align);
    PaddingAligns(body, l.align);
    PaddingFits(b, l.align, pad);
  }

  lemma PaddingFits(b: int, align: int, pad: int)
    requires PointerSize <= align && b % align == 0 && 0 <= pad < align && (b + PointerSize + pad) % align == 0
    ensures PointerSize + pad == align
  {
    AddMultiple(PointerSize + pad, b, align);
    assert (PointerSize + pad) % align == 0;
    if PointerSize + pad > align { SameRemainder(PointerSize + pad, align, 1, PointerSize + pad - align); }
    if PointerSize + pad < align { SameRemainder(PointerSize + pad, align, 0, PointerSize + pad); }
  }

  // ---------------------------------------------------------------- the class

  class Pool {
    const layout: Layout
    var currentBlock: int
    var currentSlot: int
    var lastSlot: int
    var freeSlots: int
    var mem: map<int, int>

    ghost var blocks: seq<int>
    ghost var live: set<int>
    ghost var free: seq<int>
    ghost var cut: nat

    /** Besides the shape of the lists: the live and the free slots are all that were ever cut. */
    ghost predicate Valid()
      reads this
    {
      && LayoutOk(layout) && BlocksOk(layout, blocks) && CutOk(layout, blocks, currentSlot, lastSlot, cut)
      && live + Listed(free) == CutSlots(layout, blocks, cut)
      && live !! Listed(free) && Distinct(free) && SlotsOk(layout, blocks, currentSlot, live + Listed(free))
      && Chain(mem, currentBlock, blocks) && Chain(mem, freeSlots, free)
    }

    constructor (layout: Layout)
      requires LayoutOk(layout)
      ensures Valid() && blocks == [] && live == {} && free == [] && this.layout == layout
    {
      this.layout := layout;
      currentBlock, currentSlot, lastSlot, freeSlots := 0, 0, 0, 0;
      mem := map[];
      blocks, live, free, cut := [], {}, [], 0;
    }

    /** What operator new returns: a block aligned for slots, apart from all that the pool owns. */
    ghost predicate Fresh(newBlock: int)
      reads this
    {
      BlockOk(layout, newBlock) && forall i :: 0 <= i < |blocks| ==> Apart(newBlock, blocks[i], layout.blockSize)
    }

    /** The block that operator new returned becomes the newest one. */
    method AllocateBlock(newBlock: int)
      requires Valid() && Fresh(newBlock) && currentSlot >= lastSlot
      modifies this`currentBlock, this`currentSlot, this`lastSlot, this`mem, this`blocks, this`cut
      ensures Valid() && blocks == [newBlock] + old(blocks) && mem == Store(old(mem), newBlock, old(currentBlock))
      ensures currentSlot < lastSlot && cut == 0 && currentSlot == Slot(layout, newBlock, 0)
    {
      hide SlotsOk, BlocksOk, BlockOk, Chain, Distinct, Listed, CutSlots, Slot, Apart, Store, Capacity, Aligned, PadPointer,
        LayoutOk, CutOk;
      CutStarts(layout, blocks, newBlock);
      UsedUp(layout, blocks, currentSlot, lastSlot, cut);
      CutNone(layout, blocks, cut, newBlock);
      HeaderNotLinked(layout, blocks, currentSlot, live + Listed(free), free, newBlock);
      ChainPushed(mem, newBlock, currentBlock, blocks);
      ChainStored(mem, newBlock, currentBlock, freeSlots, free);
      mem := Store(mem, newBlock, currentBlock);
      currentBlock := newBlock;
      var body := newBlock + PointerSize;
      var bodyPadding := PadPointer(body, layout.align);
      SlotsKept(layout, blocks, currentSlot, live + Listed(free), newBlock, body + bodyPadding);
      currentSlot := body + bodyPadding;
      lastSlot := newBlock + layout.blockSize - layout.slotSize + 1;
      BlocksMore(layout, blocks, newBlock);
      blocks, cut := [newBlock] + blocks, 0;
    }

    /** One slot: the last one given back if there is any, else the next of the newest block, and the first
        of a new block only when every slot of the newest one has been cut. */
    method Allocate(newBlock: int) returns (p: int)
      requires Valid() && Fresh(newBlock)
      modifies this
      ensures Valid() && p !in old(live) && live == old(live) + {p}
      ensures if old(free) != [] then p == old(free)[0] && free == old(free)[1..] else free == []
      ensures if old(free) != [] then cut == old(cut) && blocks == old(blocks) && mem == old(mem)
              else if old(blocks) != [] && old(cut) < Capacity(layout)
              then p == Slot(layout, old(blocks)[0], old(cut)) && cut == old(cut) + 1 && blocks == old(blocks) && mem == old(mem)
              else p == Slot(layout, newBlock, 0) && cut == 1 && blocks == [newBlock] + old(blocks)
                   && mem == Store(old(mem), newBlock, old(currentBlock))
    {
      hide SlotsOk, BlocksOk, Chain, Distinct, Listed, CutSlots, Slot, SlotIn;
      if freeSlots != 0 {
        p := freeSlots;
        FreeHead(mem, freeSlots, free, live);
        freeSlots := mem[freeSlots];
        live, free := live + {p}, free[1..];
      } else {
        FreeEmpty(layout, mem, freeSlots, free, blocks, currentSlot, live);
        if blocks != [] { RoomLeft(layout, blocks[0], cut); }
        if currentSlot >= lastSlot { AllocateBlock(newBlock); }
        p := currentSlot;
        NextFits(layout, blocks, currentSlot, lastSlot, cut);
        CutOne(layout, blocks, cut);
        CutSlot(layout, blocks, currentSlot, live + Listed(free));
        AddMultiple(currentSlot, layout.slotSize, layout.align);
        currentSlot := currentSlot + layout.slotSize;
        live, cut := live + {p}, cut + 1;
        assert live + Listed(free) == old(live + Listed(free)) + {p};
      }
    }

    /** A slot given back becomes the head of the free list; the null pointer is ignored. */
    method Deallocate(p: int)
      requires Valid() && (p == 0 || p in live)
      modifies this`mem, this`freeSlots, this`live, this`free
      ensures Valid() && live == old(live) - {p}
      ensures p == 0 ==> free == old(free) && mem == old(mem)
      ensures p != 0 ==> free == [p] + old(free) && mem == Store(old(mem), p, old(freeSlots))
    {
      if p != 0 {
        LinkOutside(layout, blocks, currentSlot, live, free, p);
        ChainStored(mem, p, freeSlots, currentBlock, blocks);
        ChainStored(mem, p, freeSlots, freeSlots, free);
        assert ([p] + free)[1..] == free;
        FreeMore(live, free, p);
        mem := Store(mem, p, freeSlots);
        freeSlots := p;
        live, free := live - {p}, [p] + free;
      } else {
        NullNotLive(layout, blocks, currentSlot, live + Listed(free));
      }
    }

    /** The program writes a word inside a live slot: no byte of a link of the pool is touched. */
    method Write(a: int, value: int, ghost p: int)
      requires Valid() && p in live && p <= a && a + PointerSize <= p + layout.slotSize
      modifies this`mem
      ensures Valid() && mem == Store(old(mem), a, value)
      ensures forall b :: b in blocks || b in free ==> WordsApart(b, a)
    {
      WordOutside(layout, blocks, currentSlot, live, free, p, a);
      ChainStored(mem, a, value, currentBlock, blocks);
      ChainStored(mem, a, value, freeSlots, free);
      mem := Store(mem, a, value);
    }

    /** The destructor: every block is released once, newest first, and none is read after that. */
    method Destroy() returns (released: seq<int>)
      requires Valid()
      modifies this`mem
      ensures released == blocks && Distinct(released)
    {
      released := [];
      var curr := currentBlock;
      BlocksDistinct(layout, blocks);
      assert blocks[0..] == blocks;
      while curr != 0
        invariant |released| <= |blocks| && released == blocks[..|released|] && Chain(mem, curr, blocks[|released|..])
        decreases |blocks| - |released|
      {
        var prev := mem[curr];
        ChainTail(layout, mem, curr, blocks, |released|);
        mem := Released(mem, curr, layout.blockSize);
        released := released + [curr];
        curr := prev;
      }
      LastLink(layout, mem, blocks, |released|, curr);
    }
  }

  lemma UsedUp(l: Layout, blocks: seq<int>, currentSlot: int, lastSlot: int, cut: nat)
    requires LayoutOk(l) && CutOk(l, blocks, currentSlot, lastSlot, cut) && currentSlot >= lastSlot
    ensures blocks == [] || cut == Capacity(l)
  {
    if blocks != [] { RoomLeft(l, blocks[0], cut); }
  }

  lemma CutStarts(l: Layout, blocks: seq<int>, b: int)
    requires LayoutOk(l) && BlockOk(l, b)
    ensures 0 <= b + PointerSize < WordRange && 0 < l.align < WordRange
    ensures var first := b + PointerSize + PadPointer(b + PointerSize, l.align);
            && first == Slot(l, b, 0) && first < b + l.blockSize - l.slotSize + 1
            && CutOk(l, [b] + blocks, first, b + l.blockSize - l.slotSize + 1, 0)
  {
    HasSlot(l);
    FreshBlockHasRoom(l, b);
    hide PadPointer, Capacity;
  }

  /** While there is room the next slot lies inside the newest block, clear of its link. */
  lemma NextFits(l: Layout, blocks: seq<int>, currentSlot: int, lastSlot: int, cut: nat)
    requires LayoutOk(l) && blocks != [] && CutOk(l, blocks, currentSlot, lastSlot, cut) && currentSlot < lastSlot
    ensures cut < Capacity(l) && SlotIn(l, blocks[0], currentSlot)
  {
    RoomLeft(l, blocks[0], cut);
    Monotone(l.slotSize, 0, cut);
  }

  lemma HeaderNotLinked(l: Layout, blocks: seq<int>, currentSlot: int, slots: set<int>, free: seq<int>, b: int)
    requires LayoutOk(l) && SlotsOk(l, blocks, currentSlot, slots) && Listed(free) <= slots
    requires forall i :: 0 <= i < |blocks| ==> Apart(b, blocks[i], l.blockSize)
    ensures forall q :: q in blocks || q in free ==> WordsApart(q, b)
  {
    forall q | q in free ensures WordsApart(q, b) {
      ListedMember(free, q);
      NewBlockApart(l, blocks, currentSlot, q, b);
    }
  }

  lemma BlocksMore(l: Layout, blocks: seq<int>, b: int)
    requires BlocksOk(l, blocks) && BlockOk(l, b) && forall i :: 0 <= i < |blocks| ==> Apart(b, blocks[i], l.blockSize)
    ensures BlocksOk(l, [b] + blocks)
  {
  }

  lemma FreeHead(mem: map<int, int>, head: int, free: seq<int>, live: set<int>)
    requires Chain(mem, head, free) && head != 0 && Distinct(free) && live !! Listed(free)
    ensures free != [] && head == free[0] && head in mem && Chain(mem, mem[head], free[1..]) && head !in live
    ensures Distinct(free[1..]) && live + {head} !! Listed(free[1..]) && live + {head} + Listed(free[1..]) == live + Listed(free)
  {
    ListedMember(free, head);
    forall p ensures p in Listed(free[1..]) <==> p in Listed(free) && p != head {
      ListedMember(free, p);
      ListedMember(free[1..], p);
    }
  }

  lemma FreeEmpty(l: Layout, mem: map<int, int>, head: int, free: seq<int>, blocks: seq<int>, currentSlot: int, live: set<int>)
    requires LayoutOk(l) && BlocksOk(l, blocks) && SlotsOk(l, blocks, currentSlot, live + Listed(free))
    requires Chain(mem, head, free) && head == 0
    ensures free == []
  {
    if free != [] {
      ListedMember(free, 0);
      NullNotLive(l, blocks, currentSlot, live + Listed(free));
    }
  }

  lemma NullNotLive(l: Layout, blocks: seq<int>, currentSlot: int, slots: set<int>)
    requires LayoutOk(l) && BlocksOk(l, blocks) && SlotsOk(l, blocks, currentSlot, slots)
    ensures 0 !in slots
  {
    forall p | p in slots ensures p > 0 {
      var i :| SlotAt(l, blocks, currentSlot, p, i);
      assert BlockOk(l, blocks[i]);
    }
  }

  /** A word inside a live slot shares no byte with a block header or with the link of a free slot. */
  lemma WordOutside(l: Layout, blocks: seq<int>, currentSlot: int, live: set<int>, free: seq<int>, p: int, a: int)
    requires LayoutOk(l) && BlocksOk(l, blocks) && SlotsOk(l, blocks, currentSlot, live + Listed(free)) && live !! Listed(free)
    requires p in live && p <= a && a + PointerSize <= p + l.slotSize
    ensures forall b :: b in blocks ==> WordsApart(b, a)
    ensures forall q :: q in free ==> a + PointerSize <= q || q + l.slotSize <= a
  {
    forall b | b in blocks ensures WordsApart(b, a) { SlotNotHeader(l, blocks, currentSlot, p, b); }
    forall q | q in free ensures a + PointerSize <= q || q + l.slotSize <= a {
      ListedMember(free, q);
      assert Apart(p, q, l.slotSize);
    }
  }

  lemma LinkOutside(l: Layout, blocks: seq<int>, currentSlot: int, live: set<int>, free: seq<int>, p: int)
    requires LayoutOk(l) && BlocksOk(l, blocks) && SlotsOk(l, blocks, currentSlot, live + Listed(free)) && live !! Listed(free)
    requires p in live
    ensures forall b :: b in blocks || b in free ==> WordsApart(b, p)
  {
    WordOutside(l, blocks, currentSlot, live, free, p, p);
  }

  lemma FreeMore(live: set<int>, free: seq<int>, p: int)
    requires p in live && live !! Listed(free) && Distinct(free)
    ensures Distinct([p] + free) && live - {p} !! Listed([p] + free) && live - {p} + Listed([p] + free) == live + Listed(free)
  {
    ListedMember(free, p);
    forall q ensures q in Listed([p] + free) <==> q == p || q in Listed(free) {
      ListedMember([p] + free, q);
      ListedMember(free, q);
    }
  }

  lemma BlocksDistinct(l: Layout, blocks: seq<int>)
    requires LayoutOk(l) && BlocksOk(l, blocks)
    ensures Distinct(blocks)
  {
    forall i, j | 0 <= i < j < |blocks| ensures blocks[i] != blocks[j] { assert Apart(blocks[i], blocks[j], l.blockSize); }
  }

  lemma ChainTail(l: Layout, mem: map<int, int>, curr: int, blocks: seq<int>, n: nat)
    requires LayoutOk(l) && BlocksOk(l, blocks) && n <= |blocks| && Chain(mem, curr, blocks[n..]) && curr != 0
    ensures n < |blocks| && curr == blocks[n] && curr in mem
    ensures Chain(Released(mem, curr, l.blockSize), mem[curr], blocks[n + 1..])
  {
    assert blocks[n..][1..] == blocks[n + 1..];
    var rest := blocks[n + 1..];
    forall b | b in rest ensures !(curr <= b < curr + l.blockSize) {
      var j :| 0 <= j < |rest| && rest[j] == b;
      assert Apart(blocks[n], blocks[n + 1 + j], l.blockSize);
    }
    ChainKept(mem, Released(mem, curr, l.blockSize), mem[curr], blocks[n + 1..]);
  }

  lemma LastLink(l: Layout, mem: map<int, int>, blocks: seq<int>, n: nat, curr: int)
    requires BlocksOk(l, blocks) && n <= |blocks| && Chain(mem, curr, blocks[n..])
    ensures n < |blocks| ==> curr > 0
  {
    if n < |blocks| { assert BlockOk(l, blocks[n]); }
  }
}
