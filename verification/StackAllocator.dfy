/** The stack whose nodes are slots of a pool. */
module StackAllocator {
  import opened Common
  import opened MemoryPool

  /** Following the links from `head`: the nodes, top first, and the elements they hold. */
  ghost predicate Stacked(mem: map<int, int>, head: int, nodes: seq<int>, elements: seq<int>)
    decreases |nodes|
  {
    && |nodes| == |elements|
    && if nodes == [] then head == 0
       else head == nodes[0] && head in mem && head + PointerSize in mem && mem[head] == elements[0]
            && Stacked(mem, mem[head + PointerSize], nodes[1..], elements[1..])
  }

  /** A change outside the nodes does not reach the stack. */
  lemma {:induction false} StackedKept(mem: map<int, int>, mem': map<int, int>, head: int, nodes: seq<int>, elements: seq<int>)
    requires Stacked(mem, head, nodes, elements)
    requires forall p, a :: p in nodes && (a == p || a == p + PointerSize) && a in mem ==> a in mem' && mem'[a] == mem[a]
    ensures Stacked(mem', head, nodes, elements)
    decreases |nodes|
  {
    if nodes != [] {
      assert head in nodes;
      assert mem'[head] == mem[head] && mem'[head + PointerSize] == mem[head + PointerSize];
      forall p | p in nodes[1..] ensures p in nodes {}
      StackedKept(mem, mem', mem[head + PointerSize], nodes[1..], elements[1..]);
    }
  }

  ghost predicate Nodes(l: Layout, blocks: seq<int>, currentSlot: int, slots: set<int>, nodes: seq<int>) {
    && LayoutOk(l) && BlocksOk(l, blocks) && SlotsOk(l, blocks, currentSlot, slots) && 2 * PointerSize <= l.slotSize
    && Distinct(nodes) && forall p :: p in nodes ==> p in slots
  }

  /** Writing inside one slot leaves the nodes in the other slots alone. */
  lemma WriteElsewhere(l: Layout, blocks: seq<int>, currentSlot: int, slots: set<int>, mem: map<int, int>,
                       head: int, nodes: seq<int>, elements: seq<int>, p: int, a: int, v: int)
    requires Nodes(l, blocks, currentSlot, slots, nodes) && p in slots && p !in nodes && (a == p || a == p + PointerSize)
    requires Stacked(mem, head, nodes, elements)
    ensures Stacked(Store(mem, a, v), head, nodes, elements)
  {
    forall q | q in nodes ensures WordsApart(q, a) && WordsApart(q + PointerSize, a) { assert Apart(p, q, l.slotSize); }
    StackedKept(mem, Store(mem, a, v), head, nodes, elements);
  }

  /** Writing a block header leaves the nodes alone. */
  lemma WriteHeader(l: Layout, blocks: seq<int>, currentSlot: int, slots: set<int>, mem: map<int, int>,
                    head: int, nodes: seq<int>, elements: seq<int>, b: int, v: int)
    requires Nodes(l, blocks, currentSlot, slots, nodes) && b in blocks && Stacked(mem, head, nodes, elements)
    ensures Stacked(Store(mem, b, v), head, nodes, elements)
  {
    forall q | q in nodes ensures WordsApart(q, b) && WordsApart(q + PointerSize, b) { SlotNotHeader(l, blocks, currentSlot, q, b); }
    StackedKept(mem, Store(mem, b, v), head, nodes, elements);
  }

  lemma NodePushed(l: Layout, blocks: seq<int>, currentSlot: int, slots: set<int>, mem: map<int, int>,
                   head: int, nodes: seq<int>, elements: seq<int>, p: int, v: int)
    requires Nodes(l, blocks, currentSlot, slots, nodes) && p in slots && p !in nodes && Stacked(mem, head, nodes, elements)
    ensures Stacked(Store(Store(mem, p, v), p + PointerSize, head), p, [p] + nodes, [v] + elements)
  {
    WriteElsewhere(l, blocks, currentSlot, slots, mem, head, nodes, elements, p, p, v);
    WriteElsewhere(l, blocks, currentSlot, slots, Store(mem, p, v), head, nodes, elements, p, p + PointerSize, head);
    assert ([p] + nodes)[1..] == nodes && ([v] + elements)[1..] == elements;
  }

  lemma NodePopped(l: Layout, blocks: seq<int>, currentSlot: int, slots: set<int>, mem: map<int, int>,
                   head: int, nodes: seq<int>, elements: seq<int>, v: int)
    requires Nodes(l, blocks, currentSlot, slots, nodes) && Stacked(mem, head, nodes, elements) && nodes != []
    ensures head in mem && head + PointerSize in mem && mem[head] == elements[0]
    ensures Stacked(Store(mem, head, v), mem[head + PointerSize], nodes[1..], elements[1..])
  {
    var rest := nodes[1..];
    assert head in nodes && head !in rest;
    forall p | p in rest ensures p in nodes {}
    WriteElsewhere(l, blocks, currentSlot, slots, mem, mem[head + PointerSize], rest, elements[1..], head, head, v);
  }

  lemma ListedPush(nodes: seq<int>, p: int)
    requires Distinct(nodes) && p !in nodes
    ensures Distinct([p] + nodes) && Listed([p] + nodes) == Listed(nodes) + {p}
  {
    forall q ensures q in Listed([p] + nodes) <==> q in Listed(nodes) || q == p {
      ListedMember([p] + nodes, q);
      ListedMember(nodes, q);
    }
  }

  lemma ListedPop(nodes: seq<int>)
    requires Distinct(nodes) && nodes != []
    ensures Distinct(nodes[1..]) && Listed(nodes[1..]) == Listed(nodes) - {nodes[0]} && nodes[0] in Listed(nodes)
  {
    forall q ensures q in Listed(nodes[1..]) <==> q in Listed(nodes) && q != nodes[0] {
      ListedMember(nodes[1..], q);
      ListedMember(nodes, q);
    }
  }

  class Stack {
    const pool: Pool
    var head: int

    ghost var nodes: seq<int>
    ghost var elements: seq<int>

    ghost predicate Valid()
      reads this, pool
    {
      && pool.Valid() && 2 * PointerSize <= pool.layout.slotSize
      && Distinct(nodes) && pool.live == Listed(nodes) && Stacked(pool.mem, head, nodes, elements)
    }

    constructor (layout: Layout)
      requires LayoutOk(layout) && 2 * PointerSize <= layout.slotSize
      ensures Valid() && elements == [] && fresh(pool)
    {
      pool := new Pool(layout);
      head, nodes, elements := 0, [], [];
    }

    method Empty() returns (r: bool)
      requires Valid()
      ensures r <==> elements == []
    {
      NodesNotNull(pool.layout, pool.blocks, pool.currentSlot, pool.live, pool.free, nodes);
      r := head == 0;
    }

    /** The pool's own state, as far as the nodes need it. */
    lemma NodesHere()
      requires Valid()
      ensures Nodes(pool.layout, pool.blocks, pool.currentSlot, pool.live + Listed(pool.free), nodes)
    {
      forall p | p in nodes ensures p in pool.live { ListedMember(nodes, p); }
    }

    method Push(element: int, newBlock: int)
      requires Valid() && pool.Fresh(newBlock)
      modifies this, pool
      ensures Valid() && elements == [element] + old(elements) && nodes[1..] == old(nodes)
    {
      hide Stacked, Distinct, Nodes;
      var newNode := AllocateNode(newBlock);
      ListedPush(nodes, newNode);
      NodePushed(pool.layout, pool.blocks, pool.currentSlot, pool.live + Listed(pool.free), pool.mem, head, nodes, elements, newNode, element);
      pool.Write(newNode, element, newNode);
      pool.Write(newNode + PointerSize, head, newNode);
      head := newNode;
      nodes, elements := [newNode] + nodes, [element] + elements;
    }

    /** A slot for the new node: the nodes there are stay as they were. */
    method AllocateNode(newBlock: int) returns (newNode: int)
      requires Valid() && pool.Fresh(newBlock)
      modifies pool
      ensures pool.Valid() && newNode !in nodes && pool.live == Listed(nodes) + {newNode}
      ensures Nodes(pool.layout, pool.blocks, pool.currentSlot, pool.live + Listed(pool.free), nodes)
      ensures Stacked(pool.mem, head, nodes, elements)
    {
      hide Stacked;
      ghost var mem, header := pool.mem, pool.currentBlock;
      newNode := pool.Allocate(newBlock);
      ListedMember(nodes, newNode);
      forall p | p in nodes ensures p in pool.live { ListedMember(nodes, p); }
      if pool.mem != mem {
        assert pool.blocks[0] == newBlock;
        WriteHeader(pool.layout, pool.blocks, pool.currentSlot, pool.live + Listed(pool.free), mem, head, nodes, elements, newBlock, header);
      }
    }

    method Pop() returns (result: int)
      requires Valid() && elements != []
      modifies this, pool
      ensures Valid() && [result] + elements == old(elements) && nodes == old(nodes)[1..]
    {
      NodesHere();
      HeadNode();
      result := pool.mem[head];
      var tmp := pool.mem[head + PointerSize];
      DropNode();
      head := tmp;
      nodes, elements := nodes[1..], elements[1..];
    }

    lemma HeadNode()
      requires Valid() && elements != []
      ensures nodes != [] && head == nodes[0] && head in pool.mem && head + PointerSize in pool.mem && pool.mem[head] == elements[0]
      ensures head in pool.live && head != 0
    {
      ListedMember(nodes, head);
      NodesNotNull(pool.layout, pool.blocks, pool.currentSlot, pool.live, pool.free, nodes);
    }

    /** The top node's slot goes back to the pool; what was below it is still there. */
    method DropNode()
      requires Valid() && elements != [] && nodes != [] && head == nodes[0] && head + PointerSize in pool.mem
      modifies pool
      ensures pool.Valid() && Distinct(nodes[1..]) && pool.live == Listed(nodes[1..])
      ensures Stacked(pool.mem, old(pool.mem)[head + PointerSize], nodes[1..], elements[1..])
    {
      HeadNode();
      NodesHere();
      hide Stacked, Distinct, Nodes;
      ListedPop(nodes);
      NodePopped(pool.layout, pool.blocks, pool.currentSlot, pool.live + Listed(pool.free), pool.mem, head, nodes, elements, pool.freeSlots);
      pool.Deallocate(head);
    }

    method Top() returns (result: int)
      requires Valid() && elements != []
      ensures result == elements[0]
    {
      result := pool.mem[head];
    }

    /** Every node goes back to the pool. */
    method Clear()
      requires Valid()
      modifies this, pool
      ensures Valid() && elements == [] && pool.live == {}
    {
      var curr := head;
      while curr != 0
        invariant Valid() && curr == head
        decreases |nodes|
      {
        HeadNode();
        var tmp := pool.mem[curr + PointerSize];
        DropNode();
        curr := tmp;
        head, nodes, elements := curr, nodes[1..], elements[1..];
      }
      EmptyNodes();
      head := 0;
    }

    lemma EmptyNodes()
      requires Valid() && head == 0
      ensures nodes == [] && elements == [] && pool.live == {}
    {
      NodesNotNull(pool.layout, pool.blocks, pool.currentSlot, pool.live, pool.free, nodes);
    }
  }

  lemma NodesNotNull(l: Layout, blocks: seq<int>, currentSlot: int, live: set<int>, free: seq<int>, nodes: seq<int>)
    requires LayoutOk(l) && BlocksOk(l, blocks) && SlotsOk(l, blocks, currentSlot, live + Listed(free)) && live == Listed(nodes)
    ensures 0 !in nodes
  {
    NullNotLive(l, blocks, currentSlot, live + Listed(free));
    ListedMember(nodes, 0);
  }
}
