/** A chain of slabs that grows on demand and shrinks with hysteresis.

    Slabs sit on one of two intrusive doubly linked lists.  A slab that fills up stays on
    the active list until an allocation finds it full; a flag on the node, not its count,
    says which list it is on. */
module MultislabAllocator {
  import opened Arithmetic
  import opened SlabAllocator

  const NODE_SIZE: nat := 128
  const SIZE_MAX: nat := 0xFFFF_FFFF_FFFF_FFFF
  const UINT32_MAX: nat := 0xFFFF_FFFF

  class SlabNode {
    const address: nat
    const slab: Slab
    var next: SlabNode?
    var prev: SlabNode?
    var usedCount: nat
    var isFull: bool
    var rawMemory: nat

    constructor (address: nat)
      ensures this.address == address && fresh(slab) && fresh(slab.bitmap)
      ensures slab.bitmap.Length == BITMAP_SIZE && usedCount == 0 && !isFull
    {
      this.address := address;
      slab := new Slab();
      next, prev, usedCount, isFull, rawMemory := null, null, 0, false, 0;
    }
  }

  /** The answers of the two functions of the backing allocator, for a node and for a slab. */
  datatype Offer = Offer(node: Pointer, slab: Pointer)

  // ---------------------------------------------------------------------------
  // The intrusive lists
  // ---------------------------------------------------------------------------

  ghost predicate Linked(head: SlabNode?, list: seq<SlabNode>)
    reads (set n | n in list)`next, (set n | n in list)`prev
  {
    && head == (if list == [] then null else list[0])
    && (forall i, j :: 0 <= i < j < |list| ==> list[i] != list[j])
    && (forall i {:trigger list[i].next} :: 0 <= i < |list| ==>
          list[i].next == if i + 1 < |list| then list[i + 1] else null)
    && (forall i {:trigger list[i].prev} :: 0 <= i < |list| ==> list[i].prev == if i > 0 then list[i - 1] else null)
  }

  lemma HeadIn(head: SlabNode?, list: seq<SlabNode>)
    requires Linked(head, list)
    ensures if list == [] then head == null else head == list[0]
  {
  }

  method ListPush(head: SlabNode?, node: SlabNode, ghost list: seq<SlabNode>) returns (newHead: SlabNode)
    requires Linked(head, list) && node !in list
    modifies node`next, node`prev, (if head == null then {} else {head})`prev
    ensures Linked(newHead, [node] + list)
  {
    node.next := head;
    node.prev := null;
    if head != null {
      head.prev := node;
    }
    newHead := node;
    ghost var l := [node] + list;
    assert forall i :: 1 <= i < |l| ==> l[i] == list[i - 1];
    forall i | 0 <= i < |l| ensures l[i].next == if i + 1 < |l| then l[i + 1] else null {
      if i > 0 { assert l[i].next == old(list[i - 1].next); }
    }
  }

  method ListUnlink(head: SlabNode?, node: SlabNode, ghost list: seq<SlabNode>, ghost k: nat)
    returns (newHead: SlabNode?)
    requires Linked(head, list) && k < |list| && list[k] == node
    modifies (set n | n in list)`next, (set n | n in list)`prev
    ensures Linked(newHead, list[..k] + list[k + 1..])
  {
    newHead := head;
    assert node.prev != null ==> node.prev == list[k - 1] && node.prev in list;
    assert node.next != null ==> node.next == list[k + 1] && node.next in list;
    if node.prev != null {
      node.prev.next := node.next;
    } else {
      newHead := node.next;
    }
    if node.next != null {
      node.next.prev := node.prev;
    }
    ghost var l := list[..k] + list[k + 1..];
    assert forall i :: 0 <= i < |l| ==> l[i] == if i < k then list[i] else list[i + 1];
    forall i | 0 <= i < |l|
      ensures l[i].next == if i + 1 < |l| then l[i + 1] else null
      ensures l[i].prev == if i > 0 then l[i - 1] else null
    {
    }
  }

  // ---------------------------------------------------------------------------
  // The allocator
  // ---------------------------------------------------------------------------

  ghost predicate RegionsDisjoint(a: nat, b: nat, size: nat) { a + size <= b || b + size <= a }

  predicate Configurable(blockSize: nat, blocksPerSlab: nat) {
    && blockSize >= CACHE_LINE_SIZE && blockSize % CACHE_LINE_SIZE == 0
    && 0 < blocksPerSlab <= MAX_BLOCKS && blocksPerSlab <= SIZE_MAX / blockSize
  }

  class Multislab {
    var active: SlabNode?
    var full: SlabNode?
    var blockSize: nat
    var blocksPerSlab: nat
    var slabMemorySize: nat
    var slabCount: nat
    var maxSlabs: nat
    var emptyCount: nat
    var maxEmptyReserve: nat

    ghost var activeList: seq<SlabNode>
    ghost var fullList: seq<SlabNode>
    ghost var nodes: set<SlabNode>
    // The node of each address handed out and not returned.
    ghost var owner: map<nat, SlabNode>
    // What the backing allocator gave and has not been given back: address to size.
    ghost var held: map<int, int>
    ghost var holder: map<nat, SlabNode>
    ghost var Repr: set<object>

    /** The two lists are linked, disjoint and told apart by the nodes' flags. */
    ghost predicate Lists()
      reads this`active, this`full, this`activeList, this`fullList, this`nodes
      reads nodes`next, nodes`prev, nodes`isFull
      reads (set n | n in activeList)`next, (set n | n in activeList)`prev
      reads (set n | n in fullList)`next, (set n | n in fullList)`prev
    {
      && (forall n :: n in nodes ==> n in activeList || n in fullList)
      && (forall n :: n in nodes ==> (n.isFull <==> n in fullList) && (n.isFull <==> n !in activeList))
      && Linked(active, activeList)
      && Linked(full, fullList)
    }

    ghost predicate FullBut(node: SlabNode)
      reads this`nodes, this`blocksPerSlab, nodes`usedCount, nodes`isFull
    {
      forall n :: n in nodes && n != node && n.isFull ==> n.usedCount == blocksPerSlab
    }

    /** The same while `node` is on neither list. */
    ghost predicate ListsBut(node: SlabNode)
      reads this`active, this`full, this`activeList, this`fullList, this`nodes
      reads nodes`next, nodes`prev, nodes`isFull
      reads (set n | n in activeList)`next, (set n | n in activeList)`prev
      reads (set n | n in fullList)`next, (set n | n in fullList)`prev
    {
      && node !in activeList && node !in fullList
      && (forall n :: n in nodes && n != node ==> n in activeList || n in fullList)
      && (forall n :: n in nodes && n != node ==> (n.isFull <==> n in fullList) && (n.isFull <==> n !in activeList))
      && Linked(active, activeList)
      && Linked(full, fullList)
    }

    ghost predicate Footprint()
      reads this`nodes, this`Repr, this`activeList, this`fullList
    {
      && this in Repr
      && (forall n :: n in nodes ==> n in Repr && n.slab in Repr && n.slab.bitmap in Repr)
      && (forall n :: n in activeList ==> n in nodes)
      && (forall n :: n in fullList ==> n in nodes)
    }

    ghost predicate Config()
      reads this`blockSize, this`blocksPerSlab, this`slabMemorySize
    {
      && blockSize >= CACHE_LINE_SIZE && blockSize % CACHE_LINE_SIZE == 0
      && 0 < blocksPerSlab <= MAX_BLOCKS
      && slabMemorySize == blockSize * blocksPerSlab
    }

    /** One node's slab, count and flag agree. */
    ghost predicate NodeOk(n: SlabNode)
      reads this`blockSize, this`blocksPerSlab, n`usedCount, n`rawMemory, n.slab, n.slab.bitmap
    {
      && n.slab.Valid()
      && n.slab.memory == n.rawMemory && n.slab.blockSize == blockSize && n.slab.blockCount == blocksPerSlab
      && n.usedCount == |n.slab.Taken()|
    }

    /** Only full slabs are on the full list. */
    ghost predicate FullOk()
      reads this`nodes, this`blocksPerSlab, nodes`usedCount, nodes`isFull
    {
      forall n :: n in nodes && n.isFull ==> n.usedCount == blocksPerSlab
    }

    /** Two nodes share neither a slab nor memory. */
    ghost predicate Apart(m: SlabNode, n: SlabNode)
      reads this`slabMemorySize, m`rawMemory, n`rawMemory
    {
      && m.slab != n.slab && m.slab.bitmap != n.slab.bitmap
      && m.address != n.address && m.address != n.rawMemory && m.rawMemory != n.address
      && RegionsDisjoint(m.rawMemory, n.rawMemory, slabMemorySize)
    }

    ghost predicate MutuallyApart(ns: set<SlabNode>)
      reads this`slabMemorySize, ns`rawMemory
    {
      forall m, n :: m in ns && n in ns && m != n ==> Apart(m, n)
    }

    ghost predicate AllApart()
      reads this`slabMemorySize, this`nodes, nodes`rawMemory
    {
      MutuallyApart(nodes)
    }

    ghost function Empty(): set<SlabNode>
      reads this`nodes, nodes`usedCount
    {
      set n | n in nodes && n.usedCount == 0
    }

    /** The two counters count the nodes of the lists and those with nothing in use. */
    ghost predicate Counters()
      reads this`nodes, this`activeList, this`fullList, this`slabCount, this`emptyCount, nodes`usedCount
    {
      && slabCount == |activeList| + |fullList| == |nodes|
      && emptyCount == |Empty()|
    }

    /** Exactly the nodes `ns` and their slabs are held from the backing allocator. */
    ghost predicate Holds(ns: set<SlabNode>, held: map<int, int>, holder: map<nat, SlabNode>)
      reads this`slabMemorySize, ns`rawMemory
    {
      && (forall n :: n in ns ==>
            && n.address != n.rawMemory
            && n.address in held && held[n.address] == NODE_SIZE
            && n.rawMemory in held && held[n.rawMemory] == slabMemorySize)
      && (forall a {:trigger holder[a]} {:trigger a in holder} :: a in held ==>
            a in holder && holder[a] in ns && (a == holder[a].address || a == holder[a].rawMemory))
    }

    ghost predicate Ledger()
      reads this`nodes, this`held, this`holder, this`slabMemorySize, nodes`rawMemory
    {
      Holds(nodes, held, holder)
    }

    ghost predicate NodesOk()
      reads this`blockSize, this`blocksPerSlab, this`nodes, nodes`usedCount, nodes`rawMemory
      reads set n | n in nodes :: n.slab, set n | n in nodes :: n.slab.bitmap
    {
      forall n :: n in nodes ==> NodeOk(n)
    }

    /** `owner` is what the slabs of the nodes `ns` have handed out. */
    ghost predicate HandedOut(ns: set<SlabNode>, owner: map<nat, SlabNode>)
      reads set n | n in ns :: n.slab, set n | n in ns :: n.slab.bitmap
    {
      && (forall p :: p in owner ==> owner[p] in ns && p in owner[p].slab.Live())
      && (forall n, p :: n in ns && p in n.slab.Live() ==> p in owner && owner[p] == n)
    }

    ghost predicate LiveOk()
      reads this`owner, this`nodes, set n | n in nodes :: n.slab, set n | n in nodes :: n.slab.bitmap
    {
      HandedOut(nodes, owner)
    }

    /** The addresses handed out and not returned. */
    ghost function Live(): set<nat>
      reads this`owner
    {
      owner.Keys
    }

    /** What moving nodes between the lists does not touch. */
    ghost predicate Rest()
      reads this`nodes, this`held, this`holder, this`blockSize, this`blocksPerSlab, this`slabMemorySize
      reads nodes`usedCount, nodes`rawMemory
      reads set n | n in nodes :: n.slab, set n | n in nodes :: n.slab.bitmap
    {
      Config() && NodesOk() && AllApart() && Ledger()
    }

    /** Everything but the flags of full slabs, the counters and the record of blocks in use. */
    ghost predicate Base()
      reads this`active, this`full, this`activeList, this`fullList, this`nodes, this`Repr, this`held, this`holder
      reads this`blockSize, this`blocksPerSlab, this`slabMemorySize
      reads nodes, set n | n in activeList, set n | n in fullList
      reads set n | n in nodes :: n.slab, set n | n in nodes :: n.slab.bitmap
    {
      Footprint() && Lists() && Rest()
    }

    ghost predicate Core()
      reads this`active, this`full, this`activeList, this`fullList, this`nodes, this`Repr, this`held, this`holder
      reads this`blockSize, this`blocksPerSlab, this`slabMemorySize
      reads nodes, set n | n in activeList, set n | n in fullList
      reads set n | n in nodes :: n.slab, set n | n in nodes :: n.slab.bitmap
    {
      Base() && FullOk()
    }

    ghost predicate Valid()
      reads this, Repr
    {
      Footprint() && Core() && Counters() && LiveOk()
    }

    /** The shrink policy: at most the reserve is kept empty, unless only one slab is left. */
    ghost predicate Hysteresis()
      reads this
    {
      emptyCount <= maxEmptyReserve || (slabCount == 1 && emptyCount == 1)
    }

    ghost predicate AllFull()
      reads this`nodes, this`blocksPerSlab, nodes`usedCount
    {
      forall n :: n in nodes ==> n.usedCount == blocksPerSlab
    }

    constructor ()
      ensures held == map[]
    {
      active, full := null, null;
      blockSize, blocksPerSlab, slabMemorySize := 0, 0, 0;
      slabCount, maxSlabs, emptyCount, maxEmptyReserve := 0, 0, 0, 0;
      activeList, fullList, nodes, owner, held, holder := [], [], {}, map[], map[], map[];
      Repr := {this};
    }

    /** `backed`: both functions of the backing allocator are given. */
    method InitExt(blockSize: nat, blocksPerSlab: nat, maxSlabs: nat, hysteresisThreshold: nat, backed: bool)
      returns (rc: int)
      requires held == map[]
      modifies this
      ensures rc == 0 <==> Configurable(blockSize, blocksPerSlab) && backed
      ensures rc != 0 ==> rc == -1 && unchanged(this)
      ensures rc == 0 ==>
        && Valid() && Hysteresis() && Repr == {this} && Live() == {} && held == map[]
        && this.blockSize == blockSize && this.blocksPerSlab == blocksPerSlab
        && this.maxSlabs == maxSlabs && maxEmptyReserve == hysteresisThreshold
    {
      if blockSize < CACHE_LINE_SIZE || blockSize % CACHE_LINE_SIZE != 0 || blocksPerSlab == 0
         || blocksPerSlab > MAX_BLOCKS || blocksPerSlab > SIZE_MAX / blockSize || !backed {
        return -1;
      }
      Clear();
      Configure(blockSize, blocksPerSlab, maxSlabs, hysteresisThreshold);
      rc := 0;
    }

    method Configure(blockSize: nat, blocksPerSlab: nat, maxSlabs: nat, hysteresisThreshold: nat)
      requires Configurable(blockSize, blocksPerSlab)
      modifies this`blockSize, this`blocksPerSlab, this`slabMemorySize, this`maxSlabs, this`maxEmptyReserve
      ensures Config()
      ensures this.blockSize == blockSize && this.blocksPerSlab == blocksPerSlab
      ensures this.maxSlabs == maxSlabs && maxEmptyReserve == hysteresisThreshold
    {
      this.blockSize := blockSize;
      this.blocksPerSlab := blocksPerSlab;
      slabMemorySize := blockSize * blocksPerSlab;
      this.maxSlabs := maxSlabs;
      maxEmptyReserve := hysteresisThreshold;
    }

    /** memset to zero; what the backing allocator gave is not given back by this. */
    method Clear()
      modifies this
      ensures held == old(held)
      ensures active == null && full == null && slabCount == 0 && emptyCount == 0
      ensures blockSize == blocksPerSlab == slabMemorySize == maxSlabs == maxEmptyReserve == 0
      ensures activeList == [] && fullList == [] && nodes == {} && owner == map[] && Repr == {this}
    {
      active, full := null, null;
      blockSize, blocksPerSlab, slabMemorySize := 0, 0, 0;
      slabCount, maxSlabs, emptyCount, maxEmptyReserve := 0, 0, 0, 0;
      Forget();
    }

    ghost method Forget()
      modifies this`activeList, this`fullList, this`nodes, this`owner, this`holder, this`Repr
      ensures activeList == [] && fullList == [] && nodes == {} && owner == map[] && Repr == {this}
    {
      activeList, fullList, nodes, owner, holder := [], [], {}, map[], map[];
      Repr := {this};
    }

    ghost method Take(address: nat, size: nat)
      requires address !in held
      modifies this`held
      ensures held == old(held)[address := size]
    {
      held := held[address := size];
    }

    /** The backing allocator is handed back a region it gave, with the size it was asked for. */
    ghost method GiveBack(address: nat, size: nat)
      requires address in held && held[address] == size
      modifies this`held
      ensures held == old(held) - {address}
    {
      held := held - {address};
    }

    ghost method TakeAndGiveBack(address: nat, size: nat)
      requires address !in held
      modifies this`held
      ensures held == old(held)
    {
      Take(address, size);
      GiveBack(address, size);
    }

    ghost method TakeAndGiveBackBoth(node: nat, memory: nat)
      requires node !in held && memory !in held && node != memory
      modifies this`held
      ensures held == old(held)
    {
      Take(node, NODE_SIZE);
      TakeAndGiveBack(memory, slabMemorySize);
      GiveBack(node, NODE_SIZE);
    }

    /** A block in use lies inside its node's region. */
    lemma LiveInRegion(n: SlabNode, p: nat)
      requires Config() && NodeOk(n) && p in n.slab.Live()
      ensures n.rawMemory <= p && p + blockSize <= n.rawMemory + slabMemorySize
    {
      var i :| i in n.slab.Taken() && p == BlockAddress(n.slab.memory, n.slab.blockSize, i);
      n.slab.IndexOfAddress(i);
    }

    /** A block of one node's region is in use there or nowhere. */
    lemma NotOwned(node: SlabNode)
      requires Core() && LiveOk() && node in nodes
      ensures forall p :: p in owner && node.rawMemory <= p && p + blockSize <= node.rawMemory + slabMemorySize ==>
        p in node.slab.Live()
    {
      forall p | p in owner && node.rawMemory <= p && p + blockSize <= node.rawMemory + slabMemorySize
        ensures p in node.slab.Live()
      {
        NotElsewhere(node, p);
      }
    }

    lemma NotElsewhere(node: SlabNode, p: nat)
      requires Config() && NodesOk() && AllApart() && LiveOk() && node in nodes
      requires p in owner && node.rawMemory <= p && p + blockSize <= node.rawMemory + slabMemorySize
      ensures p in node.slab.Live()
    {
      hide Slab.Live, Slab.Valid;
      var other := owner[p];
      if other != node {
        assert RegionsDisjoint(other.rawMemory, node.rawMemory, slabMemorySize) by { assert Apart(other, node); }
        LiveInRegion(other, p);
      }
    }

    /** `owner` is what the slabs have handed out, but for the block `p` of `node`. */
    ghost predicate LiveBut(node: SlabNode, p: nat)
      reads this`owner, this`nodes, set n | n in nodes :: n.slab, set n | n in nodes :: n.slab.bitmap
    {
      && p !in owner && node in nodes
      && (forall q :: q in owner ==> owner[q] in nodes && q in owner[q].slab.Live())
      && (forall n, q :: n in nodes && q in n.slab.Live() ==>
            if q in owner then owner[q] == n else n == node && q == p)
    }

    ghost method Record(node: SlabNode, p: nat)
      requires LiveBut(node, p) && p in node.slab.Live()
      modifies this`owner
      ensures owner == old(owner)[p := node]
      ensures LiveOk()
    {
      hide Slab.Live;
      owner := owner[p := node];
    }

    lemma HeadIsListed()
      requires Footprint() && Lists() && (active != null || activeList != [])
      ensures active != null && |activeList| > 0 && active == activeList[0] && active in nodes && !active.isFull
    {
      assert activeList[0] in activeList;
    }

    lemma HeadIsNode()
      requires Core() && (active != null || activeList != [])
      ensures active != null && |activeList| > 0 && active == activeList[0] && active in nodes && !active.isFull
    {
      assert activeList[0] in activeList;
    }

    lemma OwnSlab(node: SlabNode)
      requires AllApart() && node in nodes
      ensures forall m :: m in nodes && m != node ==> m.slab != node.slab && m.slab.bitmap != node.slab.bitmap
    {
      forall m | m in nodes && m != node ensures m.slab != node.slab && m.slab.bitmap != node.slab.bitmap {
        assert Apart(m, node);
      }
    }

    /** Takes a block from a node's slab and counts it. */
    method TakeBlock(node: SlabNode) returns (p: Pointer)
      requires Config() && NodesOk() && AllApart() && FullOk() && node in nodes && !node.isFull
      modifies node`usedCount, node.slab.bitmap
      ensures NodesOk() && FullOk()
      ensures p.Null? <==> old(node.usedCount) == blocksPerSlab
      ensures forall n :: n in nodes && n != node ==> n.slab.Live() == old(n.slab.Live())
      ensures p.Null? ==> node.slab.Live() == old(node.slab.Live()) && node.usedCount == old(node.usedCount)
      ensures p.At? ==>
        && p.address !in old(node.slab.Live()) && node.slab.Live() == old(node.slab.Live()) + {p.address}
        && node.usedCount == old(node.usedCount) + 1
        && node.rawMemory <= p.address && p.address + blockSize <= node.rawMemory + slabMemorySize
    {
      hide Indices, Test, Addresses, BlockAddress, Slab.Valid, Slab.Taken, Slab.Live, Slab.Full;
      OwnSlab(node);
      assert NodeOk(node);
      node.slab.FullCount();
      ghost var index;
      p, index := node.slab.Alloc();
      if p.Null? {
        return;
      }
      node.usedCount := node.usedCount + 1;
      assert NodesOk() by {
        forall n | n in nodes && n != node ensures NodeOk(n) { assert old(NodeOk(n)); }
      }
      node.slab.IndexOfAddress(index);
    }

    method TakeUnrecorded(node: SlabNode) returns (p: Pointer)
      requires Config() && NodesOk() && AllApart() && FullOk() && emptyCount == |Empty()|
      requires node in nodes && !node.isFull
      modifies node`usedCount, node.slab.bitmap, this`emptyCount
      ensures NodesOk() && FullOk() && emptyCount == |Empty()|
      ensures p.Null? <==> old(node.usedCount) == blocksPerSlab
      ensures forall n :: n in nodes && n != node ==> n.slab.Live() == old(n.slab.Live())
      ensures p.Null? ==>
        && node.slab.Live() == old(node.slab.Live()) && node.usedCount == old(node.usedCount)
        && emptyCount == old(emptyCount)
      ensures p.At? ==>
        && p.address !in old(node.slab.Live()) && node.slab.Live() == old(node.slab.Live()) + {p.address}
        && node.usedCount == old(node.usedCount) + 1
        && emptyCount == old(emptyCount) - (if old(node.usedCount) == 0 then 1 else 0)
        && node.rawMemory <= p.address && p.address + blockSize <= node.rawMemory + slabMemorySize
    {
      hide NodesOk, AllApart, Config, FullOk, Slab.Live;
      assert node in Empty() <==> node.usedCount == 0;
      p := TakeBlock(node);
      if p.Null? {
        assert Empty() == old(Empty());
        return;
      }
      assert Empty() == old(Empty()) - {node};
      if node.usedCount == 1 {
        emptyCount := emptyCount - 1;
      }
    }

    /** Takes a block from the slab at the head of the active list, or nothing if it is full. */
    method TakeFromHead() returns (p: Pointer)
      requires Valid() && active != null
      modifies active`usedCount, active.slab.bitmap, this`emptyCount, this`owner
      ensures Valid()
      ensures p.Null? <==> old(active.usedCount) == blocksPerSlab
      ensures p.Null? ==>
        owner == old(owner) && emptyCount == old(emptyCount) && active.usedCount == old(active.usedCount)
      ensures p.At? ==>
        && p.address !in old(owner) && owner == old(owner)[p.address := active]
        && active.usedCount == old(active.usedCount) + 1
        && emptyCount == old(emptyCount) - (if old(active.usedCount) == 0 then 1 else 0)
    {
      hide Footprint, Lists, NodesOk, AllApart, Ledger, Config, FullOk, Empty, Slab.Live;
      var node := active;
      HeadIsListed();
      NotOwned(node);
      p := TakeUnrecorded(node);
      if p.Null? {
        return;
      }
      Record(node, p.address);
    }

    // ----- moving nodes between the lists -----

    method UnlinkActive(node: SlabNode, ghost k: nat)
      requires Footprint() && Lists() && k < |activeList| && activeList[k] == node
      modifies nodes`next, nodes`prev, this`active, this`activeList
      ensures Footprint() && ListsBut(node)
      ensures activeList == old(activeList[..k] + activeList[k + 1..])
    {
      ghost var list := activeList;
      active := ListUnlink(active, node, list, k);
      activeList := list[..k] + list[k + 1..];
      WithoutOne(list, k);
      assert forall n :: n in fullList ==> n !in list;
    }

    method UnlinkFull(node: SlabNode, ghost k: nat)
      requires Footprint() && Lists() && k < |fullList| && fullList[k] == node
      modifies nodes`next, nodes`prev, this`full, this`fullList
      ensures Footprint() && ListsBut(node)
      ensures fullList == old(fullList[..k] + fullList[k + 1..])
    {
      ghost var list := fullList;
      full := ListUnlink(full, node, list, k);
      fullList := list[..k] + list[k + 1..];
      WithoutOne(list, k);
      assert forall n :: n in activeList ==> n !in list;
    }

    method PushActive(node: SlabNode)
      requires Footprint() && node in nodes && ListsBut(node) && FullBut(node)
      modifies nodes`next, nodes`prev, node`isFull, this`active, this`activeList
      ensures Footprint() && Lists() && FullOk() && activeList == [node] + old(activeList)
    {
      hide Linked;
      HeadIn(active, activeList);
      active := ListPush(active, node, activeList);
      activeList := [node] + activeList;
      node.isFull := false;
    }

    method PushFull(node: SlabNode)
      requires Footprint() && node in nodes && ListsBut(node) && FullBut(node) && node.usedCount == blocksPerSlab
      modifies nodes`next, nodes`prev, node`isFull, this`full, this`fullList
      ensures Footprint() && Lists() && FullOk() && fullList == [node] + old(fullList)
    {
      hide Linked;
      HeadIn(full, fullList);
      full := ListPush(full, node, fullList);
      fullList := [node] + fullList;
      node.isFull := true;
    }

    method MoveHead()
      requires Footprint() && Lists() && FullOk() && active != null && active.usedCount == blocksPerSlab
      modifies nodes`next, nodes`prev, nodes`isFull, this`active, this`activeList, this`full, this`fullList
      ensures Footprint() && Lists() && FullOk()
      ensures |activeList| == old(|activeList|) - 1 && |fullList| == old(|fullList|) + 1
    {
      hide Lists, ListsBut, Footprint;
      HeadIsListed();
      var node := active;
      UnlinkActive(node, 0);
      PushFull(node);
    }

    /** A full slab found at the head of the active list goes to the full list. */
    method MoveToFull()
      requires Valid() && active != null && active.usedCount == blocksPerSlab
      modifies nodes`next, nodes`prev, nodes`isFull, this`active, this`activeList, this`full, this`fullList
      ensures Valid()
      ensures |activeList| < old(|activeList|)
    {
      hide Lists, Rest, LiveOk, Empty, Footprint, FullOk;
      MoveHead();
    }

    // ----- growing -----

    /** The cap is reached, or the backing allocator has nothing usable to give. */
    predicate GrowRefused(offer: Offer)
      reads this`maxSlabs, this`slabCount
    {
      || (maxSlabs > 0 && slabCount >= maxSlabs)
      || offer.node.Null? || offer.slab.Null? || offer.slab.address % MAX_ALIGN != 0
    }

    lemma OneMoreHeld(node: SlabNode)
      requires Ledger() && node !in nodes
      requires node.address != node.rawMemory && node.address !in held && node.rawMemory !in held
      ensures Holds(nodes + {node}, Granted(held, node), holder[node.address := node][node.rawMemory := node])
    {
    }

    /** The ledger after the node's two regions are taken. */
    ghost function Granted(held: map<int, int>, node: SlabNode): (granted: map<int, int>)
      reads this`slabMemorySize, node`rawMemory
    {
      held[node.address := NODE_SIZE][node.rawMemory := slabMemorySize]
    }

    lemma OneMoreEmpty(node: SlabNode)
      requires LiveOk() && node !in nodes && node.slab.Live() == {}
      ensures HandedOut(nodes + {node}, owner)
    {
      hide Slab.Live;
    }

    lemma ApartWith(ns: set<SlabNode>, node: SlabNode)
      requires MutuallyApart(ns) && forall n :: n in ns ==> Apart(n, node) && Apart(node, n)
      ensures MutuallyApart(ns + {node})
    {
      hide Apart;
    }

    /** The node's two regions are taken. */
    ghost method Grant(node: SlabNode)
      requires Ledger() && node !in nodes
      requires node.address != node.rawMemory && node.address !in held && node.rawMemory !in held
      modifies this`held, this`holder
      ensures Holds(nodes + {node}, held, holder) && held == Granted(old(held), node)
    {
      OneMoreHeld(node);
      held := Granted(held, node);
      holder := holder[node.address := node][node.rawMemory := node];
    }

    /** The new node joins the allocator's nodes, not yet on a list. */
    ghost method Adopt(node: SlabNode)
      requires Footprint() && Lists() && FullOk() && NodesOk()
      requires node !in nodes && NodeOk(node) && !node.isFull
      modifies this`nodes, this`Repr
      ensures nodes == old(nodes) + {node} && Repr == old(Repr) + {node, node.slab, node.slab.bitmap}
      ensures Footprint() && ListsBut(node) && FullOk() && NodesOk()
    {
      hide NodeOk, Linked;
      nodes := nodes + {node};
      Repr := Repr + {node, node.slab, node.slab.bitmap};
    }

    ghost method AddNode(node: SlabNode)
      requires Footprint() && Lists() && FullOk() && NodesOk() && AllApart() && Ledger() && LiveOk()
      requires node !in nodes && NodeOk(node) && !node.isFull && node.slab.Live() == {}
      requires node.address != node.rawMemory && node.address !in held && node.rawMemory !in held
      requires forall n :: n in nodes ==> Apart(n, node) && Apart(node, n)
      modifies this`nodes, this`Repr, this`held, this`holder
      ensures nodes == old(nodes) + {node} && Repr == old(Repr) + {node, node.slab, node.slab.bitmap}
      ensures held == Granted(old(held), node)
      ensures Footprint() && ListsBut(node) && FullOk() && NodesOk() && AllApart() && Ledger() && LiveOk()
    {
      hide Footprint, Lists, ListsBut, FullOk, NodesOk, NodeOk, Slab.Live, Apart, MutuallyApart, Holds, HandedOut;
      hide Granted;
      ApartWith(nodes, node);
      OneMoreEmpty(node);
      Grant(node);
      Adopt(node);
    }

    /** A node over memory the backing allocator has just given, with its slab set up. */
    method NewNode(address: nat, memory: nat) returns (node: SlabNode, rc: int)
      requires Config()
      ensures fresh(node) && fresh(node.slab) && fresh(node.slab.bitmap)
      ensures rc == 0 <==> memory % MAX_ALIGN == 0
      ensures rc == 0 ==>
        && NodeOk(node) && node.address == address && node.rawMemory == memory
        && node.usedCount == 0 && !node.isFull && node.slab.Live() == {}
    {
      node := new SlabNode(address);
      SlabSize();
      rc := node.slab.Init(blockSize, memory, slabMemorySize);
      node.rawMemory := memory;
      assert rc == 0 ==> Addresses(memory, blockSize, node.slab.Taken()) == {};
    }

    lemma SlabSize()
      requires Config()
      ensures slabMemorySize / blockSize == blocksPerSlab && blockSize <= slabMemorySize
    {
      DivideExactly(blocksPerSlab, 0, blockSize);
      MultiplyMonotone(0, blocksPerSlab, blockSize);
    }

    ghost predicate Joining(node: SlabNode)
      reads this, nodes, node, node.slab, node.slab.bitmap
    {
      && node !in nodes && NodeOk(node) && !node.isFull && node.usedCount == 0 && node.slab.Live() == {}
      && node.address != node.rawMemory && node.address !in held && node.rawMemory !in held
      && forall n :: n in nodes ==> Apart(n, node) && Apart(node, n)
    }

    lemma NewAndEmpty(node: SlabNode)
      requires Joining(node)
      ensures node !in nodes && node.usedCount == 0
    {
    }

    method LinkNew(node: SlabNode)
      requires Core() && LiveOk() && Joining(node)
      modifies nodes`next, nodes`prev, nodes`isFull, node`next, node`prev, node`isFull, this`active, this`activeList
      modifies this`nodes, this`Repr, this`held, this`holder
      ensures Footprint() && Core() && LiveOk()
      ensures nodes == old(nodes) + {node} && Repr == old(Repr) + {node, node.slab, node.slab.bitmap}
      ensures activeList == [node] + old(activeList)
    {
      hide Linked, Lists, ListsBut, NodesOk, AllApart, Ledger, LiveOk, Config, Empty, Footprint;
      hide Slab.Valid, Slab.Live, Slab.Taken, Granted;
      AddNode(node);
      PushActive(node);
    }

    method CountNew(node: SlabNode)
      requires Footprint() && Core() && LiveOk() && |activeList| + |fullList| == |nodes| == slabCount + 1
      requires node in nodes && node.usedCount == 0 && emptyCount == |Empty() - {node}|
      modifies this`slabCount, this`emptyCount
      ensures Valid() && slabCount == old(slabCount) + 1 && emptyCount == old(emptyCount) + 1
    {
      hide Core, LiveOk;
      assert Empty() == (Empty() - {node}) + {node};
      slabCount := slabCount + 1;
      emptyCount := emptyCount + 1;
    }

    /** Puts a new node at the head of the active list. */
    method Join(node: SlabNode)
      requires Valid() && Joining(node)
      modifies nodes`next, nodes`prev, nodes`isFull, node`next, node`prev, node`isFull, this`active, this`activeList
      modifies this`nodes, this`Repr, this`held, this`holder, this`slabCount, this`emptyCount
      ensures Valid()
      ensures nodes == old(nodes) + {node} && Repr == old(Repr) + {node, node.slab, node.slab.bitmap}
      ensures activeList == [node] + old(activeList)
      ensures emptyCount == old(emptyCount) + 1 && slabCount == old(slabCount) + 1
    {
      hide Valid, Core, LiveOk, NodeOk, Slab.Live, Footprint, Joining;
      ghost var empty := Empty();
      ValidParts();
      NewAndEmpty(node);
      LinkNew(node);
      assert Empty() - {node} == empty;
      CountNew(node);
    }

    twostate predicate SameConfig()
      reads this
    {
      && blockSize == old(blockSize) && blocksPerSlab == old(blocksPerSlab)
      && maxSlabs == old(maxSlabs) && maxEmptyReserve == old(maxEmptyReserve)
    }

    /** No block can be had: every slab is full, and growing is refused. */
    ghost predicate Refuses(offer: Offer)
      reads this, nodes`usedCount
    {
      AllFull() && GrowRefused(offer)
    }

    /** What the backing allocator may answer: memory it has not already given away. */
    ghost predicate Offered(offer: Offer)
      reads this`held, this`nodes, this`slabMemorySize, nodes`rawMemory
    {
      && (offer.node.At? ==> offer.node.address !in held)
      && (offer.slab.At? ==> offer.slab.address !in held)
      && (offer.slab.At? ==>
            forall n :: n in nodes ==> RegionsDisjoint(offer.slab.address, n.rawMemory, slabMemorySize))
      && (offer.node.At? && offer.slab.At? ==> offer.node.address != offer.slab.address)
    }

    lemma NewApart(node: SlabNode)
      requires Footprint() && Ledger() && node.address !in held && node.rawMemory !in held
      requires forall n :: n in nodes ==> RegionsDisjoint(node.rawMemory, n.rawMemory, slabMemorySize)
      requires node !in Repr && node.slab !in Repr && node.slab.bitmap !in Repr
      ensures forall n :: n in nodes ==> Apart(n, node) && Apart(node, n)
    {
      forall n | n in nodes ensures Apart(n, node) && Apart(node, n) {
        assert n.address in held && n.rawMemory in held;
      }
    }

    method Grow(offer: Offer) returns (ok: bool)
      requires Valid() && Offered(offer)
      modifies nodes`next, nodes`prev, nodes`isFull, this`active, this`activeList
      modifies this`nodes, this`Repr, this`held, this`holder, this`slabCount, this`emptyCount
      ensures Valid() && fresh(Repr - old(Repr))
      ensures ok <==> !old(GrowRefused(offer))
      ensures !ok ==>
        nodes == old(nodes) && held == old(held) && activeList == old(activeList) && emptyCount == old(emptyCount)
      ensures ok ==>
        && active != null && fresh(active) && fresh(active.slab.bitmap)
        && active !in old(nodes) && active.usedCount == 0 && nodes == old(nodes) + {active}
        && emptyCount == old(emptyCount) + 1 && slabCount == old(slabCount) + 1
    {
      hide Linked, Lists, ListsBut, NodesOk, NodeOk, AllApart, Ledger, LiveOk, Config, Empty, Counters, Slab.Live;
      if maxSlabs > 0 && slabCount >= maxSlabs {
        return false;
      }
      if offer.node.Null? {
        return false;
      }
      if offer.slab.Null? {
        TakeAndGiveBack(offer.node.address, NODE_SIZE);
        return false;
      }
      var node, rc := NewNode(offer.node.address, offer.slab.address);
      if rc != 0 {
        TakeAndGiveBackBoth(offer.node.address, offer.slab.address);
        return false;
      }
      NewApart(node);
      Join(node);
      HeadIsNode();
      ok := true;
    }

    // ----- allocation -----

    lemma NoActiveSlab()
      requires Core() && active == null
      ensures AllFull()
    {
      assert activeList == [];
    }

    lemma EmptyWhenFull()
      requires Valid() && AllFull()
      ensures emptyCount == 0 && blocksPerSlab > 0
    {
      assert Empty() == {};
    }

    /** Walks the active list for a slab with room, moving the full ones it meets. */
    method TakeFromActive() returns (p: Pointer)
      requires Valid()
      modifies nodes`next, nodes`prev, nodes`isFull, nodes`usedCount, set n | n in nodes :: n.slab.bitmap
      modifies this`active, this`activeList, this`full, this`fullList, this`emptyCount, this`owner
      ensures Valid()
      ensures p.Null? <==> old(AllFull())
      ensures p.Null? ==> AllFull() && owner == old(owner) && emptyCount == old(emptyCount)
      ensures p.At? ==>
        && p.address !in old(owner) && p.address in owner && owner == old(owner)[p.address := owner[p.address]]
        && emptyCount <= old(emptyCount)
    {
      hide Core, Counters, LiveOk, Slab.Live;
      p := Null;
      while active != null
        invariant p.Null? && Valid() && owner == old(owner) && emptyCount == old(emptyCount)
        invariant forall n :: n in nodes ==> n.usedCount == old(n.usedCount)
        decreases |activeList|
      {
        HeadIsNode();
        ghost var node := active;
        assert node in nodes && node.usedCount == old(node.usedCount);
        p := TakeFromHead();
        if p.At? {
          return;
        }
        MoveToFull();
      }
      NoActiveSlab();
    }

    /** Takes a block from a new slab, once every slab is full. */
    method TakeFromNew(offer: Offer) returns (p: Pointer)
      requires Valid() && AllFull() && Offered(offer)
      modifies nodes`next, nodes`prev, nodes`isFull, this`active, this`activeList
      modifies this`nodes, this`Repr, this`held, this`holder, this`slabCount, this`emptyCount, this`owner
      ensures Valid() && fresh(Repr - old(Repr))
      ensures p.Null? <==> old(GrowRefused(offer))
      ensures p.Null? ==> owner == old(owner) && nodes == old(nodes) && held == old(held)
      ensures p.At? ==>
        p.address !in old(owner) && p.address in owner && owner == old(owner)[p.address := owner[p.address]]
      ensures old(nodes) <= nodes
      ensures nodes == old(nodes) || |nodes| == |old(nodes)| + 1
      ensures Hysteresis()
    {
      hide Valid, AllFull, Offered, GrowRefused;
      EmptyWhenFull();
      var ok := Grow(offer);
      if !ok {
        return Null;
      }
      p := TakeFromHead();
    }

    method TakeOrGrow(offer: Offer) returns (p: Pointer)
      requires Valid() && Offered(offer)
      modifies nodes`next, nodes`prev, nodes`isFull, nodes`usedCount, set n | n in nodes :: n.slab.bitmap
      modifies this`active, this`activeList, this`full, this`fullList
      modifies this`nodes, this`Repr, this`held, this`holder, this`slabCount, this`emptyCount, this`owner
      ensures Valid() && fresh(Repr - old(Repr))
      ensures p.Null? <==> old(AllFull()) && old(GrowRefused(offer))
      ensures p.Null? ==> owner == old(owner) && nodes == old(nodes) && held == old(held)
      ensures p.At? ==>
        p.address !in old(owner) && p.address in owner && owner == old(owner)[p.address := owner[p.address]]
      ensures old(nodes) <= nodes
      ensures nodes == old(nodes) || (old(AllFull()) && |nodes| == |old(nodes)| + 1)
      ensures old(Hysteresis()) ==> Hysteresis()
    {
      hide Valid, AllFull, Offered;
      p := TakeFromActive();
      if p.Null? {
        p := TakeFromNew(offer);
      }
    }

    /** Takes a block, growing by one slab only when every slab is full.  Null exactly when
        all are full and growing is refused; then nothing changes hands. */
    method Alloc(offer: Offer) returns (p: Pointer)
      requires Valid() && Offered(offer)
      modifies Repr
      ensures Valid() && SameConfig() && fresh(Repr - old(Repr))
      ensures p.Null? <==> old(Refuses(offer))
      ensures p.Null? ==> owner == old(owner) && nodes == old(nodes) && held == old(held)
      ensures p.At? ==>
        p.address !in old(owner) && p.address in owner && owner == old(owner)[p.address := owner[p.address]]
      ensures old(nodes) <= nodes
      ensures nodes == old(nodes) || (old(AllFull()) && |nodes| == |old(nodes)| + 1)
      ensures old(Hysteresis()) ==> Hysteresis()
    {
      hide Valid, AllFull, Offered, GrowRefused, Hysteresis;
      InRepr();
      p := TakeOrGrow(offer);
    }

    // ----- release -----

    ghost predicate Contains(n: SlabNode, p: nat)
      reads this`slabMemorySize, n`rawMemory
    {
      n.rawMemory <= p < n.rawMemory + slabMemorySize
    }

    method FindIn(head: SlabNode?, p: nat, ghost list: seq<SlabNode>) returns (n: SlabNode?)
      requires Linked(head, list)
      ensures n != null ==> n in list && Contains(n, p)
      ensures n == null ==> forall m :: m in list ==> !Contains(m, p)
    {
      n := head;
      ghost var k := 0;
      while n != null
        invariant 0 <= k <= |list| && n == if k < |list| then list[k] else null
        invariant forall i :: 0 <= i < k ==> !Contains(list[i], p)
        decreases |list| - k
      {
        if n.rawMemory <= p && p < n.rawMemory + slabMemorySize {
          return;
        }
        n := n.next;
        k := k + 1;
      }
    }

    method FindOwningSlab(p: nat) returns (n: SlabNode?)
      requires Core()
      ensures n != null ==> n in nodes && Contains(n, p)
      ensures n == null ==> forall m :: m in nodes ==> !Contains(m, p)
    {
      n := FindIn(active, p, activeList);
      if n != null {
        return;
      }
      n := FindIn(full, p, fullList);
    }

    /** Only the node whose region contains `p` can have handed it out. */
    lemma OwnerContains(p: nat)
      requires Valid()
      ensures p in owner ==> owner[p] in nodes && Contains(owner[p], p)
      ensures forall n :: n in nodes && Contains(n, p) && p in owner ==> owner[p] == n
    {
      if p in owner {
        LiveInRegion(owner[p], p);
        assert forall n :: n in nodes && n != owner[p] ==> Apart(owner[p], n);
      }
    }

    /** Takes a block back into a node's slab and counts it; a rejected one changes nothing. */
    method ReleaseBlock(node: SlabNode, p: nat) returns (ok: bool)
      requires NodesOk() && AllApart() && FullOk() && node in nodes
      modifies node`usedCount, node.slab.bitmap
      ensures NodesOk() && FullBut(node)
      ensures ok <==> p in old(node.slab.Live())
      ensures forall n :: n in nodes && n != node ==> n.slab.Live() == old(n.slab.Live())
      ensures !ok ==> node.slab.Live() == old(node.slab.Live()) && node.usedCount == old(node.usedCount)
      ensures ok ==> node.slab.Live() == old(node.slab.Live()) - {p} && node.usedCount == old(node.usedCount) - 1
    {
      hide Indices, Test, Addresses, BlockAddress, Slab.Valid, Slab.Taken, Slab.Live, Slab.Full;
      OwnSlab(node);
      assert NodeOk(node);
      ok := node.slab.Release(p);
      if ok {
        node.usedCount := node.usedCount - 1;
      }
      assert NodesOk() by {
        forall n | n in nodes && n != node ensures NodeOk(n) { assert old(NodeOk(n)); }
      }
    }

    /** `owner` is what the slabs have handed out, and the block `p` just taken back. */
    ghost method Unrecord(node: SlabNode, p: nat, before: set<nat>)
      requires p in owner && owner[p] == node && node.slab.Live() == before - {p} && p in before
      requires forall q :: q in owner ==> owner[q] in nodes && (owner[q] != node ==> q in owner[q].slab.Live())
      requires forall q :: q in before <==> q in owner && owner[q] == node
      requires forall n, q :: n in nodes && n != node && q in n.slab.Live() ==> q in owner && owner[q] == n
      modifies this`owner
      ensures owner == old(owner) - {p} && LiveOk()
    {
      hide Slab.Live;
      owner := owner - {p};
    }

    method ReleaseRecorded(node: SlabNode, p: nat) returns (ok: bool)
      requires Core() && LiveOk() && node in nodes && (p in owner ==> owner[p] == node)
      modifies node`usedCount, node.slab.bitmap, this`owner
      ensures Base() && FullBut(node) && LiveOk()
      ensures !ok ==> Footprint() && Core() && Empty() == old(Empty())
      ensures ok ==> Empty() - {node} == old(Empty())
      ensures ok <==> p in old(owner)
      ensures !ok ==> owner == old(owner) && node.usedCount == old(node.usedCount)
      ensures ok ==> owner == old(owner) - {p} && node.usedCount == old(node.usedCount) - 1
    {
      hide Footprint, Lists, NodesOk, AllApart, Ledger, Config, FullBut, Slab.Live;
      assert node.isFull ==> node.usedCount == blocksPerSlab;
      ghost var before := node.slab.Live();
      ok := ReleaseBlock(node, p);
      if !ok {
        NotFullOk(node);
      } else {
        Unrecord(node, p, before);
      }
    }

    lemma OnFullList(node: SlabNode) returns (k: nat)
      requires Footprint() && Lists() && node in nodes && node.isFull
      ensures k < |fullList| && fullList[k] == node
    {
      k :| 0 <= k < |fullList| && fullList[k] == node;
    }

    lemma OnActiveList(node: SlabNode) returns (k: nat)
      requires Footprint() && Lists() && node in nodes && !node.isFull
      ensures k < |activeList| && activeList[k] == node
    {
      k :| 0 <= k < |activeList| && activeList[k] == node;
    }

    /** A slab on the full list that has room again returns to the active list. */
    method Relink(node: SlabNode)
      requires Base() && FullBut(node) && LiveOk() && node in nodes && node.isFull
      modifies nodes`next, nodes`prev, nodes`isFull, this`active, this`activeList, this`full, this`fullList
      ensures Footprint() && Core() && LiveOk()
      ensures |activeList| + |fullList| == old(|activeList| + |fullList|)
    {
      hide Linked, Lists, ListsBut, Rest, LiveOk, Empty, Footprint;
      ghost var k := OnFullList(node);
      UnlinkFull(node, k);
      PushActive(node);
    }

    method Unfill(node: SlabNode)
      requires Base() && FullBut(node) && LiveOk() && node in nodes
      modifies nodes`next, nodes`prev, nodes`isFull, this`active, this`activeList, this`full, this`fullList
      ensures Footprint() && Core() && LiveOk()
      ensures |activeList| + |fullList| == old(|activeList| + |fullList|)
    {
      hide Base, Footprint, Core, LiveOk, FullBut;
      if node.isFull {
        Relink(node);
      } else {
        NotFullOk(node);
      }
    }

    method CountEmpty(node: SlabNode)
      requires Footprint() && Core() && LiveOk() && node in nodes && node.usedCount == 0
      requires slabCount == |activeList| + |fullList| == |nodes| && emptyCount == |Empty() - {node}|
      modifies this`emptyCount
      ensures Valid() && emptyCount == old(emptyCount) + 1
    {
      hide Core, LiveOk;
      assert Empty() == (Empty() - {node}) + {node};
      emptyCount := emptyCount + 1;
    }

    lemma OneLessHeld(ns: set<SlabNode>, node: SlabNode)
      requires Holds(ns, held, holder) && MutuallyApart(ns) && Config() && node in ns
      ensures Holds(ns - {node}, held - {node.rawMemory} - {node.address}, holder) && MutuallyApart(ns - {node})
      ensures node.rawMemory in held && held[node.rawMemory] == slabMemorySize
      ensures node.address in held && held[node.address] == NODE_SIZE && node.address != node.rawMemory
    {
      SlabSize();
      assert node.address in held && node.rawMemory in held;
      ghost var rest := held - {node.rawMemory} - {node.address};
      forall n | n in ns - {node}
        ensures n.address in rest && rest[n.address] == NODE_SIZE
        ensures n.rawMemory in rest && rest[n.rawMemory] == slabMemorySize
      {
        assert Apart(n, node);
        assert n.address in held && n.rawMemory in held;
      }
      forall a | a in rest ensures a in holder && holder[a] in ns - {node} { assert a in held; }
    }

    lemma OneLessEmpty(node: SlabNode)
      requires NodesOk() && LiveOk() && node in nodes && node.usedCount == 0
      ensures HandedOut(nodes - {node}, owner)
    {
      hide Slab.Live, NodeOk;
      NothingTaken(node);
    }

    lemma NothingTaken(node: SlabNode)
      requires NodesOk() && node in nodes && node.usedCount == 0
      ensures node.slab.Live() == {}
    {
      hide Indices, Test, Slab.Valid, Slab.Taken, BlockAddress;
      assert NodeOk(node);
      assert node.slab.Taken() == {};
      assert forall p :: p !in node.slab.Live();
    }

    ghost method GiveBackBoth(node: SlabNode)
      requires node.rawMemory in held && held[node.rawMemory] == slabMemorySize
      requires node.address in held && held[node.address] == NODE_SIZE && node.address != node.rawMemory
      modifies this`held
      ensures held == old(held) - {node.rawMemory} - {node.address}
    {
      GiveBack(node.rawMemory, slabMemorySize);
      GiveBack(node.address, NODE_SIZE);
    }

    /** The unlinked node and its slab go back to the backing allocator. */
    ghost method DropNode(node: SlabNode)
      requires Footprint() && ListsBut(node) && FullBut(node) && Rest() && LiveOk()
      requires node in nodes && node.usedCount == 0
      modifies this`nodes, this`held
      ensures nodes == old(nodes) - {node}
      ensures Footprint() && Core() && LiveOk()
    {
      hide Linked, NodeOk, Apart, Holds, HandedOut;
      OneLessHeld(nodes, node);
      OneLessEmpty(node);
      GiveBackBoth(node);
      nodes := nodes - {node};
    }

    method CountDropped(node: SlabNode)
      requires Footprint() && Core() && LiveOk() && node !in nodes
      requires slabCount == |activeList| + |fullList| + 1 == |nodes| + 1 && emptyCount == |Empty()| + 1
      modifies this`slabCount, this`emptyCount
      ensures Valid() && slabCount == old(slabCount) - 1 && emptyCount == old(emptyCount) - 1
    {
      hide Core, LiveOk;
      slabCount := slabCount - 1;
      emptyCount := emptyCount - 1;
    }

    /** Returns an empty slab to the backing allocator. */
    method Shrink(node: SlabNode)
      requires Valid() && node in nodes && node.usedCount == 0
      modifies nodes`next, nodes`prev, this`active, this`activeList
      modifies this`nodes, this`held, this`slabCount, this`emptyCount
      ensures Valid() && nodes == old(nodes) - {node}
      ensures slabCount == old(slabCount) - 1 && emptyCount == old(emptyCount) - 1
    {
      hide Valid, Footprint, Lists, Linked, ListsBut, FullBut, Rest, LiveOk, Core, Counters;
      EmptyNodeIsActive(node);
      ghost var k := OnActiveList(node);
      ghost var empty := Empty();
      UnlinkActive(node, k);
      DropNode(node);
      assert Empty() == empty - {node};
      CountDropped(node);
    }

    lemma EmptyNodeIsActive(node: SlabNode)
      requires Valid() && node in nodes && node.usedCount == 0
      ensures Footprint() && Lists() && FullBut(node) && Rest() && LiveOk() && !node.isFull
      ensures slabCount == |activeList| + |fullList| == |nodes| && emptyCount == |Empty()| && node in Empty()
    {
    }

    /** Takes a block back.  A pointer that is not a block in use is rejected and changes
        nothing.  A slab left empty is returned to the backing allocator exactly when more
        than the reserve would be kept and it is not the last one. */
    method Release(p: nat)
      requires Valid()
      modifies Repr
      ensures Valid() && SameConfig() && Repr == old(Repr)
      ensures p !in old(owner) ==>
        && owner == old(owner) && nodes == old(nodes) && held == old(held)
        && emptyCount == old(emptyCount) && activeList == old(activeList) && fullList == old(fullList)
      ensures p in old(owner) ==>
        && owner == old(owner) - {p}
        && nodes == (if old(Returned(p)) then old(nodes) - {old(owner[p])} else old(nodes))
      ensures old(Hysteresis()) ==> Hysteresis()
    {
      hide Valid, Footprint, Core, LiveOk, Counters, Slab.Live, Contains;
      InRepr();
      ValidParts();
      OwnerContains(p);
      var node := FindOwningSlab(p);
      if node != null {
        ReleaseInto(node, p);
      }
    }

    method ReleaseInto(node: SlabNode, p: nat)
      requires Valid() && node in nodes && (p in owner ==> owner[p] == node)
      modifies node`usedCount, node.slab.bitmap, this`owner, nodes`next, nodes`prev, nodes`isFull
      modifies this`active, this`activeList, this`full, this`fullList
      modifies this`nodes, this`held, this`slabCount, this`emptyCount
      ensures Valid()
      ensures p !in old(owner) ==>
        && owner == old(owner) && nodes == old(nodes) && held == old(held)
        && emptyCount == old(emptyCount) && activeList == old(activeList) && fullList == old(fullList)
      ensures p in old(owner) ==>
        && owner == old(owner) - {p}
        && nodes == (if old(Returned(p)) then old(nodes) - {node} else old(nodes))
      ensures old(Hysteresis()) ==> Hysteresis()
    {
      hide Valid, Footprint, Core, LiveOk, Empty;
      ValidParts();
      var ok := TakeBack(node, p);
      if ok && node.usedCount == 0 {
        ApplyHysteresis(node);
      } else {
        if ok { NotEmpty(node); }
        ValidAgain();
      }
    }

    /** Counts a slab just left empty, and returns it if enough others are. */
    method ApplyHysteresis(node: SlabNode)
      requires Footprint() && Core() && LiveOk() && node in nodes && node.usedCount == 0
      requires slabCount == |activeList| + |fullList| == |nodes| && emptyCount == |Empty() - {node}|
      modifies nodes`next, nodes`prev, this`active, this`activeList
      modifies this`nodes, this`held, this`slabCount, this`emptyCount
      ensures Valid()
      ensures nodes ==
        if old(emptyCount) + 1 > maxEmptyReserve && old(slabCount) > 1 then old(nodes) - {node} else old(nodes)
      ensures old(Hysteresis()) ==> Hysteresis()
    {
      hide Footprint, Core, LiveOk, Counters;
      CountEmpty(node);
      CountsBounded(node);
      if emptyCount > maxEmptyReserve && slabCount > 1 {
        Shrink(node);
      }
    }

    method TakeBack(node: SlabNode, p: nat) returns (ok: bool)
      requires Footprint() && Core() && LiveOk() && node in nodes && (p in owner ==> owner[p] == node)
      modifies node`usedCount, node.slab.bitmap, this`owner
      modifies nodes`next, nodes`prev, nodes`isFull, this`active, this`activeList, this`full, this`fullList
      ensures Footprint() && Core() && LiveOk()
      ensures |activeList| + |fullList| == old(|activeList| + |fullList|)
      ensures ok <==> p in old(owner)
      ensures !ok ==>
        && owner == old(owner) && node.usedCount == old(node.usedCount) && Empty() == old(Empty())
        && activeList == old(activeList) && fullList == old(fullList)
      ensures ok ==>
        && owner == old(owner) - {p} && node.usedCount == old(node.usedCount) - 1
        && Empty() - {node} == old(Empty())
    {
      hide Footprint, Base, Core, LiveOk, Slab.Live, FullBut, Empty;
      ok := ReleaseRecorded(node, p);
      if ok {
        Unfill(node);
      }
    }

    lemma NotEmpty(node: SlabNode)
      requires node in nodes && node.usedCount > 0
      ensures Empty() - {node} == Empty()
    {
    }

    lemma NotFullOk(node: SlabNode)
      requires Base() && FullBut(node) && (!node.isFull || node.usedCount == blocksPerSlab)
      ensures Footprint() && Core()
    {
    }

    lemma InRepr()
      requires Valid()
      ensures this in Repr
      ensures forall n :: n in nodes ==> n in Repr && n.slab in Repr && n.slab.bitmap in Repr
      ensures active != null ==> active in nodes
    {
      if active != null { HeadIsNode(); }
    }

    lemma Counted()
      requires Valid()
      ensures slabCount == |nodes|
      ensures forall p :: p in owner ==> owner[p] in nodes
    {
    }

    lemma ValidParts()
      requires Valid()
      ensures Footprint() && Core() && LiveOk() && FullOk()
      ensures slabCount == |activeList| + |fullList| == |nodes| && emptyCount == |Empty()|
    {
    }

    lemma ValidAgain()
      requires Footprint() && Core() && LiveOk()
      requires slabCount == |activeList| + |fullList| == |nodes| && emptyCount == |Empty()|
      ensures Valid()
    {
    }

    lemma CountsBounded(node: SlabNode)
      requires Valid() && node in nodes
      ensures 0 < slabCount && emptyCount <= slabCount
    {
      SubsetSize(Empty(), nodes);
      SubsetSize({node}, nodes);
    }

    /** Whether releasing the block `p` in use hands its slab back. */
    ghost predicate Returned(p: nat)
      reads this`owner, this`emptyCount, this`maxEmptyReserve, this`slabCount, owner.Values
      requires p in owner
    {
      owner[p].usedCount == 1 && emptyCount + 1 > maxEmptyReserve && slabCount > 1
    }

    // ----- destruction -----

    method FreeNodeList(start: SlabNode?, ghost list: seq<SlabNode>, ghost ns: set<SlabNode>)
      requires Linked(start, list) && Config() && (forall n :: n in list ==> n in ns)
      requires Holds(ns, held, holder) && MutuallyApart(ns)
      modifies this`held
      ensures Holds(ns - (set n | n in list), held, holder) && MutuallyApart(ns - (set n | n in list))
    {
      hide Holds, MutuallyApart;
      var head := start;
      ghost var k := 0;
      ghost var left := ns;
      while head != null
        invariant 0 <= k <= |list| && head == if k < |list| then list[k] else null
        invariant forall n :: n in left <==> n in ns && n !in list[..k]
        invariant Holds(left, held, holder) && MutuallyApart(left)
        decreases |list| - k
      {
        var next := head.next;
        assert head in left;
        OneLessHeld(left, head);
        GiveBackBoth(head);
        left := left - {head};
        assert list[..k + 1] == list[..k] + [list[k]];
        k := k + 1;
        head := next;
      }
      assert list[..k] == list;
      assert left == ns - (set n | n in list);
    }

    /** Everything taken from the backing allocator has been given back, with its size. */
    method Destroy()
      requires Valid()
      modifies this
      ensures held == map[] && owner == map[] && slabCount == 0 && active == null && full == null
    {
      hide NodesOk, LiveOk, Counters, Holds, MutuallyApart;
      FreeNodeList(active, activeList, nodes);
      ghost var rest := nodes - (set n | n in activeList);
      FreeNodeList(full, fullList, rest);
      assert rest - (set n | n in fullList) == {};
      NothingHeld();
      Clear();
    }

    lemma NothingHeld()
      requires Holds({}, held, holder)
      ensures held == map[]
    {
      forall a ensures a !in held {
        if a in held { HolderOf({}, a); }
      }
    }

    lemma HolderOf(ns: set<SlabNode>, a: int)
      requires Holds(ns, held, holder) && a in held
      ensures ns != {}
    {
      assert a in holder && holder[a] in ns;
    }

    // ----- what a client can rely on -----

    /** The lists, the flags and the counters agree. */
    lemma CountersAgree()
      requires Valid()
      ensures slabCount == |activeList| + |fullList|
      ensures forall n :: n in nodes ==> (n.isFull <==> n in fullList) && (!n.isFull <==> n in activeList)
      ensures forall n :: n in nodes ==> n.usedCount == |n.slab.Taken()| && (n.isFull ==> n.usedCount == blocksPerSlab)
      ensures emptyCount == |set n | n in nodes && n.usedCount == 0|
    {
      hide Slab.Valid, Slab.Taken, Linked, Ledger, AllApart, LiveOk;
    }

    /** Blocks in use never overlap, and each lies in memory held from the backing allocator. */
    lemma LiveBlocksDisjoint(p: nat, q: nat)
      requires Valid() && p in Live() && q in Live() && p != q
      ensures RegionsDisjoint(p, q, blockSize)
      ensures exists a: nat :: a in held && held[a] == slabMemorySize && a <= p && p + blockSize <= a + slabMemorySize
    {
      var m, n := owner[p], owner[q];
      LiveInRegion(m, p);
      LiveInRegion(n, q);
      if m == n {
        var i :| i in m.slab.Taken() && p == BlockAddress(m.rawMemory, blockSize, i);
        var j :| j in m.slab.Taken() && q == BlockAddress(m.rawMemory, blockSize, j);
        BlocksApart(m.rawMemory, blockSize, i, j);
        BlocksApart(m.rawMemory, blockSize, j, i);
      } else {
        assert Apart(m, n);
      }
      assert m.rawMemory in held;
    }

    /** With the reserve set to its greatest value, a release never hands a slab back, for
        as long as the slabs can be counted in 32 bits: block addresses stay valid for good. */
    lemma GrowOnlyKeepsSlabs(p: nat)
      requires Valid() && maxEmptyReserve == UINT32_MAX && slabCount <= UINT32_MAX && p in owner
      ensures !Returned(p)
    {
      var node := owner[p];
      if node.usedCount == 1 {
        assert node !in Empty() && Empty() <= nodes - {node};
        SubsetSize(Empty(), nodes - {node});
        assert nodes == (nodes - {node}) + {node};
      }
    }

    ghost function LiveOf(ns: set<SlabNode>): set<nat>
      reads this`owner
    {
      set p | p in owner && owner[p] in ns
    }

    lemma SlabLiveSize(node: SlabNode)
      requires Valid() && node in nodes
      ensures node.slab.Live() == LiveOf({node}) && |LiveOf({node})| == node.usedCount
    {
      assert NodeOk(node);
      AddressesSize(node.slab.memory, node.slab.blockSize, node.slab.Taken());
    }

    lemma {:induction false} FullNodesSize(ns: set<SlabNode>)
      requires Valid() && ns <= nodes && forall n :: n in ns ==> n.usedCount <= blocksPerSlab
      ensures |LiveOf(ns)| <= |ns| * blocksPerSlab
      ensures |LiveOf(ns)| == |ns| * blocksPerSlab <==> forall n :: n in ns ==> n.usedCount == blocksPerSlab
      decreases |ns|
    {
      hide Valid, NodeOk;
      if ns == {} {
        assert LiveOf(ns) == {};
      } else {
        var n :| n in ns;
        var rest := ns - {n};
        FullNodesSize(rest);
        SlabLiveSize(n);
        assert LiveOf(ns) == LiveOf(rest) + LiveOf({n});
        assert |LiveOf(ns)| == |LiveOf(rest)| + n.usedCount;
        assert ns == rest + {n};
        OneMoreFull(|rest|, blocksPerSlab);
      }
    }

    lemma OneMoreFull(k: nat, size: nat)
      ensures (k + 1) * size == k * size + size
    {
    }

    /** Every slab is full exactly when all `slabCount * blocksPerSlab` blocks are in use. */
    lemma ExactCapacity()
      requires Valid()
      ensures |Live()| <= slabCount * blocksPerSlab
      ensures AllFull() <==> |Live()| == slabCount * blocksPerSlab
    {
      forall n | n in nodes ensures n.usedCount <= blocksPerSlab {
        assert NodeOk(n);
        RangeSize(blocksPerSlab);
        SubsetSize(n.slab.Taken(), Range(blocksPerSlab));
      }
      FullNodesSize(nodes);
      assert LiveOf(nodes) == Live();
    }
  }

  lemma WithoutOne<T>(list: seq<T>, k: nat)
    requires k < |list| && forall i, j :: 0 <= i < j < |list| ==> list[i] != list[j]
    ensures forall x :: x in list[..k] + list[k + 1..] <==> x in list && x != list[k]
  {
    var rest := list[..k] + list[k + 1..];
    forall x | x in list && x != list[k] ensures x in rest {
      var i :| 0 <= i < |list| && list[i] == x;
      assert if i < k then rest[i] == x else rest[i - 1] == x;
    }
  }
}
