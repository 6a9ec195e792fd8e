/** The pool of fiber blocks: a multislab whose reserve is so great that no slab is ever
    handed back, so a block, once used, can be read for as long as the reactor lives. */
module ReactorPool {
  import opened SlabAllocator
  import opened MultislabAllocator
  import opened ReactorFibers

  const DEFAULT_FIBERS_PER_SLAB: nat := 32
  const FIBER_BLOCK_SIZE: nat := 256

  /** The zeroing backing allocator.  It cannot have given 2^32 slabs. */
  method AskZeroing(ms: Multislab) returns (offer: Offer)
    ensures ms.Offered(offer)
    ensures ms.slabCount >= UINT32_MAX ==> offer.node.Null?
  {
    offer := Offer(Null, Null);
  }

  ghost predicate Mapped(memory: map<nat, Fiber>, inUse: set<Fiber>, live: set<nat>) {
    && (forall a :: a in memory ==> memory[a].block == a)
    && (forall f :: f in inUse ==> f.block in live && f.block in memory && memory[f.block] == f)
    && (forall a :: a in live ==> a in memory && memory[a] in inUse)
  }

  lemma MappedParts(memory: map<nat, Fiber>, inUse: set<Fiber>, live: set<nat>)
    requires Mapped(memory, inUse, live)
    ensures forall a :: a in memory ==> memory[a].block == a
    ensures forall a :: a in memory && memory[a] in inUse ==> a in live
    ensures forall f :: f in inUse ==> f in memory.Values
  {
    forall f | f in inUse ensures f in memory.Values { assert memory[f.block] == f; }
  }

  lemma MappedWith(memory: map<nat, Fiber>, inUse: set<Fiber>, live: set<nat>, a: nat, f: Fiber)
    requires Mapped(memory, inUse, live) && f.block == a && (a in memory ==> memory[a] == f)
    ensures Mapped(memory[a := f], inUse, live)
  {
  }

  class FiberPool {
    const slabs: Multislab
    // The fiber each block used so far reads as.
    var memory: map<nat, Fiber>
    ghost var inUse: set<Fiber>
    // The slab each block used so far lies in.
    ghost var home: map<nat, SlabNode>

    /** Every fiber ever handed out. */
    ghost function Known(): set<Fiber>
      reads this`memory
    {
      memory.Values
    }

    /** The blocks in use are those the slabs have handed out. */
    ghost predicate Blocks()
      reads this`memory, this`inUse, slabs`owner
    {
      Mapped(memory, inUse, slabs.Live())
    }

    /** Every block ever handed out lies in a slab the pool still has. */
    ghost predicate Backed()
      reads this`memory, this`home, slabs`nodes
    {
      forall a :: a in memory ==> a in home && home[a] in slabs.nodes
    }

    ghost predicate GrowOnly()
      reads slabs, slabs.Repr
    {
      slabs.Valid() && slabs.maxSlabs == 0 && slabs.maxEmptyReserve == UINT32_MAX && slabs.slabCount <= UINT32_MAX
    }

    ghost predicate Apart()
      reads this`memory, slabs`Repr
    {
      slabs in slabs.Repr && this !in slabs.Repr && forall a :: a in memory ==> memory[a] !in slabs.Repr
    }

    ghost predicate Valid()
      reads this, slabs, slabs.Repr
    {
      Blocks() && Backed() && GrowOnly() && Apart()
    }

    lemma Outside()
      requires Valid()
      ensures slabs in slabs.Repr && this !in slabs.Repr && forall f :: f in Known() ==> f !in slabs.Repr
    {
      hide GrowOnly;
    }

    /** A fiber ever handed out is what its block reads as, in a slab the pool still has. */
    lemma InMemory(f: Fiber)
      requires Valid() && f in Known()
      ensures f.block in memory && memory[f.block] == f && f.block in home && home[f.block] in slabs.nodes
    {
      hide GrowOnly;
    }

    constructor ()
      ensures fresh(slabs) && slabs.held == map[]
    {
      slabs := new Multislab();
      memory, inUse, home := map[], {}, map[];
    }

    method Init() returns (rc: int)
      requires slabs.held == map[]
      modifies this, slabs
      ensures Valid() && rc == 0 && inUse == {} && memory == map[] && slabs.Repr == {slabs}
      ensures slabs.blockSize == FIBER_BLOCK_SIZE && slabs.blocksPerSlab == DEFAULT_FIBERS_PER_SLAB
    {
      memory, inUse, home := map[], {}, map[];
      rc := slabs.InitExt(FIBER_BLOCK_SIZE, DEFAULT_FIBERS_PER_SLAB, 0, UINT32_MAX, true);
    }

    /** A block, exactly unless the slabs refuse one under the backing allocator's `offer`. */
    method AllocBlock() returns (p: Pointer, ghost offer: Offer)
      requires GrowOnly() && Apart()
      modifies slabs.Repr
      ensures GrowOnly() && Apart() && fresh(slabs.Repr - old(slabs.Repr))
      ensures old(slabs.nodes) <= slabs.nodes
      ensures p.Null? <==> old(slabs.Refuses(offer))
      ensures p.Null? ==> slabs.owner == old(slabs.owner)
      ensures p.At? ==>
        && p.address !in old(slabs.owner) && p.address in slabs.owner && slabs.owner[p.address] in slabs.nodes
        && slabs.owner == old(slabs.owner)[p.address := slabs.owner[p.address]]
    {
      hide Multislab.Valid, Multislab.AllFull, Multislab.Offered;
      slabs.InRepr();
      slabs.Counted();
      var asked := AskZeroing(slabs);
      offer := asked;
      p := slabs.Alloc(asked);
      slabs.InRepr();
      slabs.Counted();
    }

    /** What the block at `a` reads as, wiped but for the generation. */
    method WipedAt(a: nat) returns (f: Fiber)
      requires forall b :: b in memory ==> memory[b].block == b
      requires a in memory ==> memory[a] !in inUse
      modifies this`memory, Known() - inUse
      ensures memory == old(memory)[a := f] && f.block == a && f.Zero()
      ensures Known() == old(Known()) + {f}
      ensures a in old(memory) ==>
        f == old(memory[a]) && f.generation == old(f.generation) && f.incarnation == old(f.incarnation)
      ensures a !in old(memory) ==> fresh(f) && f.generation == 0
      ensures unchanged(old(Known() - inUse) - {f})
    {
      if a in memory {
        f := memory[a];
        f.Wipe();
      } else {
        f := new Fiber(a);
      }
      memory := memory[a := f];
      assert Known() == old(Known()) + {f} by {
        forall g | g in old(Known()) ensures g in Known() { assert memory[g.block] == g; }
        assert memory[a] == f;
      }
    }

    ghost method InUseNow(f: Fiber)
      requires f.block in slabs.owner && f.block in memory && memory[f.block] == f
      requires Mapped(memory, inUse, slabs.Live() - {f.block})
      requires slabs.owner[f.block] in slabs.nodes
      requires forall a :: a in memory && a != f.block ==> a in home && home[a] in slabs.nodes
      modifies this`inUse, this`home
      ensures Blocks() && Backed() && inUse == old(inUse) + {f}
    {
      inUse := inUse + {f};
      home := home[f.block := slabs.owner[f.block]];
    }

    /** The block just taken holds a wiped fiber, and is in use. */
    method Occupy(a: nat) returns (f: Fiber)
      requires Mapped(memory, inUse, slabs.Live() - {a}) && a in slabs.owner && slabs.owner[a] in slabs.nodes
      requires Backed()
      modifies this`memory, this`inUse, this`home, Known() - inUse
      ensures Blocks() && Backed() && f.Zero() && f !in old(inUse) && inUse == old(inUse) + {f}
      ensures Known() == old(Known()) + {f} && unchanged(old(Known() - inUse) - {f})
      ensures f !in old(Known()) ==> fresh(f) && f.generation == 0
      ensures f in old(Known()) ==> f.generation == old(f.generation) && f.incarnation == old(f.incarnation)
      ensures forall b :: b in memory && b !in old(memory) ==> memory[b] == f
      ensures forall b :: b in old(memory) ==> b in memory && memory[b] == old(memory[b])
    {
      hide Mapped, Fiber.Zero;
      MappedParts(memory, inUse, slabs.Live() - {a});
      ghost var was := memory;
      f := WipedAt(a);
      MappedWith(was, inUse, slabs.Live() - {a}, a, f);
      InUseNow(f);
    }

    /** A block with all but its generation wiped; the generation of a block never used
        before is zero.  Null exactly if the slabs refuse one under `offer`. */
    method Obtain() returns (f: Fiber?, ghost offer: Offer)
      requires Valid()
      modifies slabs.Repr, this, Known() - inUse
      ensures Valid() && fresh(slabs.Repr - old(slabs.Repr)) && old(slabs.nodes) <= slabs.nodes
      ensures f == null <==> old(slabs.Refuses(offer))
      ensures f == null ==> inUse == old(inUse) && memory == old(memory) && unchanged(old(Known()))
      ensures f != null ==>
        && f !in old(inUse) && inUse == old(inUse) + {f} && Known() == old(Known()) + {f}
        && f.Zero() && (f !in old(Known()) ==> fresh(f) && f.generation == 0)
        && (f in old(Known()) ==> f.generation == old(f.generation))
        && unchanged(old(Known() - inUse) - {f})
    {
      hide GrowOnly, Mapped, Fiber.Zero, Multislab.Refuses;
      var p;
      p, offer := AllocBlock();
      if p.Null? {
        return null, offer;
      }
      assert slabs.Live() - {p.address} == old(slabs.Live());
      f := Occupy(p.address);
    }

    method FreeBlock(a: nat)
      requires GrowOnly() && a in slabs.Live()
      modifies slabs.Repr
      ensures GrowOnly() && slabs.Repr == old(slabs.Repr) && slabs.nodes == old(slabs.nodes)
      ensures slabs.owner == old(slabs.owner) - {a}
    {
      hide Multislab.Valid, Multislab.Returned;
      slabs.Counted();
      slabs.GrowOnlyKeepsSlabs(a);
      slabs.Release(a);
      slabs.Counted();
    }

    /** Every slab is given back. */
    method Destroy()
      requires Valid()
      modifies slabs
      ensures slabs.held == map[]
    {
      slabs.Destroy();
    }

    /** The block goes back; its contents stay. */
    method Release(f: Fiber)
      requires Valid() && f in inUse
      modifies slabs.Repr, this`inUse
      ensures Valid() && slabs.Repr == old(slabs.Repr) && inUse == old(inUse) - {f} && memory == old(memory)
      ensures slabs.nodes == old(slabs.nodes)
    {
      hide GrowOnly;
      FreeBlock(f.block);
      inUse := inUse - {f};
    }
  }
}
