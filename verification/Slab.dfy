/** The slab allocator's bitmap words: a word is its 64 bits, and the machine
    operations the allocator uses act on them bit by bit. */
module BitmapWord {

  const WORD_BITS: nat := 64

  type Word = bits: seq<bool> | |bits| == WORD_BITS witness seq(WORD_BITS, i => false)

  const ZERO: Word := seq(WORD_BITS, i => false)

  /** `1 << i` */
  function Bit(i: nat): Word
    requires i < WORD_BITS
  {
    seq(WORD_BITS, k => k == i)
  }

  function Or(a: Word, b: Word): Word { seq(WORD_BITS, k requires 0 <= k < WORD_BITS => a[k] || b[k]) }

  function And(a: Word, b: Word): Word { seq(WORD_BITS, k requires 0 <= k < WORD_BITS => a[k] && b[k]) }

  function Not(a: Word): Word { seq(WORD_BITS, k requires 0 <= k < WORD_BITS => !a[k]) }

  /** The number of zero bits below the lowest one bit. */
  function TrailingZeros(a: Word, from: nat := 0): (n: nat)
    requires exists k: nat :: from <= k < WORD_BITS && a[k]
    ensures from <= n < WORD_BITS && a[n]
    ensures forall k: nat :: from <= k < n ==> !a[k]
    decreases WORD_BITS - from
  {
    if a[from] then from else TrailingZeros(a, from + 1)
  }
}

/** A fixed region of memory cut into equal blocks, with one occupancy bit a block. */
module SlabAllocator {
  import opened Arithmetic
  import opened BitmapWord

  const BITMAP_SIZE: nat := 8
  const CACHE_LINE_SIZE: nat := 64
  const MAX_BLOCKS: nat := WORD_BITS * BITMAP_SIZE
  const MAX_ALIGN: nat := 16

  /** A C pointer that may be null. */
  datatype Pointer = Null | At(address: nat)

  /** Bit `i` of a bitmap laid out over consecutive words. */
  predicate Test(words: seq<Word>, i: nat)
    requires i < WORD_BITS * |words|
  {
    words[i / WORD_BITS][i % WORD_BITS]
  }

  function Indices(words: seq<Word>): set<nat> {
    set i: nat | i < WORD_BITS * |words| && Test(words, i)
  }

  function BlockAddress(memory: nat, blockSize: nat, i: nat): nat { memory + i * blockSize }

  ghost function Addresses(memory: nat, blockSize: nat, indices: set<nat>): set<nat> {
    set i | i in indices :: BlockAddress(memory, blockSize, i)
  }

  lemma BlocksApart(memory: nat, blockSize: nat, i: nat, j: nat)
    requires blockSize > 0
    ensures i < j ==> BlockAddress(memory, blockSize, i) + blockSize <= BlockAddress(memory, blockSize, j)
    ensures i != j ==> BlockAddress(memory, blockSize, i) != BlockAddress(memory, blockSize, j)
  {
    if i < j { MultiplyMonotone(i, j, blockSize); }
    if j < i { MultiplyMonotone(j, i, blockSize); }
  }

  lemma AddressesAfter(memory: nat, blockSize: nat, indices: set<nat>, index: nat)
    requires blockSize > 0
    ensures var address := BlockAddress(memory, blockSize, index);
      && Addresses(memory, blockSize, indices + {index}) == Addresses(memory, blockSize, indices) + {address}
      && Addresses(memory, blockSize, indices - {index}) == Addresses(memory, blockSize, indices) - {address}
      && (address in Addresses(memory, blockSize, indices) <==> index in indices)
  {
    var address := BlockAddress(memory, blockSize, index);
    forall i: nat ensures i != index ==> BlockAddress(memory, blockSize, i) != address {
      BlocksApart(memory, blockSize, i, index);
    }
    forall p ensures p in Addresses(memory, blockSize, indices - {index})
        <==> p in Addresses(memory, blockSize, indices) && p != address {
      if p in Addresses(memory, blockSize, indices) && p != address {
        var i :| i in indices && BlockAddress(memory, blockSize, i) == p;
        assert i in indices - {index};
      }
    }
    forall p ensures p in Addresses(memory, blockSize, indices + {index})
        <==> p in Addresses(memory, blockSize, indices) || p == address {
      if p in Addresses(memory, blockSize, indices) {
        var i :| i in indices && BlockAddress(memory, blockSize, i) == p;
        assert i in indices + {index};
      }
      assert index in indices + {index};
    }
  }

  lemma {:induction false} AddressesSize(memory: nat, blockSize: nat, indices: set<nat>)
    requires blockSize > 0
    ensures |Addresses(memory, blockSize, indices)| == |indices|
    decreases |indices|
  {
    if indices == {} {
      assert Addresses(memory, blockSize, indices) == {};
    } else {
      var i :| i in indices;
      AddressesSize(memory, blockSize, indices - {i});
      AddressesAfter(memory, blockSize, indices - {i}, i);
      assert (indices - {i}) + {i} == indices;
    }
  }

  ghost function Range(n: nat): (range: set<nat>)
    ensures forall i: nat :: i in range <==> i < n
  {
    if n == 0 then {} else Range(n - 1) + {n - 1}
  }

  lemma RangeSize(n: nat)
    ensures |Range(n)| == n
  {
    if n > 0 {
      RangeSize(n - 1);
      assert Range(n) == Range(n - 1) + {n - 1};
    }
  }

  lemma SubsetSize<T>(a: set<T>, b: set<T>)
    requires a <= b
    ensures |a| <= |b|
    ensures |a| == |b| ==> a == b
  {
    assert |b| == |a| + |b - a| by { assert b == a + (b - a); }
  }

  class Slab {
    var memory: nat
    var blockSize: nat
    var blockCount: nat
    const bitmap: array<Word>
    var bitmapCount: nat

    ghost predicate Valid()
      reads this, bitmap
    {
      && bitmap.Length == BITMAP_SIZE
      && blockSize > 0 && blockSize % CACHE_LINE_SIZE == 0
      && memory % MAX_ALIGN == 0
      && 0 < blockCount <= MAX_BLOCKS
      && bitmapCount == (blockCount + WORD_BITS - 1) / WORD_BITS
      && forall i :: i in Taken() ==> i < blockCount
    }

    /** The block indices handed out and not returned. */
    ghost function Taken(): set<nat>
      reads this, bitmap
    {
      Indices(bitmap[..])
    }

    function AddressOf(i: nat): nat
      reads this
    {
      BlockAddress(memory, blockSize, i)
    }

    ghost predicate Full()
      reads this, bitmap
    {
      forall i: nat :: i < blockCount ==> i in Taken()
    }

    /** The addresses of the blocks handed out and not returned. */
    ghost function Live(): set<nat>
      reads this, bitmap
    {
      Addresses(memory, blockSize, Taken())
    }

    constructor ()
      ensures fresh(bitmap) && bitmap.Length == BITMAP_SIZE
    {
      memory, blockSize, blockCount, bitmapCount := 0, 0, 0, 0;
      bitmap := new Word[BITMAP_SIZE](i => ZERO);
    }

    method Init(blockSize: nat, memory: nat, memorySize: nat) returns (rc: int)
      requires bitmap.Length == BITMAP_SIZE
      modifies this, bitmap
      ensures rc == 0 <==>
        && blockSize > 0 && blockSize % CACHE_LINE_SIZE == 0 && blockSize <= memorySize
        && memory % MAX_ALIGN == 0 && memorySize / blockSize <= MAX_BLOCKS
      ensures rc == 0 ==>
        && Valid() && Taken() == {}
        && this.memory == memory && this.blockSize == blockSize && blockCount == memorySize / blockSize
      ensures rc != 0 ==> rc == -1 && unchanged(this) && unchanged(bitmap)
    {
      if blockSize == 0 || blockSize % CACHE_LINE_SIZE != 0 || memorySize < blockSize {
        return -1;
      }
      if memory % MAX_ALIGN != 0 {
        return -1;
      }
      var count := memorySize / blockSize;
      if count > MAX_BLOCKS {
        return -1;
      }
      this.memory := memory;
      this.blockSize := blockSize;
      this.blockCount := count;
      this.bitmapCount := (count + WORD_BITS - 1) / WORD_BITS;
      ClearAll();
      QuotientPositive(memorySize, blockSize);
      rc := 0;
    }

    method ClearAll()
      requires bitmap.Length == BITMAP_SIZE
      modifies bitmap
      ensures forall i: nat :: i < MAX_BLOCKS ==> !Test(bitmap[..], i)
    {
      for i := 0 to BITMAP_SIZE
        invariant forall k :: 0 <= k < i ==> bitmap[k] == ZERO
      {
        bitmap[i] := ZERO;
      }
    }

    /** The lowest index below `capacity` whose bit is off, or -1. */
    method FindFree(words: nat, capacity: nat) returns (r: int)
      requires bitmap.Length == BITMAP_SIZE
      requires words <= BITMAP_SIZE && capacity <= words * WORD_BITS
      ensures -1 <= r < capacity
      ensures r == -1 ==> forall i: nat :: i < capacity ==> Test(bitmap[..], i)
      ensures r >= 0 ==> !Test(bitmap[..], r) && forall i: nat :: i < r ==> Test(bitmap[..], i)
    {
      for i := 0 to words
        invariant forall k: nat :: k < i * WORD_BITS && k < capacity ==> Test(bitmap[..], k)
      {
        var inverse := Not(bitmap[i]);
        if inverse != ZERO {
          assert exists k: nat :: k < WORD_BITS && inverse[k];
          var index := i * WORD_BITS + TrailingZeros(inverse);
          forall k: nat | i * WORD_BITS <= k < index ensures Test(bitmap[..], k) {
            assert !inverse[k % WORD_BITS];
          }
          if index < capacity {
            return index;
          }
        } else {
          forall k: nat | i * WORD_BITS <= k < (i + 1) * WORD_BITS ensures Test(bitmap[..], k) {
            assert inverse[k % WORD_BITS] == ZERO[k % WORD_BITS];
          }
        }
      }
      return -1;
    }

    method SetBit(i: nat)
      requires bitmap.Length == BITMAP_SIZE && i < MAX_BLOCKS
      modifies bitmap
      ensures Indices(bitmap[..]) == old(Indices(bitmap[..])) + {i}
    {
      bitmap[i / WORD_BITS] := Or(bitmap[i / WORD_BITS], Bit(i % WORD_BITS));
      assert forall k: nat :: k < MAX_BLOCKS ==> (Test(bitmap[..], k) <==> k == i || Test(old(bitmap[..]), k));
    }

    method ClearBit(i: nat)
      requires bitmap.Length == BITMAP_SIZE && i < MAX_BLOCKS
      modifies bitmap
      ensures Indices(bitmap[..]) == old(Indices(bitmap[..])) - {i}
    {
      bitmap[i / WORD_BITS] := And(bitmap[i / WORD_BITS], Not(Bit(i % WORD_BITS)));
      assert forall k: nat :: k < MAX_BLOCKS ==> (Test(bitmap[..], k) <==> k != i && Test(old(bitmap[..]), k));
    }

    /** Hands out the block with the lowest free index; null exactly when none is free. */
    method Alloc() returns (p: Pointer, ghost index: nat)
      requires Valid()
      modifies bitmap
      ensures Valid()
      ensures p.Null? <==> old(Full())
      ensures p.Null? ==> Taken() == old(Taken()) && Live() == old(Live())
      ensures p.At? ==>
        && p.address == AddressOf(index)
        && index < blockCount && index !in old(Taken()) && (forall i: nat :: i < index ==> i in old(Taken()))
        && Taken() == old(Taken()) + {index}
        && p.address !in old(Live()) && Live() == old(Live()) + {p.address}
    {
      var r := FindFree(bitmapCount, blockCount);
      index := 0;
      if r < 0 {
        forall i: nat | i < blockCount ensures i in Taken() { assert Test(bitmap[..], i); }
        return Null, 0;
      }
      index := r;
      AddressesAfter(memory, blockSize, Taken(), index);
      SetBit(r);
      assert forall i: nat :: i < MAX_BLOCKS ==> (Test(bitmap[..], i) <==> i in Indices(bitmap[..]));
      p := At(AddressOf(r));
    }

    /** Takes a block back.  Anything but a block in use is rejected and changes nothing. */
    method Release(block: nat) returns (ok: bool)
      requires Valid()
      modifies bitmap
      ensures Valid()
      ensures ok <==> block in old(Live())
      ensures !ok ==> bitmap[..] == old(bitmap[..]) && Taken() == old(Taken()) && Live() == old(Live())
      ensures ok ==>
        && (exists i :: i in old(Taken()) && block == AddressOf(i) && Taken() == old(Taken()) - {i})
        && Live() == old(Live()) - {block}
    {
      LiveExactly(block);
      var total := blockSize * blockCount;
      if block < memory || block >= memory + total {
        return false;
      }
      var offset := block - memory;
      if offset % blockSize != 0 {
        return false;
      }
      var index := IndexOf(block);
      if !Test(bitmap[..], index) {
        return false;
      }
      FreeBlock(index);
      ok := true;
    }

    method FreeBlock(index: nat)
      requires Valid() && index in Taken()
      modifies bitmap
      ensures Valid()
      ensures Taken() == old(Taken()) - {index}
      ensures Live() == old(Live()) - {AddressOf(index)}
    {
      AddressesAfter(memory, blockSize, Taken(), index);
      ClearBit(index);
      assert forall i: nat :: i < MAX_BLOCKS ==> (Test(bitmap[..], i) <==> i in Indices(bitmap[..]));
    }

    /** The three checks of a release accept exactly the addresses of blocks in use. */
    lemma LiveExactly(block: nat)
      requires Valid()
      ensures block in Live() <==>
        && memory <= block < memory + blockSize * blockCount
        && (block - memory) % blockSize == 0
        && Test(bitmap[..], IndexOf(block))
    {
      if block in Live() {
        var i :| i in Taken() && block == AddressOf(i);
        IndexOfAddress(i);
        DivideExactly(i, 0, blockSize);
      }
      if memory <= block < memory + blockSize * blockCount && (block - memory) % blockSize == 0
         && Test(bitmap[..], IndexOf(block)) {
        assert IndexOf(block) in Taken();
      }
    }

    lemma FullCount()
      requires Valid()
      ensures Full() <==> |Taken()| == blockCount
    {
      RangeSize(blockCount);
      if |Taken()| == blockCount { SubsetSize(Taken(), Range(blockCount)); }
      if Full() { assert Taken() == Range(blockCount); }
    }

    method Reset()
      requires Valid()
      modifies bitmap
      ensures Valid() && Taken() == {} && Live() == {}
    {
      ClearAll();
    }

    /** The inverse of AddressOf on block boundaries of the slab. */
    function IndexOf(block: nat): (i: nat)
      reads this
      requires blockSize > 0 && memory <= block < memory + blockSize * blockCount
      ensures i < blockCount
      ensures (block - memory) % blockSize == 0 ==> AddressOf(i) == block
    {
      var offset := block - memory;
      var i := offset / blockSize;
      assert i < blockCount by {
        assert offset == i * blockSize + offset % blockSize;
        if i >= blockCount {
          if i > blockCount { MultiplyMonotone(blockCount, i, blockSize); }
          assert false;
        }
      }
      i
    }

    /** Index and address conversions are mutually inverse on the slab's blocks. */
    lemma IndexOfAddress(i: nat)
      requires blockSize > 0 && i < blockCount
      ensures memory <= AddressOf(i) && AddressOf(i) + blockSize <= memory + blockSize * blockCount
      ensures IndexOf(AddressOf(i)) == i
    {
      MultiplyMonotone(i, blockCount, blockSize);
      DivideExactly(i, 0, blockSize);
    }
  }
}
