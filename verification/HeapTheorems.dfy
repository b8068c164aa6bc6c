/** What the allocator's invariant means for the whole heap. */
module HeapTheorems {
  import opened HeapState
  import opened HeapSteps

  /** The addresses met by walking the raw words: from a, skip by the size word until end. */
  function Walk(mem: seq<int>, a: int, end: int): (s: seq<int>)
    ensures forall k | 0 <= k < |s| :: a <= s[k] < end
    decreases end - a
  {
    if a < 0 || end <= a || |mem| <= a || mem[a] < 0 then [] else [a] + Walk(mem, a + mem[a] / 4 + 2, end)
  }

  /** The bytes of the blocks at the given addresses, tags included. */
  function Bytes(mem: seq<int>, s: seq<int>): int {
    if s == [] then 0
    else (if 0 <= s[0] < |mem| then mem[s[0]] / 4 * 4 + 8 else 0) + Bytes(mem, s[1..])
  }

  lemma {:induction false} WalkFrom(h: Heap, loose: set<int>, a: int)
    requires Inv(h, loose) && a in h.blocks
    ensures var s := Walk(h.mem, a, h.brk - 1);
            && (forall x | x in h.blocks && a <= x :: x in s)
            && (forall x | x in s :: x in h.blocks)
            && (forall i, j | 0 <= i < j < |s| :: s[i] < s[j])
            && Bytes(h.mem, s) == 4 * (h.brk - 1 - a)
    decreases h.brk - a
  {
    hide Listed, Apart, Bytes, Walk;
    WalkStep(h, loose, a);
    var n := After(h.blocks, a);
    var rest := Walk(h.mem, n, h.brk - 1);
    if n in h.blocks {
      WalkFrom(h, loose, n);
    } else {
      WalkEnd(h.mem, n, h.brk - 1);
    }
    forall x | x in h.blocks && a <= x ensures x == a || n <= x {
    }
    forall x | x in h.blocks && n <= x ensures x in rest {
      Bounds(h.blocks, h.brk, x);
    }
  }

  lemma WalkEnd(mem: seq<int>, a: int, end: int)
    requires end <= a
    ensures Walk(mem, a, end) == [] && Bytes(mem, []) == 0
  {
  }

  lemma WalkStep(h: Heap, loose: set<int>, a: int)
    requires Inv(h, loose) && a in h.blocks
    ensures var n, rest := After(h.blocks, a), Walk(h.mem, After(h.blocks, a), h.brk - 1);
            && a < n <= h.brk - 1 && (n in h.blocks || n == h.brk - 1)
            && Walk(h.mem, a, h.brk - 1) == [a] + rest
            && Bytes(h.mem, [a] + rest) == 4 * h.blocks[a].words + 8 + Bytes(h.mem, rest)
  {
    hide Listed, Apart;
    assert NextOk(h.blocks, h.brk, a);
    Bounds(h.blocks, h.brk, a);
    TagsOf(h, a);
    var rest := Walk(h.mem, After(h.blocks, a), h.brk - 1);
    assert ([a] + rest)[1..] == rest;
  }

  /** Walking from the start marker meets every block exactly once, in address order, lands on the end marker, and
      the blocks with their tags plus the two markers account for every byte taken from sbrk. */
  lemma WalkVisitsEveryBlock(h: Heap)
    requires Inv(h, {}) && h.brk > 0
    ensures var s := Walk(h.mem, 1, h.brk - 1);
            && (forall x :: x in s <==> x in h.blocks)
            && (forall i, j | 0 <= i < j < |s| :: s[i] < s[j])
            && Bytes(h.mem, s) + 8 == 4 * h.brk
            && h.mem[0] == 1 && h.mem[h.brk - 1] == 1
  {
    WalkFrom(h, {}, 1);
    forall x | x in h.blocks ensures 1 <= x { Bounds(h.blocks, h.brk, x); }
  }

  /** Head and end tags agree, and no two neighbours on the walk are both free. */
  lemma NoTwoFreeNeighbours(h: Heap, a: int)
    requires Inv(h, {}) && a in h.blocks
    ensures h.mem[a] == h.mem[a + 1 + h.blocks[a].words] && (h.mem[a] % 2 == 1 <==> h.blocks[a].used)
    ensures h.mem[a] % 2 == 1 || h.mem[After(h.blocks, a)] % 2 == 1
  {
    hide Listed;
    assert ApartAt(h.blocks, {}, a);
    Bounds(h.blocks, h.brk, a);
    Successor(h, {}, a);
    TagsOf(h, a);
  }

  /** The free blocks are exactly the slop and the members of the lists, and every one of them is in one place only:
      its bucket's list, at one position, or the slop. */
  lemma FreeBlocksAreListedOnce(h: Heap, a: int)
    requires Inv(h, {})
    ensures Free(h.blocks, a) <==>
              (a == h.slop && a != NULL) || exists b | 0 <= b < BUCKETS :: a in h.lists[b]
    ensures forall b | 0 <= b < BUCKETS && a in h.lists[b] :: a != h.slop && b == Bits(h.mem[a] / 4)
    ensures forall b, i, j | 0 <= b < BUCKETS && 0 <= i < j < |h.lists[b]| :: h.lists[b][i] != h.lists[b][j]
  {
    hide Apart;
    forall b | 0 <= b < BUCKETS && a in h.lists[b]
      ensures Free(h.blocks, a) && a != h.slop && 0 <= a < POOL && b == Bits(h.mem[a] / 4)
    {
      Member(h, {}, b, a);
      TagsOf(h, a);
    }
    if Free(h.blocks, a) {
      assert Placed(h, {}, a);
      BucketInRange(h.blocks, h.brk, a);
      Bounds(h.blocks, h.brk, a);
    }
    forall b | 0 <= b < BUCKETS ensures Distinct(h.lists[b]) {
      assert ListOk(h, {}, b);
    }
  }

  /** Live payloads lie inside the pool, between the markers, and do not overlap. */
  lemma LivePayloadsAreDisjoint(h: Heap, x: int, y: int)
    requires Inv(h, {}) && x in LiveOf(h) && y in LiveOf(h) && x != y
    ensures 0 <= x && x + 1 + |LiveOf(h)[x]| < h.brk - 1 && 0 <= y && y + 1 + |LiveOf(h)[y]| < h.brk - 1
    ensures x + 1 + |LiveOf(h)[x]| <= y || y + 1 + |LiveOf(h)[y]| <= x
  {
    hide Listed, Apart, Tagged, LiveOf;
    OwnerBlock(h, {}, x);
    OwnerBlock(h, {}, y);
    Bounds(h.blocks, h.brk, x);
    Bounds(h.blocks, h.brk, y);
    InsideOne(h.blocks, h.brk, x, x, y);
  }

  /** Coalescing is complete: with every payload freed, one free block spans the whole heap. */
  lemma AllFreedIsOneBlock(h: Heap)
    requires Inv(h, {}) && h.brk > 0 && LiveOf(h) == map[]
    ensures h.blocks == map[1 := Block(h.brk - 4, false)]
  {
    hide Listed, Tagged, LiveOf;
    forall x | x in h.blocks ensures !h.blocks[x].used { AllFree(h, x); }
    assert NextOk(h.blocks, h.brk, 1) && ApartAt(h.blocks, {}, 1);
    forall x | x in h.blocks ensures x == 1 { Bounds(h.blocks, h.brk, x); }
  }

  lemma AllFree(h: Heap, x: int)
    requires Inv(h, {}) && LiveOf(h) == map[] && x in h.blocks
    ensures !h.blocks[x].used
  {
    hide Listed, Apart, Tagged;
    assert h.blocks[x].used ==> x in LiveOf(h);
  }

  /** The used blocks of two heaps are the same, payload lengths included. */
  ghost predicate SameUsed(bs: Blocks, cs: Blocks) {
    forall a :: (a in bs && bs[a].used) || (a in cs && cs[a].used) ==> a in bs && a in cs && bs[a] == cs[a]
  }

  lemma SameLive(h: Heap, h': Heap)
    requires Inv(h, {}) && Inv(h', {}) && LiveOf(h) == LiveOf(h')
    ensures SameUsed(h.blocks, h'.blocks)
  {
    hide Listed, Apart, LiveOf;
    forall a | (a in h.blocks && h.blocks[a].used) || (a in h'.blocks && h'.blocks[a].used)
      ensures a in h.blocks && a in h'.blocks && h.blocks[a] == h'.blocks[a]
    {
      UsedIsLive(h, a);
      UsedIsLive(h', a);
      OwnerBlock(h, {}, a);
      OwnerBlock(h', {}, a);
    }
  }

  lemma UsedIsLive(h: Heap, a: int)
    requires Inv(h, {})
    ensures a in h.blocks && h.blocks[a].used ==> a in LiveOf(h)
  {
    hide Listed, Apart, Tagged;
  }

  /** A block that starts at the same place in both heaps does not end earlier in the second. */
  lemma EndsNoEarlier(bs: Blocks, cs: Blocks, brk: int, a: int)
    requires Tiling(bs, brk) && Tiling(cs, brk) && Apart(bs, {}) && Apart(cs, {}) && SameUsed(bs, cs)
    requires a in bs && a in cs && !bs[a].used
    ensures After(bs, a) <= After(cs, a)
  {
    var n := After(cs, a);
    assert NextOk(cs, brk, a) && ApartAt(cs, {}, a);
    if n in cs {
      assert n in bs;
    }
  }

  lemma {:induction false} SameFrom(bs: Blocks, cs: Blocks, brk: int, a: int)
    requires Tiling(bs, brk) && Tiling(cs, brk) && Apart(bs, {}) && Apart(cs, {}) && SameUsed(bs, cs)
    requires a in bs && a in cs
    ensures forall x | a <= x :: (x in bs <==> x in cs) && (x in bs ==> bs[x] == cs[x])
    decreases brk - a
  {
    hide Apart;
    if !bs[a].used {
      EndsNoEarlier(bs, cs, brk, a);
      EndsNoEarlier(cs, bs, brk, a);
    }
    assert bs[a] == cs[a];
    var n := After(bs, a);
    assert NextOk(bs, brk, a) && NextOk(cs, brk, a);
    if n in bs {
      SameNext(cs, brk, a);
      SameFrom(bs, cs, brk, n);
    }
    forall x | a <= x ensures (x in bs <==> x in cs) && (x in bs ==> bs[x] == cs[x]) {
      if x in bs { Bounds(bs, brk, x); }
      if x in cs { Bounds(cs, brk, x); }
    }
  }

  /** What follows a block is the end marker or another block. */
  lemma SameNext(cs: Blocks, brk: int, a: int)
    requires Tiling(cs, brk) && a in cs && After(cs, a) < brk - 1
    ensures After(cs, a) in cs
  {
    assert NextOk(cs, brk, a);
  }

  /** The block structure is determined by the live payloads: the free blocks are exactly the gaps between them. */
  lemma CoalescingIsCanonical(h: Heap, h': Heap)
    requires Inv(h, {}) && Inv(h', {}) && h.brk == h'.brk && LiveOf(h) == LiveOf(h')
    ensures h.blocks == h'.blocks
  {
    SameLive(h, h');
    if h.brk > 0 {
      hide Listed, Tagged, LiveOf;
      SameFrom(h.blocks, h'.blocks, h.brk, 1);
      forall x | x in h.blocks || x in h'.blocks
        ensures x in h.blocks && x in h'.blocks && h.blocks[x] == h'.blocks[x]
      {
        if x in h.blocks { Bounds(h.blocks, h.brk, x); } else { Bounds(h'.blocks, h'.brk, x); }
      }
    }
  }

  /** Freeing undoes allocating: when a block granted without growing the heap is freed again, every payload and every
      block is as it was. */
  lemma FreeUndoesMalloc(h: Heap, h1: Heap, h2: Heap, a: int, size: int)
    requires Inv(h, {}) && Inv(h2, {}) && h.brk == h1.brk == h2.brk
    requires Granted(h, h1, a, size) && LiveOf(h2) == LiveOf(h1) - {a}
    ensures LiveOf(h2) == LiveOf(h) && h2.blocks == h.blocks
  {
    hide Inv, LiveOf;
    CoalescingIsCanonical(h, h2);
  }
}
