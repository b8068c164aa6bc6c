/** ki_malloc, ki_free and ki_realloc over the pool that sbrk hands out. */
module Malloc {
  import opened HeapState
  import opened HeapSteps

  const ALIGN := 8
  const INT_MAX := 0x7FFF_FFFF

  /** The multiple of ALIGN that ki_malloc looks for. */
  function Rounded(size: int): (r: int)
    ensures r % ALIGN == 0 && ALIGN <= r && size <= r && (ALIGN <= size ==> r < size + ALIGN)
  {
    var n := if size < ALIGN then ALIGN else size;
    (n + (ALIGN - 1)) / ALIGN * ALIGN
  }

  /** The rounding stays in range just for requests up to INT_MAX - 7. */
  lemma RoundedFits(request: int)
    ensures Rounded(request) <= INT_MAX <==> request <= INT_MAX - 7
  {
  }

  /** What ki_malloc makes of a size_t of 2^31 or more, which its int parameter takes as negative: the least block. */
  lemma HugeSizeGetsLeast(size: int)
    requires INT_MAX < size < 0x1_0000_0000
    ensures Rounded(size - 0x1_0000_0000) == ALIGN
  {
  }

  class KernelHeap {
    const mem: array<int>       // the pool of memory.cpp, by words
    var brk: int                // memory.cpp's allocated, in words
    var slop: int
    const freelist: array<int>
    var expectedSbrk: int
    ghost var blocks: Blocks
    ghost var lists: seq<seq<int>>

    ghost function View(): Heap
      reads this, mem, freelist
    {
      Heap(mem[..], brk, slop, freelist[..], blocks, lists)
    }

    /** The invariant in the middle of an operation that holds the blocks of loose. */
    ghost predicate Holds(loose: set<int>)
      reads this, mem, freelist
    {
      mem != freelist && Inv(View(), loose) && expectedSbrk == (if brk == 0 then NULL else brk)
    }

    ghost predicate Valid()
      reads this, mem, freelist
    {
      Holds({})
    }

    constructor ()
      ensures Valid() && fresh(mem) && fresh(freelist)
      ensures brk == 0 && LiveOf(View()) == map[]
    {
      mem := new int[POOL](_ => 0);
      freelist := new int[BUCKETS](_ => NULL);
      brk, slop, expectedSbrk := 0, NULL, NULL;
      blocks, lists := map[], seq(BUCKETS, _ => []);
      new;
      forall b | 0 <= b < BUCKETS ensures ListOk(View(), {}, b) {
      }
    }

    // ----- single writes -----

    method Poke(i: int, v: int)
      requires 0 <= i < mem.Length
      modifies mem
      ensures mem[..] == old(mem[..])[i := v]
    {
      mem[i] := v;
    }

    method SetHead(b: int, v: int)
      requires 0 <= b < freelist.Length
      modifies freelist
      ensures freelist[..] == old(freelist[..])[b := v]
    {
      freelist[b] := v;
    }

    /** The loop of size2bucket, for a size of 4 * words bytes. */
    static method Size2Bucket(size: int) returns (rv: int)
      requires 0 <= size
      ensures rv == Bits(size / 4)
    {
      rv := 0;
      var s := size / 4;
      while s != 0
        invariant 0 <= s && rv + Bits(s) == Bits(size / 4)
        decreases s
      {
        rv := rv + 1;
        s := s / 2;
      }
    }

    /** b2bucket: reads the bucket word, filling it in first when it is -1. */
    method B2Bucket(b: int) returns (bucket: int)
      requires Free(blocks, b) && 0 <= b && b + 2 < mem.Length && mem[b] == Tag(blocks[b]) && 0 <= blocks[b].words
      requires mem[b + 2] == -1 || mem[b + 2] == Bits(blocks[b].words)
      modifies mem
      ensures bucket == Bits(blocks[b].words) && mem[..] == old(mem[..])[b + 2 := bucket]
    {
      if mem[b + 2] == -1 {
        bucket := Size2Bucket(mem[b]);
        Poke(b + 2, bucket);
      } else {
        bucket := mem[b + 2];
      }
      assert mem[..] == old(mem[..])[b + 2 := bucket];
    }

    method SplitBlock(b: int, size: int) returns (rv: int)
      requires mem != freelist && b in blocks && 0 <= b && 0 <= size && size % 4 == 0
      requires size + 16 <= 4 * blocks[b].words
      requires b + 1 + blocks[b].words < mem.Length && mem[b] == 4 * blocks[b].words
      modifies this`blocks, mem
      ensures rv == b + size / 4 + 2
      ensures View() == Split(old(View()), b, size / 4)
    {
      rv := b + size / 4 + 2;
      var rest := mem[b] - size - 8;
      ghost var w := size / 4;
      Poke(rv, rest);
      Poke(rv + 2, -1);
      Poke(b, size);
      Poke(b + 1 + size / 4, size);
      Poke(rv + 1 + rest / 4, rest);
      assert mem[..] == SplitMem(old(mem[..]), b, w, blocks[b].words);
      blocks := SplitBlocks(blocks, b, w);
    }

    /** RET: marks a block used and returns its payload. */
    method Ret(rv: int, ghost loose: set<int>) returns (p: int)
      requires Holds(loose) && rv in loose
      modifies this`blocks, mem
      ensures p == rv + 1 && rv in old(blocks) && Holds(loose - {rv})
      ensures View() == Retag(old(View()), rv, true)
      ensures rv !in LiveOf(old(View())) && LiveOf(View()) - {rv} == LiveOf(old(View()))
    {
      hide Tagged, Apart, Listed, Live;
      ghost var h := View();
      LooseFree(h, loose, rv);
      RetagKeeps(h, loose, rv, true);
      FreeNotLive(h, rv);
      Bounds(blocks, brk, rv);
      TagsOf(h, rv);
      var w := mem[rv] / 4;
      Poke(rv + 1 + w, mem[rv + 1 + w] + 1);
      Poke(rv, mem[rv] + 1);
      blocks := blocks[rv := Block(blocks[rv].words, true)];
      assert mem[..] == Retag(h, rv, true).mem;
      return rv + 1;
    }

    // ----- the free lists -----

    /** Block rv leaves bucket b, whose order is otherwise kept, and is held; prev is the block before it, or NULL. */
    method Unlink(b: int, prev: int, rv: int, ghost k: int, ghost loose: set<int>)
      requires Holds(loose) && 0 <= b < BUCKETS && 0 <= k < |lists[b]| && rv == lists[b][k]
      requires prev == if k == 0 then NULL else lists[b][k - 1]
      modifies this`lists, mem, freelist
      ensures Holds(loose + {rv}) && LiveOf(View()) == LiveOf(old(View()))
      ensures rv in blocks && brk == old(brk) && slop == old(slop) && rv != slop && rv !in loose
      ensures lists == Less(old(lists), rv)
    {
      assert |freelist[..]| == BUCKETS == |lists| && |mem[..]| == POOL;
      hide Tagged, Apart, Listed, Live, Tiling, Inv, LiveOf;
      ghost var h := View();
      UnlistKeeps(h, loose, b, k);
      Member(h, loose, b, rv);
      if k > 0 { Member(h, loose, b, lists[b][k - 1]); }
      UnlistIsLess(h, loose, b, k);
      UnlistIs(h, b, k);
      hide Unlist, Less;
      Redirect(b, prev, rv, k);
    }

    method Redirect(b: int, prev: int, rv: int, ghost k: int)
      requires 0 <= b < |lists| == freelist.Length && 0 <= k < |lists[b]| && rv == lists[b][k]
      requires prev == if k == 0 then NULL else lists[b][k - 1]
      requires mem != freelist && Chain(mem[..], freelist[b], lists[b])
      modifies this`lists, mem, freelist
      ensures View() == Unlist(old(View()), b, k)
    {
      ghost var h := View();
      assert LinkAt(h.mem, h.lists[b], k);
      if k > 0 { assert LinkAt(h.mem, h.lists[b], k - 1); }
      hide Chain, Unlist;
      UnlistIs(h, b, k);
      if prev == NULL {
        SetHead(b, mem[rv + 1]);
      } else {
        Poke(prev + 1, mem[rv + 1]);
      }
      lists := Unlist(h, b, k).lists;
    }

    lemma UnlistIs(h: Heap, b: int, k: int)
      requires 0 <= b < |h.lists| == |h.heads| && 0 <= k < |h.lists[b]| && Chain(h.mem, h.heads[b], h.lists[b])
      requires 0 <= h.lists[b][k] && h.lists[b][k] + 1 < |h.mem| && (k > 0 ==> 0 <= h.lists[b][k - 1] + 1 < |h.mem|)
      ensures var next := h.mem[h.lists[b][k] + 1];
              && Unlist(h, b, k).lists == h.lists[b := h.lists[b][..k] + h.lists[b][k + 1..]]
              && Unlist(h, b, k).blocks == h.blocks && Unlist(h, b, k).brk == h.brk && Unlist(h, b, k).slop == h.slop
              && Unlist(h, b, k).heads == (if k == 0 then h.heads[b := next] else h.heads)
              && Unlist(h, b, k).mem == (if k == 0 then h.mem else h.mem[h.lists[b][k - 1] + 1 := next])
    {
    }

    /** The link that points to list position k. */
    ghost predicate Cursor(b: int, k: int, prev: int, rv: int)
      reads this
    {
      && 0 <= b < |lists| && 0 <= k <= |lists[b]|
      && rv == (if k < |lists[b]| then lists[b][k] else NULL)
      && prev == (if k == 0 then NULL else lists[b][k - 1])
    }

    /** Following the next word of a listed block moves the cursor one position on. */
    lemma Advance(loose: set<int>, b: int, k: int, prev: int, rv: int)
      requires Holds(loose) && 0 <= b < BUCKETS && Cursor(b, k, prev, rv) && rv != NULL
      ensures k < |lists[b]| && 0 <= rv && rv + 1 < mem.Length && Cursor(b, k + 1, rv, mem[rv + 1])
    {
      assert ListOk(View(), loose, b) && LinkAt(View().mem, lists[b], k);
    }

    /** What the allocator reads about a listed block. */
    lemma CursorBlock(loose: set<int>, b: int, k: int, prev: int, rv: int)
      requires Holds(loose) && 0 <= b < BUCKETS && Cursor(b, k, prev, rv) && k < |lists[b]|
      ensures rv != NULL && Free(blocks, rv) && 0 <= rv && rv + 2 < mem.Length && mem[rv] == 4 * blocks[rv].words
      ensures Bits(blocks[rv].words) == b && 2 <= blocks[rv].words && rv != slop
    {
      Member(View(), loose, b, rv);
      TagsOf(View(), rv);
    }

    // ----- ki_malloc -----

    /** The held block keeps size bytes and the rest of it becomes the slop. */
    method SplitToSlop(rv: int, size: int)
      requires Holds({rv}) && slop == NULL && Apart(blocks, {}) && Splittable(blocks, rv, size / 4)
      requires 8 <= size && size % 8 == 0
      modifies this`slop, this`blocks, mem
      ensures Holds({rv}) && LiveOf(View()) == LiveOf(old(View()))
      ensures blocks == SplitBlocks(old(blocks), rv, size / 4) && slop == rv + size / 4 + 2
    {
      hide Tagged, Apart, Listed, Live, Tiling;
      ghost var h := View();
      Bounds(blocks, brk, rv);
      TagsOf(h, rv);
      SplitToSlopKeeps(h, rv, size / 4);
      slop := SplitBlock(rv, size);
      assert View() == SetSlop(Split(h, rv, size / 4), slop);
    }

    /** Moves the old slop to its free list. */
    method ShelveSlop(ghost loose: set<int>)
      requires Holds(loose) && slop != NULL && Apart(blocks, loose)
      modifies this`slop, this`lists, mem, freelist
      ensures Holds(loose) && slop == NULL && LiveOf(View()) == LiveOf(old(View()))
      ensures old(slop) in blocks && lists == Pushed(old(lists), Bits(blocks[old(slop)].words), old(slop))
    {
      assert |freelist[..]| == BUCKETS == |lists| && |mem[..]| == POOL;
      ghost var h := View();
      assert SlopOk(h, loose);
      hide Tagged, Apart, Listed, Live, Tiling, SlopOk;
      DropSlopKeeps(h, loose);
      assert loose + {slop} - {slop} == loose;
      PushKeeps(DropSlop(h), loose + {slop}, slop);
      TagsOf(h, slop);
      Bounds(blocks, brk, slop);
      var s := slop;
      var b := B2Bucket(s);
      Poke(s + 1, freelist[b]);
      SetHead(b, s);
      lists := lists[b := [s] + lists[b]];
      slop := NULL;
      assert View() == Push(DropSlop(h), s);
    }

    method FromSlop(size: int) returns (p: int)
      requires Valid() && slop != NULL && 8 <= size && size % 8 == 0
      requires slop in blocks && size <= 4 * blocks[slop].words
      modifies this`slop, this`blocks, mem
      ensures Valid() && Granted(old(View()), View(), p - 1, size)
      ensures p == old(slop) + 1 && TakenFrom(old(View()), View(), p - 1, size, false)
    {
      hide Tagged, Apart, Listed, LiveOf, Tiling, Inv;
      ghost var h := View();
      SlopFree({});
      Readable(slop);
      NotListed(h, {}, slop);
      DropSlopKeeps(h, {});
      assert {} + {slop} == {slop};
      var rv := slop;
      slop := NULL;
      assert View() == DropSlop(h);
      ApartNone(h);
      if mem[rv] >= size + MIN_SAVE_EXTRA {
        SplitToSlop(rv, size);
      }
      p := Grant(rv, size, h);
    }

    lemma SlopFree(loose: set<int>)
      requires Holds(loose) && slop != NULL
      ensures Free(blocks, slop) && slop !in loose
    {
    }

    lemma ApartNone(h: Heap)
      requires Inv(h, {})
      ensures Apart(h.blocks, {})
    {
    }

    /** A free block's size word can be read, and is even. */
    lemma Readable(a: int)
      requires Valid() && Free(blocks, a)
      ensures 1 <= a && a + 2 < mem.Length && mem[a] == 4 * blocks[a].words
      ensures 2 <= blocks[a].words && blocks[a].words % 2 == 0
    {
      TagsOf(View(), a);
    }

    lemma Odd(loose: set<int>, a: int)
      requires Holds(loose) && a in blocks
      ensures a % 2 == 1
    {
    }

    /** RET for a block taken off the free blocks of h. */
    method Grant(rv: int, size: int, ghost h: Heap) returns (p: int)
      requires Holds({rv}) && rv in blocks && Serves(4 * blocks[rv].words, size) && LiveOf(View()) == LiveOf(h)
      modifies this`blocks, mem
      ensures Valid() && p == rv + 1 && Granted(h, View(), p - 1, size)
      ensures blocks == old(blocks)[rv := Block(old(blocks)[rv].words, true)]
    {
      hide Tagged, Apart, Listed, LiveOf, Tiling, Inv;
      assert {rv} - {rv} == {};
      Odd({rv}, rv);
      p := Ret(rv, {rv});
    }

    /** The exact-fit grant: the whole block, unsplit. */
    method FromList(b: int, prev: int, rv: int, size: int, ghost k: int) returns (p: int)
      requires Valid() && 0 <= b < BUCKETS && Cursor(b, k, prev, rv) && k < |lists[b]|
      requires Free(blocks, rv) && size <= 4 * blocks[rv].words < size + size / 4
      modifies this`lists, this`blocks, mem, freelist
      ensures Valid() && p == rv + 1 && Granted(old(View()), View(), p - 1, size)
      ensures TakenFrom(old(View()), View(), rv, size, true)
    {
      hide Tagged, Apart, Listed, LiveOf, Tiling, Inv;
      ghost var h := View();
      Unlink(b, prev, rv, k, {});
      assert {} + {rv} == {rv};
      p := Grant(rv, size, h);
    }

    /** The first-fit grant: a large enough remainder becomes the slop, after the old slop is shelved. */
    method FromBucket(b: int, prev: int, rv: int, size: int, ghost k: int) returns (p: int)
      requires Valid() && 0 <= b < BUCKETS && Cursor(b, k, prev, rv) && k < |lists[b]|
      requires Free(blocks, rv) && size <= 4 * blocks[rv].words && 8 <= size && size % 8 == 0
      modifies this`slop, this`lists, this`blocks, mem, freelist
      ensures Valid() && p == rv + 1 && Granted(old(View()), View(), p - 1, size)
      ensures TakenFrom(old(View()), View(), rv, size, false)
    {
      hide Tagged, Apart, Listed, LiveOf, Tiling, Inv;
      ghost var h := View();
      ApartNone(h);
      Unlink(b, prev, rv, k, {});
      assert {} + {rv} == {rv};
      TrimToSlop(rv, size);
      p := Grant(rv, size, h);
    }

    /** A loose block with enough to spare is split, and its rest becomes the slop. */
    method TrimToSlop(rv: int, size: int)
      requires Holds({rv}) && Apart(blocks, {}) && Free(blocks, rv) && size <= 4 * blocks[rv].words
      requires 8 <= size && size % 8 == 0
      modifies this`slop, this`lists, this`blocks, mem, freelist
      ensures Holds({rv}) && LiveOf(View()) == LiveOf(old(View()))
      ensures rv in blocks && Serves(4 * blocks[rv].words, size)
      ensures var n := old(blocks)[rv].words;
              if 4 * n >= size + MIN_SAVE_EXTRA
              then slop == rv + size / 4 + 2 && blocks == SplitBlocks(old(blocks), rv, size / 4)
                   && (if old(slop) == NULL then lists == old(lists)
                       else old(slop) in old(blocks)
                            && lists == Pushed(old(lists), Bits(old(blocks)[old(slop)].words), old(slop)))
              else slop == old(slop) && blocks == old(blocks) && lists == old(lists)
    {
      hide Tagged, Apart, Listed, LiveOf, Tiling, Inv;
      SizeWord({rv}, rv);
      if mem[rv] >= size + MIN_SAVE_EXTRA {
        if slop != NULL {
          ApartWeaken(blocks, {}, {rv});
          ShelveSlop({rv});
        }
        SplitToSlop(rv, size);
      }
    }

    lemma SizeWord(loose: set<int>, a: int)
      requires Holds(loose) && Free(blocks, a)
      ensures 0 <= a < mem.Length && mem[a] == 4 * blocks[a].words && 2 <= blocks[a].words && blocks[a].words % 2 == 0
    {
      TagsOf(View(), a);
    }

    /** sbrk: the next size bytes of the pool; when there are too few it reports and never returns (halted). */
    method Sbrk(size: int) returns (halted: bool, r: int)
      requires 0 <= size && size % 4 == 0
      modifies this`brk
      ensures halted == (4 * old(brk) + size > POOL_BYTES)
      ensures r == old(brk) && brk == (if halted then old(brk) else old(brk) + size / 4)
    {
      r := brk;
      if 4 * brk + size > POOL_BYTES {
        return true, r;
      }
      brk := brk + size / 4;
      halted := false;
    }

    /** Lays out the words sbrk returned at rv as one block, over the old end marker when they are contiguous
        with it. */
    method LayOut(rv0: int, size: int) returns (rv: int)
      requires mem != freelist && mem.Length == POOL && Growable(rv0, size / 4) && size % 8 == 0
      requires expectedSbrk == (if rv0 == 0 then NULL else rv0)
      modifies this`expectedSbrk, mem
      ensures rv == GrowAt(rv0) && mem[..] == GrowMem(old(mem[..]), rv0, size / 4)
      ensures expectedSbrk == rv0 + size / 4 + 4
    {
      rv := rv0;
      var chunk := size + 16;
      if rv == expectedSbrk {
        expectedSbrk := rv + chunk / 4;
        rv := rv - 1;
      } else {
        expectedSbrk := rv + chunk / 4;
        Poke(rv, 1);
        rv := rv + 1;
        chunk := chunk - 8;
      }
      var w := (chunk - 8) / 4;
      assert w == GrowWords(rv0, size / 4) && chunk - 8 == 4 * w;
      Poke(rv, chunk - 8);
      Poke(rv + 1 + w, chunk - 8);
      Poke(rv + 2 + w, 1);
    }

    /** The last resort: a block made from fresh memory. */
    method Extend(size: int) returns (halted: bool, p: int)
      requires Valid() && 8 <= size && size % 8 == 0 && size <= INT_MAX
      modifies this`brk, this`expectedSbrk, this`blocks, mem
      ensures halted == (4 * old(brk) + size + 16 > POOL_BYTES)
      ensures halted ==> Valid() && View() == old(View())
      ensures !halted ==> Valid() && Granted(old(View()), View(), p - 1, size) && brk == old(brk) + size / 4 + 4
      ensures !halted ==> p - 1 == GrowAt(old(brk))
                          && blocks == old(blocks)[p - 1 := Block(GrowWords(old(brk), size / 4), true)]
    {
      hide Tagged, Apart, Listed, LiveOf, Tiling, Inv;
      ghost var h := View();
      Extent();
      var rv;
      halted, rv := Sbrk(size + 16);
      if halted {
        p := NULL;
        return;
      }
      ghost var n := size / 4;
      GrowKeeps(h, {}, n);
      rv := LayOut(rv, size);
      blocks := GrowBlocks(blocks, h.brk, n);
      assert View() == Grow(h, n);
      assert {} + {rv} == {rv};
      p := Grant(rv, size, h);
    }

    lemma Extent()
      requires Valid()
      ensures 0 <= brk <= POOL == mem.Length && brk % 2 == 0
    {
    }

    /** Walks bucket b for a block within a quarter of the size. */
    method FindExact(b: int, size: int) returns (prev: int, rv: int, ghost k: int)
      requires Valid() && 0 <= b < BUCKETS && 8 <= size
      ensures Cursor(b, k, prev, rv) && (rv != NULL ==> k < |lists[b]|)
      ensures rv != NULL ==> Free(blocks, rv) && size <= 4 * blocks[rv].words < size + size / 4
      ensures if rv == NULL then NoClose(blocks, lists[b], size) else FirstClose(blocks, lists[b], size, k)
    {
      HeadCursor(b);
      k := 0;
      prev, rv := NULL, freelist[b];
      while rv != NULL
        invariant Cursor(b, k, prev, rv) && forall j | 0 <= j < k :: !CloseFit(blocks, lists[b][j], size)
        invariant rv == NULL ==> k == |lists[b]|
        decreases |lists[b]| - k
      {
        CursorBlock({}, b, k, prev, rv);
        if mem[rv] >= size && mem[rv] < size + size / 4 {
          return;
        }
        Advance({}, b, k, prev, rv);
        prev, rv := rv, mem[rv + 1];
        k := k + 1;
      }
    }

    /** Walks bucket b for the first block that is large enough. */
    method FindFit(b: int, size: int) returns (prev: int, rv: int, ghost k: int)
      requires Valid() && 0 <= b < BUCKETS
      ensures Cursor(b, k, prev, rv) && (rv != NULL ==> k < |lists[b]|)
      ensures rv != NULL ==> Free(blocks, rv) && size <= 4 * blocks[rv].words
      ensures if rv == NULL then AllTooSmall(blocks, lists[b], size) else FirstFit(blocks, lists[b], size, k)
    {
      HeadCursor(b);
      k := 0;
      prev, rv := NULL, freelist[b];
      while rv != NULL
        invariant Cursor(b, k, prev, rv) && forall j | 0 <= j < k :: TooSmall(blocks, lists[b][j], size)
        invariant rv == NULL ==> k == |lists[b]|
        decreases |lists[b]| - k
      {
        CursorBlock({}, b, k, prev, rv);
        if mem[rv] >= size {
          return;
        }
        Advance({}, b, k, prev, rv);
        prev, rv := rv, mem[rv + 1];
        k := k + 1;
      }
    }

    lemma HeadCursor(b: int)
      requires Valid() && 0 <= b < BUCKETS
      ensures Cursor(b, 0, NULL, freelist[b])
      ensures forall j | 0 <= j < |lists[b]| :: lists[b][j] != NULL
    {
      assert ListOk(View(), {}, b);
    }

    /** The search is complete: smaller buckets hold only smaller blocks. */
    lemma SearchedAll(b: int, size: int)
      requires Valid() && size % 4 == 0 && b == Bits(size / 4)
      requires !SlopServes(View(), size) && |lists| == BUCKETS && 0 <= b
      requires forall c | b <= c < BUCKETS :: AllTooSmall(blocks, lists[c], size)
      ensures NoFit(View(), size)
    {
      forall a | Free(blocks, a) ensures 4 * blocks[a].words < size {
        assert Placed(View(), {}, a);
        BucketInRange(blocks, brk, a);
        BitsSmaller(size / 4, blocks[a].words);
        var c := Bits(blocks[a].words);
        assert b <= c ==> AllTooSmall(blocks, lists[c], size);
      }
    }

    /** ki_malloc.  halted: sbrk found the pool exhausted and never returned. */
    method KiMalloc(request: int) returns (halted: bool, p: int)
      requires Valid() && Rounded(request) <= INT_MAX
      modifies this, mem, freelist
      ensures Valid()
      ensures !halted ==> Granted(old(View()), View(), p - 1, Rounded(request))
      ensures !halted ==> Allocated(old(View()), View(), Rounded(request), p - 1)
      ensures halted ==> View() == old(View())
      ensures halted == (NoFit(old(View()), Rounded(request)) && 4 * old(brk) + Rounded(request) + 16 > POOL_BYTES)
    {
      hide Granted, Holds, NoFit, SlopServes, TakenFrom, Allocated, Free;
      var size := Rounded(request);
      ghost var h := View();
      if slop != NULL {
        SlopFree({});
        Readable(slop);
        if mem[slop] >= size {
          Fits(h, slop, size);
          SlopLarge(size);
          p := FromSlop(size);
          TookSlop(h, View(), size);
          return false, p;
        }
      }
      SlopTooSmall(size);
      halted, p := Search(size);
    }

    /** The rest of ki_malloc: a close fit, the first fit, or fresh memory. */
    method Search(size: int) returns (halted: bool, p: int)
      requires Valid() && !SlopServes(View(), size) && |lists| == BUCKETS
      requires 8 <= size && size % 8 == 0 && size <= INT_MAX
      modifies this, mem, freelist
      ensures Valid()
      ensures !halted ==> Granted(old(View()), View(), p - 1, size) && Allocated(old(View()), View(), size, p - 1)
      ensures halted ==> View() == old(View())
      ensures halted == (NoFit(old(View()), size) && 4 * old(brk) + size + 16 > POOL_BYTES)
    {
      hide Granted, Holds, NoFit, Cursor, Serves, Bits, Free, SlopServes, FirstFrom, TakenFrom, Allocated;
      hide AllTooSmall, NoClose, FirstClose, CloseFit, GrowAt, GrowWords;
      ghost var h := View();
      BucketOfInt(size);
      var b := Size2Bucket(size);
      var found;
      found, p := FromClose(b, size);
      if found {
        TookClose(h, View(), size, p - 1);
        return false, p;
      }
      found, p := FromBuckets(b, size);
      if found {
        TookFirst(h, View(), size, p - 1);
        return false, p;
      }
      SearchedAll(b, size);
      halted, p := FromSbrk(size);
    }

    /** The last resort. */
    method FromSbrk(size: int) returns (halted: bool, p: int)
      requires Valid() && NoFit(View(), size) && 8 <= size && size % 8 == 0 && size <= INT_MAX
      modifies this, mem, freelist
      ensures Valid()
      ensures !halted ==> Granted(old(View()), View(), p - 1, size) && Allocated(old(View()), View(), size, p - 1)
      ensures halted ==> View() == old(View())
      ensures halted == (4 * old(brk) + size + 16 > POOL_BYTES)
    {
      hide Granted, Holds, NoFit, Allocated;
      ghost var h := View();
      halted, p := Extend(size);
      if !halted {
        TookFresh(h, View(), size, p - 1);
      }
    }

    lemma SlopLarge(size: int)
      requires Valid() && slop != NULL && Free(blocks, slop) && 0 <= slop < mem.Length && mem[slop] >= size
      ensures SlopServes(View(), size)
    {
      Readable(slop);
    }

    lemma SlopTooSmall(size: int)
      requires Valid() && (slop != NULL ==> Free(blocks, slop) && 0 <= slop < mem.Length && mem[slop] < size)
      ensures !SlopServes(View(), size) && |lists| == BUCKETS
    {
      if slop != NULL { Readable(slop); }
    }

    /** The first search: a close fit in bucket b, taken whole. */
    method FromClose(b: int, size: int) returns (found: bool, p: int)
      requires Valid() && 0 <= b < BUCKETS == |lists| && 8 <= size && size % 8 == 0
      modifies this`lists, this`blocks, mem, freelist
      ensures Valid() && (!found ==> View() == old(View()) && NoClose(blocks, lists[b], size))
      ensures found ==> Granted(old(View()), View(), p - 1, size) && !NoFit(old(View()), size)
      ensures found ==> FirstCloseIs(old(View()), b, size, p - 1) && TakenFrom(old(View()), View(), p - 1, size, true)
    {
      hide Granted, Holds, NoFit, NoClose, FirstClose, Cursor, TakenFrom;
      ghost var h := View();
      var prev, rv;
      ghost var k;
      prev, rv, k := FindExact(b, size);
      if rv == NULL {
        return false, NULL;
      }
      Fits(h, rv, size);
      CursorIs(b, k, prev, rv);
      assert FirstCloseIs(h, b, size, rv);
      p := FromList(b, prev, rv, size, k);
      found := true;
    }

    /** The second search: first fit in bucket b0 and in those of the larger sizes. */
    method FromBuckets(b0: int, size: int) returns (found: bool, p: int)
      requires Valid() && 0 <= b0 <= BUCKETS == |lists| && 8 <= size && size % 8 == 0
      modifies this`slop, this`lists, this`blocks, mem, freelist
      ensures Valid() && (!found ==> View() == old(View()))
      ensures found ==> Granted(old(View()), View(), p - 1, size) && !NoFit(old(View()), size)
      ensures found ==> FirstFrom(old(View()), b0, size, p - 1) && TakenFrom(old(View()), View(), p - 1, size, false)
      ensures !found ==> forall c | b0 <= c < BUCKETS :: AllTooSmall(blocks, lists[c], size)
    {
      hide Granted, Holds, NoFit, AllTooSmall, FirstFit, Cursor, TakenFrom;
      ghost var h := View();
      var b := b0;
      p := NULL;
      while b < BUCKETS
        invariant b0 <= b <= BUCKETS && Valid() && View() == h
        invariant forall c | b0 <= c < b :: AllTooSmall(blocks, lists[c], size)
      {
        var prev, rv;
        ghost var k;
        prev, rv, k := FindFit(b, size);
        if rv != NULL {
          Fits(h, rv, size);
          CursorIs(b, k, prev, rv);
          assert PlaceOfFirst(h, b0, size, rv, b, k);
          p := FromBucket(b, prev, rv, size, k);
          return true, p;
        }
        b := b + 1;
      }
      found := false;
    }

    lemma CursorIs(b: int, k: int, prev: int, rv: int)
      requires Cursor(b, k, prev, rv) && k < |lists[b]|
      ensures rv == lists[b][k]
    {
    }

    // The four outcomes of ki_malloc.

    lemma TookSlop(h: Heap, h': Heap, size: int)
      requires SlopServes(h, size) && !NoFit(h, size) && TakenFrom(h, h', h.slop, size, false)
      ensures Allocated(h, h', size, h.slop)
    {
      hide NoFit, TakenFrom;
      assert Chosen(h, size, h.slop, false);
    }

    lemma TookClose(h: Heap, h': Heap, size: int, a: int)
      requires !SlopServes(h, size) && !NoFit(h, size) && TakenFrom(h, h', a, size, true)
      requires 0 <= Bits(size / 4) < |h.lists| && FirstCloseIs(h, Bits(size / 4), size, a)
      ensures Allocated(h, h', size, a)
    {
      hide NoFit, TakenFrom, SlopServes, Bits, FirstCloseIs;
      assert Chosen(h, size, a, true);
    }

    lemma TookFirst(h: Heap, h': Heap, size: int, a: int)
      requires !SlopServes(h, size) && !NoFit(h, size) && TakenFrom(h, h', a, size, false)
      requires 0 <= Bits(size / 4) < |h.lists| && NoClose(h.blocks, h.lists[Bits(size / 4)], size)
      requires FirstFrom(h, Bits(size / 4), size, a)
      ensures Allocated(h, h', size, a)
    {
      hide NoFit, TakenFrom, SlopServes, Bits, FirstFrom, NoClose;
      assert Chosen(h, size, a, false);
    }

    lemma TookFresh(h: Heap, h': Heap, size: int, a: int)
      requires NoFit(h, size) && a == GrowAt(h.brk) && h'.slop == h.slop && h'.brk == h.brk + size / 4 + 4
      requires h'.blocks == h.blocks[a := Block(GrowWords(h.brk, size / 4), true)] && h'.lists == h.lists
      ensures Allocated(h, h', size, a)
    {
    }

    lemma Fits(h: Heap, a: int, size: int)
      requires Free(h.blocks, a) && size <= 4 * h.blocks[a].words
      ensures !NoFit(h, size)
    {
    }

    // ----- ki_free -----

    /** The loop of merge: takes c off bucket bu if it is there. */
    method Snip(bu: int, c: int, ghost loose: set<int>)
      requires Holds(loose) && 0 <= bu < BUCKETS
      modifies this`lists, mem, freelist
      ensures c !in old(lists[bu]) ==> View() == old(View())
      ensures c in old(lists[bu]) ==>
                Holds(loose + {c}) && LiveOf(View()) == LiveOf(old(View())) && lists == Less(old(lists), c)
                && slop == old(slop)
    {
      ListNodes(bu, loose);
      hide Inv, LiveOf;
      ghost var k := 0;
      var bpp, bp := NULL, freelist[bu];
      while bp != NULL
        invariant View() == old(View()) && Cursor(bu, k, bpp, bp)
        invariant forall j | 0 <= j < k :: lists[bu][j] != c
        invariant bp == NULL ==> k == |lists[bu]|
        decreases |lists[bu]| - k
      {
        Advance(loose, bu, k, bpp, bp);
        if bp == c {
          Unlink(bu, bpp, bp, k, loose);
          return;
        }
        bpp, bp := bp, mem[bp + 1];
        k := k + 1;
      }
    }

    lemma ListNodes(b: int, loose: set<int>)
      requires Holds(loose) && 0 <= b < BUCKETS
      ensures b < freelist.Length && b < |lists| && Cursor(b, 0, NULL, freelist[b])
      ensures forall j | 0 <= j < |lists[b]| :: lists[b][j] != NULL
    {
      assert ListOk(View(), loose, b);
    }

    /** The head of merge: c leaves the slop or its free list and becomes loose. */
    method Detach(c: int, ghost x: int)
      requires Holds({x}) && Free(blocks, c) && c != x
      modifies this`slop, this`lists, mem, freelist
      ensures Holds({x, c}) && LiveOf(View()) == LiveOf(old(View()))
      ensures lists == Less(old(lists), c) && slop == if old(slop) == c then NULL else old(slop)
    {
      hide Tagged, Apart, Listed, LiveOf, Tiling, Inv;
      ghost var h := View();
      SizeWord({x}, c);
      Where(c, x);
      if c == slop { NotListed(h, {x}, c); }
      assert {x} + {c} == {x, c};
      ghost var loose := {x};
      if c == slop {
        DropSlopKeeps(h, {x});
        slop := NULL;
        loose := {x, c};
        assert View() == DropSlop(h);
        BucketWriteKeeps(View(), {x, c}, c, Bits(blocks[c].words));
      }
      var bu := B2Bucket(c);
      if c != h.slop {
        assert mem[..] == h.mem;
        assert View() == h;
      }
      BucketOfBlock(loose, c);
      Snip(bu, c, loose);
    }

    /** Where merge finds a free block other than the loose one. */
    lemma Where(c: int, x: int)
      requires Holds({x}) && Free(blocks, c) && c != x
      ensures 0 <= Bits(blocks[c].words) < BUCKETS && |lists| == BUCKETS && c + 2 < mem.Length
      ensures c != slop ==> c in lists[Bits(blocks[c].words)] && mem[c + 2] == Bits(blocks[c].words)
      ensures c == slop ==> mem[c + 2] == -1 || mem[c + 2] == Bits(blocks[c].words)
      ensures c == slop ==> c !in lists[Bits(blocks[c].words)]
    {
      hide Tagged, Apart;
      var h, b := View(), Bits(blocks[c].words);
      BucketInRange(blocks, brk, c);
      assert Placed(h, {x}, c);
      assert SlopOk(h, {x});
      assert ListOk(h, {x}, b);
      if c != slop {
        var k :| 0 <= k < |lists[b]| && lists[b][k] == c;
        assert Entry(h, {x}, b, lists[b][k]);
      } else if c in lists[b] {
        Member(h, {x}, b, c);
      }
    }

    lemma BucketOfBlock(loose: set<int>, c: int)
      requires Holds(loose) && c in blocks
      ensures 0 <= Bits(blocks[c].words) < BUCKETS == freelist.Length == |lists|
    {
      BucketInRange(blocks, brk, c);
    }

    /** A free block whose bucket word is -1. */
    ghost predicate Fresh(a: int)
      reads this, mem
    {
      Free(blocks, a) && 0 <= a && a + 2 < mem.Length && mem[a + 2] == -1
    }

    /** merge: block a absorbs its successor b, and c, the one of the two that was not held, leaves its list. */
    method Merge(a: int, b: int, c: int, ghost x: int)
      requires Holds({x}) && Joinable(blocks, a) && b == After(blocks, a)
      requires (c == a && x == b) || (c == b && x == a)
      modifies this`slop, this`lists, this`blocks, mem, freelist
      ensures Holds({a}) && LiveOf(View()) == LiveOf(old(View()))
      ensures blocks == JoinBlocks(old(blocks), a) && Fresh(a)
      ensures lists == Less(old(lists), c) && slop == if old(slop) == c then NULL else old(slop)
    {
      hide Tagged, Apart, Listed, LiveOf, Tiling, Inv;
      Neighbours({x}, a);
      assert {x, c} == {a, b} && {a, b} - {b} == {a};
      Detach(c, x);
      SizeWord({a, b}, a);
      SizeWord({a, b}, b);
      ghost var h := View();
      JoinKeeps(h, {a, b}, a);
      Poke(a, mem[a] + (mem[b] + 8));
      Poke(a + 2, -1);
      Poke(a + 1 + mem[a] / 4, mem[a]);
      assert mem[..] == JoinMem(h.mem, a, JoinBlocks(h.blocks, a)[a].words);
      blocks := JoinBlocks(blocks, a);
      assert View() == Join(h, a);
    }

    lemma Neighbours(loose: set<int>, a: int)
      requires Holds(loose) && a in blocks && After(blocks, a) in blocks
      ensures 1 <= a < After(blocks, a) && blocks[a].words >= 2
    {
    }

    /** Clears the in-use bits and the bucket word of a live block. */
    method Unmark(block: int)
      requires Valid() && block in blocks && blocks[block].used
      modifies this`blocks, mem
      ensures Holds({block}) && Apart(blocks, {block}) && Fresh(block)
      ensures block !in LiveOf(View()) && LiveOf(View()) == LiveOf(old(View())) - {block}
      ensures blocks == old(blocks)[block := Block(old(blocks)[block].words, false)]
    {
      hide Tagged, Apart, Listed, LiveOf, Tiling, Inv;
      ghost var h := View();
      LiveTags({}, block);
      RetagKeeps(h, {}, block, false);
      assert {} + {block} == {block};
      var w := (mem[block] - 1) / 4;
      Poke(block, mem[block] - 1);
      Poke(block + 1 + w, mem[block + 1 + w] - 1);
      blocks := blocks[block := Block(w, false)];
      assert mem[..] == Retag(h, block, false).mem;
      assert View() == Retag(h, block, false);
      BucketWriteKeeps(View(), {block}, block, -1);
      Poke(block + 2, -1);
      FreeNotLive(View(), block);
      ApartOf(View(), {block});
    }

    lemma LiveTags(loose: set<int>, a: int)
      requires Holds(loose) && a in blocks && blocks[a].used
      ensures 0 <= a && 2 <= blocks[a].words && a + 1 + blocks[a].words < mem.Length
      ensures mem[a] == 4 * blocks[a].words + 1 == mem[a + 1 + blocks[a].words]
    {
      TagsOf(View(), a);
    }

    lemma ApartOf(h: Heap, loose: set<int>)
      requires Inv(h, loose)
      ensures Apart(h.blocks, loose)
    {
    }

    /** The free block that now holds address a heads its free list. */
    static ghost predicate OnTop(h: Heap, a: int) {
      exists x | Free(h.blocks, x) && x <= a < After(h.blocks, x) :: Heads(h, x)
    }

    static ghost predicate Heads(h: Heap, x: int)
      requires x in h.blocks
    {
      var b := Bits(h.blocks[x].words);
      0 <= b < |h.lists| && h.lists[b] != [] && h.lists[b][0] == x
    }

    /** ki_free */
    method KiFree(ptr: int)
      requires Valid() && (ptr != NULL ==> ptr - 1 in LiveOf(View()))
      modifies this`slop, this`lists, this`blocks, mem, freelist
      ensures Valid()
      ensures LiveOf(View()) == if ptr == NULL then LiveOf(old(View())) else LiveOf(old(View())) - {ptr - 1}
      ensures if ptr == NULL then View() == old(View()) else OnTop(View(), ptr - 1)
      ensures ptr != NULL && ptr - 1 in old(blocks) ==>
                lists == ListsFreed(old(View()), ptr - 1) && slop == SlopFreed(old(View()), ptr - 1)
    {
      if ptr == NULL {
        return;
      }
      hide Tagged, Apart, Listed, Tiling, Inv, LiveOf, OnTop, ListsFreed, SlopFreed, CoalescedBy;
      ghost var h := View();
      UsedBlock(ptr - 1);
      var block := ptr - 1;
      Unmark(block);
      ghost var h1 := View();
      ghost var m := Coalesce(block);
      FreedState(h, ptr - 1, h1, View(), m);
    }

    lemma UsedBlock(x: int)
      requires Valid() && x in LiveOf(View())
      ensures x in blocks && blocks[x].used && Tiling(blocks, brk)
    {
      OwnerBlock(View(), {}, x);
    }

    /** h3 is h1 with the free block x merged with its free neighbours into m, which heads its list. */
    static ghost predicate CoalescedBy(h1: Heap, h3: Heap, x: int, m: int) {
      var p := FreeBefore(h1.blocks, x);
      && (p != NULL ==> Joinable(h1.blocks, p)) && m == MergedAt(h1.blocks, x)
      && var bs2 := if p == NULL then h1.blocks else JoinBlocks(h1.blocks, p);
      var n := FreeAfter(bs2, m);
      && (n != NULL ==> Joinable(bs2, m)) && h3.blocks == (if n == NULL then bs2 else JoinBlocks(bs2, m))
      && Free(h3.blocks, m) && m <= x < After(h3.blocks, m)
      && 0 <= Bits(h3.blocks[m].words) < |h1.lists|
      && h3.lists == Pushed(Less(Less(h1.lists, p), n), Bits(h3.blocks[m].words), m)
      && h3.slop == if h1.slop == p || h1.slop == n then NULL else h1.slop
    }

    /** The merges of ki_free and its last step, the push. */
    method Coalesce(x: int) returns (ghost m: int)
      requires Holds({x}) && Apart(blocks, {x}) && Fresh(x)
      modifies this`slop, this`lists, this`blocks, mem, freelist
      ensures Valid() && LiveOf(View()) == LiveOf(old(View())) && CoalescedBy(old(View()), View(), x, m)
    {
      hide Tagged, Apart, Listed, Tiling, Inv, LiveOf, LeftUsed, Bits;
      hide FreeBefore, FreeAfter, MergedAt, JoinBlocks, Less;
      var block := MergeBefore(x);
      MergeAfter(block);
      Shelve(block);
      m := block;
    }

    /** In terms of the heap before the call. */
    lemma FreedState(h: Heap, x: int, h1: Heap, h3: Heap, m: int)
      requires Tiling(h.blocks, h.brk) && x in h.blocks && h.blocks[x].used
      requires h1.blocks == h.blocks[x := Block(h.blocks[x].words, false)] && h1.lists == h.lists && h1.slop == h.slop
      requires CoalescedBy(h1, h3, x, m)
      ensures h3.lists == ListsFreed(h, x) && h3.slop == SlopFreed(h, x) && OnTop(h3, x)
    {
      hide Tiling, JoinBlocks, FreeBefore, FreeAfter, MergedAt, MergedEnd, Joinable, Bits, Less;
      var p := FreeBefore(h1.blocks, x);
      var bs2 := if p == NULL then h1.blocks else JoinBlocks(h1.blocks, p);
      MergedShape(h.blocks, h.brk, x, h1.blocks, bs2, h3.blocks);
      assert Heads(h3, m);
    }

    /** A free block right before is merged with the held one; afterwards the left neighbour is in use. */
    method MergeBefore(block: int) returns (r: int)
      requires Holds({block}) && Apart(blocks, {block}) && Fresh(block)
      modifies this`slop, this`lists, this`blocks, mem, freelist
      ensures Holds({r}) && Apart(blocks, {r}) && Fresh(r) && LeftUsed(blocks, r)
      ensures LiveOf(View()) == LiveOf(old(View()))
      ensures r <= block < After(blocks, r)
      ensures var p := FreeBefore(old(blocks), block);
              && (p != NULL ==> Joinable(old(blocks), p)) && r == MergedAt(old(blocks), block)
              && lists == Less(old(lists), p)
              && blocks == (if p == NULL then old(blocks) else JoinBlocks(old(blocks), p))
              && slop == if old(slop) == p then NULL else old(slop)
    {
      hide Tagged, Apart, Listed, LiveOf, Tiling, Inv, LeftUsed;
      ghost var p := Before(block);
      Widens({block}, block);
      LeftNeighbour(block, p);
      NotListed(View(), {block}, NULL);
      r := block;
      if mem[block - 1] % 2 == 0 {
        r := block - mem[block - 1] / 4 - 2;
        JoinLeftOf(p, block);
        Widens({block}, r);
        Merge(r, block, r, block);
        ApartOf(View(), {r});
      }
    }

    /** The end tag before x tells whether FreeBefore is there. */
    lemma LeftNeighbour(x: int, p: int)
      requires Holds({x}) && Free(blocks, x) && 0 <= x - 1 < mem.Length
      requires if mem[x - 1] % 2 == 0 then Joinable(blocks, p) && After(blocks, p) == x && p != NULL
               else LeftUsed(blocks, x)
      ensures FreeBefore(blocks, x) == if mem[x - 1] % 2 == 0 then p else NULL
    {
      if mem[x - 1] % 2 == 0 {
        FreeBeforeIs(blocks, brk, x, p);
      } else {
        NoFreeBefore(blocks, x);
      }
    }

    lemma Widens(loose: set<int>, a: int)
      requires Holds(loose) && a in blocks
      ensures a < After(blocks, a)
      ensures Joinable(blocks, a) ==> After(blocks, a) < After(JoinBlocks(blocks, a), a)
    {
    }

    lemma JoinLeftOf(a: int, x: int)
      requires Holds({x}) && Joinable(blocks, a) && x == After(blocks, a)
      ensures LeftUsed(JoinBlocks(blocks, a), a)
    {
      JoinLeft(blocks, brk, a, x);
    }

    lemma Before(x: int) returns (p: int)
      requires Holds({x}) && Free(blocks, x)
      ensures 0 <= x - 1 < mem.Length
      ensures mem[x - 1] % 2 == 0 ==>
                Joinable(blocks, p) && After(blocks, p) == x && p == x - mem[x - 1] / 4 - 2 && p != NULL
      ensures mem[x - 1] % 2 != 0 ==> LeftUsed(blocks, x)
    {
      hide Tagged, Apart, Listed, Tiling, Tag;
      Bounds(blocks, brk, x);
      p := Predecessor(View(), {x}, x);
      if x != 1 { TagParts(blocks[p]); }
      if mem[x - 1] % 2 != 0 { LeftUsedBy(blocks, brk, x, p); }
    }

    static lemma TagParts(b: Block)
      ensures Tag(b) / 4 == b.words && (Tag(b) % 2 == 0 <==> !b.used)
    {
      assert Tag(b) % 2 == (if b.used then 1 else 0) by { InUseBit(2 * b.words, b.used); }
    }

    static lemma InUseBit(n: int, used: bool)
      ensures (2 * n + if used then 1 else 0) % 2 == if used then 1 else 0
    {
    }

    /** A free block right after is merged with the held one; afterwards no two neighbours are free. */
    method MergeAfter(block: int)
      requires Holds({block}) && Apart(blocks, {block}) && Fresh(block) && LeftUsed(blocks, block)
      modifies this`slop, this`lists, this`blocks, mem, freelist
      ensures Holds({block}) && Apart(blocks, {}) && Fresh(block)
      ensures LiveOf(View()) == LiveOf(old(View()))
      ensures After(old(blocks), block) <= After(blocks, block)
      ensures var n := FreeAfter(old(blocks), block);
              && (n != NULL ==> Joinable(old(blocks), block)) && lists == Less(old(lists), n)
              && blocks == (if n == NULL then old(blocks) else JoinBlocks(old(blocks), block))
              && slop == if old(slop) == n then NULL else old(slop)
    {
      hide Tagged, Apart, Listed, LiveOf, Tiling, Inv, LeftUsed, RightUsed;
      SizeWord({block}, block);
      Next(block);
      NotListed(View(), {block}, NULL);
      if mem[After(blocks, block)] % 2 != 0 { NoFreeAfter(blocks, block); }
      var after := block + mem[block] / 4 + 2;
      if mem[after] % 2 == 0 {
        JoinRightOf(block);
        Widens({block}, block);
        Merge(block, after, after, block);
        ApartOf(View(), {block});
      }
      ApartTight(blocks, block);
    }

    lemma JoinRightOf(x: int)
      requires Holds({x}) && Joinable(blocks, x) && LeftUsed(blocks, x)
      ensures RightUsed(JoinBlocks(blocks, x), x) && LeftUsed(JoinBlocks(blocks, x), x)
    {
      JoinRight(blocks, brk, x);
    }

    lemma Next(x: int)
      requires Holds({x}) && Free(blocks, x)
      ensures 0 <= After(blocks, x) < mem.Length
      ensures mem[After(blocks, x)] % 2 == 0 ==> Joinable(blocks, x)
      ensures mem[After(blocks, x)] % 2 != 0 ==> RightUsed(blocks, x)
    {
      Successor(View(), {x}, x);
    }

    /** The tail of ki_free: the block goes to the head of its free list. */
    method Shelve(block: int)
      requires Holds({block}) && Apart(blocks, {}) && Fresh(block)
      modifies this`lists, mem, freelist
      ensures Valid() && LiveOf(View()) == LiveOf(old(View())) && Free(blocks, block)
      ensures |lists| == |old(lists)| && 0 <= Bits(blocks[block].words) < |lists|
      ensures lists == var b := Bits(blocks[block].words); old(lists)[b := [block] + old(lists)[b]]
    {
      hide Tagged, Apart, Listed, LiveOf, Tiling, Inv;
      ghost var h := View();
      SizeWord({block}, block);
      BucketOfBlock({block}, block);
      assert {block} - {block} == {};
      PushKeeps(h, {block}, block);
      var b := B2Bucket(block);
      Poke(block + 1, freelist[b]);
      SetHead(b, block);
      lists := lists[b := [block] + lists[b]];
      assert View() == Push(h, block);
    }

    // ----- ki_realloc -----

    /** A caller's own write into its payload. */
    method Store(ptr: int, i: int, v: int)
      requires Valid() && ptr - 1 in LiveOf(View()) && 0 <= i < |LiveOf(View())[ptr - 1]|
      modifies mem
      ensures Valid()
      ensures LiveOf(View()) == LiveOf(old(View()))[ptr - 1 := LiveOf(old(View()))[ptr - 1][i := v]]
    {
      hide LiveOf, Inv;
      ghost var h := View();
      OwnerWriteKeeps(h, ptr - 1, i, v);
      Poke(ptr + i, v);
      assert View() == h.(mem := h.mem[ptr + i := v]);
    }

    lemma OneMoreWord(from: seq<int>, to: seq<int>, i: int)
      requires 0 <= i < |from| && i < |to|
      ensures (from[..i] + to[i..])[i := from[i]] == from[..i + 1] + to[i + 1..]
    {
    }

    /** The first n words of payload dst become those of payload src; no other payload changes. */
    method Copy(dst: int, src: int, n: int)
      requires Valid() && dst - 1 in LiveOf(View()) && src - 1 in LiveOf(View()) && dst != src
      requires 0 <= n <= |LiveOf(View())[src - 1]| && n <= |LiveOf(View())[dst - 1]|
      modifies mem
      ensures Valid()
      ensures var live := LiveOf(old(View()));
              LiveOf(View()) == live[dst - 1 := live[src - 1][..n] + live[dst - 1][n..]]
    {
      hide LiveOf, Inv;
      ghost var live := LiveOf(View());
      var i := 0;
      assert live[src - 1][..0] + live[dst - 1][0..] == live[dst - 1];
      while i < n
        invariant 0 <= i <= n && Valid()
        invariant LiveOf(View()) == live[dst - 1 := live[src - 1][..i] + live[dst - 1][i..]]
      {
        Owner(src, i);
        Store(dst, i, mem[src + i]);
        OneMoreWord(live[src - 1], live[dst - 1], i);
        i := i + 1;
      }
    }

    lemma Owner(ptr: int, i: int)
      requires Valid() && ptr - 1 in LiveOf(View()) && 0 <= i < |LiveOf(View())[ptr - 1]|
      ensures 1 <= ptr && ptr + i < mem.Length && mem[ptr + i] == LiveOf(View())[ptr - 1][i]
    {
      hide Inv, LiveOf;
      OwnerWord(View(), {}, ptr - 1, i);
    }

    lemma OwnerSize(ptr: int)
      requires Valid() && ptr - 1 in LiveOf(View())
      ensures 0 <= ptr - 1 < mem.Length && mem[ptr - 1] == 4 * |LiveOf(View())[ptr - 1]| + 1
      ensures ptr - 1 in blocks && |LiveOf(View())[ptr - 1]| == blocks[ptr - 1].words
    {
      hide Listed, Apart, LiveOf;
      OwnerBlock(View(), {}, ptr - 1);
      TagsOf(View(), ptr - 1);
    }

    /** ki_realloc */
    method KiRealloc(ptr: int, size: int) returns (halted: bool, p: int)
      requires Valid() && (ptr != NULL ==> ptr - 1 in LiveOf(View()))
      requires 0 <= size && Rounded(size) <= INT_MAX
      modifies this, mem, freelist
      ensures Valid() && (halted ==> View() == old(View()))
      ensures halted ==
              ((ptr == NULL || size > 4 * |LiveOf(old(View()))[ptr - 1]|)
               && NoFit(old(View()), Rounded(size)) && 4 * old(brk) + Rounded(size) + 16 > POOL_BYTES)
      ensures ptr == NULL && !halted ==> Granted(old(View()), View(), p - 1, Rounded(size))
      ensures ptr != NULL && size <= 4 * |LiveOf(old(View()))[ptr - 1]| ==> !halted && p == ptr && View() == old(View())
      ensures ptr != NULL && size > 4 * |LiveOf(old(View()))[ptr - 1]| && !halted ==>
                Moved(LiveOf(old(View())), LiveOf(View()), ptr - 1, p - 1, size)
    {
      hide LiveOf, Inv, Allocated, OnTop, ListsFreed, SlopFreed, NoFit;
      if ptr == NULL {
        halted, p := KiMalloc(size);
        return;
      }
      OwnerSize(ptr);
      var copysize := mem[ptr - 1] / 2 * 2;
      if size <= copysize {
        return false, ptr;
      }
      ghost var live := LiveOf(View());
      halted, p := KiMalloc(size);
      if halted {
        return;
      }
      GrantedSize(p - 1);
      ghost var live1 := LiveOf(View());
      assert ptr - 1 in live1 - {p - 1} && live1[ptr - 1] == live[ptr - 1];
      Copy(p, ptr, copysize / 4);
      KiFree(ptr);
      assert LiveOf(View()) - {p - 1} == live - {ptr - 1};
    }

    lemma GrantedSize(a: int)
      requires Valid() && a in blocks && blocks[a].used
      ensures a in LiveOf(View()) && |LiveOf(View())[a]| == blocks[a].words
    {
    }
  }
}
