/** The kernel heap as a value: the words of the pool, the allocator's globals and the block structure they encode.

    An address is a word index into the pool: word i is the byte at 10000000 + 4*i, so a payload at an even word is
    8-aligned.  A block at word a has its size word at a, its payload from a+1, its end tag right after the payload
    and the next block (or the end marker) right after that. */
module HeapState {
  import opened Arithmetic

  const NULL := -1
  const BUCKETS := 30
  const MIN_SAVE_EXTRA := 64
  const POOL_BYTES := 512000
  const POOL := POOL_BYTES / 4

  /** words: the payload length in words (the source's size is 4 * words). */
  datatype Block = Block(words: int, used: bool)

  type Blocks = map<int, Block>

  /** mem, brk, slop and heads are the allocator's variables; blocks and lists say what they encode. */
  datatype Heap = Heap(mem: seq<int>, brk: int, slop: int, heads: seq<int>, blocks: Blocks, lists: seq<seq<int>>)

  function Tag(b: Block): int {
    4 * b.words + if b.used then 1 else 0
  }

  function After(bs: Blocks, a: int): int
    requires a in bs
  {
    a + bs[a].words + 2
  }

  /** The number of binary digits of n: the bucket of a block of n words. */
  function Bits(n: int): int {
    if n <= 0 then 0 else 1 + Bits(n / 2)
  }

  lemma {:induction false} BitsMonotone(m: int, n: int)
    requires m <= n
    ensures 0 <= Bits(m) <= Bits(n)
    decreases if n <= 0 then 0 else n
  {
    if n > 0 {
      BitsMonotone(m / 2, n / 2);
    }
    if m > 0 {
      BitsMonotone(m / 2, m / 2);
    }
  }

  /** Bits is the logarithm it is meant to be: n has k+1 digits exactly when 2^k <= n < 2^(k+1). */
  lemma {:induction false} BitsBound(n: int, k: nat)
    ensures n < Pow2(k) <==> Bits(n) <= k
    decreases k
  {
    if n <= 0 {
    } else if k == 0 {
      BitsMonotone(0, n / 2);
    } else {
      BitsBound(n / 2, k - 1);
    }
  }

  lemma BitsSmaller(m: int, n: int)
    ensures Bits(n) < Bits(m) ==> n < m
  {
    if m <= n { BitsMonotone(m, n); }
  }

  /** Every size an int can hold has a bucket. */
  lemma BucketOfInt(size: int)
    requires 0 <= size <= 0x7FFF_FFFF
    ensures 0 <= Bits(size / 4) < BUCKETS
  {
    BitsMonotone(0, size / 4);
    BitsBound(size / 4, 29);
    TwoTo29();
  }

  lemma TwoTo29()
    ensures Pow2(29) == 0x2000_0000
  {
    assert Pow2(5) == 32 && Pow2(11) == 2048 && Pow2(17) == 0x2_0000 && Pow2(23) == 0x80_0000;
  }

  // ----- the block structure -----

  ghost predicate NextOk(bs: Blocks, brk: int, a: int)
    requires a in bs
  {
    After(bs, a) == brk - 1 || After(bs, a) in bs
  }

  ghost predicate Tiling(bs: Blocks, brk: int) {
    && 0 <= brk <= POOL && brk % 2 == 0
    && (brk == 0 ==> bs == map[])
    && (brk != 0 ==> 1 in bs)
    && (forall a | a in bs :: 1 <= a && a % 2 == 1 && 2 <= bs[a].words && bs[a].words % 2 == 0
                            && After(bs, a) <= brk - 1)
    && (forall a {:trigger NextOk(bs, brk, a)} | a in bs :: NextOk(bs, brk, a))
    && (forall a, c | a in bs && c in bs && a < c :: After(bs, a) <= c)
  }

  /** Two neighbouring blocks are not both free, unless one of them is being worked on. */
  ghost predicate ApartAt(bs: Blocks, loose: set<int>, a: int)
    requires a in bs
  {
    var n := After(bs, a);
    n in bs && !bs[a].used && !bs[n].used ==> a in loose || n in loose
  }

  ghost predicate Apart(bs: Blocks, loose: set<int>) {
    forall a {:trigger ApartAt(bs, loose, a)} | a in bs :: ApartAt(bs, loose, a)
  }

  ghost predicate Tagged(mem: seq<int>, bs: Blocks, brk: int)
    requires Tiling(bs, brk) && |mem| == POOL
  {
    && (brk > 0 ==> mem[0] == 1 && mem[brk - 1] == 1)
    && (forall a | a in bs :: mem[a] == Tag(bs[a]) && mem[a + 1 + bs[a].words] == Tag(bs[a]))
  }

  // ----- the free lists -----

  ghost predicate LinkAt(mem: seq<int>, l: seq<int>, k: int)
    requires 0 <= k < |l|
  {
    0 <= l[k] && l[k] + 2 < |mem| && mem[l[k] + 1] == (if k + 1 < |l| then l[k + 1] else NULL)
  }

  ghost predicate Chain(mem: seq<int>, head: int, l: seq<int>) {
    && head == (if l == [] then NULL else l[0])
    && (forall k {:trigger LinkAt(mem, l, k)} | 0 <= k < |l| :: LinkAt(mem, l, k))
  }

  ghost predicate Distinct(l: seq<int>) {
    forall i, j | 0 <= i < j < |l| :: l[i] != l[j]
  }

  ghost predicate Free(bs: Blocks, a: int) {
    a in bs && !bs[a].used
  }

  /** A block on list b: free, of that bucket, with its bucket word set, and on no other list. */
  ghost predicate Entry(h: Heap, loose: set<int>, b: int, x: int) {
    && Free(h.blocks, x) && Bits(h.blocks[x].words) == b
    && 0 <= x && x + 2 < |h.mem| && h.mem[x + 2] == b
    && x != h.slop && x !in loose
  }

  ghost predicate ListOk(h: Heap, loose: set<int>, b: int)
    requires 0 <= b < |h.heads| && |h.heads| == |h.lists|
  {
    var l := h.lists[b];
    && Chain(h.mem, h.heads[b], l)
    && (forall k | 0 <= k < |l| :: Entry(h, loose, b, l[k]))
    && Distinct(l)
  }

  ghost predicate SlopOk(h: Heap, loose: set<int>) {
    h.slop != NULL ==>
      && Free(h.blocks, h.slop) && h.slop !in loose
      && 0 <= h.slop && h.slop + 2 < |h.mem|
      && (h.mem[h.slop + 2] == -1 || h.mem[h.slop + 2] == Bits(h.blocks[h.slop].words))
  }

  ghost predicate Placed(h: Heap, loose: set<int>, a: int)
    requires a in h.blocks
  {
    a == h.slop || a in loose || (0 <= Bits(h.blocks[a].words) < |h.lists| && a in h.lists[Bits(h.blocks[a].words)])
  }

  ghost predicate Listed(h: Heap, loose: set<int>) {
    && |h.heads| == BUCKETS && |h.lists| == BUCKETS
    && (forall b | 0 <= b < BUCKETS :: ListOk(h, loose, b))
    && SlopOk(h, loose)
    && (forall a | a in loose :: Free(h.blocks, a))
    && (forall a {:trigger Placed(h, loose, a)} | Free(h.blocks, a) :: Placed(h, loose, a))
  }

  /** The allocator's invariant.  loose holds the free blocks that an operation has taken off every list. */
  ghost predicate Inv(h: Heap, loose: set<int>) {
    && |h.mem| == POOL
    && Tiling(h.blocks, h.brk)
    && Tagged(h.mem, h.blocks, h.brk)
    && Apart(h.blocks, loose)
    && Listed(h, loose)
  }

  // ----- what callers see -----

  /** The live payloads: from the block's address to the contents, which start one word further on. */
  ghost function Live(mem: seq<int>, bs: Blocks, brk: int): map<int, seq<int>>
    requires |mem| == POOL && Tiling(bs, brk)
  {
    map a | a in bs && bs[a].used :: mem[a + 1 .. a + 1 + bs[a].words]
  }

  ghost function LiveOf(h: Heap): map<int, seq<int>> {
    if |h.mem| == POOL && Tiling(h.blocks, h.brk) then Live(h.mem, h.blocks, h.brk) else map[]
  }

  /** A payload of n bytes serves a request for size without undue waste. */
  predicate Serves(n: int, size: int) {
    size <= n && (n < size + MIN_SAVE_EXTRA || n < size + size / 4)
  }

  /** h' differs from h by one more live payload: it is at block a, 8-aligned and serves size bytes. */
  ghost predicate Granted(h: Heap, h': Heap, a: int, size: int) {
    && a !in LiveOf(h) && a in h'.blocks && h'.blocks[a].used
    && LiveOf(h') - {a} == LiveOf(h)
    && Serves(4 * h'.blocks[a].words, size) && (a + 1) % 2 == 0
  }

  /** Payload a has moved to b, which is new, holds size bytes and starts with the old contents. */
  ghost predicate Moved(live: map<int, seq<int>>, live': map<int, seq<int>>, a: int, b: int, size: int) {
    && a in live && b !in live && b in live'
    && live' - {b} == live - {a}
    && live[a] <= live'[b] && size <= 4 * |live'[b]|
  }

  /** No free block could hold size bytes. */
  ghost predicate NoFit(h: Heap, size: int) {
    forall a | Free(h.blocks, a) :: 4 * h.blocks[a].words < size
  }

  // ----- which block a request gets -----

  /** A payload of at least size bytes, wasting less than a quarter. */
  ghost predicate CloseFit(bs: Blocks, a: int, size: int) {
    a in bs && size <= 4 * bs[a].words < size + size / 4
  }

  ghost predicate FirstClose(bs: Blocks, l: seq<int>, size: int, k: int) {
    0 <= k < |l| && CloseFit(bs, l[k], size) && forall j | 0 <= j < k :: !CloseFit(bs, l[j], size)
  }

  /** a is the first close fit of bucket b. */
  ghost predicate FirstCloseIs(h: Heap, b: int, size: int, a: int)
    requires 0 <= b < |h.lists|
  {
    exists k :: FirstClose(h.blocks, h.lists[b], size, k) && a == h.lists[b][k]
  }

  ghost predicate NoClose(bs: Blocks, l: seq<int>, size: int) {
    forall j | 0 <= j < |l| :: !CloseFit(bs, l[j], size)
  }

  ghost predicate TooSmall(bs: Blocks, a: int, size: int) {
    a in bs && 4 * bs[a].words < size
  }

  ghost predicate FirstFit(bs: Blocks, l: seq<int>, size: int, k: int) {
    0 <= k < |l| && l[k] in bs && !TooSmall(bs, l[k], size) && forall j | 0 <= j < k :: TooSmall(bs, l[j], size)
  }

  ghost predicate AllTooSmall(bs: Blocks, l: seq<int>, size: int) {
    forall j | 0 <= j < |l| :: TooSmall(bs, l[j], size)
  }

  /** a is the first block that is large enough in the lists from bucket b on. */
  ghost predicate FirstFrom(h: Heap, b: int, size: int, a: int) {
    exists c, k | 0 <= b <= c < |h.lists| :: PlaceOfFirst(h, b, size, a, c, k)
  }

  ghost predicate PlaceOfFirst(h: Heap, b: int, size: int, a: int, c: int, k: int)
    requires 0 <= b <= c < |h.lists|
  {
    FirstFit(h.blocks, h.lists[c], size, k) && a == h.lists[c][k]
    && forall d | b <= d < c :: AllTooSmall(h.blocks, h.lists[d], size)
  }

  ghost predicate SlopServes(h: Heap, size: int) {
    h.slop != NULL && h.slop in h.blocks && !TooSmall(h.blocks, h.slop, size)
  }

  /** The policy: the slop when it is large enough, else the first close fit of the request's own bucket, taken whole,
      else the first fit of that bucket and the larger ones. */
  ghost predicate Chosen(h: Heap, size: int, a: int, whole: bool) {
    var b := Bits(size / 4);
    if SlopServes(h, size) then a == h.slop && !whole
    else
      && 0 <= b < |h.lists|
      && if whole then FirstCloseIs(h, b, size, a)
         else NoClose(h.blocks, h.lists[b], size) && FirstFrom(h, b, size, a)
  }

  /** List l without a. */
  function Without(l: seq<int>, a: int): seq<int> {
    if l == [] then [] else (if l[0] == a then [] else [l[0]]) + Without(l[1..], a)
  }

  /** The free lists without a, in their old order. */
  function Less(lists: seq<seq<int>>, a: int): (r: seq<seq<int>>)
    ensures |r| == |lists|
  {
    seq(|lists|, b requires 0 <= b < |lists| => Without(lists[b], a))
  }

  /** The free lists with a at the head of list b. */
  function Pushed(lists: seq<seq<int>>, b: int, a: int): (r: seq<seq<int>>)
    ensures |r| == |lists|
  {
    if 0 <= b < |lists| then lists[b := [a] + lists[b]] else lists
  }

  /** The lists after block a has been granted: a is gone, and a slop that makes way for a new one heads its list. */
  ghost function ListsTaken(h: Heap, a: int, split: bool): seq<seq<int>> {
    if split && h.slop != NULL && h.slop != a && h.slop in h.blocks
    then Pushed(Less(h.lists, a), Bits(h.blocks[h.slop].words), h.slop)
    else Less(h.lists, a)
  }

  /** Block a becomes used; unless it is taken whole, a remainder of MIN_SAVE_EXTRA bytes is split off as the slop. */
  ghost predicate TakenFrom(h: Heap, h': Heap, a: int, size: int, whole: bool) {
    a in h.blocks && h'.brk == h.brk
    && h'.lists == ListsTaken(h, a, !whole && 4 * h.blocks[a].words >= size + MIN_SAVE_EXTRA)
    && if !whole && 4 * h.blocks[a].words >= size + MIN_SAVE_EXTRA then
         h'.slop == a + size / 4 + 2
         && h'.blocks == h.blocks[a := Block(size / 4, true)]
                                 [a + size / 4 + 2 := Block(h.blocks[a].words - size / 4 - 2, false)]
       else
         h'.slop == (if a == h.slop then NULL else h.slop)
         && h'.blocks == h.blocks[a := Block(h.blocks[a].words, true)]
  }

  /** Where a block made from fresh words starts: over the old end marker, or after a new start marker. */
  function GrowAt(brk: int): int {
    if brk == 0 then 1 else brk - 1
  }

  /** The payload words a request for n gets from fresh memory; the old end marker and two tags' worth are absorbed. */
  function GrowWords(brk: int, n: int): int {
    if brk == 0 then n else n + 2
  }

  /** What ki_malloc does with a request for size bytes that it serves with block a. */
  ghost predicate Allocated(h: Heap, h': Heap, size: int, a: int) {
    if NoFit(h, size) then
      && a == GrowAt(h.brk) && h'.slop == h.slop && h'.lists == h.lists && h'.brk == h.brk + size / 4 + 4
      && h'.blocks == h.blocks[a := Block(GrowWords(h.brk, size / 4), true)]
    else exists whole :: Chosen(h, size, a, whole) && TakenFrom(h, h', a, size, whole)
  }

  // ----- what a free does to the lists -----

  /** The free block right before x, or NULL. */
  ghost function FreeBefore(bs: Blocks, x: int): (p: int)
    ensures p != NULL ==> Free(bs, p) && After(bs, p) == x
    ensures p == NULL ==> forall q | Free(bs, q) && After(bs, q) == x :: q == NULL
  {
    if q :| Free(bs, q) && After(bs, q) == x && q != NULL then q else NULL
  }

  /** The free block right after x, or NULL. */
  ghost function FreeAfter(bs: Blocks, x: int): int {
    if x in bs && Free(bs, After(bs, x)) then After(bs, x) else NULL
  }

  /** The block that x is part of once its free neighbours have been merged with it. */
  ghost function MergedAt(bs: Blocks, x: int): int {
    if FreeBefore(bs, x) != NULL then FreeBefore(bs, x) else x
  }

  ghost function MergedEnd(bs: Blocks, x: int): int
    requires x in bs
  {
    if FreeAfter(bs, x) != NULL && FreeAfter(bs, x) in bs then After(bs, FreeAfter(bs, x)) else After(bs, x)
  }

  /** The lists after x has been freed: its free neighbours leave theirs, and the merged block heads its own. */
  ghost function ListsFreed(h: Heap, x: int): seq<seq<int>>
    requires x in h.blocks
  {
    var m := MergedAt(h.blocks, x);
    Pushed(Less(Less(h.lists, FreeBefore(h.blocks, x)), FreeAfter(h.blocks, x)),
           Bits(MergedEnd(h.blocks, x) - m - 2), m)
  }

  /** A slop that is one of the neighbours is swallowed. */
  ghost function SlopFreed(h: Heap, x: int): int {
    if h.slop == FreeBefore(h.blocks, x) || h.slop == FreeAfter(h.blocks, x) then NULL else h.slop
  }
}
