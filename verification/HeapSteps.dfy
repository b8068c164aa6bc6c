/** The elementary changes ki_malloc, ki_free and merge make to the heap, each proved to keep the invariant and to say
    what happens to the live payloads. */
module HeapSteps {
  import opened Arithmetic
  import opened HeapState

  // ----- geometry -----

  /** A word strictly inside block y belongs to no other block. */
  lemma InsideOne(bs: Blocks, brk: int, y: int, i: int, a: int)
    requires Tiling(bs, brk) && y in bs && a in bs && a != y
    requires y <= i < After(bs, y)
    ensures i < a || After(bs, a) <= i
  {
    if y < a {
      assert After(bs, y) <= a;
    } else {
      assert After(bs, a) <= y;
    }
  }

  lemma Bounds(bs: Blocks, brk: int, a: int)
    requires Tiling(bs, brk) && a in bs
    ensures 1 <= a && a % 2 == 1 && 2 <= bs[a].words && bs[a].words % 2 == 0 && After(bs, a) < brk <= POOL
  {
  }

  lemma TagsOf(h: Heap, a: int)
    requires |h.mem| == POOL && Tiling(h.blocks, h.brk) && Tagged(h.mem, h.blocks, h.brk) && a in h.blocks
    ensures h.mem[a] == Tag(h.blocks[a]) == h.mem[a + 1 + h.blocks[a].words]
  {
  }

  lemma FreeNotLive(h: Heap, a: int)
    requires Free(h.blocks, a) || a !in h.blocks
    ensures a !in LiveOf(h)
  {
  }

  // ----- frames -----

  /** A list survives any change that leaves its members, their link words and its head alone. */
  lemma ListFrame(h: Heap, loose: set<int>, h': Heap, loose': set<int>, b: int)
    requires |h.heads| == |h.lists| == |h'.heads| == |h'.lists| && 0 <= b < |h.heads| && |h'.mem| == |h.mem|
    requires ListOk(h, loose, b)
    requires h'.heads[b] == h.heads[b] && h'.lists[b] == h.lists[b]
    requires forall x | x in h.lists[b] ::
               && x in h.blocks && x in h'.blocks && h'.blocks[x] == h.blocks[x] && 0 <= x && x + 2 < |h.mem|
               && h'.mem[x + 1] == h.mem[x + 1] && h'.mem[x + 2] == h.mem[x + 2] && x != h'.slop && x !in loose'
    ensures ListOk(h', loose', b)
  {
    var l := h.lists[b];
    forall k | 0 <= k < |l| ensures Entry(h', loose', b, l[k]) && LinkAt(h'.mem, l, k) {
      assert Entry(h, loose, b, l[k]) && LinkAt(h.mem, l, k);
      assert l[k] in l;
    }
  }

  /** What list b says about one of its members. */
  lemma Member(h: Heap, loose: set<int>, b: int, x: int)
    requires Inv(h, loose) && 0 <= b < BUCKETS && x in h.lists[b]
    ensures Free(h.blocks, x) && Bits(h.blocks[x].words) == b && x != h.slop && x !in loose
    ensures 1 <= x && x % 2 == 1 && x + 2 < After(h.blocks, x) <= h.brk - 1
  {
    assert ListOk(h, loose, b);
    var k :| 0 <= k < |h.lists[b]| && h.lists[b][k] == x;
    assert Entry(h, loose, b, x);
  }

  // ----- slop -----

  ghost function DropSlop(h: Heap): Heap {
    h.(slop := NULL)
  }

  lemma {:induction false} WithoutAbsent(l: seq<int>, a: int)
    requires a !in l
    ensures Without(l, a) == l
  {
    if l != [] { WithoutAbsent(l[1..], a); }
  }

  lemma WithoutAt(l: seq<int>, k: nat)
    requires Distinct(l) && k < |l|
    ensures Without(l, l[k]) == l[..k] + l[k + 1..]
  {
    hide Without, Distinct;
    var a, x, b := l[..k], l[k], l[k + 1..];
    OnceOnly(l, k);
    Assembled(l, k);
    WithoutOnly(a, x, b);
  }

  lemma Assembled(l: seq<int>, k: nat)
    requires k < |l|
    ensures l == l[..k] + [l[k]] + l[k + 1..]
  {
  }

  lemma OnceOnly(l: seq<int>, k: nat)
    requires Distinct(l) && k < |l|
    ensures l[k] !in l[..k] && l[k] !in l[k + 1..]
  {
  }

  lemma WithoutOnly(a: seq<int>, x: int, b: seq<int>)
    requires x !in a && x !in b
    ensures Without(a + [x] + b, x) == a + b
  {
    hide Without;
    WithoutSelf(x);
    WithoutConcat(a + [x], b, x);
    WithoutConcat(a, [x], x);
    WithoutAbsent(a, x);
    WithoutAbsent(b, x);
  }

  lemma WithoutSelf(x: int)
    ensures Without([x], x) == []
  {
  }

  lemma {:induction false} WithoutConcat(a: seq<int>, b: seq<int>, x: int)
    ensures Without(a + b, x) == Without(a, x) + Without(b, x)
  {
    if a == [] {
      assert a + b == b;
    } else {
      assert (a + b)[1..] == a[1..] + b;
      WithoutConcat(a[1..], b, x);
      var own := if a[0] == x then [] else [a[0]];
      assert Without(a, x) == own + Without(a[1..], x);
      assert Without(a + b, x) == own + Without(a[1..] + b, x);
    }
  }

  /** A block that is not on any list leaves them as they are. */
  lemma NotListed(h: Heap, loose: set<int>, a: int)
    requires Inv(h, loose) && (a == h.slop || a == NULL || a in loose || !Free(h.blocks, a))
    ensures Less(h.lists, a) == h.lists
  {
    assert |h.lists| == BUCKETS;
    forall b | 0 <= b < BUCKETS ensures Without(h.lists[b], a) == h.lists[b] {
      if a in h.lists[b] { Member(h, loose, b, a); }
      WithoutAbsent(h.lists[b], a);
    }
  }

  /** Taking one member off its list takes that block off all lists. */
  lemma UnlistIsLess(h: Heap, loose: set<int>, b: int, k: int)
    requires Inv(h, loose) && 0 <= b < BUCKETS && 0 <= k < |h.lists[b]|
    ensures h.lists[b := h.lists[b][..k] + h.lists[b][k + 1..]] == Less(h.lists, h.lists[b][k])
  {
    var x := h.lists[b][k];
    assert |h.lists| == BUCKETS && ListOk(h, loose, b);
    WithoutAt(h.lists[b], k);
    Member(h, loose, b, x);
    forall c | 0 <= c < BUCKETS && c != b ensures Without(h.lists[c], x) == h.lists[c] {
      if x in h.lists[c] { Member(h, loose, c, x); }
      WithoutAbsent(h.lists[c], x);
    }
  }

  lemma DropSlopKeeps(h: Heap, loose: set<int>)
    requires Inv(h, loose) && h.slop != NULL
    ensures Inv(DropSlop(h), loose + {h.slop}) && LiveOf(DropSlop(h)) == LiveOf(h)
  {
    var h', loose' := DropSlop(h), loose + {h.slop};
    forall b | 0 <= b < BUCKETS ensures ListOk(h', loose', b) {
      forall x | x in h.lists[b] ensures x !in loose' && x != NULL && x in h.blocks && 0 <= x && x + 2 < POOL {
        Member(h, loose, b, x);
      }
      ListFrame(h, loose, h', loose', b);
    }
    ApartWeaken(h.blocks, loose, loose');
    forall a | Free(h.blocks, a) ensures Placed(h', loose', a) {
      assert Placed(h, loose, a);
    }
  }

  ghost function SetSlop(h: Heap, a: int): Heap {
    h.(slop := a)
  }

  lemma SetSlopKeeps(h: Heap, loose: set<int>, a: int)
    requires Inv(h, loose) && h.slop == NULL && a in loose && Apart(h.blocks, loose - {a})
    requires 0 <= a && a + 2 < |h.mem| && h.mem[a + 2] == -1
    ensures Inv(SetSlop(h, a), loose - {a}) && LiveOf(SetSlop(h, a)) == LiveOf(h)
  {
    var h', loose' := SetSlop(h, a), loose - {a};
    forall b | 0 <= b < BUCKETS ensures ListOk(h', loose', b) {
      forall x | x in h.lists[b] ensures x !in loose' && x != a && x in h.blocks && 0 <= x && x + 2 < POOL {
        Member(h, loose, b, x);
      }
      ListFrame(h, loose, h', loose', b);
    }
    forall c | Free(h.blocks, c) ensures Placed(h', loose', c) {
      assert Placed(h, loose, c);
    }
  }

  // ----- free lists -----

  /** Takes the k-th block off list b by redirecting the link that points to it. */
  ghost function Unlist(h: Heap, b: int, k: int): (h': Heap)
    requires 0 <= b < |h.lists| == |h.heads| && 0 <= k < |h.lists[b]|
    requires Chain(h.mem, h.heads[b], h.lists[b])
    ensures |h'.mem| == |h.mem|
  {
    var l := h.lists[b];
    assert LinkAt(h.mem, l, k) && (k > 0 ==> LinkAt(h.mem, l, k - 1));
    var next := h.mem[l[k] + 1];
    var h1 := h.(lists := h.lists[b := l[..k] + l[k + 1..]]);
    if k == 0 then h1.(heads := h.heads[b := next]) else h1.(mem := h.mem[l[k - 1] + 1 := next])
  }

  /** Redirecting the link to l[k] past it leaves the chain of the other members. */
  lemma UnlinkKeepsChain(mem: seq<int>, head: int, l: seq<int>, k: int, mem': seq<int>, head': int)
    requires Chain(mem, head, l) && Distinct(l) && 0 <= k < |l|
    requires LinkAt(mem, l, k)
    requires k == 0 ==> mem' == mem && head' == mem[l[k] + 1]
    requires k > 0 ==> LinkAt(mem, l, k - 1) && mem' == mem[l[k - 1] + 1 := mem[l[k] + 1]] && head' == head
    ensures Chain(mem', head', l[..k] + l[k + 1..]) && Distinct(l[..k] + l[k + 1..])
  {
    var l' := l[..k] + l[k + 1..];
    forall i | 0 <= i < |l'| ensures LinkAt(mem', l', i) {
      assert LinkAt(mem, l, if i < k then i else i + 1);
    }
  }

  lemma Removed(l: seq<int>, k: int, x: int)
    requires Distinct(l) && 0 <= k < |l|
    ensures x in l[..k] + l[k + 1..] <==> x in l && x != l[k]
  {
    if x in l && x != l[k] {
      var m :| 0 <= m < |l| && l[m] == x;
      assert (l[..k] + l[k + 1..])[if m < k then m else m - 1] == x;
    }
  }

  /** The memory after Unlist differs at most in the link word of another member of list b. */
  lemma UnlistList(h: Heap, loose: set<int>, b: int, k: int)
    requires |h.heads| == |h.lists| && 0 <= b < |h.heads| && ListOk(h, loose, b) && 0 <= k < |h.lists[b]|
    requires forall x | x in h.lists[b] :: x % 2 == 1
    ensures ListOk(Unlist(h, b, k), loose + {h.lists[b][k]}, b)
  {
    var h', l := Unlist(h, b, k), h.lists[b];
    assert LinkAt(h.mem, l, k);
    if k > 0 { assert LinkAt(h.mem, l, k - 1); }
    UnlinkKeepsChain(h.mem, h.heads[b], l, k, h'.mem, h'.heads[b]);
    var l' := h'.lists[b];
    forall i | 0 <= i < |l'| ensures Entry(h', loose + {l[k]}, b, l'[i]) {
      var m := if i < k then i else i + 1;
      assert l'[i] == l[m] && l[m] in l;
      assert Entry(h, loose, b, l[m]);
      if k > 0 { assert l[k - 1] in l; }
    }
  }

  lemma UnlistOthers(h: Heap, loose: set<int>, b: int, k: int, c: int)
    requires Inv(h, loose) && 0 <= b < BUCKETS && 0 <= k < |h.lists[b]| && 0 <= c < BUCKETS && c != b
    requires Chain(h.mem, h.heads[b], h.lists[b])
    ensures ListOk(Unlist(h, b, k), loose + {h.lists[b][k]}, c)
  {
    hide Tagged, Apart, Live;
    var h', x := Unlist(h, b, k), h.lists[b][k];
    Member(h, loose, b, x);
    if k > 0 { Member(h, loose, b, h.lists[b][k - 1]); }
    assert LinkAt(h.mem, h.lists[b], k);
    forall y | y in h.lists[c]
      ensures y != x && y !in loose && y in h.blocks && 0 <= y && y + 2 < POOL && y != h.slop
      ensures h'.mem[y + 1] == h.mem[y + 1] && h'.mem[y + 2] == h.mem[y + 2]
    {
      Member(h, loose, c, y);
    }
    ListFrame(h, loose, h', loose + {x}, c);
  }

  lemma UnlistMemory(h: Heap, loose: set<int>, b: int, k: int)
    requires Inv(h, loose) && 0 <= b < BUCKETS && 0 <= k < |h.lists[b]|
    requires Chain(h.mem, h.heads[b], h.lists[b])
    ensures var m' := Unlist(h, b, k).mem;
            Tagged(m', h.blocks, h.brk) && Live(m', h.blocks, h.brk) == Live(h.mem, h.blocks, h.brk)
  {
    hide Live, Tagged, Apart;
    var l, m' := h.lists[b], Unlist(h, b, k).mem;
    assert LinkAt(h.mem, l, k);
    if k == 0 {
      assert m' == h.mem;
    } else {
      Member(h, loose, b, l[k - 1]);
      assert m' == h.mem[l[k - 1] + 1 := h.mem[l[k] + 1]];
      WriteFree(h.mem, h.blocks, h.brk, l[k - 1], l[k - 1] + 1, h.mem[l[k] + 1]);
    }
  }

  lemma UnlistSlop(h: Heap, loose: set<int>, b: int, k: int)
    requires Inv(h, loose) && 0 <= b < BUCKETS && 0 <= k < |h.lists[b]|
    requires Chain(h.mem, h.heads[b], h.lists[b])
    ensures SlopOk(Unlist(h, b, k), loose + {h.lists[b][k]})
  {
    var l := h.lists[b];
    assert LinkAt(h.mem, l, k);
    Member(h, loose, b, l[k]);
    if k > 0 { Member(h, loose, b, l[k - 1]); }
  }

  lemma UnlistKeeps(h: Heap, loose: set<int>, b: int, k: int)
    requires Inv(h, loose) && 0 <= b < BUCKETS && 0 <= k < |h.lists[b]|
    ensures Chain(h.mem, h.heads[b], h.lists[b])
    ensures Inv(Unlist(h, b, k), loose + {h.lists[b][k]})
    ensures LiveOf(Unlist(h, b, k)) == LiveOf(h)
  {
    assert ListOk(h, loose, b);
    var x := h.lists[b][k];
    var h', loose' := Unlist(h, b, k), loose + {x};
    Member(h, loose, b, x);
    UnlistMemory(h, loose, b, k);
    UnlistSlop(h, loose, b, k);
    forall y | y in h.lists[b] ensures y % 2 == 1 { Member(h, loose, b, y); }
    UnlistList(h, loose, b, k);
    forall c | 0 <= c < BUCKETS && c != b ensures ListOk(h', loose', c) {
      UnlistOthers(h, loose, b, k, c);
    }
    ApartWeaken(h.blocks, loose, loose');
    forall a | Free(h.blocks, a) ensures Placed(h', loose', a) {
      assert Placed(h, loose, a);
      Removed(h.lists[b], k, a);
    }
  }

  lemma ApartWeaken(bs: Blocks, loose: set<int>, loose': set<int>)
    requires Apart(bs, loose) && loose <= loose'
    ensures Apart(bs, loose')
  {
    forall a | a in bs ensures ApartAt(bs, loose', a) {
      assert ApartAt(bs, loose, a);
    }
  }

  /** Writing a word inside a free block changes no tag and no live payload. */
  lemma WriteFree(mem: seq<int>, bs: Blocks, brk: int, y: int, i: int, v: int)
    requires |mem| == POOL && Tiling(bs, brk) && Tagged(mem, bs, brk)
    requires Free(bs, y) && y < i < y + 1 + bs[y].words
    ensures Tagged(mem[i := v], bs, brk) && Live(mem[i := v], bs, brk) == Live(mem, bs, brk)
  {
    forall a | a in bs && a != y ensures i < a || After(bs, a) <= i {
      InsideOne(bs, brk, y, i, a);
    }
    forall a | a in bs && bs[a].used ensures SamePayload(mem, mem[i := v], a, bs[a].words) {
    }
    LiveFrame(mem, bs, brk, mem[i := v], bs, brk);
  }

  ghost predicate SamePayload(mem: seq<int>, mem': seq<int>, a: int, words: int) {
    0 <= a && 0 <= words && a + 1 + words <= |mem| && |mem| == |mem'| &&
    mem'[a + 1 .. a + 1 + words] == mem[a + 1 .. a + 1 + words]
  }

  ghost predicate SameBlock(mem: seq<int>, mem': seq<int>, a: int, words: int) {
    && SamePayload(mem, mem', a, words) && a + 1 + words < |mem|
    && mem'[a] == mem[a] && mem'[a + 1 + words] == mem[a + 1 + words]
  }

  /** Live payloads are kept by any change that keeps the used blocks and their words. */
  lemma LiveFrame(mem: seq<int>, bs: Blocks, brk: int, mem': seq<int>, bs': Blocks, brk': int)
    requires |mem| == POOL && Tiling(bs, brk) && |mem'| == POOL && Tiling(bs', brk')
    requires forall a :: (a in bs && bs[a].used) <==> (a in bs' && bs'[a].used)
    requires forall a | a in bs && bs[a].used :: bs'[a] == bs[a] && SamePayload(mem, mem', a, bs[a].words)
    ensures Live(mem', bs', brk') == Live(mem, bs, brk)
  {
  }

  // ----- changes confined to a region -----

  ghost predicate Outside(bs: Blocks, x: int, lo: int, hi: int)
    requires x in bs
  {
    After(bs, x) <= lo || hi <= x
  }

  /** The words outside [lo, hi) and the blocks outside it are kept; no list member lies inside. */
  ghost predicate Region(h: Heap, loose: set<int>, h': Heap, loose': set<int>, lo: int, hi: int) {
    && |h.mem| == |h'.mem| && h'.heads == h.heads && h'.lists == h.lists && h'.slop == h.slop
    && 0 <= lo <= hi <= |h.mem|
    && (forall i | 0 <= i < |h.mem| && !(lo <= i < hi) :: h'.mem[i] == h.mem[i])
    && (forall x | x in h.blocks ::
          if lo <= x < hi then x in loose || h.blocks[x].used
          else Outside(h.blocks, x, lo, hi) && x in h'.blocks && h'.blocks[x] == h.blocks[x])
    && (forall x | x in h'.blocks && !(lo <= x < hi) :: x in h.blocks)
    && (forall x :: !(lo <= x < hi) ==> (x in loose <==> x in loose'))
    && (forall x | lo <= x < hi :: x in loose' <==> Free(h'.blocks, x))
  }

  lemma RegionList(h: Heap, loose: set<int>, h': Heap, loose': set<int>, lo: int, hi: int, b: int)
    requires Inv(h, loose) && Region(h, loose, h', loose', lo, hi) && 0 <= b < BUCKETS
    ensures ListOk(h', loose', b)
  {
    forall x | x in h.lists[b]
      ensures && x in h.blocks && x in h'.blocks && h'.blocks[x] == h.blocks[x] && 0 <= x && x + 2 < |h.mem|
              && h'.mem[x + 1] == h.mem[x + 1] && h'.mem[x + 2] == h.mem[x + 2] && x != h'.slop && x !in loose'
    {
      Member(h, loose, b, x);
    }
    ListFrame(h, loose, h', loose', b);
  }

  lemma RegionListed(h: Heap, loose: set<int>, h': Heap, loose': set<int>, lo: int, hi: int)
    requires Inv(h, loose) && Region(h, loose, h', loose', lo, hi)
    ensures Listed(h', loose')
  {
    forall b | 0 <= b < BUCKETS ensures ListOk(h', loose', b) {
      RegionList(h, loose, h', loose', lo, hi, b);
    }
    forall a | Free(h'.blocks, a) ensures Placed(h', loose', a) {
      if !(lo <= a < hi) {
        assert Placed(h, loose, a);
      }
    }
  }

  // ----- marking a block used or free -----

  ghost function Retag(h: Heap, a: int, used: bool): Heap
    requires a in h.blocks && 0 <= a && a + 1 + h.blocks[a].words < |h.mem| && h.blocks[a].words >= 0
  {
    var blk := Block(h.blocks[a].words, used);
    h.(mem := h.mem[a := Tag(blk)][a + 1 + blk.words := Tag(blk)], blocks := h.blocks[a := blk])
  }

  lemma RetagTiling(bs: Blocks, brk: int, a: int, used: bool)
    requires Tiling(bs, brk) && a in bs
    ensures Tiling(bs[a := Block(bs[a].words, used)], brk)
  {
    var bs' := bs[a := Block(bs[a].words, used)];
    forall c | c in bs' ensures NextOk(bs', brk, c) {
      assert NextOk(bs, brk, c);
    }
  }

  lemma RetagApart(bs: Blocks, loose: set<int>, a: int, used: bool)
    requires Apart(bs, loose) && a in bs
    requires bs[a].used || a in loose
    ensures Apart(bs[a := Block(bs[a].words, used)], if used then loose - {a} else loose + {a})
  {
    var bs' := bs[a := Block(bs[a].words, used)];
    forall c | c in bs' ensures ApartAt(bs', if used then loose - {a} else loose + {a}, c) {
      assert ApartAt(bs, loose, c);
    }
  }

  /** Rewriting the tags of block a keeps every other payload. */
  lemma TagsKeepPayload(mem: seq<int>, bs: Blocks, brk: int, a: int, v: int, c: int)
    requires |mem| == POOL && Tiling(bs, brk) && a in bs && c in bs && (c == a || !(a <= c < After(bs, a)))
    ensures SamePayload(mem, mem[a := v][a + 1 + bs[a].words := v], c, bs[c].words)
  {
    if c != a {
      InsideOne(bs, brk, a, a, c);
      InsideOne(bs, brk, a, After(bs, a) - 1, c);
    }
  }

  /** Only the payload of block a may differ. */
  lemma LiveExcept(mem: seq<int>, bs: Blocks, brk: int, mem': seq<int>, bs': Blocks, brk': int, a: int)
    requires |mem| == POOL && Tiling(bs, brk) && |mem'| == POOL && Tiling(bs', brk')
    requires forall c | c != a :: (c in bs && bs[c].used) <==> (c in bs' && bs'[c].used)
    requires forall c | c in bs && bs[c].used && c != a :: bs'[c] == bs[c] && SamePayload(mem, mem', c, bs[c].words)
    ensures Live(mem', bs', brk') - {a} == Live(mem, bs, brk) - {a}
  {
  }

  lemma RetagLive(mem: seq<int>, bs: Blocks, brk: int, a: int, used: bool, v: int)
    requires |mem| == POOL && Tiling(bs, brk) && a in bs
    requires Tiling(bs[a := Block(bs[a].words, used)], brk)
    ensures Live(mem[a := v][a + 1 + bs[a].words := v], bs[a := Block(bs[a].words, used)], brk) - {a}
            == Live(mem, bs, brk) - {a}
    ensures SamePayload(mem, mem[a := v][a + 1 + bs[a].words := v], a, bs[a].words)
  {
    var mem' := mem[a := v][a + 1 + bs[a].words := v];
    forall c | c in bs ensures SamePayload(mem, mem', c, bs[c].words) {
      if c != a { InsideOne(bs, brk, a, a, c); InsideOne(bs, brk, c, c, a); }
      TagsKeepPayload(mem, bs, brk, a, v, c);
    }
    LiveExcept(mem, bs, brk, mem', bs[a := Block(bs[a].words, used)], brk, a);
  }

  lemma RetagRegion(h: Heap, loose: set<int>, a: int, used: bool)
    requires Inv(h, loose) && a in h.blocks && (h.blocks[a].used || a in loose)
    ensures Region(h, loose, Retag(h, a, used), if used then loose - {a} else loose + {a}, a, After(h.blocks, a))
  {
    var h', hi := Retag(h, a, used), After(h.blocks, a);
    forall x | x in h.blocks && x != a ensures Outside(h.blocks, x, a, hi) && !(a <= x < hi) {
      InsideOne(h.blocks, h.brk, a, a, x);
    }
  }

  lemma RetagKeeps(h: Heap, loose: set<int>, a: int, used: bool)
    requires Inv(h, loose) && a in h.blocks && (h.blocks[a].used || a in loose)
    ensures Inv(Retag(h, a, used), if used then loose - {a} else loose + {a})
    ensures LiveOf(Retag(h, a, used)) - {a} == LiveOf(h) - {a}
    ensures SamePayload(h.mem, Retag(h, a, used).mem, a, h.blocks[a].words)
  {
    hide Tagged, Apart, Listed, Live;
    RetagTiling(h.blocks, h.brk, a, used);
    RetagLive(h.mem, h.blocks, h.brk, a, used, Tag(Block(h.blocks[a].words, used)));
    RetagApart(h.blocks, loose, a, used);
    RetagTagged(h.mem, h.blocks, h.brk, a, used);
    RetagListed(h, loose, a, used);
  }

  lemma RetagListed(h: Heap, loose: set<int>, a: int, used: bool)
    requires Inv(h, loose) && a in h.blocks && (h.blocks[a].used || a in loose)
    ensures Listed(Retag(h, a, used), if used then loose - {a} else loose + {a})
  {
    RetagRegion(h, loose, a, used);
    RegionListed(h, loose, Retag(h, a, used), if used then loose - {a} else loose + {a}, a, After(h.blocks, a));
  }

  lemma RetagTagged(mem: seq<int>, bs: Blocks, brk: int, a: int, used: bool)
    requires |mem| == POOL && Tiling(bs, brk) && Tagged(mem, bs, brk) && a in bs
    requires Tiling(bs[a := Block(bs[a].words, used)], brk)
    ensures var blk := Block(bs[a].words, used);
            Tagged(mem[a := Tag(blk)][a + 1 + blk.words := Tag(blk)], bs[a := blk], brk)
  {
    forall x | x in bs && x != a ensures After(bs, x) <= a || After(bs, a) <= x {
      InsideOne(bs, brk, a, a, x);
    }
  }

  // ----- putting a loose block on its list -----

  ghost function Push(h: Heap, a: int): Heap
    requires Free(h.blocks, a) && 0 <= a && a + 2 < |h.mem| && |h.heads| == |h.lists|
    requires 0 <= Bits(h.blocks[a].words) < |h.lists|
  {
    var b := Bits(h.blocks[a].words);
    h.(mem := h.mem[a + 2 := b][a + 1 := h.heads[b]], heads := h.heads[b := a], lists := h.lists[b := [a] + h.lists[b]])
  }

  /** Every payload is small enough for the thirty buckets. */
  lemma BucketInRange(bs: Blocks, brk: int, a: int)
    requires Tiling(bs, brk) && a in bs
    ensures 0 <= Bits(bs[a].words) < BUCKETS
  {
    BitsBound(bs[a].words, 17);
    BitsMonotone(0, bs[a].words);
    assert Pow2(17) == 131072 by {
      assert Pow2(8) == 256 && Pow2(9) == 512 && Pow2(16) == 65536;
    }
  }

  lemma PushKeepsChain(mem: seq<int>, head: int, l: seq<int>, a: int, v: int)
    requires Chain(mem, head, l) && Distinct(l) && a !in l && 0 <= a && a + 2 < |mem|
    requires forall x | x in l :: x % 2 == 1 && x >= 0
    requires a % 2 == 1
    ensures Chain(mem[a + 2 := v][a + 1 := head], a, [a] + l) && Distinct([a] + l)
  {
    var mem', l' := mem[a + 2 := v][a + 1 := head], [a] + l;
    forall k | 0 <= k < |l'| ensures LinkAt(mem', l', k) {
      if k > 0 { assert LinkAt(mem, l, k - 1) && l[k - 1] in l; }
    }
  }

  lemma PushList(h: Heap, loose: set<int>, a: int)
    requires Inv(h, loose) && a in loose
    requires 0 <= Bits(h.blocks[a].words) < BUCKETS && 1 <= a && a % 2 == 1 && a + 2 < POOL
    ensures ListOk(Push(h, a), loose - {a}, Bits(h.blocks[a].words))
  {
    hide Tagged, Apart, Live;
    var h', b := Push(h, a), Bits(h.blocks[a].words);
    assert ListOk(h, loose, b);
    forall x | x in h.lists[b] ensures x % 2 == 1 && x >= 0 && x != a { Member(h, loose, b, x); }
    PushKeepsChain(h.mem, h.heads[b], h.lists[b], a, b);
    forall k | 0 <= k < |h'.lists[b]| ensures Entry(h', loose - {a}, b, h'.lists[b][k]) {
      if k > 0 {
        var x := h.lists[b][k - 1];
        assert x in h.lists[b] && Entry(h, loose, b, x);
      }
    }
  }

  lemma PushOthers(h: Heap, loose: set<int>, a: int, c: int)
    requires Inv(h, loose) && a in loose && 0 <= c < BUCKETS && c != Bits(h.blocks[a].words)
    requires 0 <= Bits(h.blocks[a].words) < BUCKETS && 1 <= a && a % 2 == 1 && a + 2 < POOL
    ensures ListOk(Push(h, a), loose - {a}, c)
  {
    hide Tagged, Apart, Live;
    var h' := Push(h, a);
    forall x | x in h.lists[c]
      ensures x in h.blocks && 0 <= x && x + 2 < POOL && x != h.slop && x !in loose
      ensures h'.mem[x + 1] == h.mem[x + 1] && h'.mem[x + 2] == h.mem[x + 2]
    {
      Member(h, loose, c, x);
    }
    ListFrame(h, loose, h', loose - {a}, c);
  }

  lemma PushListed(h: Heap, loose: set<int>, a: int)
    requires Inv(h, loose) && a in loose
    requires 0 <= Bits(h.blocks[a].words) < BUCKETS && 1 <= a && a % 2 == 1 && a + 2 < POOL
    ensures Listed(Push(h, a), loose - {a})
  {
    hide Tagged, Apart, Live, ListOk;
    var h', loose' := Push(h, a), loose - {a};
    PushList(h, loose, a);
    forall c | 0 <= c < BUCKETS ensures ListOk(h', loose', c) {
      if c != Bits(h.blocks[a].words) { PushOthers(h, loose, a, c); }
    }
    forall c | Free(h.blocks, c) ensures Placed(h', loose', c) {
      assert Placed(h, loose, c);
    }
    if h.slop != NULL { InsideOne(h.blocks, h.brk, a, a, h.slop); }
  }

  lemma PushKeeps(h: Heap, loose: set<int>, a: int)
    requires Inv(h, loose) && a in loose && Apart(h.blocks, loose - {a})
    ensures 0 <= Bits(h.blocks[a].words) < BUCKETS && 0 <= a && a + 2 < |h.mem|
    ensures Inv(Push(h, a), loose - {a})
    ensures LiveOf(Push(h, a)) == LiveOf(h)
  {
    BucketInRange(h.blocks, h.brk, a);
    var b := Bits(h.blocks[a].words);
    PushListed(h, loose, a);
    hide Live, Listed, Apart;
    WriteFree(h.mem, h.blocks, h.brk, a, a + 2, b);
    WriteFree(h.mem[a + 2 := b], h.blocks, h.brk, a, a + 1, h.heads[b]);
  }

  // ----- splitting -----

  ghost function SplitBlocks(bs: Blocks, a: int, w: int): Blocks
    requires a in bs
  {
    bs[a := Block(w, false)][a + w + 2 := Block(bs[a].words - w - 2, false)]
  }

  /** The words split_block writes: the new block's header, bucket and end tag, and the old block's two tags. */
  ghost function SplitMem(mem: seq<int>, a: int, w: int, n: int): (mem': seq<int>)
    requires 0 <= a && 0 <= w && w + 4 <= n && a + 1 + n < |mem|
    ensures |mem'| == |mem|
  {
    var r, rw := a + w + 2, n - w - 2;
    mem[r := 4 * rw][r + 2 := -1][a := 4 * w][a + 1 + w := 4 * w][r + 1 + rw := 4 * rw]
  }

  /** split_block: block a keeps w words, the rest becomes a block of its own. */
  ghost function Split(h: Heap, a: int, w: int): Heap
    requires a in h.blocks && 0 <= a && 0 <= w && w + 4 <= h.blocks[a].words && a + 1 + h.blocks[a].words < |h.mem|
  {
    h.(mem := SplitMem(h.mem, a, w, h.blocks[a].words), blocks := SplitBlocks(h.blocks, a, w))
  }

  ghost predicate Splittable(bs: Blocks, a: int, w: int) {
    Free(bs, a) && 2 <= w && w % 2 == 0 && w + 4 <= bs[a].words
  }

  lemma SplitFresh(bs: Blocks, brk: int, a: int, w: int)
    requires Tiling(bs, brk) && Splittable(bs, a, w)
    ensures a + w + 2 !in bs
  {
  }

  lemma SplitTiling(bs: Blocks, brk: int, a: int, w: int)
    requires Tiling(bs, brk) && Splittable(bs, a, w)
    ensures Tiling(SplitBlocks(bs, a, w), brk)
  {
    var bs' := SplitBlocks(bs, a, w);
    SplitFresh(bs, brk, a, w);
    SplitLinks(bs, brk, a, w);
    forall c, d | c in bs' && d in bs' && c < d ensures After(bs', c) <= d {
      SplitOrder(bs, brk, a, w, c, d);
    }
  }

  lemma SplitLinks(bs: Blocks, brk: int, a: int, w: int)
    requires Tiling(bs, brk) && Splittable(bs, a, w) && a + w + 2 !in bs
    ensures var bs' := SplitBlocks(bs, a, w);
            forall c {:trigger NextOk(bs', brk, c)} | c in bs' :: NextOk(bs', brk, c)
  {
    var bs' := SplitBlocks(bs, a, w);
    forall c | c in bs' ensures NextOk(bs', brk, c) {
      assert NextOk(bs, brk, if c == a + w + 2 then a else c);
    }
  }

  lemma SplitOrder(bs: Blocks, brk: int, a: int, w: int, c: int, d: int)
    requires Tiling(bs, brk) && Splittable(bs, a, w)
    requires c in SplitBlocks(bs, a, w) && d in SplitBlocks(bs, a, w) && c < d
    ensures After(SplitBlocks(bs, a, w), c) <= d
  {
    SplitFresh(bs, brk, a, w);
    if c in bs && c != a { SplitSides(bs, brk, a, w, c); }
    if d in bs && d != a { SplitSides(bs, brk, a, w, d); }
  }

  lemma SplitSides(bs: Blocks, brk: int, a: int, w: int, x: int)
    requires Tiling(bs, brk) && Splittable(bs, a, w) && x in bs && x != a
    ensures After(bs, x) <= a || After(bs, a) <= x
  {
    InsideOne(bs, brk, a, a, x);
    InsideOne(bs, brk, x, x, a);
  }

  lemma SplitTagged(mem: seq<int>, bs: Blocks, brk: int, a: int, w: int)
    requires |mem| == POOL && Tiling(bs, brk) && Tagged(mem, bs, brk) && Splittable(bs, a, w)
    requires Tiling(SplitBlocks(bs, a, w), brk)
    ensures 0 <= a && a + 1 + bs[a].words < POOL
    ensures var mem', bs' := SplitMem(mem, a, w, bs[a].words), SplitBlocks(bs, a, w);
            Tagged(mem', bs', brk)
  {
    hide Live, Tiling;
    Bounds(bs, brk, a);
    SplitFresh(bs, brk, a, w);
    var mem', bs' := SplitMem(mem, a, w, bs[a].words), SplitBlocks(bs, a, w);
    forall x | x in bs && x != a ensures SameBlock(mem, mem', x, bs[x].words) {
      SplitOther(mem, bs, brk, a, w, x);
    }
  }

  lemma SplitLive(mem: seq<int>, bs: Blocks, brk: int, a: int, w: int)
    requires |mem| == POOL && Tiling(bs, brk) && Splittable(bs, a, w) && Tiling(SplitBlocks(bs, a, w), brk)
    requires 0 <= a && a + 1 + bs[a].words < POOL
    ensures Live(SplitMem(mem, a, w, bs[a].words), SplitBlocks(bs, a, w), brk) == Live(mem, bs, brk)
  {
    hide Live, Tiling, SplitMem;
    SplitFresh(bs, brk, a, w);
    var mem' := SplitMem(mem, a, w, bs[a].words);
    forall x | x in bs && x != a ensures SameBlock(mem, mem', x, bs[x].words) {
      SplitOther(mem, bs, brk, a, w, x);
    }
    LiveFrame(mem, bs, brk, mem', SplitBlocks(bs, a, w), brk);
  }

  lemma SplitOther(mem: seq<int>, bs: Blocks, brk: int, a: int, w: int, x: int)
    requires |mem| == POOL && Tiling(bs, brk) && Splittable(bs, a, w) && x in bs && x != a
    ensures 0 <= a && a + 1 + bs[a].words < POOL
    ensures SameBlock(mem, SplitMem(mem, a, w, bs[a].words), x, bs[x].words)
  {
    Bounds(bs, brk, a);
    Bounds(bs, brk, x);
    SplitSides(bs, brk, a, w, x);
  }

  lemma SplitApart(bs: Blocks, loose: set<int>, a: int, w: int)
    requires Apart(bs, loose) && Splittable(bs, a, w) && a in loose
    ensures Apart(SplitBlocks(bs, a, w), loose + {a + w + 2})
  {
    var r := a + w + 2;
    forall c | c in SplitBlocks(bs, a, w) ensures ApartAt(SplitBlocks(bs, a, w), loose + {r}, c) {
      if c != a && c != r { assert ApartAt(bs, loose, c); }
    }
  }

  lemma LooseFree(h: Heap, loose: set<int>, a: int)
    requires Listed(h, loose) && a in loose
    ensures Free(h.blocks, a)
  {
  }

  lemma SplitListed(h: Heap, loose: set<int>, a: int, w: int)
    requires Inv(h, loose) && a in loose && Splittable(h.blocks, a, w)
    ensures Listed(Split(h, a, w), loose + {a + w + 2})
  {
    hide Tagged, Apart, Live, Listed;
    var hi := After(h.blocks, a);
    SplitFresh(h.blocks, h.brk, a, w);
    forall x | x in h.blocks && x != a ensures Outside(h.blocks, x, a, hi) && !(a <= x < hi) {
      SplitSides(h.blocks, h.brk, a, w, x);
    }
    forall x | x in loose ensures x in h.blocks { LooseFree(h, loose, x); }
    RegionListed(h, loose, Split(h, a, w), loose + {a + w + 2}, a, hi);
  }

  lemma SplitKeeps(h: Heap, loose: set<int>, a: int, w: int)
    requires Inv(h, loose) && a in loose && Splittable(h.blocks, a, w)
    ensures 0 <= a && a + 1 + h.blocks[a].words < |h.mem|
    ensures a + w + 2 !in h.blocks && Inv(Split(h, a, w), loose + {a + w + 2})
    ensures LiveOf(Split(h, a, w)) == LiveOf(h)
    ensures Split(h, a, w).mem[a + w + 4] == -1
  {
    hide Tagged, Apart, Live, Listed;
    Bounds(h.blocks, h.brk, a);
    SplitFresh(h.blocks, h.brk, a, w);
    SplitTiling(h.blocks, h.brk, a, w);
    SplitTagged(h.mem, h.blocks, h.brk, a, w);
    SplitLive(h.mem, h.blocks, h.brk, a, w);
    SplitApart(h.blocks, loose, a, w);
    SplitListed(h, loose, a, w);
  }

  /** Splitting a block for the slop: the rest has no free neighbour but rv, so it may leave the loose blocks. */
  lemma SplitSlopApart(bs: Blocks, brk: int, a: int, w: int)
    requires Tiling(bs, brk) && Apart(bs, {}) && Splittable(bs, a, w)
    ensures Apart(SplitBlocks(bs, a, w), {a})
  {
    var r := a + w + 2;
    forall c | c in SplitBlocks(bs, a, w) ensures ApartAt(SplitBlocks(bs, a, w), {a}, c) {
      assert ApartAt(bs, {}, if c == r then a else c);
      if c != r && c != a { SplitSides(bs, brk, a, w, c); }
    }
  }

  lemma SplitToSlopKeeps(h: Heap, a: int, w: int)
    requires Inv(h, {a}) && h.slop == NULL && Apart(h.blocks, {}) && Splittable(h.blocks, a, w)
    ensures 0 <= a && a + 1 + h.blocks[a].words < |h.mem|
    ensures Inv(SetSlop(Split(h, a, w), a + w + 2), {a}) && LiveOf(SetSlop(Split(h, a, w), a + w + 2)) == LiveOf(h)
  {
    hide Tagged, Apart, Listed, Live, Tiling;
    var r := a + w + 2;
    Bounds(h.blocks, h.brk, a);
    SplitKeeps(h, {a}, a, w);
    SplitSlopApart(h.blocks, h.brk, a, w);
    Bounds(Split(h, a, w).blocks, h.brk, r);
    assert {a} + {r} - {r} == {a};
    SetSlopKeeps(Split(h, a, w), {a} + {r}, r);
  }

  // ----- joining -----

  ghost function JoinBlocks(bs: Blocks, a: int): Blocks
    requires a in bs && After(bs, a) in bs
  {
    var c := After(bs, a);
    (bs - {c})[a := Block(bs[a].words + bs[c].words + 2, false)]
  }

  /** The words merge writes for a block that has grown to w words. */
  ghost function JoinMem(mem: seq<int>, a: int, w: int): (mem': seq<int>)
    requires 0 <= a && 2 <= w && a + 1 + w < |mem|
    ensures |mem'| == |mem|
  {
    mem[a := 4 * w][a + 2 := -1][a + 1 + w := 4 * w]
  }

  ghost predicate Joinable(bs: Blocks, a: int) {
    Free(bs, a) && Free(bs, After(bs, a))
  }

  /** The tail of merge: the loose block a absorbs its loose successor. */
  ghost function Join(h: Heap, a: int): Heap
    requires Joinable(h.blocks, a) && 0 <= a
    requires var w := JoinBlocks(h.blocks, a)[a].words; 2 <= w && a + 1 + w < |h.mem|
  {
    h.(mem := JoinMem(h.mem, a, JoinBlocks(h.blocks, a)[a].words), blocks := JoinBlocks(h.blocks, a))
  }

  /** Every other block lies on one side of the two. */
  lemma JoinSides(bs: Blocks, brk: int, a: int, x: int)
    requires Tiling(bs, brk) && Joinable(bs, a) && x in bs && x != a && x != After(bs, a)
    ensures After(bs, x) <= a || After(bs, After(bs, a)) <= x
  {
    InsideOne(bs, brk, x, x, a);
    InsideOne(bs, brk, x, x, After(bs, a));
    InsideOne(bs, brk, a, a, x);
  }

  lemma JoinTiling(bs: Blocks, brk: int, a: int)
    requires Tiling(bs, brk) && Joinable(bs, a)
    ensures Tiling(JoinBlocks(bs, a), brk)
  {
    JoinLinks(bs, brk, a);
    var bs' := JoinBlocks(bs, a);
    forall x, y | x in bs' && y in bs' && x < y ensures After(bs', x) <= y {
      if x == a { JoinSides(bs, brk, a, y); }
    }
  }

  lemma JoinLinks(bs: Blocks, brk: int, a: int)
    requires Tiling(bs, brk) && Joinable(bs, a)
    ensures var bs' := JoinBlocks(bs, a);
            forall x {:trigger NextOk(bs', brk, x)} | x in bs' :: NextOk(bs', brk, x)
  {
    var bs', c := JoinBlocks(bs, a), After(bs, a);
    forall x | x in bs' ensures NextOk(bs', brk, x) {
      assert NextOk(bs, brk, if x == a then c else x);
      if x != a { JoinSides(bs, brk, a, x); }
    }
  }

  lemma JoinApart(bs: Blocks, brk: int, loose: set<int>, a: int)
    requires Tiling(bs, brk) && Apart(bs, loose) && Joinable(bs, a) && a in loose && After(bs, a) in loose
    ensures Apart(JoinBlocks(bs, a), loose - {After(bs, a)})
  {
    var bs', c := JoinBlocks(bs, a), After(bs, a);
    forall x | x in bs' ensures ApartAt(bs', loose - {c}, x) {
      if x != a {
        assert ApartAt(bs, loose, x);
        JoinSides(bs, brk, a, x);
      }
    }
  }

  lemma JoinTagged(mem: seq<int>, bs: Blocks, brk: int, a: int)
    requires |mem| == POOL && Tiling(bs, brk) && Tagged(mem, bs, brk) && Joinable(bs, a)
    requires Tiling(JoinBlocks(bs, a), brk)
    ensures var w := JoinBlocks(bs, a)[a].words; 0 <= a && 2 <= w && a + 1 + w < POOL
    ensures var mem', bs' := JoinMem(mem, a, JoinBlocks(bs, a)[a].words), JoinBlocks(bs, a);
            Tagged(mem', bs', brk)
  {
    hide Live, Tiling;
    var c := After(bs, a);
    Bounds(bs, brk, a);
    Bounds(bs, brk, c);
    var mem', bs' := JoinMem(mem, a, JoinBlocks(bs, a)[a].words), JoinBlocks(bs, a);
    forall x | x in bs && x != a && x != c ensures SameBlock(mem, mem', x, bs[x].words) {
      JoinOther(mem, bs, brk, a, x);
    }
  }

  lemma JoinLive(mem: seq<int>, bs: Blocks, brk: int, a: int)
    requires |mem| == POOL && Tiling(bs, brk) && Joinable(bs, a) && Tiling(JoinBlocks(bs, a), brk)
    requires var w := JoinBlocks(bs, a)[a].words; 0 <= a && 2 <= w && a + 1 + w < POOL
    ensures Live(JoinMem(mem, a, JoinBlocks(bs, a)[a].words), JoinBlocks(bs, a), brk) == Live(mem, bs, brk)
  {
    hide Live, Tiling, JoinMem;
    var mem' := JoinMem(mem, a, JoinBlocks(bs, a)[a].words);
    forall x | x in bs && x != a && x != After(bs, a) ensures SameBlock(mem, mem', x, bs[x].words) {
      JoinOther(mem, bs, brk, a, x);
    }
    LiveFrame(mem, bs, brk, mem', JoinBlocks(bs, a), brk);
  }

  lemma JoinOther(mem: seq<int>, bs: Blocks, brk: int, a: int, x: int)
    requires |mem| == POOL && Tiling(bs, brk) && Joinable(bs, a) && x in bs && x != a && x != After(bs, a)
    ensures var w := JoinBlocks(bs, a)[a].words; 0 <= a && 2 <= w && a + 1 + w < POOL
    ensures SameBlock(mem, JoinMem(mem, a, JoinBlocks(bs, a)[a].words), x, bs[x].words)
  {
    Bounds(bs, brk, a);
    Bounds(bs, brk, After(bs, a));
    Bounds(bs, brk, x);
    JoinSides(bs, brk, a, x);
  }

  lemma JoinListed(h: Heap, loose: set<int>, a: int)
    requires Inv(h, loose) && Joinable(h.blocks, a) && a in loose && After(h.blocks, a) in loose
    ensures Listed(Join(h, a), loose - {After(h.blocks, a)})
  {
    hide Tagged, Apart, Live, Listed;
    var c := After(h.blocks, a);
    var hi := After(h.blocks, c);
    forall x | x in h.blocks && x != a && x != c ensures Outside(h.blocks, x, a, hi) && !(a <= x < hi) {
      JoinSides(h.blocks, h.brk, a, x);
    }
    forall x | x in loose ensures x in h.blocks { LooseFree(h, loose, x); }
    RegionListed(h, loose, Join(h, a), loose - {c}, a, hi);
  }

  lemma JoinKeeps(h: Heap, loose: set<int>, a: int)
    requires Inv(h, loose) && Joinable(h.blocks, a) && a in loose && After(h.blocks, a) in loose
    ensures var w := JoinBlocks(h.blocks, a)[a].words; 0 <= a && 2 <= w && a + 1 + w < |h.mem|
    ensures Inv(Join(h, a), loose - {After(h.blocks, a)})
    ensures LiveOf(Join(h, a)) == LiveOf(h)
    ensures Join(h, a).mem[a + 2] == -1
  {
    hide Tagged, Apart, Live, Listed;
    JoinTiling(h.blocks, h.brk, a);
    JoinTagged(h.mem, h.blocks, h.brk, a);
    JoinLive(h.mem, h.blocks, h.brk, a);
    JoinApart(h.blocks, h.brk, loose, a);
    JoinListed(h, loose, a);
  }

  // ----- growing -----

  ghost predicate Growable(brk: int, n: int) {
    0 <= brk && brk % 2 == 0 && 2 <= n && n % 2 == 0 && brk + n + 4 <= POOL
  }

  ghost function GrowMem(mem: seq<int>, brk: int, n: int): (mem': seq<int>)
    requires |mem| == POOL && Growable(brk, n)
    ensures |mem'| == POOL
  {
    var at, w := GrowAt(brk), GrowWords(brk, n);
    (if brk == 0 then mem[0 := 1] else mem)[at := 4 * w][at + 1 + w := 4 * w][at + 2 + w := 1]
  }

  ghost function GrowBlocks(bs: Blocks, brk: int, n: int): Blocks {
    bs[GrowAt(brk) := Block(GrowWords(brk, n), false)]
  }

  ghost function Grow(h: Heap, n: int): Heap
    requires |h.mem| == POOL && Growable(h.brk, n)
  {
    h.(mem := GrowMem(h.mem, h.brk, n), brk := h.brk + n + 4, blocks := GrowBlocks(h.blocks, h.brk, n))
  }

  lemma GrowLinks(bs: Blocks, brk: int, n: int)
    requires Tiling(bs, brk) && Growable(brk, n)
    ensures GrowAt(brk) !in bs
    ensures var bs' := GrowBlocks(bs, brk, n);
            forall x {:trigger NextOk(bs', brk + n + 4, x)} | x in bs' :: NextOk(bs', brk + n + 4, x)
  {
    var bs' := GrowBlocks(bs, brk, n);
    forall x | x in bs' ensures NextOk(bs', brk + n + 4, x) {
      if x in bs {
        Bounds(bs, brk, x);
        assert NextOk(bs, brk, x);
      }
    }
  }

  lemma GrowTiling(bs: Blocks, brk: int, n: int)
    requires Tiling(bs, brk) && Growable(brk, n)
    ensures GrowAt(brk) !in bs
    ensures Tiling(GrowBlocks(bs, brk, n), brk + n + 4)
  {
    GrowLinks(bs, brk, n);
    var bs', at, w := GrowBlocks(bs, brk, n), GrowAt(brk), GrowWords(brk, n);
    forall x | x in bs ensures brk > 0 && After(bs, x) <= at {
      Bounds(bs, brk, x);
    }
    assert at % 2 == 1 && w % 2 == 0 && at + w + 2 == brk + n + 3;
    forall c, d | c in bs' && d in bs' && c < d ensures After(bs', c) <= d {
      assert c in bs && c != at;
    }
  }

  lemma GrowApart(bs: Blocks, brk: int, loose: set<int>, n: int)
    requires Tiling(bs, brk) && Apart(bs, loose) && Growable(brk, n)
    ensures Apart(GrowBlocks(bs, brk, n), loose + {GrowAt(brk)})
  {
    var bs', loose' := GrowBlocks(bs, brk, n), loose + {GrowAt(brk)};
    forall x | x in bs' ensures ApartAt(bs', loose', x) {
      if x != GrowAt(brk) { assert ApartAt(bs, loose, x); }
    }
  }

  lemma GrowTagged(mem: seq<int>, bs: Blocks, brk: int, n: int)
    requires |mem| == POOL && Tiling(bs, brk) && Tagged(mem, bs, brk) && Growable(brk, n)
    requires GrowAt(brk) !in bs && Tiling(GrowBlocks(bs, brk, n), brk + n + 4)
    ensures Tagged(GrowMem(mem, brk, n), GrowBlocks(bs, brk, n), brk + n + 4)
    ensures Live(GrowMem(mem, brk, n), GrowBlocks(bs, brk, n), brk + n + 4) == Live(mem, bs, brk)
  {
    hide Live, Tiling;
    var mem', bs' := GrowMem(mem, brk, n), GrowBlocks(bs, brk, n);
    forall x | x in bs ensures x > 0 && brk > 0 && SameBlock(mem, mem', x, bs[x].words) {
      Bounds(bs, brk, x);
    }
    LiveFrame(mem, bs, brk, mem', bs', brk + n + 4);
  }

  lemma GrowListed(h: Heap, loose: set<int>, n: int)
    requires Inv(h, loose) && Growable(h.brk, n) && GrowAt(h.brk) !in h.blocks
    ensures Listed(Grow(h, n), loose + {GrowAt(h.brk)})
  {
    hide Tagged, Apart, Live, Listed, Tiling;
    var at := GrowAt(h.brk);
    var lo := if h.brk == 0 then 0 else at;
    forall x | x in h.blocks ensures Outside(h.blocks, x, lo, h.brk + n + 4) && !(lo <= x) {
      Bounds(h.blocks, h.brk, x);
    }
    forall x | x in loose ensures x in h.blocks { LooseFree(h, loose, x); }
    RegionListed(h, loose, Grow(h, n), loose + {at}, lo, h.brk + n + 4);
  }

  /** Memory from sbrk becomes a loose block; the end marker moves to the new end. */
  lemma GrowKeeps(h: Heap, loose: set<int>, n: int)
    requires Inv(h, loose) && Growable(h.brk, n)
    ensures Inv(Grow(h, n), loose + {GrowAt(h.brk)}) && GrowAt(h.brk) !in h.blocks
    ensures LiveOf(Grow(h, n)) == LiveOf(h)
  {
    hide Tagged, Apart, Live, Listed;
    GrowTiling(h.blocks, h.brk, n);
    GrowTagged(h.mem, h.blocks, h.brk, n);
    GrowApart(h.blocks, h.brk, loose, n);
    GrowListed(h, loose, n);
  }

  // ----- the bucket word of a loose block -----

  lemma BucketWriteKeeps(h: Heap, loose: set<int>, c: int, v: int)
    requires Inv(h, loose) && c in loose
    ensures 0 <= c && c + 2 < |h.mem|
    ensures var h' := h.(mem := h.mem[c + 2 := v]); Inv(h', loose) && LiveOf(h') == LiveOf(h)
  {
    hide Tagged, Apart, Live, Listed;
    LooseFree(h, loose, c);
    Bounds(h.blocks, h.brk, c);
    WriteFree(h.mem, h.blocks, h.brk, c, c + 2, v);
    BucketWriteListed(h, loose, c, v);
  }

  lemma BucketWriteListed(h: Heap, loose: set<int>, c: int, v: int)
    requires Inv(h, loose) && Free(h.blocks, c) && c in loose && 0 <= c && c + 2 < After(h.blocks, c) < POOL
    ensures Listed(h.(mem := h.mem[c + 2 := v]), loose)
  {
    hide Tagged, Apart, Live, Listed;
    forall x | x in h.blocks && x != c
      ensures Outside(h.blocks, x, c, After(h.blocks, c)) && !(c <= x < After(h.blocks, c))
    {
      InsideOne(h.blocks, h.brk, c, c, x);
      InsideOne(h.blocks, h.brk, x, x, c);
    }
    forall x | x in loose ensures Free(h.blocks, x) { LooseFree(h, loose, x); }
    RegionListed(h, loose, h.(mem := h.mem[c + 2 := v]), loose, c, After(h.blocks, c));
  }

  // ----- neighbours -----

  /** The word before a block is its predecessor's end tag, or the start marker. */
  lemma Predecessor(h: Heap, loose: set<int>, x: int) returns (p: int)
    requires Inv(h, loose) && x in h.blocks
    ensures x == 1 ==> h.mem[0] == 1
    ensures x != 1 ==> p in h.blocks && After(h.blocks, p) == x && 1 <= p && h.mem[x - 1] == Tag(h.blocks[p])
  {
    if x != 1 {
      p := PredecessorFrom(h.blocks, h.brk, 1, x);
      TagsOf(h, p);
    } else {
      p := 1;
    }
  }

  lemma PredecessorFrom(bs: Blocks, brk: int, c: int, x: int) returns (p: int)
    requires Tiling(bs, brk) && c in bs && x in bs && c < x
    ensures p in bs && After(bs, p) == x
    decreases x - c
  {
    Bounds(bs, brk, c);
    Bounds(bs, brk, x);
    assert NextOk(bs, brk, c);
    if After(bs, c) == x {
      return c;
    }
    p := PredecessorFrom(bs, brk, After(bs, c), x);
  }

  ghost predicate LeftUsed(bs: Blocks, x: int) {
    forall p | p in bs && After(bs, p) == x :: bs[p].used
  }

  ghost predicate RightUsed(bs: Blocks, x: int)
    requires x in bs
  {
    After(bs, x) in bs ==> bs[After(bs, x)].used
  }

  /** Once both neighbours of the only loose block are used, no two free blocks are adjacent. */
  lemma ApartTight(bs: Blocks, x: int)
    requires Apart(bs, {x}) && x in bs && LeftUsed(bs, x) && RightUsed(bs, x)
    ensures Apart(bs, {})
  {
    forall a | a in bs ensures ApartAt(bs, {}, a) {
      assert ApartAt(bs, {x}, a);
    }
  }

  /** Absorbing into a free predecessor: its own predecessor is used. */
  lemma JoinLeft(bs: Blocks, brk: int, a: int, x: int)
    requires Tiling(bs, brk) && Apart(bs, {x}) && Joinable(bs, a) && x == After(bs, a)
    ensures LeftUsed(JoinBlocks(bs, a), a)
  {
    forall p | p in JoinBlocks(bs, a) && After(JoinBlocks(bs, a), p) == a ensures JoinBlocks(bs, a)[p].used {
      Bounds(bs, brk, a);
      Bounds(bs, brk, x);
      assert ApartAt(bs, {x}, p);
    }
  }

  lemma JoinRight(bs: Blocks, brk: int, x: int)
    requires Tiling(bs, brk) && Apart(bs, {x}) && Joinable(bs, x)
    ensures RightUsed(JoinBlocks(bs, x), x)
    ensures LeftUsed(bs, x) ==> LeftUsed(JoinBlocks(bs, x), x)
  {
    var c := After(bs, x);
    Bounds(bs, brk, x);
    Bounds(bs, brk, c);
    assert ApartAt(bs, {x}, c);
    var bs' := JoinBlocks(bs, x);
    forall p | p in bs' && After(bs', p) == x ensures p in bs && After(bs, p) == x {
    }
  }

  lemma LeftUsedBy(bs: Blocks, brk: int, x: int, p: int)
    requires Tiling(bs, brk) && x in bs && (x == 1 || (p in bs && After(bs, p) == x && bs[p].used))
    ensures LeftUsed(bs, x)
  {
    forall q | q in bs && After(bs, q) == x ensures bs[q].used {
      Bounds(bs, brk, q);
      if x != 1 && q != p { InsideOne(bs, brk, p, x - 1, q); }
    }
  }

  /** The word at a block's end is its successor's header, or the end marker. */
  lemma Successor(h: Heap, loose: set<int>, x: int)
    requires Inv(h, loose) && x in h.blocks
    ensures 0 <= After(h.blocks, x) < POOL
    ensures if After(h.blocks, x) in h.blocks then h.mem[After(h.blocks, x)] == Tag(h.blocks[After(h.blocks, x)])
            else h.mem[After(h.blocks, x)] == 1
  {
    assert NextOk(h.blocks, h.brk, x);
    Bounds(h.blocks, h.brk, x);
  }

  // ----- writes by the owner of a live payload -----

  lemma OwnerWriteListed(h: Heap, y: int, i: int, v: int)
    requires Inv(h, {}) && y in h.blocks && h.blocks[y].used && 0 <= y < i < y + 1 + h.blocks[y].words < POOL
    ensures Listed(h.(mem := h.mem[i := v]), {})
  {
    hide Tagged, Apart, Live, Listed;
    forall x | x in h.blocks && x != y
      ensures Outside(h.blocks, x, y, After(h.blocks, y)) && !(y <= x < After(h.blocks, y))
    {
      InsideOne(h.blocks, h.brk, y, y, x);
      InsideOne(h.blocks, h.brk, x, x, y);
    }
    Bounds(h.blocks, h.brk, y);
    RegionListed(h, {}, h.(mem := h.mem[i := v]), {}, y, After(h.blocks, y));
  }

  lemma OwnerWriteTagged(mem: seq<int>, bs: Blocks, brk: int, y: int, i: int, v: int)
    requires |mem| == POOL && Tiling(bs, brk) && Tagged(mem, bs, brk)
    requires y in bs && 0 <= y < i < y + 1 + bs[y].words < POOL
    ensures Tagged(mem[i := v], bs, brk)
    ensures forall x | x in bs && x != y :: SamePayload(mem, mem[i := v], x, bs[x].words)
  {
    forall a | a in bs && a != y ensures i < a || After(bs, a) <= i {
      InsideOne(bs, brk, y, i, a);
    }
  }

  lemma OwnerWriteLive(mem: seq<int>, bs: Blocks, brk: int, y: int, i: int, v: int)
    requires |mem| == POOL && Tiling(bs, brk) && y in bs && bs[y].used && 0 <= y < i < y + 1 + bs[y].words < POOL
    requires forall x | x in bs && x != y :: SamePayload(mem, mem[i := v], x, bs[x].words)
    ensures Live(mem[i := v], bs, brk) == Live(mem, bs, brk)[y := Live(mem, bs, brk)[y][i - y - 1 := v]]
  {
    hide Tiling;
    var n := y + 1 + bs[y].words;
    assert mem[i := v][y + 1 .. n] == mem[y + 1 .. n][i - y - 1 := v];
    assert Live(mem[i := v], bs, brk).Keys == Live(mem, bs, brk).Keys;
  }

  /** What a live payload is. */
  lemma OwnerBlock(h: Heap, loose: set<int>, y: int)
    requires Inv(h, loose) && y in LiveOf(h)
    ensures y in h.blocks && h.blocks[y].used && 1 <= y && y + 1 + h.blocks[y].words < POOL
    ensures LiveOf(h)[y] == h.mem[y + 1 .. y + 1 + h.blocks[y].words] && |LiveOf(h)[y]| == h.blocks[y].words
  {
    hide Listed, Tagged, Apart;
    Bounds(h.blocks, h.brk, y);
  }

  lemma OwnerWord(h: Heap, loose: set<int>, y: int, i: int)
    requires Inv(h, loose) && y in LiveOf(h) && 0 <= i < |LiveOf(h)[y]|
    ensures 0 <= y && y + 1 + i < |h.mem| && h.mem[y + 1 + i] == LiveOf(h)[y][i]
  {
    hide Listed, Tagged, Apart, Tiling, LiveOf;
    OwnerBlock(h, loose, y);
  }

  /** The owner may write any word of a live payload: nothing else changes. */
  lemma OwnerWriteKeeps(h: Heap, y: int, i: int, v: int)
    requires Inv(h, {}) && y in LiveOf(h) && 0 <= i < |LiveOf(h)[y]|
    ensures 0 <= y && y + 1 + i < |h.mem| && h.mem[y + 1 + i] == LiveOf(h)[y][i]
    ensures var h' := h.(mem := h.mem[y + 1 + i := v]);
            Inv(h', {}) && LiveOf(h') == LiveOf(h)[y := LiveOf(h)[y][i := v]]
  {
    hide Listed, Tagged, Apart, Tiling, Live;
    OwnerBlock(h, {}, y);
    OwnerWord(h, {}, y, i);
    OwnerWriteListed(h, y, y + 1 + i, v);
    OwnerWriteTagged(h.mem, h.blocks, h.brk, y, y + 1 + i, v);
    OwnerWriteLive(h.mem, h.blocks, h.brk, y, y + 1 + i, v);
  }

  // ----- the neighbours of a freed block -----

  lemma FreeBeforeIs(bs: Blocks, brk: int, x: int, p: int)
    requires Tiling(bs, brk) && Free(bs, p) && After(bs, p) == x
    ensures FreeBefore(bs, x) == p && p != NULL
  {
    var q := FreeBefore(bs, x);
    Bounds(bs, brk, p);
    if q != p {
      Bounds(bs, brk, q);
      InsideOne(bs, brk, p, x - 1, q);
    }
  }

  lemma NoFreeBefore(bs: Blocks, x: int)
    requires LeftUsed(bs, x)
    ensures FreeBefore(bs, x) == NULL
  {
  }

  lemma NoFreeAfter(bs: Blocks, x: int)
    requires x in bs && RightUsed(bs, x)
    ensures FreeAfter(bs, x) == NULL
  {
  }

  /** Merging first with the block before x, then with the one after, meets the neighbours that x had when it was
      used. */
  lemma MergedShape(bs: Blocks, brk: int, x: int, bs1: Blocks, bs2: Blocks, bs3: Blocks)
    requires Tiling(bs, brk) && x in bs && bs[x].used && bs1 == bs[x := Block(bs[x].words, false)]
    requires var p := FreeBefore(bs1, x);
             (p != NULL ==> Joinable(bs1, p)) && bs2 == if p == NULL then bs1 else JoinBlocks(bs1, p)
    requires var m := MergedAt(bs1, x);
             var n := FreeAfter(bs2, m);
             (n != NULL ==> Joinable(bs2, m)) && bs3 == if n == NULL then bs2 else JoinBlocks(bs2, m)
    ensures FreeBefore(bs1, x) == FreeBefore(bs, x) && MergedAt(bs1, x) == MergedAt(bs, x)
    ensures FreeAfter(bs2, MergedAt(bs1, x)) == FreeAfter(bs, x)
    ensures MergedAt(bs, x) in bs3 && bs3[MergedAt(bs, x)].words == MergedEnd(bs, x) - MergedAt(bs, x) - 2
  {
    SameBefore(bs, brk, x, bs1);
    var p := FreeBefore(bs1, x);
    Bounds(bs, brk, x);
    if p != NULL { Bounds(bs, brk, p); }
    var m, y := MergedAt(bs1, x), After(bs, x);
    assert m in bs2 && After(bs2, m) == y && y != x && y != p;
    assert y in bs2 <==> y in bs;
    if y in bs { Bounds(bs, brk, y); }
  }

  lemma SameBefore(bs: Blocks, brk: int, x: int, bs1: Blocks)
    requires Tiling(bs, brk) && x in bs && bs[x].used && bs1 == bs[x := Block(bs[x].words, false)]
    ensures FreeBefore(bs1, x) == FreeBefore(bs, x) && (FreeBefore(bs, x) != NULL ==> FreeBefore(bs, x) in bs)
  {
    Bounds(bs, brk, x);
    var p, q := FreeBefore(bs, x), FreeBefore(bs1, x);
    RetagTiling(bs, brk, x, false);
    if p != NULL {
      assert p != x;
      FreeBeforeIs(bs1, brk, x, p);
    } else if q != NULL {
      assert q != x;
      FreeBeforeIs(bs, brk, x, q);
    }
  }
}
