/** instantiateMultiArray of the KVM: an n-dimensional array built level by level, where the arrays of a level are
    chained through their own slot 0 until the next level fills them.

    References are indices into the heap; 0 is NULL, and index 0 holds no object. */
module MultiArray {

  const NULL := 0
  const MAX_LENGTH := 0x100_0000

  /** An array class, or anything that is not one. */
  datatype Class = Other | ArrayOf(elem: Class)

  datatype ArrayObj = ArrayObj(ofClass: Class, slots: seq<int>)

  function Zeros(n: nat): (r: seq<int>)
    ensures |r| == n && forall i | 0 <= i < n :: r[i] == NULL
  {
    seq(n, _ => NULL)
  }

  /** The class of the arrays at depth d. */
  function ClassAt(c: Class, d: nat): Class {
    if d == 0 then c else match c case ArrayOf(e) => ClassAt(e, d - 1) case Other => Other
  }

  function Depth(c: Class): nat {
    match c case Other => 0 case ArrayOf(e) => 1 + Depth(e)
  }

  lemma {:induction false} ClassAtNext(c: Class, d: nat)
    requires d < Depth(c)
    ensures ClassAt(c, d).ArrayOf? && ClassAt(c, d + 1) == ClassAt(c, d).elem
  {
    if d > 0 { ClassAtNext(c.elem, d - 1); }
  }

  // ----- levels -----

  /** The arrays of one level: the references lo, ..., hi - 1, of class cls and length len. */
  datatype Level = Level(lo: int, hi: int, cls: Class, len: int)

  /** A level waiting to be filled: chained downwards through slot 0, everything else zero. */
  ghost predicate Chained(heap: seq<ArrayObj>, l: Level) {
    && 1 <= l.lo <= l.hi <= |heap| && 0 < l.len
    && forall p | l.lo <= p < l.hi :: heap[p] == ChainNode(l, p)
  }

  function ChainNode(l: Level, p: int): ArrayObj
    requires 0 < l.len
  {
    ArrayObj(l.cls, Zeros(l.len)[0 := if p == l.lo then NULL else p - 1])
  }

  /** A last level: all slots are zero. */
  ghost predicate Leaves(heap: seq<ArrayObj>, l: Level) {
    && 1 <= l.lo <= l.hi <= |heap| && 0 <= l.len
    && forall p | l.lo <= p < l.hi :: heap[p] == ArrayObj(l.cls, Zeros(l.len))
  }

  /** The j-th child of p, when the parents are served from the highest reference down and children allocated
      upwards. */
  function Child(l: Level, first: int, p: int, j: int): int {
    first + (l.hi - 1 - p) * l.len + j
  }

  /** Level l is filled with the arrays of level c. */
  ghost predicate Filled(heap: seq<ArrayObj>, l: Level, c: Level) {
    && 1 <= l.lo <= l.hi <= c.lo <= c.hi <= |heap| && 0 < l.len
    && c.hi - c.lo == (l.hi - l.lo) * l.len
    && forall p | l.lo <= p < l.hi :: FilledNode(heap, l, c.lo, p)
  }

  ghost predicate FilledNode(heap: seq<ArrayObj>, l: Level, first: int, p: int)
    requires 0 <= p < |heap|
  {
    && heap[p].ofClass == l.cls && |heap[p].slots| == l.len
    && forall j | 0 <= j < l.len :: heap[p].slots[j] == Child(l, first, p, j)
  }

  lemma ChildBounds(l: Level, first: int, p: int, j: int)
    requires l.lo <= p < l.hi && 0 <= j < l.len
    ensures first <= Child(l, first, p, j) < first + (l.hi - l.lo) * l.len
  {
    var k, n := l.hi - 1 - p, l.hi - l.lo;
    assert k * l.len + l.len == (k + 1) * l.len <= n * l.len by { Monotone(k + 1, n, l.len); }
    Monotone(0, k, l.len);
  }

  lemma Monotone(a: int, b: int, n: int)
    requires a <= b && 0 <= n
    ensures a * n <= b * n
  {
  }

  /** Different slots hold different children. */
  lemma ChildInjective(l: Level, first: int, p: int, j: int, p': int, j': int)
    requires l.lo <= p < l.hi && 0 <= j < l.len && l.lo <= p' < l.hi && 0 <= j' < l.len
    requires Child(l, first, p, j) == Child(l, first, p', j')
    ensures p == p' && j == j'
  {
    if p < p' {
      ChildOrder(l, first, p', j', p, j);
    } else if p' < p {
      ChildOrder(l, first, p, j, p', j');
    }
  }

  lemma ChildOrder(l: Level, first: int, p: int, j: int, p': int, j': int)
    requires p' < p && 0 <= j < l.len && 0 <= j'
    ensures Child(l, first, p, j) < Child(l, first, p', j')
  {
    var k, k' := l.hi - 1 - p, l.hi - 1 - p';
    assert k * l.len + l.len == (k + 1) * l.len <= k' * l.len by { Monotone(k + 1, k', l.len); }
  }

  // ----- the finished array -----

  /** The depth at which construction stops: the last dimension, or the first one that is zero. */
  function LastDepth(lengths: seq<int>, d: nat): (r: nat)
    requires d < |lengths|
    ensures d <= r < |lengths|
    ensures r == |lengths| - 1 || lengths[r] == 0
    ensures forall i | d <= i < r :: lengths[i] != 0
    decreases |lengths| - d
  {
    if d == |lengths| - 1 || lengths[d] == 0 then d else LastDepth(lengths, d + 1)
  }

  /** levels[0] is the wrapper array of one slot; levels[i + 1] are the arrays of depth i. */
  ghost predicate Levels(heap: seq<ArrayObj>, cls: Class, lengths: seq<int>, levels: seq<Level>) {
    && 1 <= |levels| <= |lengths| + 1
    && levels[0].hi == levels[0].lo + 1 && levels[0].len == 1
    && (forall i | 1 <= i < |levels| :: levels[i].cls == ClassAt(cls, i - 1) && levels[i].len == lengths[i - 1])
    && (forall i, j | 0 <= i < j < |levels| :: levels[i].hi <= levels[j].lo)
    && (forall i {:trigger FilledAt(heap, levels, i)} | 0 <= i < |levels| - 1 :: FilledAt(heap, levels, i))
  }

  ghost predicate FilledAt(heap: seq<ArrayObj>, levels: seq<Level>, i: nat)
    requires i + 1 < |levels|
  {
    Filled(heap, levels[i], levels[i + 1])
  }

  /** A filled level is appended; the earlier ones lie below it and are unchanged. */
  lemma LevelsNext(h: seq<ArrayObj>, h': seq<ArrayObj>, cls: Class, lengths: seq<int>, levels: seq<Level>, c: Level)
    requires Levels(h, cls, lengths, levels) && |levels| <= |lengths|
    requires var l := levels[|levels| - 1];
             && l.lo <= |h| <= |h'| && (forall p | 0 <= p < l.lo :: h'[p] == h[p]) && Filled(h', l, c)
    requires c.cls == ClassAt(cls, |levels| - 1) && c.len == lengths[|levels| - 1]
    ensures Levels(h', cls, lengths, levels + [c])
  {
    var n, levels' := |levels|, levels + [c];
    forall i | 0 <= i < n ensures levels'[i].hi <= c.lo {
      if i < n - 1 { assert levels[i].hi <= levels[n - 1].lo; }
    }
    forall i | 0 <= i < n ensures FilledAt(h', levels', i) {
      if i < n - 1 {
        assert FilledAt(h, levels, i) && levels[i].hi <= levels[n - 1].lo;
        FilledFrame(h, h', levels[i], levels[i + 1]);
      }
    }
  }

  lemma FilledFrame(h: seq<ArrayObj>, h': seq<ArrayObj>, l: Level, c: Level)
    requires Filled(h, l, c) && |h| <= |h'| && forall p | 0 <= p < l.hi :: h'[p] == h[p]
    ensures Filled(h', l, c)
  {
    forall p | l.lo <= p < l.hi ensures FilledNode(h', l, c.lo, p) {
      assert FilledNode(h, l, c.lo, p);
    }
  }

  lemma LevelBelow(h: seq<ArrayObj>, l: Level)
    requires Chained(h, l)
    ensures 1 <= l.lo <= l.hi <= |h| && 0 < l.len
  {
  }

  lemma RootLevels(heap: seq<ArrayObj>, cls: Class, lengths: seq<int>, l: Level)
    requires l.hi == l.lo + 1 && l.len == 1
    ensures Levels(heap, cls, lengths, [l])
  {
  }

  lemma LastDepthStep(lengths: seq<int>, d: nat)
    requires d < |lengths|
    ensures LastDepth(lengths, d) == if d == |lengths| - 1 || lengths[d] == 0 then d else LastDepth(lengths, d + 1)
  {
  }

  lemma Finished(heap: seq<ArrayObj>, cls: Class, lengths: seq<int>, levels: seq<Level>)
    requires Levels(heap, cls, lengths, levels) && |levels| >= 2
    requires 1 <= |lengths| && forall i | 0 <= i < |lengths| :: 0 <= lengths[i]
    ensures 0 <= levels[0].lo < |heap| && |heap[levels[0].lo].slots| == 1
    ensures heap[levels[0].lo].slots[0] == levels[1].lo && 1 <= levels[1].lo
    ensures |levels| == LastDepth(lengths, 0) + 2 && Leaves(heap, levels[|levels| - 1]) ==>
              Complete(heap, cls, lengths, levels)
  {
    assert FilledAt(heap, levels, 0);
    RootSlot(heap, levels[0], levels[1]);
  }

  /** The wrapper's only slot holds the result. */
  lemma RootSlot(heap: seq<ArrayObj>, l: Level, c: Level)
    requires Filled(heap, l, c) && l.hi == l.lo + 1 && l.len == 1
    ensures 0 <= l.lo < |heap| && |heap[l.lo].slots| == 1 && heap[l.lo].slots[0] == c.lo && c.hi == c.lo + 1
  {
    assert FilledNode(heap, l, c.lo, l.lo);
  }

  lemma RootChained(heap: seq<ArrayObj>, root: int)
    requires 1 <= root && |heap| == root + 1 && heap[root] == ArrayObj(ArrayOf(Other), Zeros(1))
    ensures Chained(heap, Level(root, root + 1, ArrayOf(Other), 1))
  {
    assert Zeros(1)[0 := NULL] == Zeros(1);
  }

  // ----- how many arrays that takes -----

  /** The product of the first d dimensions: how many arrays there are at depth d. */
  function Product(lengths: seq<int>, d: nat): int
    requires d <= |lengths|
  {
    if d == 0 then 1 else Product(lengths, d - 1) * lengths[d - 1]
  }

  /** The arrays at depths below d. */
  function Arrays(lengths: seq<int>, d: nat): int
    requires d <= |lengths|
  {
    if d == 0 then 0 else Arrays(lengths, d - 1) + Product(lengths, d - 1)
  }

  /** All allocations of a construction: the wrapper and the arrays down to the last depth. */
  function Allocations(lengths: seq<int>): int
    requires 1 <= |lengths|
  {
    1 + Arrays(lengths, LastDepth(lengths, 0) + 1)
  }

  /** No dimension is negative, none that is reached is too long, and there is room for every array. */
  ghost predicate Constructible(lengths: seq<int>, room: nat)
    requires 1 <= |lengths|
  {
    && (forall i | 0 <= i < |lengths| :: 0 <= lengths[i])
    && (forall i | 0 <= i <= LastDepth(lengths, 0) :: lengths[i] <= MAX_LENGTH)
    && Allocations(lengths) <= room
  }

  lemma {:induction false} ProductPositive(lengths: seq<int>, d: nat)
    requires d <= |lengths| && forall i | 0 <= i < |lengths| :: 0 <= lengths[i]
    ensures 0 <= Product(lengths, d)
  {
    if d > 0 {
      ProductPositive(lengths, d - 1);
      Monotone(0, Product(lengths, d - 1), lengths[d - 1]);
    }
  }

  lemma {:induction false} ArraysGrow(lengths: seq<int>, d: nat, e: nat)
    requires d <= e <= |lengths| && forall i | 0 <= i < |lengths| :: 0 <= lengths[i]
    ensures Arrays(lengths, d) <= Arrays(lengths, e)
    decreases e
  {
    if d < e {
      ArraysGrow(lengths, d, e - 1);
      ProductPositive(lengths, e - 1);
    }
  }

  lemma NextDepth(lengths: seq<int>, d: nat)
    requires d < |lengths|
    ensures Product(lengths, d + 1) == Product(lengths, d) * lengths[d]
    ensures Arrays(lengths, d + 1) == Arrays(lengths, d) + Product(lengths, d)
    ensures Product(lengths, 0) == 1 && Arrays(lengths, 0) == 0
  {
  }

  /** Construction fails for want of room, or at a dimension that is too long, before the last depth is complete. */
  lemma StoppedEarly(lengths: seq<int>, d: nat, room: nat, made: int)
    requires 1 <= |lengths| && forall i | 0 <= i < |lengths| :: 0 <= lengths[i]
    requires d < |lengths| && LastDepth(lengths, d) == LastDepth(lengths, 0)
    requires made < 1 + Arrays(lengths, d + 1) && (made == room || lengths[d] > MAX_LENGTH)
    ensures !Constructible(lengths, room)
  {
    hide LastDepth, Product, Arrays;
    ArraysGrow(lengths, d + 1, LastDepth(lengths, 0) + 1);
  }

  /** The array that a path of indices leads to. */
  function Follow(heap: seq<ArrayObj>, r: int, path: seq<int>): int
    decreases path
  {
    if path == [] then r
    else if 0 <= r < |heap| && 0 <= path[0] < |heap[r].slots| then Follow(heap, heap[r].slots[path[0]], path[1..])
    else NULL
  }

  predicate IsPath(lengths: seq<int>, d: nat, path: seq<int>) {
    d + |path| < |lengths| && forall i | 0 <= i < |path| :: 0 <= path[i] < lengths[d + i]
  }

  /** The array at depth d and everything below it, as multianewarray promises it. */
  ghost predicate Tree(heap: seq<ArrayObj>, r: int, cls: Class, lengths: seq<int>, d: nat)
    requires d < |lengths|
    decreases |lengths| - d
  {
    && 0 < r < |heap| && heap[r].ofClass == ClassAt(cls, d) && |heap[r].slots| == lengths[d]
    && if d == |lengths| - 1 || lengths[d] == 0 then forall j | 0 <= j < lengths[d] :: heap[r].slots[j] == NULL
       else forall j | 0 <= j < lengths[d] :: Tree(heap, heap[r].slots[j], cls, lengths, d + 1)
  }

  /** Levels as instantiateMultiArray leaves them: complete, the last one all zeros. */
  ghost predicate Complete(heap: seq<ArrayObj>, cls: Class, lengths: seq<int>, levels: seq<Level>) {
    && 1 <= |lengths| && (forall i | 0 <= i < |lengths| :: 0 <= lengths[i])
    && Levels(heap, cls, lengths, levels) && |levels| == LastDepth(lengths, 0) + 2
    && Leaves(heap, levels[|levels| - 1])
  }

  predicate At(levels: seq<Level>, d: nat, p: int) {
    d + 1 < |levels| && levels[d + 1].lo <= p < levels[d + 1].hi
  }

  /** Every slot above the last level leads one level down. */
  lemma SlotDown(heap: seq<ArrayObj>, cls: Class, lengths: seq<int>, levels: seq<Level>, d: nat, p: int, j: int)
    requires Complete(heap, cls, lengths, levels) && At(levels, d, p) && d + 2 < |levels| && 0 <= j < lengths[d]
    ensures 0 < p < |heap| && |heap[p].slots| == lengths[d]
    ensures heap[p].slots[j] == Child(levels[d + 1], levels[d + 2].lo, p, j) && At(levels, d + 1, heap[p].slots[j])
  {
    assert FilledAt(heap, levels, d + 1) && FilledNode(heap, levels[d + 1], levels[d + 2].lo, p);
    ChildBounds(levels[d + 1], levels[d + 2].lo, p, j);
  }

  /** Each array of depth d heads a proper tree: right class, right length, subtrees in every slot, nothing below a zero
      dimension, zeros in the last level and no link left over from construction. */
  lemma {:induction false} LevelsAreTrees(heap: seq<ArrayObj>, cls: Class, lengths: seq<int>, levels: seq<Level>,
                                          d: nat, p: int)
    requires Complete(heap, cls, lengths, levels) && At(levels, d, p)
    ensures d < |lengths| && Tree(heap, p, cls, lengths, d)
    decreases |levels| - d
  {
    if d + 2 < |levels| {
      assert FilledAt(heap, levels, d + 1) && FilledNode(heap, levels[d + 1], levels[d + 2].lo, p);
      forall j | 0 <= j < lengths[d] ensures Tree(heap, heap[p].slots[j], cls, lengths, d + 1) {
        SlotDown(heap, cls, lengths, levels, d, p, j);
        LevelsAreTrees(heap, cls, lengths, levels, d + 1, heap[p].slots[j]);
      }
    }
  }

  /** Following a path leads to the level of its length. */
  lemma {:induction false} FollowDown(heap: seq<ArrayObj>, cls: Class, lengths: seq<int>, levels: seq<Level>,
                                      d: nat, p: int, path: seq<int>)
    requires Complete(heap, cls, lengths, levels) && At(levels, d, p)
    requires IsPath(lengths, d, path) && d + |path| + 1 < |levels|
    ensures At(levels, d + |path|, Follow(heap, p, path))
    decreases path
  {
    if path != [] {
      SlotDown(heap, cls, lengths, levels, d, p, path[0]);
      PathTail(lengths, d, path);
      FollowDown(heap, cls, lengths, levels, d + 1, heap[p].slots[path[0]], path[1..]);
    }
  }

  lemma PathTail(lengths: seq<int>, d: nat, path: seq<int>)
    requires IsPath(lengths, d, path) && path != []
    ensures IsPath(lengths, d + 1, path[1..])
  {
  }

  /** Different starts or different paths of one length lead to different arrays. */
  lemma {:induction false} FollowInjective(heap: seq<ArrayObj>, cls: Class, lengths: seq<int>, levels: seq<Level>,
                                           d: nat, p: int, path: seq<int>, p': int, path': seq<int>)
    requires Complete(heap, cls, lengths, levels) && At(levels, d, p) && At(levels, d, p') && |path| == |path'|
    requires IsPath(lengths, d, path) && IsPath(lengths, d, path') && d + |path| + 1 < |levels|
    requires Follow(heap, p, path) == Follow(heap, p', path')
    ensures p == p' && path == path'
    decreases path
  {
    if path != [] {
      SlotDown(heap, cls, lengths, levels, d, p, path[0]);
      SlotDown(heap, cls, lengths, levels, d, p', path'[0]);
      PathTail(lengths, d, path);
      PathTail(lengths, d, path');
      FollowInjective(heap, cls, lengths, levels, d + 1,
                      heap[p].slots[path[0]], path[1..], heap[p'].slots[path'[0]], path'[1..]);
      ChildInjective(levels[d + 1], levels[d + 2].lo, p, path[0], p', path'[0]);
      assert path == [path[0]] + path[1..] && path' == [path'[0]] + path'[1..];
    }
  }

  /** The result of multianewarray is a proper tree of fresh arrays, no two index paths sharing one. */
  lemma MultiArrayIsTree(heap: seq<ArrayObj>, cls: Class, lengths: seq<int>, levels: seq<Level>,
                         path: seq<int>, path': seq<int>)
    requires Complete(heap, cls, lengths, levels)
    requires IsPath(lengths, 0, path) && IsPath(lengths, 0, path')
    requires |path| <= LastDepth(lengths, 0) && |path'| <= LastDepth(lengths, 0)
    ensures var r := levels[1].lo;
            && Tree(heap, r, cls, lengths, 0) && levels[0].lo < Follow(heap, r, path)
            && (Follow(heap, r, path) == Follow(heap, r, path') ==> path == path')
  {
    assert FilledAt(heap, levels, 0);
    RootSlot(heap, levels[0], levels[1]);
    var r := levels[1].lo;
    LevelsAreTrees(heap, cls, lengths, levels, 0, r);
    FollowDown(heap, cls, lengths, levels, 0, r, path);
    FollowDown(heap, cls, lengths, levels, 0, r, path');
    if Follow(heap, r, path) == Follow(heap, r, path') {
      if |path| == |path'| {
        FollowInjective(heap, cls, lengths, levels, 0, r, path, r, path');
      } else {
        assert levels[1 + |path|].hi <= levels[1 + |path'|].lo || levels[1 + |path'|].hi <= levels[1 + |path|].lo;
      }
    }
  }

  class JavaHeap {
    var heap: seq<ArrayObj>
    var room: nat            // how many allocations the collector can still satisfy

    constructor (room: nat)
      ensures |heap| == 1 && this.room == room
    {
      heap := [ArrayObj(Other, [])];
      this.room := room;
    }

    /** instantiateArray: NULL when the length is negative or absurd or memory runs out. */
    method InstantiateArray(cls: Class, length: int) returns (r: int)
      requires 1 <= |heap|
      modifies this
      ensures r == NULL <==> length < 0 || length > MAX_LENGTH || old(room) == 0
      ensures r == NULL ==> heap == old(heap) && room == old(room)
      ensures r != NULL ==> r == |old(heap)| && 0 <= length && heap == old(heap) + [ArrayObj(cls, Zeros(length))]
      ensures room + |heap| == old(room) + |old(heap)|
    {
      if length < 0 {
        return NULL;
      }
      if length > MAX_LENGTH || room == 0 {
        return NULL;
      }
      room := room - 1;
      r := |heap|;
      heap := heap + [ArrayObj(cls, Zeros(length))];
    }

    /** Slot i of array a now holds v; nothing else changes. */
    method SetSlot(a: int, i: int, v: int)
      requires 0 <= a < |heap| && 0 <= i < |heap[a].slots|
      modifies this`heap
      ensures heap == old(heap)[a := old(heap)[a].(slots := old(heap)[a].slots[i := v])]
    {
      heap := heap[a := heap[a].(slots := heap[a].slots[i := v])];
    }

    /** What the level under construction looks like while its nodes are being linked in. */
    ghost predicate Growing(c: Level, last: bool, chain: int)
      reads this
    {
      && c.hi == |heap| && (if last then Leaves(heap, c) else Chained(heap, c))
      && chain == (if last || c.lo == c.hi then NULL else c.hi - 1)
    }

    /** The for loop over the slots of one parent. */
    method FillSlots(prev: int, width: int, cls: Class, len: int, last: bool, chain0: int, ghost c0: Level)
      returns (ok: bool, chain: int)
      requires 1 <= prev < c0.lo && Growing(c0, last, chain0) && c0.cls == cls && c0.len == len
      requires 0 <= len && (!last ==> 0 < len) && 0 <= width == |heap[prev].slots|
      modifies this
      ensures |old(heap)| <= |heap| && forall p | 0 <= p < |old(heap)| && p != prev :: heap[p] == old(heap)[p]
      ensures heap[prev].ofClass == old(heap)[prev].ofClass && |heap[prev].slots| == width
      ensures ok ==> Growing(c0.(hi := c0.hi + width), last, chain)
      ensures ok ==> forall j | 0 <= j < width :: heap[prev].slots[j] == c0.hi + j
      ensures room + |heap| == old(room) + |old(heap)|
      ensures ok ==> |heap| == |old(heap)| + width && (0 < width ==> len <= MAX_LENGTH)
      ensures !ok ==> |heap| < |old(heap)| + width && (room == 0 || len > MAX_LENGTH)
    {
      chain := chain0;
      var index := 0;
      while index < width
        invariant 0 <= index <= width && |heap| == |old(heap)| + index
        invariant forall p | 0 <= p < |old(heap)| && p != prev :: heap[p] == old(heap)[p]
        invariant heap[prev].ofClass == old(heap)[prev].ofClass && |heap[prev].slots| == width
        invariant Growing(c0.(hi := c0.hi + index), last, chain)
        invariant forall j | 0 <= j < index :: heap[prev].slots[j] == c0.hi + j
        invariant room + |heap| == old(room) + |old(heap)| && (0 < index ==> len <= MAX_LENGTH)
      {
        var curr := InstantiateArray(cls, len);
        if curr == NULL {
          return false, chain;
        }
        SetSlot(prev, index, curr);
        if !last {
          SetSlot(curr, 0, chain);
          chain := curr;
        }
        index := index + 1;
      }
      ok := true;
    }

    /** One turn of the outer loop: every array of the chained level l is filled with fresh arrays of the next one. */
    method FillLevel(prevSet0: int, width: int, cls: Class, len: int, last: bool, ghost l: Level)
      returns (ok: bool, chain: int, ghost c: Level)
      requires Chained(heap, l) && l.lo < l.hi == |heap| && prevSet0 == l.hi - 1 && width == l.len
      requires 0 <= len && (!last ==> 0 < len)
      modifies this
      ensures |old(heap)| <= |heap| && forall p | 0 <= p < l.lo :: heap[p] == old(heap)[p]
      ensures heap[l.lo].ofClass == l.cls && |heap[l.lo].slots| == l.len
      ensures ok ==> c == Level(l.hi, |heap|, cls, len) && Filled(heap, l, c) && Growing(c, last, chain)
      ensures room + |heap| == old(room) + |old(heap)|
      ensures ok ==> len <= MAX_LENGTH
      ensures !ok ==> |heap| < |old(heap)| + (l.hi - l.lo) * l.len && (room == 0 || len > MAX_LENGTH)
    {
      var prevSet := prevSet0;
      chain := NULL;
      c := Level(l.hi, l.hi, cls, len);
      ghost var k := 0;
      while true
        invariant 0 <= k < l.hi - l.lo && prevSet == l.hi - 1 - k && c.hi == l.hi + k * l.len
        invariant c.lo == l.hi && c.cls == cls && c.len == len && Growing(c, last, chain)
        invariant forall p | 0 <= p < l.lo :: heap[p] == old(heap)[p]
        invariant forall p | l.lo <= p < l.hi - k :: heap[p] == ChainNode(l, p)
        invariant forall p | l.hi - k <= p < l.hi :: FilledNode(heap, l, l.hi, p)
        invariant room + |heap| == old(room) + |old(heap)| && (0 < k ==> len <= MAX_LENGTH)
        decreases l.hi - l.lo - k
      {
        var prevArray := prevSet;
        prevSet := heap[prevSet].slots[0];
        ghost var h := heap;
        ok, chain := FillSlots(prevArray, width, cls, len, last, chain, c);
        NextParent(k, l.len);
        if !ok {
          Monotone(k + 1, l.hi - l.lo, l.len);
          return;
        }
        c := c.(hi := c.hi + width);
        k := k + 1;
        KeptNodes(h, heap, l, k);
        if prevSet == NULL {
          break;
        }
      }
      AllParents(l, k);
    }

    lemma NextParent(k: int, n: int)
      ensures (k + 1) * n == k * n + n
    {
    }

    lemma AllParents(l: Level, k: int)
      requires k == l.hi - l.lo
      ensures k * l.len == (l.hi - l.lo) * l.len
    {
    }

    /** The parents filled so far are kept. */
    lemma KeptNodes(h: seq<ArrayObj>, h': seq<ArrayObj>, l: Level, k: int)
      requires 1 <= l.lo <= l.hi - k < l.hi <= |h| <= |h'|
      requires forall p | 0 <= p < |h| && p != l.hi - k :: h'[p] == h[p]
      requires forall p | l.hi - k < p < l.hi :: FilledNode(h, l, l.hi, p)
      ensures forall p | l.hi - k < p < l.hi :: FilledNode(h', l, l.hi, p)
    {
      forall p | l.hi - k < p < l.hi ensures FilledNode(h', l, l.hi, p) {
        assert FilledNode(h, l, l.hi, p) && h'[p] == h[p];
      }
    }

    /** instantiateMultiArray.  negative: NegativeArraySizeException; NULL otherwise means OutOfMemoryError. */
    method InstantiateMultiArray(arrayClass: Class, lengths: seq<int>)
      returns (r: int, negative: bool, ghost levels: seq<Level>)
      requires 1 <= |heap| && 1 <= |lengths| <= Depth(arrayClass)
      modifies this
      ensures negative <==> exists i | 0 <= i < |lengths| :: lengths[i] < 0
      ensures negative ==> r == NULL && heap == old(heap)
      ensures |old(heap)| <= |heap| && heap[..|old(heap)|] == old(heap)
      ensures r != NULL ==>
                Complete(heap, arrayClass, lengths, levels) && levels[0].lo == |old(heap)| && r == levels[1].lo
      ensures room + |heap| == old(room) + |old(heap)|
      ensures r != NULL <==> Constructible(lengths, old(room))
      ensures r != NULL ==> |heap| == |old(heap)| + Allocations(lengths)
    {
      r, levels := NULL, [];
      var currDepth := 0;
      while currDepth < |lengths|
        invariant 0 <= currDepth <= |lengths| && forall i | 0 <= i < currDepth :: 0 <= lengths[i]
      {
        if lengths[currDepth] < 0 {
          return NULL, true, [];
        }
        currDepth := currDepth + 1;
      }
      negative := false;
      var rootArray := InstantiateArray(ArrayOf(Other), 1);
      if rootArray == NULL {
        NextDepth(lengths, 0);
        StoppedEarly(lengths, 0, room, 0);
        return;
      }
      r, levels := Construct(arrayClass, lengths, rootArray);
    }

    /** Everything down to depth d - 1 is built, and the arrays there are chained, waiting to be filled. */
    ghost predicate Building(cls: Class, lengths: seq<int>, levels: seq<Level>, d: nat, root: int)
      reads this
    {
      && d < |lengths| && |levels| == d + 1 && 1 <= root < |heap| && LastDepth(lengths, d) == LastDepth(lengths, 0)
      && Levels(heap, cls, lengths, levels) && levels[0] == Level(root, root + 1, ArrayOf(Other), 1)
      && Chained(heap, levels[d]) && levels[d].lo < levels[d].hi == |heap|
      && (levels[d].hi - levels[d].lo) * levels[d].len == Product(lengths, d)
      && |heap| == root + 1 + Arrays(lengths, d) && (forall i | 0 <= i < d :: lengths[i] <= MAX_LENGTH)
      && (d > 0 ==> root < levels[d].lo) && |heap[root].slots| == 1
    }

    /** Everything down to the last depth d is built. */
    ghost predicate Built(cls: Class, lengths: seq<int>, levels: seq<Level>, d: nat, root: int)
      reads this
    {
      && d < |lengths| && d == LastDepth(lengths, 0) && |levels| == d + 2 && 1 <= root < |heap|
      && Levels(heap, cls, lengths, levels) && levels[0].lo == root && Leaves(heap, levels[d + 1])
      && |heap| == root + 1 + Arrays(lengths, d + 1) && forall i | 0 <= i <= d :: lengths[i] <= MAX_LENGTH
    }

    lemma BuildingFirst(cls: Class, lengths: seq<int>, root: int)
      requires 1 <= root && |heap| == root + 1 && heap[root] == ArrayObj(ArrayOf(Other), Zeros(1)) && 1 <= |lengths|
      ensures Building(cls, lengths, [Level(root, root + 1, ArrayOf(Other), 1)], 0, root) && ClassAt(cls, 0) == cls
    {
      hide Levels, Chained, LastDepth;
      RootChained(heap, root);
      RootLevels(heap, cls, lengths, Level(root, root + 1, ArrayOf(Other), 1));
    }

    /** One turn of the outer loop. */
    method BuildLevel(cls: Class, lengths: seq<int>, d: nat, prevSet: int, prevWidth: int, currClass: Class,
                      ghost root: int, ghost levels: seq<Level>)
      returns (ok: bool, currSet: int, last: bool, ghost levels': seq<Level>)
      requires Building(cls, lengths, levels, d, root) && currClass == ClassAt(cls, d)
      requires prevSet == levels[d].hi - 1 && prevWidth == levels[d].len
      requires forall i | 0 <= i < |lengths| :: 0 <= lengths[i]
      modifies this
      ensures last == (d == |lengths| - 1 || lengths[d] == 0) && levels <= levels'
      ensures root < |heap| && |heap[root].slots| == 1 && forall p | 0 <= p < root :: heap[p] == old(heap)[p]
      ensures room + |heap| == old(room) + |old(heap)|
      ensures ok && last ==> Built(cls, lengths, levels', d, root)
      ensures ok && !last ==> Building(cls, lengths, levels', d + 1, root) && currSet == levels'[d + 1].hi - 1
                              && levels'[d + 1].len == lengths[d]
      ensures !ok ==> |heap| < root + 1 + Arrays(lengths, d + 1) && (room == 0 || lengths[d] > MAX_LENGTH)
    {
      hide Filled, FilledNode, Levels, Chained, Leaves, LastDepth, Product, Arrays, ClassAt;
      var width := lengths[d];
      last := d == |lengths| - 1 || width == 0;
      ghost var h, l := heap, levels[d];
      ghost var c;
      LevelBelow(h, l);
      NextDepth(lengths, d);
      ok, currSet, c := FillLevel(prevSet, prevWidth, currClass, width, last, l);
      levels' := levels;
      if ok {
        FilledSize(heap, l, c);
        LevelsNext(h, heap, cls, lengths, levels, c);
        LastDepthStep(lengths, d);
        levels' := levels + [c];
        if !last { LevelBelow(heap, c); }
        NonEmpty(l, c);
      }
    }

    /** The level below a level of arrays is not empty. */
    lemma NonEmpty(l: Level, c: Level)
      requires l.lo < l.hi && 0 < l.len && c.hi - c.lo == (l.hi - l.lo) * l.len
      ensures c.lo < c.hi
    {
      Monotone(1, l.hi - l.lo, l.len);
    }

    /** The outer loop, below the wrapper array that acts as the level before the first. */
    method Construct(arrayClass: Class, lengths: seq<int>, rootArray: int) returns (r: int, ghost levels: seq<Level>)
      requires 1 <= rootArray && |heap| == rootArray + 1 && heap[rootArray] == ArrayObj(ArrayOf(Other), Zeros(1))
      requires 1 <= |lengths| <= Depth(arrayClass) && forall i | 0 <= i < |lengths| :: 0 <= lengths[i]
      modifies this
      ensures rootArray < |heap| && forall p | 0 <= p < rootArray :: heap[p] == old(heap)[p]
      ensures r != NULL ==>
                Complete(heap, arrayClass, lengths, levels) && levels[0].lo == rootArray && r == levels[1].lo
      ensures room + |heap| == old(room) + |old(heap)|
      ensures r != NULL <==> Constructible(lengths, old(room) + 1)
      ensures r != NULL ==> |heap| == |old(heap)| - 1 + Allocations(lengths)
    {
      hide Levels, Complete, Chained, Leaves, LastDepth, Product, Arrays, Allocations, Constructible, ClassAt;
      hide Built, Building;
      levels := [Level(rootArray, rootArray + 1, ArrayOf(Other), 1)];
      BuildingFirst(arrayClass, lengths, rootArray);
      var currArraySet, currArrayWidth, currDepth, currClass := rootArray, 1, 0, arrayClass;
      while true
        invariant 0 <= currDepth < |lengths| && |levels| == currDepth + 1 && currClass == ClassAt(arrayClass, currDepth)
        invariant Building(arrayClass, lengths, levels, currDepth, rootArray)
        invariant currArraySet == levels[currDepth].hi - 1 && currArrayWidth == levels[currDepth].len
        invariant forall p | 0 <= p < rootArray :: p < |heap| && heap[p] == old(heap)[p]
        invariant room + |heap| == old(room) + |old(heap)|
        decreases |lengths| - currDepth
      {
        BuildingDepth(arrayClass, lengths, levels, currDepth, rootArray);
        var ok, lastIteration;
        ok, currArraySet, lastIteration, levels := BuildLevel(arrayClass, lengths, currDepth, currArraySet,
                                                              currArrayWidth, currClass, rootArray, levels);
        if !ok {
          StoppedEarly(lengths, currDepth, old(room) + 1, |heap| - rootArray);
          SetSlot(rootArray, 0, NULL);
          return NULL, levels;
        }
        if lastIteration {
          break;
        }
        currArrayWidth := lengths[currDepth];
        ClassAtNext(arrayClass, currDepth);
        currDepth := currDepth + 1;
        currClass := currClass.elem;
        BuildingDepth(arrayClass, lengths, levels, currDepth, rootArray);
      }
      Finish(arrayClass, lengths, levels, currDepth, rootArray);
      r := heap[rootArray].slots[0];
      Succeeded(lengths, currDepth, old(room) + 1);
    }

    lemma BuildingDepth(cls: Class, lengths: seq<int>, levels: seq<Level>, d: nat, root: int)
      requires Building(cls, lengths, levels, d, root)
      ensures |levels| == d + 1 && LastDepth(lengths, d) == LastDepth(lengths, 0) && root < |heap|
    {
    }

    lemma Finish(cls: Class, lengths: seq<int>, levels: seq<Level>, d: nat, root: int)
      requires Built(cls, lengths, levels, d, root) && forall i | 0 <= i < |lengths| :: 0 <= lengths[i]
      ensures d < |lengths| && d == LastDepth(lengths, 0) && |levels| == d + 2 && levels[0].lo == root < |heap|
      ensures |heap[root].slots| == 1 && heap[root].slots[0] == levels[1].lo && 1 <= levels[1].lo
      ensures Complete(heap, cls, lengths, levels) && |heap| == root + 1 + Arrays(lengths, d + 1)
      ensures forall i | 0 <= i <= d :: lengths[i] <= MAX_LENGTH
    {
      hide LastDepth, Arrays, Leaves;
      LevelsParts(heap, cls, lengths, levels);
      Finished(heap, cls, lengths, levels);
    }

    lemma LevelsParts(h: seq<ArrayObj>, cls: Class, lengths: seq<int>, levels: seq<Level>)
      requires Levels(h, cls, lengths, levels)
      ensures 1 <= |levels| && levels[0].hi == levels[0].lo + 1
    {
    }

    lemma FilledSize(h: seq<ArrayObj>, l: Level, c: Level)
      requires Filled(h, l, c)
      ensures c.hi - c.lo == (l.hi - l.lo) * l.len
    {
    }

    lemma Succeeded(lengths: seq<int>, d: nat, room: nat)
      requires 1 <= |lengths| && forall i | 0 <= i < |lengths| :: 0 <= lengths[i]
      requires d == LastDepth(lengths, 0) && 1 + Arrays(lengths, d + 1) <= room
      requires forall i | 0 <= i <= d :: lengths[i] <= MAX_LENGTH
      ensures Constructible(lengths, room) && Allocations(lengths) == 1 + Arrays(lengths, d + 1)
    {
    }
  }
}
