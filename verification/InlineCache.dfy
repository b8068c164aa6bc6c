/** The inline cache of the KVM interpreter: bytecodes are patched in place and restored later. */
module InlineCache {

  import opened Chars

  const SIZE := 40

  datatype Entry = Entry(contents: int, codeLoc: nat, origParam: int, origInst: Byte)

  /** getUShort and getShort. */
  function UShort(hi: Byte, lo: Byte): int {
    hi * 256 + lo
  }

  function Short(hi: Byte, lo: Byte): int {
    if UShort(hi, lo) < 0x8000 then UShort(hi, lo) else UShort(hi, lo) - 0x1_0000
  }

  /** putShort: the cast binds tighter than the shift, so the high byte written is (value mod 256) >> 8, always 0. */
  function PutShort(code: seq<Byte>, at: nat, value: int): (r: seq<Byte>)
    requires at + 1 < |code|
    ensures |r| == |code|
  {
    code[at := value % 256 / 256][at + 1 := value % 256]
  }

  /** Reading a parameter and putting it back changes nothing just when its high byte is 0. */
  lemma PutShortBack(code: seq<Byte>, at: nat)
    requires at + 1 < |code|
    ensures PutShort(code, at, Short(code[at], code[at + 1])) == code[at := 0]
    ensures PutShort(code, at, Short(code[at], code[at + 1])) == code <==> code[at] == 0
  {
    var hi, lo := code[at], code[at + 1];
    LowByte(hi, lo);
    assert code[at := 0][at + 1 := lo] == code[at := 0];
    assert code[at := code[at]] == code;
  }

  lemma LowByte(hi: Byte, lo: Byte)
    ensures Short(hi, lo) % 256 == lo
  {
  }

  /** releaseInlineCacheEntry on the code. */
  function Restore(code: seq<Byte>, e: Entry): (r: seq<Byte>)
    requires e.codeLoc + 2 < |code|
    ensures |r| == |code|
  {
    PutShort(code[e.codeLoc := e.origInst], e.codeLoc + 1, e.origParam)
  }

  lemma RestoreAt(code: seq<Byte>, e: Entry, k: nat)
    requires e.codeLoc + 2 < |code| && k < |code|
    ensures Restore(code, e)[k] == (if k == e.codeLoc then e.origInst
                                    else if k == e.codeLoc + 1 then 0
                                    else if k == e.codeLoc + 2 then e.origParam % 256 else code[k])
  {
  }

  // ----- the invariant -----

  /** The code, the entries, and for the proofs: the code as loaded, the bytes that releases have cleared, the sites
      patched so far. */
  datatype Cache = Cache(code: seq<Byte>, entries: seq<Entry>, original: seq<Byte>, cleared: set<nat>,
                         history: set<nat>)

  /** The indices of the live entries: all up to n. */
  function Below(n: nat): (r: set<nat>)
    ensures forall i: nat :: i in r <==> i < n
  {
    if n == 0 then {} else Below(n - 1) + {n - 1}
  }

  predicate Apart(a: nat, b: nat) {
    a + 3 <= b || b + 3 <= a
  }

  predicate Covers(e: Entry, k: nat) {
    e.codeLoc <= k < e.codeLoc + 3
  }

  /** The original byte, or 0 where an earlier release has cleared it. */
  function Clean(original: seq<Byte>, cleared: set<nat>, k: nat): Byte
    requires k < |original|
  {
    if k in cleared then 0 else original[k]
  }

  predicate Faithful(e: Entry, original: seq<Byte>, cleared: set<nat>) {
    && e.codeLoc + 2 < |original|
    && e.origInst == Clean(original, cleared, e.codeLoc)
    && e.origParam == Short(Clean(original, cleared, e.codeLoc + 1), Clean(original, cleared, e.codeLoc + 2))
  }

  predicate Sized(c: Cache, live: set<nat>) {
    |c.code| == |c.original| && |c.entries| == SIZE && forall i | i in live :: i < SIZE
  }

  predicate Owned(c: Cache, live: set<nat>, k: nat)
    requires Sized(c, live)
  {
    exists i | i in live :: Covers(c.entries[i], k)
  }

  /** Live entries remember the code of their sites. */
  predicate Remembered(c: Cache, live: set<nat>)
    requires Sized(c, live)
  {
    forall i | i in live :: Faithful(c.entries[i], c.original, c.cleared)
  }

  predicate Disjoint(c: Cache, live: set<nat>)
    requires Sized(c, live)
  {
    forall i, j | i in live && j in live && i != j :: Apart(c.entries[i].codeLoc, c.entries[j].codeLoc)
  }

  /** Outside the sites of live entries the code is clean. */
  predicate CleanElsewhere(c: Cache, live: set<nat>)
    requires Sized(c, live)
  {
    forall k | 0 <= k < |c.code| && !Owned(c, live, k) :: c.code[k] == Clean(c.original, c.cleared, k)
  }

  /** What has been or will be cleared is the high byte of every site patched so far. */
  predicate Tracked(c: Cache, live: set<nat>)
    requires Sized(c, live)
  {
    && (forall p | p in c.cleared :: p >= 1 && p - 1 in c.history)
    && (forall i | i in live :: c.entries[i].codeLoc in c.history)
    && (forall l | l in c.history :: l + 1 in c.cleared || At(c, live, l))
  }

  predicate At(c: Cache, live: set<nat>, site: nat)
    requires Sized(c, live)
  {
    exists i | i in live :: c.entries[i].codeLoc == site
  }

  predicate Inv(c: Cache, live: set<nat>) {
    Sized(c, live) && Remembered(c, live) && Disjoint(c, live) && CleanElsewhere(c, live) && Tracked(c, live)
  }

  /** Every live entry has its fast bytecode in place, with its own index as parameter. */
  predicate Linked(c: Cache, live: set<nat>) {
    forall i | i in live :: Link(c, i)
  }

  predicate Link(c: Cache, i: nat) {
    && i < |c.entries| && c.entries[i].codeLoc + 2 < |c.code|
    && UShort(c.code[c.entries[i].codeLoc + 1], c.code[c.entries[i].codeLoc + 2]) == i
  }

  /** A site no live entry touches. */
  predicate Unpatched(c: Cache, live: set<nat>, site: nat)
    requires Sized(c, live)
  {
    forall i | i in live :: Apart(c.entries[i].codeLoc, site)
  }

  // ----- the steps -----

  function Released(c: Cache, i: nat): Cache
    requires i < |c.entries| && c.entries[i].codeLoc + 2 < |c.code|
  {
    c.(code := Restore(c.code, c.entries[i]), cleared := c.cleared + {c.entries[i].codeLoc + 1})
  }

  function Created(c: Cache, i: nat, contents: int, site: nat): Cache
    requires i < |c.entries| && site + 2 < |c.code|
  {
    c.(entries := c.entries[i := Entry(contents, site, Short(c.code[site + 1], c.code[site + 2]), c.code[site])],
       history := c.history + {site})
  }

  function Patched(c: Cache, i: nat, fast: Byte): Cache
    requires i < |c.entries| && c.entries[i].codeLoc + 2 < |c.code|
  {
    var site := c.entries[i].codeLoc;
    c.(code := PutShort(c.code[site := fast], site + 1, i))
  }

  lemma CreatedIs(c: Cache, i: nat, contents: int, site: nat)
    requires i < |c.entries| && site + 2 < |c.code|
    ensures var d := Created(c, i, contents, site);
            && d.original == c.original && d.history == c.history + {site} && |d.entries| == |c.entries|
            && d.entries[i].codeLoc == site && d.entries[i].contents == contents
            && forall j | 0 <= j < |c.entries| && j != i :: d.entries[j] == c.entries[j]
  {
  }

  lemma FaithfulKeeps(e: Entry, original: seq<Byte>, cleared: set<nat>, p: nat)
    requires Faithful(e, original, cleared) && !Covers(e, p)
    ensures Faithful(e, original, cleared + {p})
  {
  }

  lemma RestoredSite(code: seq<Byte>, e: Entry, original: seq<Byte>, cleared: set<nat>, k: nat)
    requires |code| == |original| && Faithful(e, original, cleared) && k < |code|
    requires !Covers(e, k) ==> code[k] == Clean(original, cleared, k)
    ensures Restore(code, e)[k] == Clean(original, cleared + {e.codeLoc + 1}, k)
  {
    hide Restore;
    RestoreAt(code, e, k);
    LowByte(Clean(original, cleared, e.codeLoc + 1), Clean(original, cleared, e.codeLoc + 2));
  }

  lemma SiteInside(c: Cache, live: set<nat>, i: nat)
    requires Sized(c, live) && Remembered(c, live) && i in live
    ensures c.entries[i].codeLoc + 2 < |c.code| && Faithful(c.entries[i], c.original, c.cleared)
  {
  }

  /** Releasing an entry cleans its site, with a high byte of 0. */
  lemma ReleaseKeeps(c: Cache, live: set<nat>, i: nat)
    requires Inv(c, live) && i in live
    ensures c.entries[i].codeLoc + 2 < |c.code| && Inv(Released(c, i), live - {i})
  {
    hide Restore, Faithful, Clean;
    SiteInside(c, live, i);
    var d, rest, e := Released(c, i), live - {i}, c.entries[i];
    assert Sized(d, rest);
    forall j | j in rest ensures Faithful(d.entries[j], d.original, d.cleared) {
      assert Apart(c.entries[j].codeLoc, e.codeLoc);
      FaithfulKeeps(c.entries[j], c.original, c.cleared, e.codeLoc + 1);
    }
    forall k | 0 <= k < |d.code| && !Owned(d, rest, k) ensures d.code[k] == Clean(d.original, d.cleared, k) {
      OwnedLess(c, d, live, i, k);
      RestoredSite(c.code, e, c.original, c.cleared, k);
    }
    forall l | l in d.history ensures l + 1 in d.cleared || At(d, rest, l) {
      if l + 1 !in d.cleared {
        var j :| j in live && c.entries[j].codeLoc == l;
        assert j in rest && d.entries[j].codeLoc == l;
      }
    }
  }

  lemma OwnedLess(c: Cache, d: Cache, live: set<nat>, i: nat, k: nat)
    requires Sized(c, live) && Sized(d, live - {i}) && i in live && d.entries == c.entries
    ensures Owned(c, live, k) ==> Covers(c.entries[i], k) || Owned(d, live - {i}, k)
  {
    if Owned(c, live, k) {
      var j :| j in live && Covers(c.entries[j], k);
      if j != i { CoveredIsOwned(d, live - {i}, j, k); }
    }
  }

  /** Entries that stay where they are own what they owned. */
  lemma OwnedMore(c: Cache, d: Cache, live: set<nat>, all: set<nat>, k: nat)
    requires Sized(c, live) && Sized(d, all) && live <= all && forall j | j in live :: d.entries[j] == c.entries[j]
    ensures Owned(c, live, k) ==> Owned(d, all, k)
  {
    if Owned(c, live, k) {
      var j :| j in live && Covers(c.entries[j], k);
      assert Covers(d.entries[j], k);
    }
  }

  lemma AtMore(c: Cache, d: Cache, live: set<nat>, all: set<nat>, l: nat)
    requires Sized(c, live) && Sized(d, all) && live <= all && forall j | j in live :: d.entries[j] == c.entries[j]
    ensures At(c, live, l) ==> At(d, all, l)
  {
    if At(c, live, l) {
      var j :| j in live && c.entries[j].codeLoc == l;
      assert d.entries[j].codeLoc == l;
    }
  }

  lemma UnpatchedIsClean(c: Cache, live: set<nat>, site: nat, k: nat)
    requires Sized(c, live) && CleanElsewhere(c, live) && Unpatched(c, live, site) && site <= k < site + 3 <= |c.code|
    ensures c.code[k] == Clean(c.original, c.cleared, k)
  {
    assert !Owned(c, live, k);
  }

  /** A new entry for an unpatched site remembers what is there. */
  lemma CreateKeeps(c: Cache, live: set<nat>, i: nat, contents: int, site: nat)
    requires Inv(c, live) && i !in live && i < SIZE && site + 2 < |c.code| && Unpatched(c, live, site)
    ensures Inv(Created(c, i, contents, site), live + {i})
  {
    hide Owned, At, Clean;
    var d, all := Created(c, i, contents, site), live + {i};
    assert Sized(d, all);
    assert forall j | j in live :: d.entries[j] == c.entries[j];
    UnpatchedIsClean(c, live, site, site);
    UnpatchedIsClean(c, live, site, site + 1);
    UnpatchedIsClean(c, live, site, site + 2);
    assert Remembered(d, all);
    assert Disjoint(d, all);
    forall k | 0 <= k < |d.code| && !Owned(d, all, k) ensures d.code[k] == Clean(d.original, d.cleared, k) {
      OwnedMore(c, d, live, all, k);
    }
    forall l | l in d.history ensures l + 1 in d.cleared || At(d, all, l) {
      if l == site {
        Located(d, all, i);
      } else {
        AtMore(c, d, live, all, l);
      }
    }
  }

  lemma Located(c: Cache, live: set<nat>, i: nat)
    requires Sized(c, live) && i in live
    ensures At(c, live, c.entries[i].codeLoc)
  {
  }

  lemma PatchedAt(c: Cache, i: nat, fast: Byte, k: nat)
    requires i < SIZE && i < |c.entries| && c.entries[i].codeLoc + 2 < |c.code| && k < |c.code|
    ensures var site := c.entries[i].codeLoc;
            Patched(c, i, fast).code[k]
            == (if k == site then fast else if k == site + 1 then 0 else if k == site + 2 then i else c.code[k])
  {
  }

  lemma CoveredIsOwned(c: Cache, live: set<nat>, i: nat, k: nat)
    requires Sized(c, live) && i in live && Covers(c.entries[i], k)
    ensures Owned(c, live, k)
  {
  }

  /** Patching the site of a live entry keeps the invariant and links the site to the entry. */
  lemma PatchKeeps(c: Cache, live: set<nat>, i: nat, fast: Byte)
    requires Inv(c, live) && i in live && Linked(c, live - {i})
    ensures c.entries[i].codeLoc + 2 < |c.code| && Inv(Patched(c, i, fast), live) && Linked(Patched(c, i, fast), live)
  {
    hide Faithful, Clean, Owned, At, PutShort;
    SiteInside(c, live, i);
    var d, site := Patched(c, i, fast), c.entries[i].codeLoc;
    assert Sized(d, live) && Remembered(d, live) && Disjoint(d, live);
    forall k | 0 <= k < |d.code| && !Owned(d, live, k) ensures d.code[k] == Clean(d.original, d.cleared, k) {
      OwnedMore(c, d, live, live, k);
      if Covers(c.entries[i], k) { CoveredIsOwned(d, live, i, k); }
      PatchedAt(c, i, fast, k);
    }
    forall l | l in d.history ensures l + 1 in d.cleared || At(d, live, l) {
      AtMore(c, d, live, live, l);
    }
    forall j | j in live ensures Link(d, j) {
      assert j != i ==> Link(c, j) && Apart(c.entries[j].codeLoc, site);
      PatchedAt(c, i, fast, c.entries[j].codeLoc + 1);
      PatchedAt(c, i, fast, c.entries[j].codeLoc + 2);
    }
  }

  lemma ReleaseKeepsLink(c: Cache, i: nat, j: nat)
    requires i < |c.entries| && c.entries[i].codeLoc + 2 < |c.code| && Link(c, j)
    requires Apart(c.entries[j].codeLoc, c.entries[i].codeLoc)
    ensures Link(Released(c, i), j)
  {
    hide Restore, UShort;
    RestoreAt(c.code, c.entries[i], c.entries[j].codeLoc + 1);
    RestoreAt(c.code, c.entries[i], c.entries[j].codeLoc + 2);
  }

  lemma ReleaseKeepsLinks(c: Cache, live: set<nat>, i: nat)
    requires Inv(c, live) && i in live && Linked(c, live)
    ensures c.entries[i].codeLoc + 2 < |c.code| && Linked(Released(c, i), live - {i})
  {
    hide Link, Released;
    SiteInside(c, live, i);
    forall j | j in live - {i} ensures Link(Released(c, i), j) {
      ReleaseKeepsLink(c, i, j);
    }
  }

  /** With no live entry left, the code is the original with the high byte of every patched site cleared. */
  lemma AllReleased(c: Cache)
    requires Inv(c, {})
    ensures |c.code| == |c.original|
    ensures forall k | 0 <= k < |c.code| :: c.code[k] == if k >= 1 && k - 1 in c.history then 0 else c.original[k]
    ensures c.code == c.original <==> forall l | l in c.history && l + 1 < |c.original| :: c.original[l + 1] == 0
  {
    forall k | 0 <= k < |c.code|
      ensures c.code[k] == if k >= 1 && k - 1 in c.history then 0 else c.original[k]
    {
      assert !Owned(c, {}, k);
      if k >= 1 && k - 1 in c.history {
        assert !At(c, {}, k - 1);
      }
    }
    if c.code == c.original {
      forall l | l in c.history && l + 1 < |c.original| ensures c.original[l + 1] == 0 {
        assert c.code[l + 1] == c.original[l + 1];
      }
    }
  }

  /** When no patched site had a high byte, the code differs from the original only in the sites of live entries, and
      those remember it. */
  lemma OnlySitesDiffer(c: Cache, live: set<nat>)
    requires Inv(c, live) && forall l | l in c.history && l + 1 < |c.original| :: c.original[l + 1] == 0
    ensures forall k | 0 <= k < |c.code| && !Owned(c, live, k) :: c.code[k] == c.original[k]
    ensures forall i | i in live ::
              var e := c.entries[i];
              && e.codeLoc + 2 < |c.original| && e.origInst == c.original[e.codeLoc]
              && e.origParam == Short(c.original[e.codeLoc + 1], c.original[e.codeLoc + 2])
  {
    hide Short;
    forall k | 0 <= k < |c.original| ensures Clean(c.original, c.cleared, k) == c.original[k] {
      if k in c.cleared {
        assert k - 1 in c.history;
      }
    }
  }

  // ----- the code -----

  class Interpreter {
    var code: array<Byte>
    var entries: array<Entry>
    var pointer: nat
    var full: bool
    ghost var original: seq<Byte>
    ghost var cleared: set<nat>
    ghost var history: set<nat>

    ghost function View(): Cache
      reads this, code, entries
    {
      Cache(code[..], entries[..], original, cleared, history)
    }

    ghost function Live(): set<nat>
      reads this
    {
      Below(if full then SIZE else pointer)
    }

    ghost predicate Valid()
      reads this, code, entries
    {
      pointer < SIZE && Inv(View(), Live()) && Linked(View(), Live())
    }

    /** InitializeInlineCaching. */
    constructor (code: array<Byte>)
      ensures Valid() && this.code == code && fresh(entries)
      ensures pointer == 0 && !full && View() == Cache(code[..], entries[..], code[..], {}, {})
    {
      this.code := code;
      entries := new Entry[SIZE](_ => Entry(0, 0, 0, 0));
      pointer, full := 0, false;
      original, cleared, history := code[..], {}, {};
      new;
      assert Live() == {};
    }

    /** releaseInlineCacheEntry */
    method Release(index: nat)
      requires index < entries.Length && entries[index].codeLoc + 2 < code.Length
      modifies code, `cleared
      ensures View() == Released(old(View()), index)
    {
      var e := entries[index];
      code[e.codeLoc] := e.origInst;
      code[e.codeLoc + 1] := e.origParam % 256 / 256;
      code[e.codeLoc + 2] := e.origParam % 256;
      cleared := cleared + {e.codeLoc + 1};
      assert code[..] == Restore(old(code[..]), e);
    }

    /** A full area gives up its oldest entry. */
    method MakeRoom(ghost site: nat)
      requires Valid() && Unpatched(View(), Live(), site)
      modifies code, `cleared
      ensures var live := Live() - {pointer};
              Inv(View(), live) && Linked(View(), live) && Unpatched(View(), live, site)
      ensures old(cleared) <= cleared
    {
      hide Inv, Linked, Restore;
      ghost var live := Live();
      SizesOf(View(), live);
      if full {
        ReleaseKeeps(View(), live, pointer);
        ReleaseKeepsLinks(View(), live, pointer);
        Release(pointer);
        SizesOf(View(), live - {pointer});
      } else {
        assert live - {pointer} == live;
      }
    }

    /** The entry takes the bytecode and the parameter from the code. */
    method Enter(index: nat, contents: int, site: nat)
      requires index < entries.Length && site + 2 < code.Length
      modifies entries, `history
      ensures View() == Created(old(View()), index, contents, site)
    {
      entries[index] := Entry(contents, site, Short(code[site + 1], code[site + 2]), code[site]);
      history := history + {site};
    }

    /** createInlineCacheEntry: the oldest entry makes room when the area is full. */
    method Create(contents: int, site: nat) returns (index: nat)
      requires Valid() && site + 2 < code.Length && Unpatched(View(), Live(), site)
      modifies this, code, entries
      ensures code == old(code) && entries == old(entries) && original == old(original)
      ensures index == old(pointer) && pointer == (index + 1) % SIZE && full == (old(full) || pointer == 0)
      ensures index in Live() && Inv(View(), Live()) && Linked(View(), Live() - {index})
      ensures entries[index].codeLoc == site && entries[index].contents == contents
      ensures history == old(history) + {site}
      ensures forall i | i in Live() && i != index :: entries[i] == old(entries[i])
    {
      hide Inv, Linked, Restore, Short, Created, Below;
      ghost var live := Live() - {pointer};
      MakeRoom(site);
      ghost var c := View();
      assert |c.entries| == SIZE by { SizesOf(c, live); }
      CreateKeeps(c, live, pointer, contents, site);
      CreateKeepsLinks(c, live, pointer, contents, site);
      CreatedIs(c, pointer, contents, site);
      index := NextIndex();
      assert Live() - {index} == live && live + {index} == Live();
      Enter(index, contents, site);
    }

    /** The next index of the ring; after the last one the ring starts again and the area is full. */
    method NextIndex() returns (index: nat)
      requires pointer < SIZE
      modifies `pointer, `full
      ensures index == old(pointer) && pointer == (index + 1) % SIZE && full == (old(full) || pointer == 0)
      ensures Live() == old(Live()) + {index}
    {
      index := pointer;
      pointer := pointer + 1;
      if pointer == SIZE {
        full := true;
        pointer := 0;
      }
    }

    /** A slow bytecode creates an entry and patches itself: the fast bytecode, then the index as its parameter. */
    method Install(contents: int, site: nat, fast: Byte) returns (index: nat)
      requires Valid() && site + 2 < code.Length && Unpatched(View(), Live(), site)
      modifies this, code, entries
      ensures Valid() && code == old(code) && entries == old(entries) && original == old(original)
      ensures index == old(pointer) && pointer == (index + 1) % SIZE && full == (old(full) || pointer == 0)
      ensures code[site] == fast && UShort(code[site + 1], code[site + 2]) == index
      ensures entries[index].contents == contents && entries[index].codeLoc == site
      ensures history == old(history) + {site}
      ensures forall i | i in Live() && i != index :: entries[i] == old(entries[i])
    {
      hide Inv, Linked, Patched;
      index := Create(contents, site);
      ghost var c := View();
      SizesOf(c, Live());
      PatchKeeps(c, Live(), index, fast);
      Patch(index, site, fast);
      PatchedAt(c, index, fast, site);
      PatchedAt(c, index, fast, site + 1);
      PatchedAt(c, index, fast, site + 2);
    }

    /** The interpreter's own writes: the bytecode and putShort of the index. */
    method Patch(index: nat, site: nat, fast: Byte)
      requires index < entries.Length && entries[index].codeLoc == site && site + 2 < code.Length
      modifies code
      ensures View() == Patched(old(View()), index, fast)
    {
      code[site] := fast;
      code[site + 1] := index % 256 / 256;
      code[site + 2] := index % 256;
      assert code[..] == PutShort(old(code[..])[site := fast], site + 1, index);
    }

    /** FinalizeInlineCaching restores all the code just when every site patched so far had a high byte of 0. */
    method FinalizeCaching()
      requires Valid()
      modifies this, code
      ensures Valid() && code == old(code) && entries == old(entries) && original == old(original)
      ensures pointer == 0 && !full && history == old(history)
      ensures forall k | 0 <= k < code.Length :: code[k] == if k >= 1 && k - 1 in history then 0 else original[k]
      ensures code[..] == original <==> forall l | l in history && l + 1 < |original| :: original[l + 1] == 0
    {
      hide Inv, Restore;
      var last := if full then SIZE else pointer;
      while last > 0
        invariant 0 <= last <= SIZE && code == old(code) && entries == old(entries) && original == old(original)
        invariant history == old(history) && Inv(View(), Below(last))
      {
        SizesOf(View(), Below(last));
        ReleaseKeeps(View(), Below(last), last - 1);
        last := last - 1;
        Release(last);
        assert Below(last + 1) - {last} == Below(last);
      }
      pointer, full := 0, false;
      AllReleased(View());
    }
  }

  /** One parameter that is lost: getstatic 256 comes back as getstatic 0. */
  method ParameterLost() returns (before: seq<Byte>, after: seq<Byte>)
    ensures before == [178, 1, 0] && after == [178, 0, 0]
  {
    hide Inv, Linked, Below, UShort, Unpatched;
    var code := new Byte[] [178, 1, 0];
    before := code[..];
    var vm := new Interpreter(code);
    ghost var original := vm.original;
    assert original == [178, 1, 0];
    SizesOf(vm.View(), vm.Live());
    NothingLive(vm.View());
    var index := vm.Install(0, 0, 210);
    vm.FinalizeCaching();
    assert vm.history == {0} && vm.code.Length == 3;
    after := vm.code[..];
  }

  lemma NothingLive(c: Cache)
    requires |c.code| == |c.original| && |c.entries| == SIZE
    ensures Below(0) == {} && Sized(c, {}) && Unpatched(c, {}, 0)
  {
  }

  lemma SizesOf(c: Cache, live: set<nat>)
    requires Inv(c, live)
    ensures Sized(c, live) && forall i | i in live :: c.entries[i].codeLoc + 2 < |c.code|
  {
    assert Remembered(c, live);
  }

  lemma CreateKeepsLinks(c: Cache, live: set<nat>, i: nat, contents: int, site: nat)
    requires Linked(c, live) && i !in live && i < |c.entries| && site + 2 < |c.code|
    ensures Linked(Created(c, i, contents, site), live)
  {
    var d := Created(c, i, contents, site);
    forall j | j in live ensures Link(d, j) {
      assert Link(c, j);
    }
  }
}
