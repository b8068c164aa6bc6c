/** The KVM's assignability test against the relation it decides: subclassing, interfaces and array covariance.

    A class is an index into a table of loaded classes; java.lang.Object is class 0. */
module Assignable {

  const OBJECT := 0

  datatype ClassInfo =
    | Instance(isInterface: bool, superClass: int, ifaces: seq<int>)
    | ObjectArray(elemClass: int)
    | PrimArray(primType: int)

  type Table = seq<ClassInfo>

  predicate IsClass(t: Table, c: int) {
    0 <= c < |t| && t[c].Instance? && !t[c].isInterface
  }

  predicate IsInterface(t: Table, c: int) {
    0 <= c < |t| && t[c].Instance? && t[c].isInterface
  }

  /** A loaded hierarchy: rooted at Object, superclasses are classes, interfaces extend Object and interfaces only, and
      rank witnesses that there are no cycles. */
  ghost predicate Loaded(t: Table, rank: seq<nat>) {
    && |rank| == |t| && IsClass(t, OBJECT) && t[OBJECT].ifaces == []
    && forall c | 0 <= c < |t| :: ClassOk(t, rank, c)
  }

  ghost predicate ClassOk(t: Table, rank: seq<nat>, c: int)
    requires 0 <= c < |t| == |rank|
  {
    match t[c]
    case Instance(isInterface, superClass, ifaces) =>
      && (c != OBJECT ==> IsClass(t, superClass) && rank[superClass] < rank[c]
                          && (isInterface ==> superClass == OBJECT))
      && forall k | 0 <= k < |ifaces| :: IsInterface(t, ifaces[k]) && rank[ifaces[k]] < rank[c]
    case ObjectArray(e) => 0 <= e < |t| && rank[e] < rank[c]
    case PrimArray(_) => true
  }

  /** b is a itself or one of its direct and indirect superclasses and superinterfaces. */
  ghost predicate Inherits(t: Table, rank: seq<nat>, a: int, b: int)
    requires Loaded(t, rank) && 0 <= a < |t| && t[a].Instance?
    decreases rank[a]
  {
    assert ClassOk(t, rank, a);
    a == b
    || (a != OBJECT && Inherits(t, rank, t[a].superClass, b))
    || exists k | 0 <= k < |t[a].ifaces| :: Inherits(t, rank, t[a].ifaces[k], b)
  }

  /** An object of type a can be stored in a slot of type b. */
  ghost predicate CanAssign(t: Table, rank: seq<nat>, a: int, b: int)
    requires Loaded(t, rank) && 0 <= a < |t| && 0 <= b < |t|
    decreases rank[b]
  {
    assert ClassOk(t, rank, a) && ClassOk(t, rank, b);
    a == b || b == OBJECT ||
    match (t[a], t[b])
    case (Instance(_, _, _), Instance(_, _, _)) => Inherits(t, rank, a, b)
    case (ObjectArray(e), ObjectArray(f)) => CanAssign(t, rank, e, f)
    case (PrimArray(p), PrimArray(q)) => p == q
    case _ => false
  }

  // ----- the relation -----

  lemma {:induction false} InheritsTransitive(t: Table, rank: seq<nat>, a: int, b: int, c: int)
    requires Loaded(t, rank) && 0 <= a < |t| && t[a].Instance? && 0 <= b < |t| && t[b].Instance?
    requires Inherits(t, rank, a, b) && Inherits(t, rank, b, c)
    ensures Inherits(t, rank, a, c)
    decreases rank[a]
  {
    assert ClassOk(t, rank, a);
    if a == b {
    } else if a != OBJECT && Inherits(t, rank, t[a].superClass, b) {
      InheritsTransitive(t, rank, t[a].superClass, b, c);
    } else {
      var k :| 0 <= k < |t[a].ifaces| && Inherits(t, rank, t[a].ifaces[k], b);
      InheritsTransitive(t, rank, t[a].ifaces[k], b, c);
    }
  }

  /** Only interfaces and Object lie above an interface. */
  lemma {:induction false} AboveInterface(t: Table, rank: seq<nat>, a: int, b: int)
    requires Loaded(t, rank) && IsInterface(t, a) && Inherits(t, rank, a, b)
    ensures b == OBJECT || IsInterface(t, b)
    decreases rank[a]
  {
    assert ClassOk(t, rank, a);
    if a != b {
      if Inherits(t, rank, t[a].superClass, b) {
        AboveObject(t, rank, b);
      } else {
        var k :| 0 <= k < |t[a].ifaces| && Inherits(t, rank, t[a].ifaces[k], b);
        AboveInterface(t, rank, t[a].ifaces[k], b);
      }
    }
  }

  lemma AboveObject(t: Table, rank: seq<nat>, b: int)
    requires Loaded(t, rank) && Inherits(t, rank, OBJECT, b)
    ensures b == OBJECT
  {
  }

  lemma CanAssignReflexive(t: Table, rank: seq<nat>, a: int)
    requires Loaded(t, rank) && 0 <= a < |t|
    ensures CanAssign(t, rank, a, a) && CanAssign(t, rank, a, OBJECT)
  {
  }

  lemma {:induction false} CanAssignTransitive(t: Table, rank: seq<nat>, a: int, b: int, c: int)
    requires Loaded(t, rank) && 0 <= a < |t| && 0 <= b < |t| && 0 <= c < |t|
    requires CanAssign(t, rank, a, b) && CanAssign(t, rank, b, c)
    ensures CanAssign(t, rank, a, c)
    decreases rank[c]
  {
    assert ClassOk(t, rank, a) && ClassOk(t, rank, b) && ClassOk(t, rank, c);
    if a != b && b != c && c != OBJECT {
      if b == OBJECT {
        AboveObject(t, rank, c);
      } else if t[c].Instance? {
        InheritsTransitive(t, rank, a, b, c);
      } else if t[c].ObjectArray? {
        CanAssignTransitive(t, rank, t[a].elemClass, t[b].elemClass, t[c].elemClass);
      }
    }
  }

  /** Among classes the relation is a partial order: no two classes are assignable to each other. */
  lemma {:induction false} InheritsRank(t: Table, rank: seq<nat>, a: int, b: int)
    requires Loaded(t, rank) && 0 <= a < |t| && t[a].Instance? && 0 <= b < |t| && Inherits(t, rank, a, b) && a != b
    ensures rank[b] < rank[a]
    decreases rank[a]
  {
    assert ClassOk(t, rank, a);
    if a != OBJECT && Inherits(t, rank, t[a].superClass, b) {
      if t[a].superClass != b { InheritsRank(t, rank, t[a].superClass, b); }
    } else {
      var k :| 0 <= k < |t[a].ifaces| && Inherits(t, rank, t[a].ifaces[k], b);
      if t[a].ifaces[k] != b { InheritsRank(t, rank, t[a].ifaces[k], b); }
    }
  }

  lemma CanAssignAntisymmetric(t: Table, rank: seq<nat>, a: int, b: int)
    requires Loaded(t, rank) && 0 <= a < |t| && t[a].Instance? && 0 <= b < |t| && t[b].Instance?
    requires CanAssign(t, rank, a, b) && CanAssign(t, rank, b, a)
    ensures a == b
  {
    if a != b {
      ToObject(t, rank, a);
      ToObject(t, rank, b);
      InheritsRank(t, rank, a, b);
      InheritsRank(t, rank, b, a);
    }
  }

  lemma {:induction false} ToObject(t: Table, rank: seq<nat>, a: int)
    requires Loaded(t, rank) && 0 <= a < |t| && t[a].Instance?
    ensures Inherits(t, rank, a, OBJECT)
    decreases rank[a]
  {
    assert ClassOk(t, rank, a);
    if a != OBJECT { ToObject(t, rank, t[a].superClass); }
  }

  /** One step of extends or implements. */
  predicate DirectSuper(t: Table, a: int, b: int) {
    0 <= a < |t| && t[a].Instance? && ((a != OBJECT && b == t[a].superClass) || b in t[a].ifaces)
  }

  predicate Upward(t: Table, path: seq<int>, a: int, b: int) {
    |path| > 0 && path[0] == a && path[|path| - 1] == b
    && forall i | 0 <= i < |path| - 1 :: DirectSuper(t, path[i], path[i + 1])
  }

  /** Inheriting is the reflexive and transitive closure of the direct steps. */
  lemma {:induction false} InheritsHasPath(t: Table, rank: seq<nat>, a: int, b: int) returns (path: seq<int>)
    requires Loaded(t, rank) && 0 <= a < |t| && t[a].Instance? && Inherits(t, rank, a, b)
    ensures Upward(t, path, a, b)
    decreases rank[a]
  {
    assert ClassOk(t, rank, a);
    if a == b {
      path := [a];
    } else if a != OBJECT && Inherits(t, rank, t[a].superClass, b) {
      path := InheritsHasPath(t, rank, t[a].superClass, b);
      path := [a] + path;
    } else {
      var k :| 0 <= k < |t[a].ifaces| && Inherits(t, rank, t[a].ifaces[k], b);
      path := InheritsHasPath(t, rank, t[a].ifaces[k], b);
      path := [a] + path;
    }
  }

  lemma {:induction false} PathInherits(t: Table, rank: seq<nat>, path: seq<int>, a: int, b: int)
    requires Loaded(t, rank) && 0 <= a < |t| && t[a].Instance? && Upward(t, path, a, b)
    ensures Inherits(t, rank, a, b)
    decreases path
  {
    assert ClassOk(t, rank, a);
    if |path| > 1 {
      assert DirectSuper(t, path[0], path[1]);
      var rest := path[1..];
      forall i | 0 <= i < |rest| - 1 ensures DirectSuper(t, rest[i], rest[i + 1]) {
        assert DirectSuper(t, path[i + 1], path[i + 2]);
      }
      PathInherits(t, rank, rest, path[1], b);
    }
  }

  /** A class can be stored in a slot of another one exactly when a chain of extends and implements leads there. */
  lemma InstanceAssignability(t: Table, rank: seq<nat>, a: int, b: int)
    requires Loaded(t, rank) && 0 <= a < |t| && t[a].Instance? && 0 <= b < |t| && t[b].Instance?
    ensures CanAssign(t, rank, a, b) <==> exists path :: Upward(t, path, a, b)
  {
    ToObject(t, rank, a);
    if CanAssign(t, rank, a, b) {
      var path := InheritsHasPath(t, rank, a, b);
    }
    if path :| Upward(t, path, a, b) {
      PathInherits(t, rank, path, a, b);
    }
  }

  // ----- arrays -----

  /** How many array layers lie around the innermost class, a primitive array being innermost itself. */
  ghost function Depth(t: Table, rank: seq<nat>, c: int): nat
    requires Loaded(t, rank) && 0 <= c < |t|
    decreases rank[c]
  {
    assert ClassOk(t, rank, c);
    if t[c].ObjectArray? then 1 + Depth(t, rank, t[c].elemClass) else 0
  }

  ghost function Innermost(t: Table, rank: seq<nat>, c: int): (b: int)
    requires Loaded(t, rank) && 0 <= c < |t|
    ensures 0 <= b < |t| && !t[b].ObjectArray?
    decreases rank[c]
  {
    assert ClassOk(t, rank, c);
    if t[c].ObjectArray? then Innermost(t, rank, t[c].elemClass) else c
  }

  /** Innermost classes: a chain of extends and implements leads from one to the other, or both are arrays of the same
      primitive type. */
  ghost predicate InnermostFits(t: Table, a: int, b: int)
    requires 0 <= a < |t| && 0 <= b < |t|
  {
    if t[a].Instance? && t[b].Instance? then exists path :: Upward(t, path, a, b)
    else t[a].PrimArray? && t[b].PrimArray? && t[a].primType == t[b].primType
  }

  /** What is assignable to what, arrays included: anything with at least as many layers to an array of Object, and
      otherwise only what has the same number of layers and fits innermost. */
  lemma {:induction false} ArrayAssignability(t: Table, rank: seq<nat>, a: int, b: int)
    requires Loaded(t, rank) && 0 <= a < |t| && 0 <= b < |t|
    ensures CanAssign(t, rank, a, b)
            <==> var da, db := Depth(t, rank, a), Depth(t, rank, b);
                 || (Innermost(t, rank, b) == OBJECT && db <= da)
                 || (da == db && InnermostFits(t, Innermost(t, rank, a), Innermost(t, rank, b)))
    decreases rank[b]
  {
    assert ClassOk(t, rank, a) && ClassOk(t, rank, b);
    hide Upward;
    if t[a].ObjectArray? && t[b].ObjectArray? {
      var e, f := t[a].elemClass, t[b].elemClass;
      ArrayAssignability(t, rank, e, f);
      if a == b { CanAssignReflexive(t, rank, e); }
    } else if t[a].Instance? && t[b].Instance? {
      InstanceAssignability(t, rank, a, b);
      if b == OBJECT { CanAssignReflexive(t, rank, a); }
    }
  }

  // ----- the test -----

  /** implementsInterface: climbs the superclasses, searching the interfaces of each recursively. */
  method ImplementsInterface(t: Table, thisClass0: int, iface: int, ghost rank: seq<nat>) returns (r: bool)
    requires Loaded(t, rank) && 0 <= thisClass0 < |t| && t[thisClass0].Instance? && IsInterface(t, iface)
    ensures r == Inherits(t, rank, thisClass0, iface)
    decreases rank[thisClass0], 1
  {
    var thisClass := thisClass0;
    if thisClass == iface {
      return true;
    }
    while true
      invariant 0 <= thisClass < |t| && t[thisClass].Instance? && thisClass != iface
      invariant Inherits(t, rank, thisClass, iface) == Inherits(t, rank, thisClass0, iface)
      invariant rank[thisClass] <= rank[thisClass0]
      decreases rank[thisClass]
    {
      assert ClassOk(t, rank, thisClass);
      var ifaceTable := t[thisClass].ifaces;
      var i := 0;
      while i < |ifaceTable|
        invariant 0 <= i <= |ifaceTable|
        invariant forall k | 0 <= k < i :: !Inherits(t, rank, ifaceTable[k], iface)
      {
        var found := ImplementsInterface(t, ifaceTable[i], iface, rank);
        if found {
          return true;
        }
        i := i + 1;
      }
      if thisClass == OBJECT {
        return false;
      }
      thisClass := t[thisClass].superClass;
    }
  }

  /** The superclass loop of isAssignableTo. */
  method IsSubclass(t: Table, from0: int, to: int, ghost rank: seq<nat>) returns (r: bool)
    requires Loaded(t, rank) && IsClass(t, from0) && IsClass(t, to) && from0 != to && to != OBJECT
    ensures r == Inherits(t, rank, from0, to)
  {
    var from := from0;
    while from != OBJECT
      invariant IsClass(t, from) && from != to
      invariant Inherits(t, rank, from, to) == Inherits(t, rank, from0, to)
      decreases rank[from]
    {
      assert ClassOk(t, rank, from);
      OnlySuper(t, rank, from, to);
      from := t[from].superClass;
      if from == to {
        return true;
      }
    }
    return false;
  }

  /** A class other than Object is reached through superclasses only. */
  lemma OnlySuper(t: Table, rank: seq<nat>, a: int, b: int)
    requires Loaded(t, rank) && IsClass(t, a) && a != OBJECT && IsClass(t, b) && a != b && b != OBJECT
    ensures IsClass(t, t[a].superClass) && Inherits(t, rank, a, b) == Inherits(t, rank, t[a].superClass, b)
  {
    assert ClassOk(t, rank, a);
    if k :| 0 <= k < |t[a].ifaces| && Inherits(t, rank, t[a].ifaces[k], b) {
      AboveInterface(t, rank, t[a].ifaces[k], b);
    }
  }

  /** isAssignableTo */
  method IsAssignableTo(t: Table, fromClass0: int, toClass0: int, ghost rank: seq<nat>) returns (r: bool)
    requires Loaded(t, rank) && 0 <= fromClass0 < |t| && 0 <= toClass0 < |t|
    ensures r == CanAssign(t, rank, fromClass0, toClass0)
  {
    var fromClass, toClass := fromClass0, toClass0;
    while true
      invariant 0 <= fromClass < |t| && 0 <= toClass < |t|
      invariant CanAssign(t, rank, fromClass, toClass) == CanAssign(t, rank, fromClass0, toClass0)
      decreases rank[toClass]
    {
      if fromClass == toClass || toClass == OBJECT {
        return true;
      }
      assert ClassOk(t, rank, fromClass) && ClassOk(t, rank, toClass);
      if !t[toClass].Instance? {
        if t[fromClass].Instance? {
          return false;
        }
        if t[toClass].PrimArray? != t[fromClass].PrimArray? {
          return false;
        } else if t[toClass].PrimArray? {
          return t[fromClass].primType == t[toClass].primType;
        } else {
          fromClass, toClass := t[fromClass].elemClass, t[toClass].elemClass;
        }
      } else if t[toClass].isInterface {
        if !t[fromClass].Instance? {
          return false;
        }
        r := ImplementsInterface(t, fromClass, toClass, rank);
        return;
      } else {
        if !t[fromClass].Instance? {
          return false;
        }
        if t[fromClass].isInterface {
          NotAboveInterface(t, rank, fromClass, toClass);
          return false;
        }
        r := IsSubclass(t, fromClass, toClass, rank);
        return;
      }
    }
  }

  lemma NotAboveInterface(t: Table, rank: seq<nat>, a: int, b: int)
    requires Loaded(t, rank) && IsInterface(t, a) && IsClass(t, b) && b != OBJECT
    ensures !Inherits(t, rank, a, b)
  {
    if Inherits(t, rank, a, b) { AboveInterface(t, rank, a, b); }
  }
}
