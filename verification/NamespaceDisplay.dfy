/**
 The order in which namespaces_of.go displays the forest: an entry comes before everything below it, the
 entries below one child come together, and those below an earlier child come first. Since each entry is
 shown once in a tree, this determines what is printed.
 */
module NamespaceDisplay {
  import opened NamespaceForest

  // ----- The order of a tree -----

  /** a and b lie below different children of z, a below the earlier one. */
  ghost predicate Branches(k: Kernel, list: List, z: NsId, s: nat, t: nat, a: NsId, b: NsId) {
    && z in list && s < t < |list[z].children|
    && Above(k, list[z].children[s], a) && Above(k, list[z].children[t], b)
  }

  ghost predicate Precedes(k: Kernel, list: List, a: NsId, b: NsId) {
    Above(k, a, b) || exists z, s: nat, t: nat :: Branches(k, list, z, s, t, a, b)
  }

  lemma {:induction false} AboveTrans(k: Kernel, a: NsId, b: NsId, e: NsId)
    requires Above(k, a, b) && Above(k, b, e)
    ensures Above(k, a, e)
    decreases Measure(k, e)
  {
    if b == e {
    } else {
      AboveTrans(k, a, b, UpOf(k, e));
    }
  }

  lemma {:induction false} AboveLinear(k: Kernel, a: NsId, b: NsId, e: NsId)
    requires Above(k, a, e) && Above(k, b, e)
    ensures Above(k, a, b) || Above(k, b, a)
    decreases Measure(k, e)
  {
    if a == e || b == e {
    } else {
      AboveLinear(k, a, b, UpOf(k, e));
    }
  }

  lemma AboveAntisym(k: Kernel, a: NsId, b: NsId)
    requires Above(k, a, b) && Above(k, b, a)
    ensures a == b
  {
    if a != b {
      AboveMeasure(k, a, UpOf(k, b));
      AboveMeasure(k, b, a);
    }
  }

  /** The child of z on the way to an entry that is properly below it. */
  lemma {:induction false} StepBelow(k: Kernel, z: NsId, e: NsId) returns (c: NsId)
    requires Above(k, z, e) && z != e
    ensures HasUp(k, c) && UpOf(k, c) == z && Above(k, c, e)
    decreases Measure(k, e)
  {
    if UpOf(k, e) == z {
      c := e;
    } else {
      c := StepBelow(k, z, UpOf(k, e));
    }
  }

  lemma ChildAt(k: Kernel, list: List, z: NsId, s: nat)
    requires Inv(k, list, {}) && z in list && s < |list[z].children|
    ensures HasUp(k, list[z].children[s]) && UpOf(k, list[z].children[s]) == z && Distinct(list[z].children)
  {
    assert GoodEntry(k, list, {}, z);
    assert list[z].children[s] in list[z].children;
  }

  /** No entry lies below two children. */
  lemma ChildrenApart(k: Kernel, list: List, z: NsId, s: nat, t: nat, e: NsId)
    requires Inv(k, list, {}) && z in list && s < |list[z].children| && t < |list[z].children|
    requires Above(k, list[z].children[s], e) && Above(k, list[z].children[t], e)
    ensures s == t
  {
    ChildAt(k, list, z, s);
    ChildAt(k, list, z, t);
    SiblingsApart(k, z, list[z].children[s], list[z].children[t], e);
  }

  lemma BelowChild(k: Kernel, list: List, z: NsId, s: nat, e: NsId)
    requires Inv(k, list, {}) && z in list && s < |list[z].children| && Above(k, list[z].children[s], e)
    ensures Above(k, z, e)
  {
    ChildAt(k, list, z, s);
    AboveThrough(k, z, list[z].children[s], e);
  }

  /** Entries that branch are not above one another. */
  lemma BranchesAreApart(k: Kernel, list: List, z: NsId, s: nat, t: nat, a: NsId, b: NsId)
    requires Inv(k, list, {}) && Branches(k, list, z, s, t, a, b)
    ensures !Above(k, a, b) && !Above(k, b, a)
  {
    if Above(k, a, b) {
      AboveTrans(k, list[z].children[s], a, b);
      ChildrenApart(k, list, z, s, t, b);
    } else if Above(k, b, a) {
      AboveTrans(k, list[z].children[t], b, a);
      ChildrenApart(k, list, z, s, t, a);
    }
  }

  /** The entry at which two others branch has no common ancestor of both below it. */
  lemma BranchIsLowest(k: Kernel, list: List, z: NsId, s: nat, t: nat, a: NsId, b: NsId, y: NsId)
    requires Inv(k, list, {}) && z in list && s < |list[z].children| && t < |list[z].children| && s != t
    requires Above(k, list[z].children[s], a) && Above(k, list[z].children[t], b)
    requires Above(k, y, a) && Above(k, y, b)
    ensures Above(k, y, z)
  {
    BelowChild(k, list, z, s, a);
    AboveLinear(k, y, z, a);
    if !Above(k, y, z) {
      var c := StepBelow(k, z, y);
      AboveTrans(k, c, y, a);
      AboveTrans(k, c, y, b);
      ChildAt(k, list, z, s);
      ChildAt(k, list, z, t);
      SiblingsApart(k, z, c, list[z].children[s], a);
      SiblingsApart(k, z, c, list[z].children[t], b);
    }
  }

  lemma BranchesOneWay(k: Kernel, list: List, z: NsId, s: nat, t: nat, y: NsId, p: nat, q: nat, a: NsId, b: NsId)
    requires Inv(k, list, {}) && Branches(k, list, z, s, t, a, b)
    ensures !Branches(k, list, y, p, q, b, a)
  {
    if Branches(k, list, y, p, q, b, a) {
      BelowChild(k, list, z, s, a);
      BelowChild(k, list, z, t, b);
      BelowChild(k, list, y, q, a);
      BelowChild(k, list, y, p, b);
      BranchIsLowest(k, list, z, s, t, a, b, y);
      BranchIsLowest(k, list, y, q, p, a, b, z);
      AboveAntisym(k, y, z);
      ChildrenApart(k, list, z, s, q, a);
      ChildrenApart(k, list, z, t, p, b);
    }
  }

  /** The order is one: two different entries do not precede each other. */
  lemma PrecedesOneWay(k: Kernel, list: List, a: NsId, b: NsId)
    requires Inv(k, list, {}) && Precedes(k, list, a, b) && Precedes(k, list, b, a)
    ensures a == b
  {
    if Above(k, a, b) && Above(k, b, a) {
      AboveAntisym(k, a, b);
    } else if Above(k, a, b) {
      var z, s: nat, t: nat :| Branches(k, list, z, s, t, b, a);
      BranchesAreApart(k, list, z, s, t, b, a);
    } else {
      var z, s: nat, t: nat :| Branches(k, list, z, s, t, a, b);
      BranchesAreApart(k, list, z, s, t, a, b);
      var y, p: nat, q: nat :| Branches(k, list, y, p, q, b, a);
      BranchesOneWay(k, list, z, s, t, y, p, q, a, b);
    }
  }

  // ----- The walk follows the order -----

  lemma {:induction false} WalkAllFrom(k: Kernel, list: List, show: set<int>, x: NsId, s: nat, level: nat,
                                       w: (NsId, nat)) returns (t: nat)
    requires Inv(k, list, {}) && x in list && s <= |list[x].children|
    requires w in WalkAll(k, list, show, x, list[x].children[s..], level)
    ensures s <= t < |list[x].children| && Above(k, list[x].children[t], w.0)
    decreases |list[x].children| - s
  {
    var cs := list[x].children[s..];
    if s < |list[x].children| {
      assert cs[1..] == list[x].children[s + 1..];
      if w in WalkAll(k, list, show, x, cs[1..], level) {
        t := WalkAllFrom(k, list, show, x, s + 1, level, w);
      } else {
        WalkLevels(k, list, show, cs[0], level, w);
        t := s;
      }
    }
  }

  ghost predicate Ordered(k: Kernel, list: List, ws: seq<(NsId, nat)>) {
    forall i, j :: 0 <= i < j < |ws| ==> Precedes(k, list, ws[i].0, ws[j].0)
  }

  lemma ConcatIsOrdered(k: Kernel, list: List, a: seq<(NsId, nat)>, b: seq<(NsId, nat)>)
    requires Ordered(k, list, a) && Ordered(k, list, b)
    requires forall i, j :: 0 <= i < |a| && 0 <= j < |b| ==> Precedes(k, list, a[i].0, b[j].0)
    ensures Ordered(k, list, a + b)
  {
    var ws, n := a + b, |a|;
    forall i, j | 0 <= i < j < |ws| ensures Precedes(k, list, ws[i].0, ws[j].0) {
      if i >= n {
        assert ws[i] == b[i - n] && ws[j] == b[j - n];
      } else if j >= n {
        assert ws[i] == a[i] && ws[j] == b[j - n];
      }
    }
  }

  lemma {:induction false} WalkIsOrdered(k: Kernel, list: List, show: set<int>, x: NsId, level: nat)
    requires Inv(k, list, {}) && x in list
    ensures Ordered(k, list, Walk(k, list, show, x, level))
    decreases Height(k, x), 1, 0
  {
    var head := if Shown(list, show, x) then [(x, level)] else [];
    var rest := WalkAll(k, list, show, x, list[x].children[0..], level + 1);
    WalkParts(k, list, show, x, level);
    WalkAllIsOrdered(k, list, show, x, 0, level + 1);
    forall i, j | 0 <= i < |head| && 0 <= j < |rest| ensures Precedes(k, list, head[i].0, rest[j].0) {
      assert rest[j] in Walk(k, list, show, x, level);
      WalkLevels(k, list, show, x, level, rest[j]);
    }
    ConcatIsOrdered(k, list, head, rest);
  }

  /** The entry itself, if it is shown, and then its children's trees. */
  lemma WalkParts(k: Kernel, list: List, show: set<int>, x: NsId, level: nat)
    requires x in list
    ensures Walk(k, list, show, x, level) ==
            (if Shown(list, show, x) then [(x, level)] else []) +
            WalkAll(k, list, show, x, list[x].children[0..], level + 1)
  {
    assert list[x].children[0..] == list[x].children;
  }

  lemma WalkAllParts(k: Kernel, list: List, show: set<int>, x: NsId, s: nat, level: nat)
    requires Inv(k, list, {}) && x in list && s < |list[x].children|
    ensures var c := list[x].children[s];
            && c in list
            && WalkAll(k, list, show, x, list[x].children[s..], level) ==
               (if Height(k, c) < Height(k, x) then Walk(k, list, show, c, level) else []) +
               WalkAll(k, list, show, x, list[x].children[s + 1..], level)
  {
    ChildAt(k, list, x, s);
    assert GoodEntry(k, list, {}, x) && list[x].children[s] in list[x].children;
    assert list[x].children[s..][1..] == list[x].children[s + 1..];
  }

  lemma {:induction false} WalkAllIsOrdered(k: Kernel, list: List, show: set<int>, x: NsId, s: nat, level: nat)
    requires Inv(k, list, {}) && x in list && s <= |list[x].children|
    ensures Ordered(k, list, WalkAll(k, list, show, x, list[x].children[s..], level))
    decreases Height(k, x), 0, |list[x].children| - s
  {
    if s == |list[x].children| {
    } else {
      var c := list[x].children[s];
      WalkAllParts(k, list, show, x, s, level);
      var first := if Height(k, c) < Height(k, x) then Walk(k, list, show, c, level) else [];
      var rest := WalkAll(k, list, show, x, list[x].children[s + 1..], level);
      if Height(k, c) < Height(k, x) { WalkIsOrdered(k, list, show, c, level); }
      WalkAllIsOrdered(k, list, show, x, s + 1, level);
      forall i, j | 0 <= i < |first| && 0 <= j < |rest| ensures Precedes(k, list, first[i].0, rest[j].0) {
        BranchesHere(k, list, show, x, s, level, first[i], rest[j]);
      }
      ConcatIsOrdered(k, list, first, rest);
    }
  }

  lemma BranchesHere(k: Kernel, list: List, show: set<int>, x: NsId, s: nat, level: nat, a: (NsId, nat), b: (NsId, nat))
    requires Inv(k, list, {}) && x in list && s < |list[x].children| && list[x].children[s] in list
    requires a in Walk(k, list, show, list[x].children[s], level)
    requires b in WalkAll(k, list, show, x, list[x].children[s + 1..], level)
    ensures Precedes(k, list, a.0, b.0)
  {
    WalkLevels(k, list, show, list[x].children[s], level, a);
    var t := WalkAllFrom(k, list, show, x, s + 1, level, b);
    assert Branches(k, list, x, s, t, a.0, b.0);
  }

  // ----- What this means for the display of a tree -----

  ghost predicate InTree(k: Kernel, list: List, show: set<int>, x: NsId, level: nat, i: nat) {
    x in list && i < |Walk(k, list, show, x, level)|
  }

  /** An entry that precedes another is shown before it. */
  lemma ShownInOrder(k: Kernel, list: List, show: set<int>, x: NsId, level: nat, i: nat, j: nat)
    requires Inv(k, list, {}) && InTree(k, list, show, x, level, i) && InTree(k, list, show, x, level, j)
    requires var ws := Walk(k, list, show, x, level); ws[i].0 != ws[j].0 && Precedes(k, list, ws[i].0, ws[j].0)
    ensures i < j
  {
    if j < i {
      WalkIsOrdered(k, list, show, x, level);
      var ws := Walk(k, list, show, x, level);
      PrecedesOneWay(k, list, ws[i].0, ws[j].0);
    }
  }

  /** An entry is shown before all that is below it. */
  lemma ParentComesFirst(k: Kernel, list: List, show: set<int>, x: NsId, level: nat, i: nat, j: nat)
    requires Inv(k, list, {}) && InTree(k, list, show, x, level, i) && InTree(k, list, show, x, level, j)
    requires var ws := Walk(k, list, show, x, level); ws[i].0 != ws[j].0 && Above(k, ws[i].0, ws[j].0)
    ensures i < j
  {
    ShownInOrder(k, list, show, x, level, i, j);
  }

  /** What is below an earlier child of an entry is shown before what is below a later one. */
  lemma ChildrenInOrder(k: Kernel, list: List, show: set<int>, x: NsId, level: nat, i: nat, j: nat,
                        z: NsId, s: nat, t: nat)
    requires Inv(k, list, {}) && InTree(k, list, show, x, level, i) && InTree(k, list, show, x, level, j)
    requires var ws := Walk(k, list, show, x, level); Branches(k, list, z, s, t, ws[i].0, ws[j].0)
    ensures i < j
  {
    var ws := Walk(k, list, show, x, level);
    BranchesAreApart(k, list, z, s, t, ws[i].0, ws[j].0);
    ShownInOrder(k, list, show, x, level, i, j);
  }

  lemma StaysBelow(k: Kernel, list: List, y: NsId, a: NsId, b: NsId, c: NsId)
    requires Inv(k, list, {}) && Above(k, y, a) && Above(k, y, c)
    requires Precedes(k, list, a, b) && Precedes(k, list, b, c)
    ensures Above(k, y, b)
  {
    if Above(k, a, b) {
      AboveTrans(k, y, a, b);
    } else {
      var z, s: nat, t: nat :| Branches(k, list, z, s, t, a, b);
      var d := list[z].children[s];
      AboveLinear(k, y, d, a);
      if Above(k, d, y) {
        AboveTrans(k, d, y, c);
        assert Branches(k, list, z, s, t, c, b);
        PrecedesOneWay(k, list, b, c);
      } else {
        ChildAt(k, list, z, s);
        assert Above(k, y, z);
        BelowChild(k, list, z, t, b);
        AboveTrans(k, y, z, b);
      }
    }
  }

  /** The entries below any entry are shown together. */
  lemma SubtreeIsContiguous(k: Kernel, list: List, show: set<int>, x: NsId, level: nat, i: nat, j: nat, l: nat, y: NsId)
    requires Inv(k, list, {}) && i <= j <= l && InTree(k, list, show, x, level, l)
    requires var ws := Walk(k, list, show, x, level); Above(k, y, ws[i].0) && Above(k, y, ws[l].0)
    ensures Above(k, y, Walk(k, list, show, x, level)[j].0)
  {
    if i < j < l {
      var ws := Walk(k, list, show, x, level);
      WalkIsOrdered(k, list, show, x, level);
      StaysBelow(k, list, y, ws[i].0, ws[j].0, ws[l].0);
    }
  }

  /** The tree of the root is displayed before that of the invisible entry. */
  lemma RootTreeComesFirst(k: Kernel, list: List, show: set<int>, rootNS: NsId, i: nat, j: nat)
    requires WellFormed(k) && Inv(k, list, {}) && rootNS in list && IsRoot(k, rootNS)
    requires i < |Display(k, list, show, rootNS)| && j < |Display(k, list, show, rootNS)|
    requires var ws := Display(k, list, show, rootNS);
             Above(k, rootNS, ws[i].0) && Above(k, INVIS_USER_NS, ws[j].0)
    ensures i < j
  {
    var ws, first := Display(k, list, show, rootNS), Walk(k, list, show, rootNS, 0);
    if j < |first| {
      assert ws[j] in first;
      WalkLevels(k, list, show, rootNS, 0, ws[j]);
      AboveLinear(k, rootNS, INVIS_USER_NS, ws[j].0);
    } else if i >= |first| {
      assert ws[i] in Walk(k, list, show, INVIS_USER_NS, 0);
      WalkLevels(k, list, show, INVIS_USER_NS, 0, ws[i]);
      AboveLinear(k, rootNS, INVIS_USER_NS, ws[i].0);
    }
  }
}
