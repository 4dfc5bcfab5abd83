/**
 namespaces_of.go: namespaces are added in any order, each together with its ancestors, and the
 resulting forest is displayed by a recursive walk. The kernel's answers to the parent/owner
 ioctl are a finite relation without cycles.
 */
module NamespaceForest {
  import opened Basics

  datatype NsId = NsId(device: int, inode: int)

  /** The key of the special entry for namespaces whose owner is not visible; also the zero value of rootNS. */
  const INVIS_USER_NS := NsId(0, 0)

  const CLONE_NEWUSER := 0x10000000

  /** What the kernel says of a namespace; the ioctl yields no parent when it fails with EPERM. */
  datatype Info = Info(nsType: int, parent: Option<NsId>)

  /** `pidns` is whether the PID hierarchy is shown; depth bounds the chains of parents. */
  datatype Kernel = Kernel(ns: map<NsId, Info>, pidns: bool, depth: map<NsId, nat>, top: nat)

  // ----- The parent relation -----

  function Depth(k: Kernel, e: NsId): nat {
    if e in k.depth then k.depth[e] else 0
  }

  /** A namespace without a parent that is the root of the hierarchy. */
  predicate IsRoot(k: Kernel, e: NsId) {
    e in k.ns && k.ns[e].parent.None? && (k.ns[e].nsType == CLONE_NEWUSER || k.pidns)
  }

  /** The entry that e becomes a child of. */
  function UpOf(k: Kernel, e: NsId): NsId
    requires e in k.ns
  {
    if k.ns[e].parent.Some? then k.ns[e].parent.value else INVIS_USER_NS
  }

  predicate HasUp(k: Kernel, e: NsId) {
    e in k.ns && !IsRoot(k, e) && Measure(k, UpOf(k, e)) < Measure(k, e)
  }

  function Measure(k: Kernel, e: NsId): nat {
    if e == INVIS_USER_NS then 0 else Depth(k, e) + 1
  }

  ghost predicate WellFormed(k: Kernel) {
    && INVIS_USER_NS !in k.ns
    && (forall e :: e in k.ns ==> Depth(k, e) <= k.top)
    && (forall e :: e in k.ns && k.ns[e].parent.Some? ==>
          k.ns[e].parent.value in k.ns && Depth(k, k.ns[e].parent.value) < Depth(k, e))
    && (forall r, s :: IsRoot(k, r) && IsRoot(k, s) ==> r == s)
  }

  predicate Above(k: Kernel, a: NsId, e: NsId)
    decreases Measure(k, e)
  {
    a == e || (HasUp(k, e) && Above(k, a, UpOf(k, e)))
  }

  function TopOf(k: Kernel, e: NsId): NsId
    decreases Measure(k, e)
  {
    if HasUp(k, e) then TopOf(k, UpOf(k, e)) else e
  }

  /** e with all the entries above it. */
  function Chain(k: Kernel, e: NsId): set<NsId>
    decreases Measure(k, e)
  {
    {e} + if HasUp(k, e) then Chain(k, UpOf(k, e)) else {}
  }

  function Chains(k: Kernel, es: seq<NsId>): set<NsId> {
    if es == [] then {} else Chain(k, es[0]) + Chains(k, es[1..])
  }

  // ----- The list that is built -----

  datatype Entry = Entry(nsType: int, children: seq<NsId>, pids: seq<int>)

  type List = map<NsId, Entry>

  ghost predicate Distinct(cs: seq<NsId>) {
    forall i, j :: 0 <= i < j < |cs| ==> cs[i] != cs[j]
  }

  /** The entry belongs in the list, and its children are namespaces of the list that belong under it, each once. */
  ghost predicate GoodEntry(k: Kernel, list: List, pending: set<NsId>, x: NsId)
    requires x in list
  {
    && (x == INVIS_USER_NS || x in k.ns)
    && list[x].nsType == (if x == INVIS_USER_NS then CLONE_NEWUSER else k.ns[x].nsType)
    && Distinct(list[x].children)
    && forall c :: c in list[x].children ==> c in list && c in k.ns && HasUp(k, c) && UpOf(k, c) == x && c !in pending
  }

  /** Every namespace of the list is a child of its parent's entry, except those whose parent is being added. */
  ghost predicate Placed(k: Kernel, list: List, x: NsId) {
    HasUp(k, x) ==> UpOf(k, x) in list && x in list[UpOf(k, x)].children
  }

  ghost predicate Inv(k: Kernel, list: List, pending: set<NsId>) {
    && (forall x :: x in list ==> GoodEntry(k, list, pending, x))
    && (forall x :: x in list && x !in pending ==> Placed(k, list, x))
  }

  ghost predicate RootKnown(k: Kernel, list: List, rootNS: NsId) {
    if exists r :: r in list && IsRoot(k, r) then IsRoot(k, rootNS) && rootNS in list else rootNS == INVIS_USER_NS
  }

  lemma UpIsKnown(k: Kernel, e: NsId)
    requires WellFormed(k) && e in k.ns
    ensures HasUp(k, e) <==> !IsRoot(k, e)
    ensures k.ns[e].parent.Some? ==> UpOf(k, e) in k.ns
  {
  }

  /** A new entry that waits for its parent. */
  lemma NewEntry(k: Kernel, list: List, pending: set<NsId>, e: NsId)
    requires WellFormed(k) && Inv(k, list, pending) && e !in list
    requires e in k.ns || e == INVIS_USER_NS
    ensures var l := list[e := Entry(if e == INVIS_USER_NS then CLONE_NEWUSER else k.ns[e].nsType, [], [])];
            Inv(k, l, if e in k.ns then pending + {e} else pending)
  {
    var l := list[e := Entry(if e == INVIS_USER_NS then CLONE_NEWUSER else k.ns[e].nsType, [], [])];
    var p := if e in k.ns then pending + {e} else pending;
    forall x | x in l ensures GoodEntry(k, l, p, x) {
      if x != e { assert GoodEntry(k, list, pending, x); }
    }
    forall x | x in l && x !in p ensures Placed(k, l, x) {
      if x != e { assert Placed(k, list, x); }
    }
  }

  /** The waiting entry becomes a child of its parent's entry. */
  lemma Adopt(k: Kernel, list: List, pending: set<NsId>, e: NsId)
    requires WellFormed(k) && Inv(k, list, pending + {e}) && e !in pending
    requires e in list && e in k.ns && HasUp(k, e) && UpOf(k, e) in list
    ensures var p := UpOf(k, e);
            Inv(k, list[p := list[p].(children := list[p].children + [e])], pending)
  {
    var p := UpOf(k, e);
    var l := list[p := list[p].(children := list[p].children + [e])];
    forall x | x in l ensures GoodEntry(k, l, pending, x) {
      assert GoodEntry(k, list, pending + {e}, x);
    }
    forall x | x in l && x !in pending ensures Placed(k, l, x) {
      if x != e { assert Placed(k, list, x); }
    }
  }

  lemma RootPlaced(k: Kernel, list: List, pending: set<NsId>, e: NsId)
    requires Inv(k, list, pending + {e}) && IsRoot(k, e)
    ensures Inv(k, list, pending)
  {
    forall x | x in list ensures GoodEntry(k, list, pending, x) {
      assert GoodEntry(k, list, pending + {e}, x);
    }
  }

  /** Above an entry that is not waiting, and has nothing waiting above it, all is in the list. */
  lemma {:induction false} ChainIsListed(k: Kernel, list: List, pending: set<NsId>, e: NsId)
    requires Inv(k, list, pending) && e in list && forall q :: q in pending ==> Measure(k, q) > Measure(k, e)
    ensures Chain(k, e) <= list.Keys
    decreases Measure(k, e)
  {
    if !HasUp(k, e) {
    } else {
      assert Placed(k, list, e);
      ChainIsListed(k, list, pending, UpOf(k, e));
    }
  }

  /** No recorded PID is lost or moved; new entries have none. */
  ghost predicate SamePids(before: List, after: List) {
    forall x :: x in after ==> after[x].pids == if x in before then before[x].pids else []
  }

  /** Children are only added, and behind those that are there. */
  ghost predicate ChildrenKept(before: List, after: List) {
    forall x :: x in before ==> x in after && before[x].children <= after[x].children
  }

  lemma ChildrenKeptTwice(a: List, b: List, c: List)
    requires ChildrenKept(a, b) && ChildrenKept(b, c)
    ensures ChildrenKept(a, c)
  {
    forall x | x in a ensures x in c && a[x].children <= c[x].children {
      assert x in b && a[x].children <= b[x].children <= c[x].children;
    }
  }

  lemma SameHasSameChildren(list: List)
    ensures ChildrenKept(list, list)
  {
  }

  lemma NewKeepsChildren(list: List, e: NsId, entry: Entry)
    requires e !in list
    ensures ChildrenKept(list, list[e := entry])
  {
  }

  lemma AppendKeepsChildren(k: Kernel, list: List, p: NsId, e: NsId)
    requires p in list && (HasUp(k, e) ==> UpOf(k, e) == p)
    ensures var l := list[p := list[p].(children := list[p].children + [e])];
            ChildrenKept(list, l) && SamePids(list, l) && IsLastChild(k, l, e)
  {
  }

  lemma PidKeepsChildren(k: Kernel, list: List, e: NsId, pids: seq<int>)
    requires e in list
    ensures var l := list[e := list[e].(pids := pids)];
            ChildrenKept(list, l) && (IsLastChild(k, list, e) ==> IsLastChild(k, l, e))
  {
  }

  /** e was appended to the children of its parent. */
  ghost predicate IsLastChild(k: Kernel, list: List, e: NsId) {
    HasUp(k, e) ==>
      && UpOf(k, e) in list
      && list[UpOf(k, e)].children != [] && list[UpOf(k, e)].children[|list[UpOf(k, e)].children| - 1] == e
  }

  lemma NewHasNoPids(list: List, e: NsId, nsType: int)
    requires e !in list
    ensures SamePids(list, list[e := Entry(nsType, [], [])])
  {
  }

  /** The PID is appended to those of e; all others are as before. */
  ghost predicate PidRecorded(before: List, after: List, e: NsId, pid: int) {
    && e in after && after[e].pids == (if e in before then before[e].pids else []) + [pid]
    && forall x :: x in after && x != e ==> after[x].pids == if x in before then before[x].pids else []
  }

  lemma OnePidMore(before: List, list: List, e: NsId, pid: int)
    requires SamePids(before, list) && e in list
    ensures PidRecorded(before, list[e := list[e].(pids := list[e].pids + [pid])], e, pid)
  {
  }

  lemma SameHasSamePids(list: List)
    ensures SamePids(list, list)
  {
  }

  lemma ChainStep(k: Kernel, e: NsId)
    requires WellFormed(k) && e in k.ns
    ensures Chain(k, e) == {e} + if IsRoot(k, e) then {} else if k.ns[e].parent.None? then {INVIS_USER_NS}
            else Chain(k, k.ns[e].parent.value)
  {
    UpIsKnown(k, e);
    assert Chain(k, INVIS_USER_NS) == {INVIS_USER_NS};
  }

  lemma SamePidsTwice(a: List, b: List, c: List)
    requires a.Keys <= b.Keys && SamePids(a, b) && SamePids(b, c)
    ensures SamePids(a, c)
  {
  }

  lemma KeysTwice(a: set<NsId>, b: set<NsId>, c: set<NsId>, e: NsId, more: set<NsId>)
    requires b == a + {e} && c == b + more
    ensures c == a + ({e} + more)
  {
  }

  /** An entry is added, then those above it, then one list of children changes. */
  lemma GrownTwice(before: List, a: List, b: List, after: List, e: NsId, more: set<NsId>)
    requires a.Keys == before.Keys + {e} && SamePids(before, a)
    requires b.Keys == a.Keys + more && SamePids(a, b) && after.Keys == b.Keys && SamePids(b, after)
    ensures after.Keys == before.Keys + ({e} + more) && SamePids(before, after)
  {
    KeysTwice(before.Keys, a.Keys, after.Keys, e, more);
    SamePidsTwice(a, b, after);
    SamePidsTwice(before, a, after);
  }

  lemma RootsIn(k: Kernel, list: List, l: List, rootNS: NsId)
    requires RootKnown(k, list, rootNS) && list.Keys <= l.Keys
    requires forall x :: x in l && x !in list ==> !IsRoot(k, x)
    ensures RootKnown(k, l, rootNS)
  {
    if r :| r in list && IsRoot(k, r) {
      assert r in l;
    }
  }

  class NamespaceInfo {
    const kernel: Kernel
    var nsList: List
    var rootNS: NsId

    ghost predicate Valid(pending: set<NsId>)
      reads this
    {
      WellFormed(kernel) && Inv(kernel, nsList, pending) && RootKnown(kernel, nsList, rootNS)
    }

    constructor (k: Kernel)
      requires WellFormed(k)
      ensures Valid({}) && kernel == k && nsList == map[]
    {
      kernel, nsList, rootNS := k, map[], NsId(0, 0);
    }

    /** Adds e with its ancestors and records a PID that is greater than zero. */
    method AddNamespace(e: NsId, pid: int, ghost pending: set<NsId>)
      requires Valid(pending) && e in kernel.ns
      requires forall q :: q in pending ==> Measure(kernel, q) > Measure(kernel, e)
      modifies this`nsList, this`rootNS
      ensures Valid(pending) && nsList.Keys == old(nsList).Keys + Chain(kernel, e)
      ensures ChildrenKept(old(nsList), nsList) && (e !in old(nsList) ==> IsLastChild(kernel, nsList, e))
      ensures pid <= 0 ==> SamePids(old(nsList), nsList)
      ensures pid > 0 ==> PidRecorded(old(nsList), nsList, e, pid)
      decreases Measure(kernel, e), 2
    {
      if e !in nsList {
        AddNamespaceToList(e, pending);
      } else {
        ChainIsListed(kernel, nsList, pending, e);
        assert nsList.Keys == nsList.Keys + Chain(kernel, e);
        SameHasSamePids(nsList);
        SameHasSameChildren(nsList);
      }
      if pid > 0 {
        ghost var l := nsList;
        OnePidMore(old(nsList), nsList, e, pid);
        AddPid(e, pid, pending);
        ChildrenKeptTwice(old(nsList), l, nsList);
      }
    }

    method AddPid(e: NsId, pid: int, ghost pending: set<NsId>)
      requires Valid(pending) && e in nsList
      modifies this`nsList
      ensures Valid(pending) && nsList == old(nsList)[e := old(nsList)[e].(pids := old(nsList)[e].pids + [pid])]
      ensures nsList.Keys == old(nsList).Keys && ChildrenKept(old(nsList), nsList)
      ensures IsLastChild(kernel, old(nsList), e) ==> IsLastChild(kernel, nsList, e)
    {
      PidKeepsChildren(kernel, nsList, e, nsList[e].pids + [pid]);
      assert nsList[e := nsList[e].(pids := nsList[e].pids + [pid])].Keys == nsList.Keys;
      PidsDoNotMatter(kernel, nsList, pending, e, nsList[e].pids + [pid]);
      nsList := nsList[e := nsList[e].(pids := nsList[e].pids + [pid])];
      RootsIn(kernel, old(nsList), nsList, rootNS);
    }

    /** An empty entry. The caller sets rootNS when the entry is the root. */
    method CreateEntry(e: NsId, nsType: int, ghost pending: set<NsId>)
      requires Valid(pending) && e !in nsList && (e in kernel.ns || e == INVIS_USER_NS)
      requires nsType == if e == INVIS_USER_NS then CLONE_NEWUSER else kernel.ns[e].nsType
      modifies this`nsList
      ensures Inv(kernel, nsList, if e in kernel.ns then pending + {e} else pending)
      ensures !IsRoot(kernel, e) ==> RootKnown(kernel, nsList, rootNS)
      ensures nsList.Keys == old(nsList).Keys + {e} && SamePids(old(nsList), nsList)
      ensures ChildrenKept(old(nsList), nsList)
    {
      NewEntry(kernel, nsList, pending, e);
      NewHasNoPids(nsList, e, nsType);
      NewKeepsChildren(nsList, e, Entry(nsType, [], []));
      nsList := nsList[e := Entry(nsType, [], [])];
      if !IsRoot(kernel, e) {
        RootsIn(kernel, old(nsList), nsList, rootNS);
      }
    }

    method AppendChild(p: NsId, e: NsId, ghost pending: set<NsId>)
      requires Valid(pending + {e}) && e in kernel.ns && e in nsList && e !in pending
      requires HasUp(kernel, e) && UpOf(kernel, e) == p && p in nsList
      modifies this`nsList
      ensures Valid(pending) && nsList.Keys == old(nsList).Keys && SamePids(old(nsList), nsList)
      ensures ChildrenKept(old(nsList), nsList) && IsLastChild(kernel, nsList, e)
    {
      Adopt(kernel, nsList, pending, e);
      AppendKeepsChildren(kernel, nsList, p, e);
      nsList := nsList[p := nsList[p].(children := nsList[p].children + [e])];
      RootsIn(kernel, old(nsList), nsList, rootNS);
    }

    method AddNamespaceToList(e: NsId, ghost pending: set<NsId>)
      requires Valid(pending) && e in kernel.ns && e !in nsList
      requires forall q :: q in pending ==> Measure(kernel, q) > Measure(kernel, e)
      modifies this`nsList, this`rootNS
      ensures Valid(pending) && nsList.Keys == old(nsList).Keys + Chain(kernel, e)
      ensures SamePids(old(nsList), nsList)
      ensures ChildrenKept(old(nsList), nsList) && IsLastChild(kernel, nsList, e)
      decreases Measure(kernel, e), 1
    {
      UpIsKnown(kernel, e);
      CreateEntry(e, kernel.ns[e].nsType, pending);
      ghost var l := nsList;
      ChainStep(kernel, e);
      var parent := kernel.ns[e].parent;
      if parent.None? {
        PlaceParentless(e, pending);
        SameHasSamePids(nsList);
        GrownTwice(old(nsList), l, nsList, nsList, e, if IsRoot(kernel, e) then {} else {INVIS_USER_NS});
        ChildrenKeptTwice(old(nsList), l, nsList);
      } else {
        AddUnderParent(e, parent.value, pending);
        SameHasSamePids(nsList);
        GrownTwice(old(nsList), l, nsList, nsList, e, Chain(kernel, parent.value));
        ChildrenKeptTwice(old(nsList), l, nsList);
      }
    }

    /** The recursion on the parent, and then e as its last child. */
    method AddUnderParent(e: NsId, parent: NsId, ghost pending: set<NsId>)
      requires Valid(pending + {e}) && e in kernel.ns && e in nsList && e !in pending
      requires kernel.ns[e].parent == Some(parent)
      requires forall q :: q in pending ==> Measure(kernel, q) > Measure(kernel, e)
      modifies this`nsList, this`rootNS
      ensures Valid(pending) && nsList.Keys == old(nsList).Keys + Chain(kernel, parent)
      ensures SamePids(old(nsList), nsList)
      ensures ChildrenKept(old(nsList), nsList) && IsLastChild(kernel, nsList, e)
      decreases Measure(kernel, e), 0
    {
      UpIsKnown(kernel, e);
      AddNamespace(parent, -1, pending + {e});
      ghost var l := nsList;
      AppendChild(parent, e, pending);
      SamePidsTwice(old(nsList), l, nsList);
      ChildrenKeptTwice(old(nsList), l, nsList);
    }

    /** A namespace without a parent is the root, or goes under the special entry. */
    method PlaceParentless(e: NsId, ghost pending: set<NsId>)
      requires WellFormed(kernel) && Inv(kernel, nsList, pending + {e})
      requires e in kernel.ns && e in nsList && e !in pending
      requires kernel.ns[e].parent.None? && (!IsRoot(kernel, e) ==> RootKnown(kernel, nsList, rootNS))
      modifies this`nsList, this`rootNS
      ensures Valid(pending) && SamePids(old(nsList), nsList)
      ensures ChildrenKept(old(nsList), nsList) && IsLastChild(kernel, nsList, e)
      ensures nsList.Keys == old(nsList).Keys + if IsRoot(kernel, e) then {} else {INVIS_USER_NS}
    {
      UpIsKnown(kernel, e);
      assert GoodEntry(kernel, nsList, pending + {e}, e);
      if nsList[e].nsType == CLONE_NEWUSER || kernel.pidns {
        rootNS := e;
        RootPlaced(kernel, nsList, pending, e);
      } else {
        AddToInvisible(e, pending);
      }
    }

    /** A nonuser namespace with an invisible owner goes under the special entry. */
    method AddToInvisible(e: NsId, ghost pending: set<NsId>)
      requires Valid(pending + {e}) && e in kernel.ns && e in nsList && e !in pending
      requires HasUp(kernel, e) && UpOf(kernel, e) == INVIS_USER_NS
      modifies this`nsList
      ensures Valid(pending) && nsList.Keys == old(nsList).Keys + {INVIS_USER_NS} && SamePids(old(nsList), nsList)
      ensures ChildrenKept(old(nsList), nsList) && IsLastChild(kernel, nsList, e)
    {
      if INVIS_USER_NS !in nsList {
        CreateEntry(INVIS_USER_NS, CLONE_NEWUSER, pending + {e});
      }
      ghost var l := nsList;
      AppendChild(INVIS_USER_NS, e, pending);
      SamePidsTwice(old(nsList), l, nsList);
      ChildrenKeptTwice(old(nsList), l, nsList);
    }
  }

  lemma PidsDoNotMatter(k: Kernel, list: List, pending: set<NsId>, e: NsId, pids: seq<int>)
    requires Inv(k, list, pending) && e in list
    ensures Inv(k, list[e := list[e].(pids := pids)], pending)
  {
    var l := list[e := list[e].(pids := pids)];
    forall x | x in l ensures GoodEntry(k, l, pending, x) {
      assert GoodEntry(k, list, pending, x);
    }
    forall x | x in l && x !in pending ensures Placed(k, l, x) {
      assert Placed(k, list, x);
    }
  }

  // ----- The result does not depend on the order -----

  /** The child lists are determined by the set of keys, up to their order. */
  lemma EdgesFromKeys(k: Kernel, list: List, x: NsId)
    requires Inv(k, list, {}) && x in list
    ensures multiset(list[x].children) == multiset(set c | c in list && HasUp(k, c) && UpOf(k, c) == x)
  {
    var s := set c | c in list && HasUp(k, c) && UpOf(k, c) == x;
    var cs := list[x].children;
    assert GoodEntry(k, list, {}, x);
    forall c | c in s ensures c in cs { assert Placed(k, list, c); }
    DistinctIsSet(cs, s);
  }

  lemma {:induction false} DistinctIsSet(cs: seq<NsId>, s: set<NsId>)
    requires Distinct(cs) && forall c :: c in cs <==> c in s
    ensures multiset(cs) == multiset(s)
  {
    if cs != [] {
      assert cs == [cs[0]] + cs[1..];
      assert cs[0] !in cs[1..];
      DistinctIsSet(cs[1..], s - {cs[0]});
    } else {
      assert s == {};
    }
  }

  /** Two finished lists with the same keys have the same children under every entry and the same root. */
  lemma SameKeysSameForest(k: Kernel, a: List, b: List, rootA: NsId, rootB: NsId)
    requires WellFormed(k) && Inv(k, a, {}) && Inv(k, b, {}) && a.Keys == b.Keys
    requires RootKnown(k, a, rootA) && RootKnown(k, b, rootB)
    ensures rootA == rootB
    ensures forall x :: x in a ==> multiset(a[x].children) == multiset(b[x].children)
  {
    forall x | x in a ensures multiset(a[x].children) == multiset(b[x].children) {
      EdgesFromKeys(k, a, x);
      EdgesFromKeys(k, b, x);
      assert (set c | c in a && HasUp(k, c) && UpOf(k, c) == x) == (set c | c in b && HasUp(k, c) && UpOf(k, c) == x);
    }
  }

  lemma {:induction false} ChainsOfConcat(k: Kernel, a: seq<NsId>, b: seq<NsId>)
    ensures Chains(k, a + b) == Chains(k, a) + Chains(k, b)
  {
    if a == [] {
      assert a + b == b;
    } else {
      assert (a + b)[1..] == a[1..] + b;
      ChainsOfConcat(k, a[1..], b);
    }
  }

  lemma {:induction false} ChainsHas(k: Kernel, es: seq<NsId>, x: NsId)
    ensures x in Chains(k, es) <==> exists e :: e in es && x in Chain(k, e)
  {
    if es == [] {
    } else {
      var rest := es[1..];
      ChainsHas(k, rest, x);
      assert es == [es[0]] + rest;
      if e :| e in rest && x in Chain(k, e) {
        assert e in es;
      }
      if e :| e in es && x in Chain(k, e) {
        assert e == es[0] || e in rest;
      }
    }
  }

  lemma ChainsNext(k: Kernel, es: seq<NsId>, i: nat)
    requires i < |es|
    ensures Chains(k, es[..i + 1]) == Chains(k, es[..i]) + Chain(k, es[i])
  {
    assert es[..i + 1] == es[..i] + [es[i]];
    ChainsOfConcat(k, es[..i], [es[i]]);
    assert Chains(k, [es[i]]) == Chain(k, es[i]) + Chains(k, []);
  }

  /** The keys reached from the same namespaces are the same, in whatever order and however often they were added. */
  lemma ChainsFromSet(k: Kernel, es: seq<NsId>, fs: seq<NsId>)
    requires forall e :: e in es <==> e in fs
    ensures Chains(k, es) == Chains(k, fs)
  {
    forall x ensures x in Chains(k, es) <==> x in Chains(k, fs) {
      ChainsHas(k, es, x);
      ChainsHas(k, fs, x);
    }
  }

  /** Any sequence of additions leaves a complete forest on exactly the namespaces added and those above them. */
  method AddAll(k: Kernel, es: seq<NsId>) returns (info: NamespaceInfo)
    requires WellFormed(k) && forall e :: e in es ==> e in k.ns
    ensures fresh(info) && info.kernel == k && info.Valid({}) && info.nsList.Keys == Chains(k, es)
  {
    info := new NamespaceInfo(k);
    assert es[..0] == [];
    for i := 0 to |es|
      invariant fresh(info) && info.kernel == k && info.Valid({}) && info.nsList.Keys == Chains(k, es[..i])
    {
      ChainsNext(k, es, i);
      info.AddNamespace(es[i], -1, {});
    }
    assert es[..|es|] == es;
  }

  /** Two runs over the same namespaces, in any order, build the same forest. */
  method OrderDoesNotMatter(k: Kernel, es: seq<NsId>, fs: seq<NsId>) returns (a: NamespaceInfo, b: NamespaceInfo)
    requires WellFormed(k) && (forall e :: e in es ==> e in k.ns) && forall e :: e in es <==> e in fs
    ensures a.nsList.Keys == b.nsList.Keys && a.rootNS == b.rootNS
    ensures forall x :: x in a.nsList ==> multiset(a.nsList[x].children) == multiset(b.nsList[x].children)
  {
    a := AddAll(k, es);
    b := AddAll(k, fs);
    ChainsFromSet(k, es, fs);
    SameKeysSameForest(k, a.nsList, b.nsList, a.rootNS, b.rootNS);
  }

  // ----- The walk -----

  function Height(k: Kernel, x: NsId): nat {
    if Measure(k, x) <= k.top + 1 then k.top + 1 - Measure(k, x) else 0
  }

  /** The entries that are shown: user namespaces, and those of the types asked for. */
  predicate Shown(list: List, show: set<int>, x: NsId) {
    x in list && (list[x].nsType == CLONE_NEWUSER || list[x].nsType in show)
  }

  /** displayNamespaceTree: the entries that are shown, in the order of the walk, with their levels. */
  function Walk(k: Kernel, list: List, show: set<int>, x: NsId, level: nat): seq<(NsId, nat)>
    requires x in list
    decreases Height(k, x), 1, 0
  {
    (if Shown(list, show, x) then [(x, level)] else []) + WalkAll(k, list, show, x, list[x].children, level + 1)
  }

  function WalkAll(k: Kernel, list: List, show: set<int>, x: NsId, cs: seq<NsId>, level: nat): seq<(NsId, nat)>
    decreases Height(k, x), 0, |cs|
  {
    if cs == [] then []
    else (if cs[0] in list && Height(k, cs[0]) < Height(k, x) then Walk(k, list, show, cs[0], level) else [])
         + WalkAll(k, list, show, x, cs[1..], level)
  }

  /** How often an entry is shown. */
  function Visits(ws: seq<(NsId, nat)>, e: NsId): nat {
    if ws == [] then 0 else (if ws[0].0 == e then 1 else 0) + Visits(ws[1..], e)
  }

  lemma {:induction false} VisitsOfConcat(a: seq<(NsId, nat)>, b: seq<(NsId, nat)>, e: NsId)
    ensures Visits(a + b, e) == Visits(a, e) + Visits(b, e)
  {
    if a == [] {
      assert a + b == b;
    } else {
      assert (a + b)[1..] == a[1..] + b;
      VisitsOfConcat(a[1..], b, e);
    }
  }

  lemma {:induction false} AboveMeasure(k: Kernel, a: NsId, e: NsId)
    requires Above(k, a, e)
    ensures Measure(k, a) <= Measure(k, e)
    decreases Measure(k, e)
  {
    if a == e {
    } else {
      AboveMeasure(k, a, UpOf(k, e));
    }
  }

  /** No entry lies below two children of the same parent. */
  lemma {:induction false} SiblingsApart(k: Kernel, x: NsId, c: NsId, d: NsId, e: NsId)
    requires HasUp(k, c) && HasUp(k, d) && UpOf(k, c) == x == UpOf(k, d) && Above(k, c, e) && Above(k, d, e)
    ensures c == d
    decreases Measure(k, e)
  {
    if c != e && d != e {
      SiblingsApart(k, x, c, d, UpOf(k, e));
    } else if c != d {
      if c == e { AboveMeasure(k, d, x); } else { AboveMeasure(k, c, x); }
    }
  }

  lemma {:induction false} AboveThrough(k: Kernel, x: NsId, c: NsId, e: NsId)
    requires HasUp(k, c) && UpOf(k, c) == x && Above(k, c, e)
    ensures Above(k, x, e)
    decreases Measure(k, e)
  {
    if c == e {
    } else {
      AboveThrough(k, x, c, UpOf(k, e));
    }
  }

  /** An entry properly below x lies below one of the children recorded for x. */
  lemma {:induction false} ChildAbove(k: Kernel, list: List, x: NsId, e: NsId) returns (i: nat)
    requires Inv(k, list, {}) && x in list && e in list && Above(k, x, e) && x != e
    ensures i < |list[x].children| && Above(k, list[x].children[i], e)
    decreases Measure(k, e)
  {
    assert Placed(k, list, e);
    if UpOf(k, e) == x {
      i :| 0 <= i < |list[x].children| && list[x].children[i] == e;
    } else {
      i := ChildAbove(k, list, x, UpOf(k, e));
    }
  }

  ghost predicate BelowSome(k: Kernel, cs: seq<NsId>, e: NsId) {
    exists i :: 0 <= i < |cs| && Above(k, cs[i], e)
  }

  ghost predicate ChildrenOf(k: Kernel, list: List, x: NsId, cs: seq<NsId>) {
    && Distinct(cs)
    && forall i :: 0 <= i < |cs| ==> cs[i] in list && cs[i] in k.ns && HasUp(k, cs[i]) && UpOf(k, cs[i]) == x
  }

  lemma {:induction false} WalkVisits(k: Kernel, list: List, show: set<int>, x: NsId, level: nat, e: NsId)
    requires WellFormed(k) && Inv(k, list, {}) && x in list && e in list
    ensures Visits(Walk(k, list, show, x, level), e) ==
            if (list[e].nsType == CLONE_NEWUSER || list[e].nsType in show) && Above(k, x, e) then 1 else 0
    decreases Height(k, x), 1, 0
  {
    var cs := list[x].children;
    assert GoodEntry(k, list, {}, x);
    WalkAllVisits(k, list, show, x, cs, level + 1, e);
    var rest := WalkAll(k, list, show, x, cs, level + 1);
    VisitsOfConcat(if Shown(list, show, x) then [(x, level)] else [], rest, e);
    if BelowSome(k, cs, e) {
      var i :| 0 <= i < |cs| && Above(k, cs[i], e);
      AboveThrough(k, x, cs[i], e);
      AboveMeasure(k, cs[i], e);
    } else if Above(k, x, e) && x != e {
      var i := ChildAbove(k, list, x, e);
    }
  }

  lemma {:induction false} WalkAllVisits(k: Kernel, list: List, show: set<int>, x: NsId, cs: seq<NsId>, level: nat,
                                         e: NsId)
    requires WellFormed(k) && Inv(k, list, {}) && e in list && ChildrenOf(k, list, x, cs)
    ensures Visits(WalkAll(k, list, show, x, cs, level), e) ==
            if Shown(list, show, e) && BelowSome(k, cs, e) then 1 else 0
    decreases Height(k, x), 0, |cs|
  {
    if cs == [] {
    } else {
      var c, rest := cs[0], cs[1..];
      assert Height(k, c) < Height(k, x);
      WalkVisits(k, list, show, c, level, e);
      WalkAllVisits(k, list, show, x, rest, level, e);
      VisitsOfConcat(Walk(k, list, show, c, level), WalkAll(k, list, show, x, rest, level), e);
      BelowFirst(k, x, cs, e);
    }
  }

  lemma BelowFirst(k: Kernel, x: NsId, cs: seq<NsId>, e: NsId)
    requires cs != [] && Distinct(cs)
    requires forall i :: 0 <= i < |cs| ==> cs[i] in k.ns && HasUp(k, cs[i]) && UpOf(k, cs[i]) == x
    ensures BelowSome(k, cs, e) <==> Above(k, cs[0], e) || BelowSome(k, cs[1..], e)
    ensures !(Above(k, cs[0], e) && BelowSome(k, cs[1..], e))
  {
    if BelowSome(k, cs[1..], e) {
      var i :| 0 <= i < |cs[1..]| && Above(k, cs[1..][i], e);
      assert Above(k, cs[i + 1], e);
      if Above(k, cs[0], e) {
        SiblingsApart(k, x, cs[0], cs[i + 1], e);
      }
    }
    if BelowSome(k, cs, e) && !Above(k, cs[0], e) {
      var i :| 0 <= i < |cs| && Above(k, cs[i], e);
      assert Above(k, cs[1..][i - 1], e);
    }
  }

  /** How many levels e lies below x. */
  function Steps(k: Kernel, x: NsId, e: NsId): nat
    decreases Measure(k, e)
  {
    if x == e || !HasUp(k, e) then 0 else 1 + Steps(k, x, UpOf(k, e))
  }

  lemma {:induction false} StepsThrough(k: Kernel, x: NsId, c: NsId, e: NsId)
    requires HasUp(k, c) && UpOf(k, c) == x && Above(k, c, e)
    ensures Steps(k, x, e) == Steps(k, c, e) + 1
    decreases Measure(k, e)
  {
    AboveMeasure(k, c, e);
    if c == e {
    } else {
      StepsThrough(k, x, c, UpOf(k, e));
    }
  }

  /** The walk visits only entries of the list that lie below its start, each indented by its distance from it. */
  lemma {:induction false} WalkLevels(k: Kernel, list: List, show: set<int>, x: NsId, level: nat, w: (NsId, nat))
    requires Inv(k, list, {}) && x in list && w in Walk(k, list, show, x, level)
    ensures Shown(list, show, w.0) && Above(k, x, w.0) && w.1 == level + Steps(k, x, w.0)
    decreases Height(k, x), 1, 0
  {
    assert GoodEntry(k, list, {}, x);
    if w != (x, level) || !Shown(list, show, x) {
      WalkAllLevels(k, list, show, x, list[x].children, level, w);
    }
  }

  lemma {:induction false} WalkAllLevels(k: Kernel, list: List, show: set<int>, x: NsId, cs: seq<NsId>, level: nat,
                                         w: (NsId, nat))
    requires Inv(k, list, {}) && ChildrenOf(k, list, x, cs) && w in WalkAll(k, list, show, x, cs, level + 1)
    ensures Shown(list, show, w.0) && Above(k, x, w.0) && w.1 == level + Steps(k, x, w.0)
    decreases Height(k, x), 0, |cs|
  {
    var c := cs[0];
    if w in WalkAll(k, list, show, x, cs[1..], level + 1) {
      WalkAllLevels(k, list, show, x, cs[1..], level, w);
    } else {
      WalkLevels(k, list, show, c, level + 1, w);
      AboveThrough(k, x, c, w.0);
      StepsThrough(k, x, c, w.0);
    }
  }

  /** displayNamespaceHierarchies without a subtree option: the tree from rootNS, then the invisible entry's. */
  function Display(k: Kernel, list: List, show: set<int>, rootNS: NsId): seq<(NsId, nat)>
    requires rootNS in list
  {
    Walk(k, list, show, rootNS, 0) + if INVIS_USER_NS in list then Walk(k, list, show, INVIS_USER_NS, 0) else []
  }

  lemma {:induction false} TopIsAbove(k: Kernel, e: NsId, a: NsId)
    requires WellFormed(k) && (e in k.ns || e == INVIS_USER_NS) && !HasUp(k, a)
    ensures Above(k, a, e) <==> a == TopOf(k, e)
    ensures IsRoot(k, TopOf(k, e)) || TopOf(k, e) == INVIS_USER_NS
    decreases Measure(k, e)
  {
    if e in k.ns {
      UpIsKnown(k, e);
    }
    if !HasUp(k, e) {
    } else {
      TopIsAbove(k, UpOf(k, e), a);
    }
  }

  lemma {:induction false} TopIsListed(k: Kernel, list: List, e: NsId)
    requires Inv(k, list, {}) && e in list
    ensures TopOf(k, e) in list
    decreases Measure(k, e)
  {
    if !HasUp(k, e) {
    } else {
      assert Placed(k, list, e);
      TopIsListed(k, list, UpOf(k, e));
    }
  }

  /** The display starts at an entry: a root, or the invisible one. */
  lemma RootIsListed(k: Kernel, list: List, rootNS: NsId, e: NsId)
    requires WellFormed(k) && Inv(k, list, {}) && RootKnown(k, list, rootNS) && e in list
    ensures rootNS in list
  {
    assert GoodEntry(k, list, {}, e);
    TopIsListed(k, list, e);
    TopIsAbove(k, e, INVIS_USER_NS);
  }

  /**
   The display shows every entry of a type asked for exactly once if a root was met. If none was met, rootNS
   still has its zero value, which is the key of the invisible entry, and the entry is shown twice.
   */
  lemma DisplayVisits(k: Kernel, list: List, show: set<int>, rootNS: NsId, e: NsId)
    requires WellFormed(k) && Inv(k, list, {}) && RootKnown(k, list, rootNS) && e in list
    ensures rootNS in list
    ensures Visits(Display(k, list, show, rootNS), e) ==
            if list[e].nsType != CLONE_NEWUSER && list[e].nsType !in show then 0
            else if exists r :: r in list && IsRoot(k, r) then 1 else 2
  {
    assert GoodEntry(k, list, {}, e);
    RootIsListed(k, list, rootNS, e);
    WalkVisits(k, list, show, rootNS, 0, e);
    TopIsListed(k, list, e);
    TopIsAbove(k, e, rootNS);
    TopIsAbove(k, e, INVIS_USER_NS);
    var second := if INVIS_USER_NS in list then Walk(k, list, show, INVIS_USER_NS, 0) else [];
    VisitsOfConcat(Walk(k, list, show, rootNS, 0), second, e);
    if INVIS_USER_NS in list {
      WalkVisits(k, list, show, INVIS_USER_NS, 0, e);
    }
  }

  // ----- Which entry the root is -----

  lemma {:induction false} PidTop(k: Kernel, e: NsId)
    requires WellFormed(k) && k.pidns && e in k.ns
    ensures TopOf(k, e) in k.ns && k.ns[TopOf(k, e)].parent.None?
    decreases Measure(k, e)
  {
    UpIsKnown(k, e);
    if HasUp(k, e) {
      PidTop(k, UpOf(k, e));
    }
  }

  /**
   In the PID hierarchy the root is a PID namespace without a parent. Otherwise it is a user namespace
   without an owner, or no such namespace is listed and rootNS is still zero.
   */
  lemma RootIsParentless(k: Kernel, list: List, rootNS: NsId, e: NsId)
    requires WellFormed(k) && Inv(k, list, {}) && RootKnown(k, list, rootNS) && e in list
    ensures k.pidns && e in k.ns ==> rootNS in k.ns && k.ns[rootNS].parent.None?
    ensures !k.pidns ==>
              || (rootNS in k.ns && k.ns[rootNS].nsType == CLONE_NEWUSER && k.ns[rootNS].parent.None?)
              || (rootNS == NsId(0, 0) &&
                  forall x :: x in list && x in k.ns && k.ns[x].nsType == CLONE_NEWUSER ==> k.ns[x].parent.Some?)
  {
    if k.pidns && e in k.ns {
      PidTop(k, e);
      TopIsListed(k, list, e);
      assert IsRoot(k, TopOf(k, e));
    }
  }

  // ----- No root is met -----

  const CLONE_NEWNET := 0x40000000

  const NET := NsId(4, 7)

  /** A kernel without user namespaces: no `user` link, and the ioctl fails with EPERM for every namespace. */
  function NoUserNamespaces(): Kernel {
    Kernel(map[NET := Info(CLONE_NEWNET, None)], false, map[], 0)
  }

  /** There the one namespace is shown twice. */
  method ShownTwice() returns (info: NamespaceInfo)
    ensures info.kernel == NoUserNamespaces() && info.Valid({}) && NET in info.nsList && info.rootNS in info.nsList
    ensures Visits(Display(info.kernel, info.nsList, {CLONE_NEWNET}, info.rootNS), NET) == 2
  {
    var k := NoUserNamespaces();
    info := AddAll(k, [NET]);
    assert Chains(k, [NET]) == Chain(k, NET) + Chains(k, []);
    assert NET in Chain(k, NET);
    assert GoodEntry(k, info.nsList, {}, NET);
    assert forall r :: !IsRoot(k, r);
    DisplayVisits(k, info.nsList, {CLONE_NEWNET}, info.rootNS, NET);
  }
}
