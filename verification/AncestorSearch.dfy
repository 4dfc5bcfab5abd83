/**
 ns_capable.c, is_ancestor_userns: the parents of a user namespace are opened one after another
 until the source is met or there is no parent. The open descriptors are part of the state.
 */
module AncestorSearch {

  datatype Ns = Ns(device: int, inode: int)

  /** The visible parents of user namespaces; depth bounds the chains. */
  datatype Kernel = Kernel(parent: map<Ns, Ns>, depth: map<Ns, nat>)

  function Depth(k: Kernel, n: Ns): nat {
    if n in k.depth then k.depth[n] else 0
  }

  ghost predicate WellFormed(k: Kernel) {
    forall n :: n in k.parent ==> Depth(k, k.parent[n]) < Depth(k, n)
  }

  predicate HasParent(k: Kernel, n: Ns) {
    n in k.parent && Depth(k, k.parent[n]) < Depth(k, n)
  }

  /** a is n or an ancestor of n. */
  predicate Above(k: Kernel, a: Ns, n: Ns)
    decreases Depth(k, n)
  {
    a == n || (HasParent(k, n) && Above(k, a, k.parent[n]))
  }

  predicate ProperlyAbove(k: Kernel, a: Ns, n: Ns) {
    HasParent(k, n) && Above(k, a, k.parent[n])
  }

  /** c is the child of a on the chain from a down to n. */
  ghost predicate StepBelow(k: Kernel, a: Ns, c: Ns, n: Ns) {
    HasParent(k, c) && k.parent[c] == a && Above(k, c, n)
  }

  lemma {:induction false} AboveDepth(k: Kernel, a: Ns, n: Ns)
    requires Above(k, a, n)
    ensures a == n || Depth(k, a) < Depth(k, n)
    decreases Depth(k, n)
  {
    if a == n {
    } else {
      AboveDepth(k, a, k.parent[n]);
    }
  }

  /** There is one such child at most. */
  lemma {:induction false} StepBelowIsUnique(k: Kernel, a: Ns, c: Ns, d: Ns, n: Ns)
    requires StepBelow(k, a, c, n) && StepBelow(k, a, d, n)
    ensures c == d
    decreases Depth(k, n)
  {
    if c != n && d != n {
      StepBelowIsUnique(k, a, c, d, k.parent[n]);
    } else if c != d {
      if c == n { AboveDepth(k, d, a); } else { AboveDepth(k, c, a); }
    }
  }

  lemma {:induction false} AboveParent(k: Kernel, c: Ns, n: Ns)
    requires Above(k, c, n) && HasParent(k, c)
    ensures Above(k, k.parent[c], n)
    decreases Depth(k, n)
  {
    if c == n {
    } else {
      AboveParent(k, c, k.parent[n]);
    }
  }

  /** The source is properly above the target exactly when there is such a child. */
  lemma {:induction false} StepBelowExists(k: Kernel, a: Ns, n: Ns)
    ensures ProperlyAbove(k, a, n) <==> exists c :: StepBelow(k, a, c, n)
    decreases Depth(k, n)
  {
    if !HasParent(k, n) {
    } else {
      var p := k.parent[n];
      StepBelowExists(k, a, p);
      if ProperlyAbove(k, a, n) {
        if p == a {
          assert StepBelow(k, a, n, n);
        } else {
          var c :| StepBelow(k, a, c, p);
          assert StepBelow(k, a, c, n);
        }
      }
      if c :| StepBelow(k, a, c, n) && c != n {
        assert StepBelow(k, a, c, p);
      }
    }
  }

  class Process {
    const kernel: Kernel
    var open: map<int, Ns>
    ghost var bound: int  // no descriptor from here on is in use

    ghost predicate Valid()
      reads this
    {
      WellFormed(kernel) && 0 <= bound && forall fd :: fd in open ==> 0 <= fd < bound
    }

    /** NS_GET_PARENT: a new descriptor for the parent, or -1 with EPERM at the topmost visible namespace. */
    method GetParent(fd: int) returns (p: int)
      requires Valid() && fd in open
      modifies this`open, this`bound
      ensures Valid()
      ensures p == -1 <==> !HasParent(kernel, old(open)[fd])
      ensures p == -1 ==> open == old(open)
      ensures p != -1 ==> p >= 0 && p !in old(open)
      ensures HasParent(kernel, old(open)[fd]) ==> open == old(open)[p := kernel.parent[old(open)[fd]]]
    {
      if open[fd] !in kernel.parent {
        return -1;
      }
      assert bound !in open;
      p :| p >= 0 && p !in open;
      open := open[p := kernel.parent[open[fd]]];
      bound := if p < bound then bound else p + 1;
    }

    method Close(fd: int)
      requires Valid() && fd in open
      modifies this`open, this`bound
      ensures Valid() && open == old(open) - {fd}
    {
      open := open - {fd};
    }

    /**
     -1 exactly when the source is not a proper ancestor of the target; otherwise a descriptor for the
     child of the source on the way to the target, which is the only one left open in addition.
     */
    method IsAncestorUserns(source: int, target: int) returns (child: int)
      requires Valid() && source in open && target in open
      modifies this`open, this`bound
      ensures Valid()
      ensures child == -1 <==> !ProperlyAbove(kernel, old(open)[source], old(open)[target])
      ensures child == -1 ==> open == old(open)
      ensures child != -1 ==>
                && child in open && StepBelow(kernel, old(open)[source], open[child], old(open)[target])
                && open - (if child == target then {} else {child}) == old(open)
                && (child == target || child !in old(open))
    {
      ghost var src, tgt := open[source], open[target];
      child := target;
      while true
        invariant Valid() && child in open && Above(kernel, open[child], tgt)
        invariant child == target ==> open == old(open)
        invariant child != target ==> child !in old(open) && open == old(open)[child := open[child]]
        invariant ProperlyAbove(kernel, src, tgt) <==> ProperlyAbove(kernel, src, open[child])
        decreases Depth(kernel, open[child])
      {
        ghost var n := open[child];
        AboveParentIf(kernel, n, tgt);
        var parent := GetParent(child);
        if parent == -1 {
          if child != target {
            Close(child);
            assert open == old(open);
          }
          return -1;
        }
        var same := open[parent] == open[source];
        if same {
          Close(parent);
          return;
        }
        if child != target {
          Close(child);
        }
        child := parent;
      }
    }
  }

  lemma AboveParentIf(k: Kernel, c: Ns, n: Ns)
    requires Above(k, c, n)
    ensures HasParent(k, c) ==> Above(k, k.parent[c], n)
  {
    if HasParent(k, c) {
      AboveParent(k, c, n);
    }
  }
}
