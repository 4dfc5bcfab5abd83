/**
 multi_SIGCHLD.c: the parent, its signal handler and n children as interleaved steps. SIGCHLD is
 blocked except inside sigsuspend, and at most one instance of it is pending.
 */
module ChildReaper {
  import opened Basics

  /** NotYet: not forked; Running; Zombie: exited, not waited for; Reaped. */
  datatype Child = NotYet | Running | Zombie | Reaped

  /** Fork loop; test of numLiveChildren; in sigsuspend; waitpid loop of the handler; after it; finished. */
  datatype Pc = Forking | Test | Suspended | Waiting | Leaving | Exited

  datatype State = State(pc: Pc, children: seq<Child>, forked: nat, pending: bool, numLive: int, sigCnt: nat)

  ghost predicate Init(s: State) {
    && s.pc == Forking && s.forked == 0 && !s.pending && s.sigCnt == 0
    && s.numLive == |s.children| && forall i :: 0 <= i < |s.children| ==> s.children[i] == NotYet
  }

  datatype Step = Fork | Exit(c: int) | Loop | Deliver | Reap(c: int) | NoMore | Return

  predicate Enabled(s: State, a: Step) {
    match a
    case Fork => s.pc == Forking
    case Exit(c) => 0 <= c < |s.children| && s.children[c] == Running
    case Loop => s.pc == Test
    case Deliver => s.pc == Suspended && s.pending
    case Reap(c) => s.pc == Waiting && 0 <= c < |s.children| && s.children[c] == Zombie
    case NoMore => s.pc == Waiting && Zombie !in s.children
    case Return => s.pc == Leaving
  }

  function Do(s: State, a: Step): State
    requires Enabled(s, a)
  {
    match a
    case Fork =>
      if s.forked < |s.children| then s.(children := s.children[s.forked := Running], forked := s.forked + 1)
      else s.(pc := Test)
    case Exit(c) => s.(children := s.children[c := Zombie], pending := true)
    case Loop => s.(pc := if s.numLive > 0 then Suspended else Exited)
    case Deliver => s.(pc := Waiting, pending := false)
    case Reap(c) => s.(children := s.children[c := Reaped], numLive := s.numLive - 1)
    case NoMore => s.(pc := Leaving)
    case Return => s.(pc := Test, sigCnt := s.sigCnt + 1)
  }

  function Count(cs: seq<Child>, k: Child): nat {
    if cs == [] then 0 else (if cs[0] == k then 1 else 0) + Count(cs[1..], k)
  }

  lemma {:induction false} CountUpdate(cs: seq<Child>, i: nat, c: Child, k: Child)
    requires i < |cs|
    ensures Count(cs[i := c], k) == Count(cs, k) - (if cs[i] == k then 1 else 0) + (if c == k then 1 else 0)
    decreases |cs|
  {
    if i == 0 {
    } else {
      assert cs[i := c][1..] == cs[1..][i - 1 := c];
      CountUpdate(cs[1..], i - 1, c, k);
    }
  }

  lemma {:induction false} CountAll(cs: seq<Child>)
    ensures Count(cs, NotYet) + Count(cs, Running) + Count(cs, Zombie) + Count(cs, Reaped) == |cs|
  {
    if cs == [] {
    } else {
      CountAll(cs[1..]);
    }
  }

  lemma {:induction false} CountZero(cs: seq<Child>, k: Child)
    ensures Count(cs, k) == 0 <==> k !in cs
  {
    if cs == [] {
    } else {
      CountZero(cs[1..], k);
      assert cs == [cs[0]] + cs[1..];
    }
  }

  // ----- Safety -----

  function Exits(s: State): nat {
    Count(s.children, Zombie) + Count(s.children, Reaped)
  }

  predicate InHandler(s: State) {
    s.pc == Waiting || s.pc == Leaving
  }

  ghost predicate ForkedUpTo(s: State) {
    && s.forked <= |s.children| && (s.pc != Forking ==> s.forked == |s.children|)
    && forall i :: 0 <= i < |s.children| ==> (s.children[i] == NotYet <==> i >= s.forked)
  }

  ghost predicate Inv(s: State) {
    && ForkedUpTo(s)
    && s.numLive == |s.children| - Count(s.children, Reaped)
    && (Zombie in s.children ==> s.pending || s.pc == Waiting)
    && s.sigCnt + One(InHandler(s)) + One(s.pending) <= Exits(s)
    && (s.pc == Suspended ==> s.numLive > 0) && (s.pc == Exited ==> s.numLive == 0)
  }

  lemma {:induction false} CountOfNone(cs: seq<Child>, k: Child)
    requires forall i :: 0 <= i < |cs| ==> cs[i] != k
    ensures Count(cs, k) == 0
  {
    CountZero(cs, k);
  }

  lemma InitIsInv(s: State)
    requires Init(s)
    ensures Inv(s)
  {
    CountOfNone(s.children, Reaped);
  }

  lemma ChildStep(s: State, i: nat, c: Child)
    requires i < |s.children| && s.children[i] != c
    ensures forall k :: Count(s.children[i := c], k) ==
                        Count(s.children, k) - (if s.children[i] == k then 1 else 0) + (if c == k then 1 else 0)
  {
    forall k ensures Count(s.children[i := c], k) ==
                     Count(s.children, k) - (if s.children[i] == k then 1 else 0) + (if c == k then 1 else 0) {
      CountUpdate(s.children, i, c, k);
    }
  }

  lemma StepKeepsInv(s: State, a: Step)
    requires Inv(s) && Enabled(s, a)
    ensures Inv(Do(s, a))
  {
    match a
    case Fork =>
      if s.forked < |s.children| {
        ChildStep(s, s.forked, Running);
      }
    case Exit(c) =>
      ExitKeepsInv(s, c);
    case Reap(c) =>
      ReapKeepsInv(s, c);
    case Loop =>
      CountAll(s.children);
    case _ =>
  }

  lemma ExitKeepsInv(s: State, c: int)
    requires Inv(s) && Enabled(s, Exit(c))
    ensures Inv(Do(s, Exit(c)))
  {
    ChildStep(s, c, Zombie);
  }

  lemma ReapKeepsInv(s: State, c: int)
    requires Inv(s) && Enabled(s, Reap(c))
    ensures Inv(Do(s, Reap(c)))
  {
    ChildStep(s, c, Reaped);
    CountAll(Do(s, Reap(c)).children);
  }

  ghost predicate IsRun(ss: seq<State>, steps: seq<Step>) {
    && |ss| == |steps| + 1
    && forall i :: 0 <= i < |steps| ==> Enabled(ss[i], steps[i]) && ss[i + 1] == Do(ss[i], steps[i])
  }

  /** What the invariant says about each stage of the program. */
  lemma InvMeans(s: State)
    requires Inv(s)
    ensures s.sigCnt <= |s.children|
    ensures s.pc == Suspended ==> s.pending || Running in s.children
    ensures s.pc == Suspended && Zombie in s.children ==> s.pending
    ensures s.pc == Exited ==> forall i :: 0 <= i < |s.children| ==> s.children[i] == Reaped
  {
    CountAll(s.children);
    if s.pc != Forking {
      CountOfNone(s.children, NotYet);
    }
    CountZero(s.children, Running);
    CountZero(s.children, Zombie);
    CountZero(s.children, NotYet);
  }

  /**
   In every interleaving numLiveChildren counts the children not yet reaped, the parent never sleeps
   on an unreaped child without a signal pending, and it ends only when all have been reaped.
   */
  lemma {:induction false} EveryRunIsSafe(ss: seq<State>, steps: seq<Step>, i: nat)
    requires IsRun(ss, steps) && Init(ss[0]) && i < |ss|
    ensures Inv(ss[i]) && ss[i].sigCnt <= |ss[i].children|
    ensures ss[i].numLive == |ss[i].children| - Count(ss[i].children, Reaped)
    ensures ss[i].pc == Suspended && Zombie in ss[i].children ==> ss[i].pending
    ensures ss[i].pc == Exited ==> forall c :: 0 <= c < |ss[i].children| ==> ss[i].children[c] == Reaped
  {
    if i == 0 {
      InitIsInv(ss[0]);
    } else {
      EveryRunIsSafe(ss, steps, i - 1);
      StepKeepsInv(ss[i - 1], steps[i - 1]);
    }
    InvMeans(ss[i]);
  }

  // ----- What is printed -----

  /** The signals caught so far. */
  function Caught(steps: seq<Step>): nat {
    if steps == [] then 0 else Caught(steps[..|steps| - 1]) + One(steps[|steps| - 1] == Deliver)
  }

  /** sigCnt is the number of signals caught; one whose handler is still at work is not counted yet. */
  lemma {:induction false} EverySignalIsCounted(ss: seq<State>, steps: seq<Step>, i: nat)
    requires IsRun(ss, steps) && Init(ss[0]) && i < |ss|
    ensures ss[i].sigCnt + One(InHandler(ss[i])) == Caught(steps[..i])
  {
    if i == 0 {
    } else {
      EverySignalIsCounted(ss, steps, i - 1);
      assert steps[..i][..i - 1] == steps[..i - 1] && ss[i] == Do(ss[i - 1], steps[i - 1]);
    }
  }

  lemma {:induction false} ReapedMeansCaught(ss: seq<State>, steps: seq<Step>, i: nat)
    requires IsRun(ss, steps) && Init(ss[0]) && i < |ss| && Reaped in ss[i].children
    ensures Caught(steps[..i]) > 0
  {
    if i == 0 {
    } else {
      EverySignalIsCounted(ss, steps, i);
      assert steps[..i][..i - 1] == steps[..i - 1] && ss[i] == Do(ss[i - 1], steps[i - 1]);
      if Reaped in ss[i - 1].children {
        ReapedMeansCaught(ss, steps, i - 1);
      }
    }
  }

  /** What the program prints at its end: the number of signals caught, from one to the number of children. */
  lemma PrintedCount(ss: seq<State>, steps: seq<Step>)
    requires IsRun(ss, steps) && Init(ss[0]) && ss[|steps|].pc == Exited
    ensures var s := ss[|steps|];
            s.sigCnt == Caught(steps) <= |s.children| && (s.children != [] ==> s.sigCnt >= 1)
  {
    assert steps[..|steps|] == steps;
    EverySignalIsCounted(ss, steps, |steps|);
    EveryRunIsSafe(ss, steps, |steps|);
    if ss[|steps|].children != [] {
      assert ss[|steps|].children[0] == Reaped;
      ReapedMeansCaught(ss, steps, |steps|);
    }
  }

  // ----- Progress: every run is finite, and can stop only at the end of the program -----

  function PcRank(pc: Pc): nat {
    match pc
    case Exited => 0
    case Suspended => 0
    case Test => 1
    case Forking => 2
    case Leaving => 2
    case Waiting => 3
  }

  function Rank(s: State): nat {
    7 * Count(s.children, NotYet) + 6 * Count(s.children, Running) + Count(s.children, Zombie)
    + 4 * One(s.pending) + PcRank(s.pc)
  }

  lemma StepLowersRank(s: State, a: Step)
    requires Inv(s) && Enabled(s, a)
    ensures Rank(Do(s, a)) < Rank(s)
  {
    match a
    case Fork =>
      if s.forked < |s.children| {
        ChildStep(s, s.forked, Running);
      }
    case Exit(c) => ChildStep(s, c, Zombie);
    case Reap(c) => ChildStep(s, c, Reaped);
    case _ =>
  }

  lemma NeverStuck(s: State) returns (a: Step)
    requires Inv(s) && s.pc != Exited
    ensures Enabled(s, a)
  {
    InvMeans(s);
    match s.pc
    case Forking => a := Fork;
    case Test => a := Loop;
    case Leaving => a := Return;
    case Suspended =>
      if s.pending {
        a := Deliver;
      } else {
        var c :| 0 <= c < |s.children| && s.children[c] == Running;
        a := Exit(c);
      }
    case Waiting =>
      if Zombie in s.children {
        var c :| 0 <= c < |s.children| && s.children[c] == Zombie;
        a := Reap(c);
      } else {
        a := NoMore;
      }
    case Exited =>
  }

  /** A program with n children takes at most 7n + 2 steps; when none is possible all children are reaped. */
  lemma {:induction false} EveryRunEnds(ss: seq<State>, steps: seq<Step>)
    requires IsRun(ss, steps) && Init(ss[0])
    ensures |steps| <= 7 * |ss[0].children| + 2 && |ss[|steps|].children| == |ss[0].children|
    ensures (forall a :: !Enabled(ss[|steps|], a)) ==>
              ss[|steps|].pc == Exited && forall c :: 0 <= c < |ss[|steps|].children| ==>
                  ss[|steps|].children[c] == Reaped
  {
    RunRank(ss, steps, |steps|);
    CountAll(ss[0].children);
    CountOfNone(ss[0].children, Running);
    CountOfNone(ss[0].children, Zombie);
    CountOfNone(ss[0].children, Reaped);
    var s := ss[|steps|];
    EveryRunIsSafe(ss, steps, |steps|);
    if s.pc != Exited {
      var a := NeverStuck(s);
    }
  }

  lemma {:induction false} RunRank(ss: seq<State>, steps: seq<Step>, i: nat)
    requires IsRun(ss, steps) && Init(ss[0]) && i <= |steps|
    ensures Rank(ss[i]) + i <= Rank(ss[0]) && |ss[i].children| == |ss[0].children|
  {
    if i == 0 {
    } else {
      RunRank(ss, steps, i - 1);
      EveryRunIsSafe(ss, steps, i - 1);
      StepLowersRank(ss[i - 1], steps[i - 1]);
    }
  }
}
