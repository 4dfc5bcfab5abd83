/**
 thread_incr_psem.c: two threads increment a shared variable in three separate steps between
 sem_wait and sem_post. Integers are unbounded here.
 */
module SemaphoreCounter {
  import opened Basics

  /** At sem_wait; before the read; before the increment; before the store; at sem_post. */
  datatype Pc = Wait | Load | Increment | Store | Post

  datatype Thread = Thread(pc: Pc, j: nat, loc: int)

  datatype State = State(glob: int, sem: nat, a: Thread, b: Thread)

  datatype Who = First | Second

  function Get(s: State, w: Who): Thread { if w == First then s.a else s.b }

  function Set(s: State, w: Who, t: Thread): State { if w == First then s.(a := t) else s.(b := t) }

  ghost predicate Init(s: State) {
    s.glob == 0 && s.sem == 1 && s.a == Thread(Wait, 0, 0) && s.b == Thread(Wait, 0, 0)
  }

  predicate Finished(t: Thread, loops: nat) { t.pc == Wait && t.j >= loops }

  /** sem_wait blocks while the semaphore is 0. */
  predicate Enabled(s: State, w: Who, loops: nat) {
    var t := Get(s, w);
    !Finished(t, loops) && (t.pc == Wait ==> s.sem > 0)
  }

  function Do(s: State, w: Who): State {
    var t := Get(s, w);
    match t.pc
    case Wait => Set(s.(sem := if s.sem > 0 then s.sem - 1 else 0), w, t.(pc := Load))
    case Load => Set(s, w, t.(pc := Increment, loc := s.glob))
    case Increment => Set(s, w, t.(pc := Store, loc := t.loc + 1))
    case Store => Set(s.(glob := t.loc), w, t.(pc := Post))
    case Post => Set(s.(sem := s.sem + 1), w, t.(pc := Wait, j := t.j + 1))
  }

  predicate Inside(t: Thread) { t.pc != Wait }

  /** The stores that a thread has made. */
  function Stores(t: Thread): nat { t.j + One(t.pc == Post) }

  ghost predicate LocalFresh(s: State, t: Thread) {
    && (t.pc == Increment ==> t.loc == s.glob)
    && (t.pc == Store ==> t.loc == s.glob + 1)
  }

  ghost predicate Inv(s: State, loops: nat) {
    && s.sem + One(Inside(s.a)) + One(Inside(s.b)) == 1
    && s.glob == Stores(s.a) + Stores(s.b)
    && LocalFresh(s, s.a) && LocalFresh(s, s.b)
    && s.a.j + One(Inside(s.a)) <= loops && s.b.j + One(Inside(s.b)) <= loops
  }

  ghost predicate IsRun(ss: seq<State>, who: seq<Who>, loops: nat) {
    && |ss| == |who| + 1 && Init(ss[0])
    && forall i :: 0 <= i < |who| ==> Enabled(ss[i], who[i], loops) && ss[i + 1] == Do(ss[i], who[i])
  }

  lemma StepKeepsInv(s: State, w: Who, loops: nat)
    requires Inv(s, loops) && Enabled(s, w, loops)
    ensures Inv(Do(s, w), loops)
  {
  }

  /** At most one thread is between sem_wait and sem_post; when both have finished glob is twice the loop count. */
  lemma {:induction false} EveryRunCounts(ss: seq<State>, who: seq<Who>, loops: nat, i: nat)
    requires IsRun(ss, who, loops) && i < |ss|
    ensures Inv(ss[i], loops) && !(Inside(ss[i].a) && Inside(ss[i].b))
    ensures Finished(ss[i].a, loops) && Finished(ss[i].b, loops) ==> ss[i].glob == 2 * loops
  {
    if i == 0 {
    } else {
      EveryRunCounts(ss, who, loops, i - 1);
      assert ss[i] == Do(ss[i - 1], who[i - 1]);
      StepKeepsInv(ss[i - 1], who[i - 1], loops);
    }
  }

  /** Every run that cannot go on has finished: the semaphore never blocks both threads. */
  lemma StuckMeansFinished(s: State, loops: nat)
    requires Inv(s, loops) && !Enabled(s, First, loops) && !Enabled(s, Second, loops)
    ensures Finished(s.a, loops) && Finished(s.b, loops) && s.glob == 2 * loops
  {
  }

  /** Steps that a thread has taken: five for each turn. */
  function Taken(t: Thread): nat {
    5 * t.j + match t.pc case Wait => 0 case Load => 1 case Increment => 2 case Store => 3 case Post => 4
  }

  /**
   Each run takes at most 10 * loops steps; it can go on until it has taken them all, and then it has
   counted to 2 * loops.
   */
  lemma {:induction false} EveryRunEnds(ss: seq<State>, who: seq<Who>, loops: nat, i: nat)
    requires IsRun(ss, who, loops) && i < |ss|
    ensures i == Taken(ss[i].a) + Taken(ss[i].b) <= 10 * loops
    ensures !Enabled(ss[i], First, loops) && !Enabled(ss[i], Second, loops) <==> i == 10 * loops
    ensures i == 10 * loops ==> ss[i].glob == 2 * loops
  {
    StepsTaken(ss, who, loops, i);
    EveryRunCounts(ss, who, loops, i);
    if !Enabled(ss[i], First, loops) && !Enabled(ss[i], Second, loops) {
      StuckMeansFinished(ss[i], loops);
    }
  }

  lemma StepIsTaken(s: State, w: Who)
    ensures Taken(Do(s, w).a) + Taken(Do(s, w).b) == Taken(s.a) + Taken(s.b) + 1
  {
  }

  lemma {:induction false} StepsTaken(ss: seq<State>, who: seq<Who>, loops: nat, i: nat)
    requires IsRun(ss, who, loops) && i < |ss|
    ensures i == Taken(ss[i].a) + Taken(ss[i].b)
  {
    if i == 0 {
    } else {
      StepsTaken(ss, who, loops, i - 1);
      assert ss[i] == Do(ss[i - 1], who[i - 1]);
      StepIsTaken(ss[i - 1], who[i - 1]);
    }
  }
}
