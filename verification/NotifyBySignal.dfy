/**
 mq_notify_via_signal.c: the polling loop, the handler and the senders as interleaved steps. The
 signal of a used-up registration is in flight until the handler runs, which may be at any point.
 */
module NotifyBySignal {
  import opened Basics

  /** The loop: test gotSig, clear it, register, drain, sleep. */
  datatype Pc = Test | Clear | Register | Drain | Sleep

  datatype State = State(pc: Pc, gotSig: bool, registered: bool, pending: bool, queue: seq<int>,
                         sent: multiset<int>, received: multiset<int>, busy: bool)

  /** gotSig starts as 1; messages may already be queued. */
  ghost predicate Init(s: State) {
    && s.pc == Test && s.gotSig && !s.registered && !s.pending && !s.busy
    && s.sent == multiset(s.queue) && s.received == multiset{}
  }

  datatype Step = Send(msg: int) | Handler | Loop

  predicate Enabled(s: State, a: Step) {
    a.Handler? ==> s.pending
  }

  function LoopStep(s: State): State {
    match s.pc
    case Test => s.(pc := if s.gotSig then Clear else Sleep)
    case Clear => s.(gotSig := false, pc := Register)
    case Register => if s.registered then s.(busy := true) else s.(registered := true, pc := Drain)
    case Drain =>
      if s.queue == [] then s.(pc := Sleep)
      else s.(queue := s.queue[1..], received := s.received + multiset{s.queue[0]})
    case Sleep => s.(pc := Test)
  }

  function Do(s: State, a: Step): State {
    match a
    case Send(msg) =>
      var n := s.(queue := s.queue + [msg], sent := s.sent + multiset{msg});
      if s.registered && s.queue == [] then n.(registered := false, pending := true) else n
    case Handler => s.(pending := false, gotSig := true)
    case Loop => LoopStep(s)
  }

  // ----- Safety -----

  /** The right to register is in exactly one place: with the kernel, in flight, in gotSig, or at mq_notify. */
  ghost predicate OneToken(s: State) {
    One(s.registered) + One(s.pending) + One(s.gotSig) + One(s.pc == Register) == 1
  }

  ghost predicate Inv(s: State) {
    && !s.busy && OneToken(s) && (s.pc == Clear ==> s.gotSig)
    && (s.queue != [] ==> s.gotSig || s.pending || s.pc == Register || s.pc == Drain)
    && s.sent == multiset(s.queue) + s.received
  }

  lemma StepKeepsInv(s: State, a: Step)
    requires Inv(s) && Enabled(s, a)
    ensures Inv(Do(s, a))
    ensures a.Loop? && s.pc == Register ==> !s.registered
  {
    if a.Loop? && s.pc == Drain && s.queue != [] {
      assert s.queue == [s.queue[0]] + s.queue[1..];
    }
  }

  /** When gotSig is tested and neither set nor about to be, nothing is queued and notification is armed. */
  lemma QuietAtTest(s: State)
    requires Inv(s) && s.pc == Test && !s.gotSig && !s.pending
    ensures s.registered && s.queue == [] && s.received == s.sent
  {
    assert multiset(s.queue) == multiset{};
  }

  ghost predicate IsRun(ss: seq<State>, steps: seq<Step>) {
    && |ss| == |steps| + 1
    && forall i :: 0 <= i < |steps| ==> Enabled(ss[i], steps[i]) && ss[i + 1] == Do(ss[i], steps[i])
  }

  /**
   In every interleaving mq_notify never fails as busy, and when gotSig is tested a nonempty queue
   means that it is set or will be by a signal on its way; otherwise notification is armed.
   */
  lemma {:induction false} EveryRunIsSafe(ss: seq<State>, steps: seq<Step>, i: nat)
    requires IsRun(ss, steps) && Init(ss[0]) && i < |ss|
    ensures Inv(ss[i]) && !ss[i].busy
    ensures ss[i].pc == Test && ss[i].queue != [] ==> ss[i].gotSig || ss[i].pending
    ensures ss[i].pc == Test && !ss[i].gotSig && !ss[i].pending ==> ss[i].registered && ss[i].received == ss[i].sent
  {
    if i == 0 {
    } else {
      EveryRunIsSafe(ss, steps, i - 1);
      StepKeepsInv(ss[i - 1], steps[i - 1]);
    }
    if ss[i].pc == Test && !ss[i].gotSig && !ss[i].pending {
      QuietAtTest(ss[i]);
    }
  }

  // ----- Progress: with no signal in flight and no sender, the loop alone empties the queue -----

  function Rank(s: State): nat {
    |s.queue| + match s.pc case Sleep => 4 case Test => 3 case Clear => 2 case Register => 1 case Drain => 0
  }

  ghost function Alone(s: State, n: nat): State
    decreases n
  {
    if n == 0 then s else Alone(LoopStep(s), n - 1)
  }

  lemma {:induction false} LoopEmptiesQueue(s: State)
    requires Inv(s) && !s.pending
    ensures exists n :: 0 <= n <= Rank(s) && Alone(s, n).queue == [] && Alone(s, n).received == s.sent
    decreases Rank(s)
  {
    if s.queue == [] {
      assert Alone(s, 0) == s;
    } else {
      var u := LoopStep(s);
      StepKeepsInv(s, Loop);
      LoopEmptiesQueue(u);
      var n :| 0 <= n <= Rank(u) && Alone(u, n).queue == [] && Alone(u, n).received == u.sent;
      assert Alone(s, n + 1) == Alone(u, n);
    }
  }
}
