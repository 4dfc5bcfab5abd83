/**
 mq_notify_via_thread.c as steps of its threads and of the senders. A registration is used up by the
 first message that arrives on the empty queue, and that starts a thread which registers again
 before it drains the queue. The queue may hold messages when it starts.
 */
module NotifyByThread {

  /** Where a thread is: before mq_notify, in the drain loop, or past EAGAIN. */
  datatype Pc = Setup | Drain | Done

  datatype Tid = Main | Spawned(number: int)

  datatype State = State(registered: bool, queue: seq<int>, threads: map<Tid, Pc>,
                         sent: multiset<int>, received: multiset<int>, busy: bool)

  ghost predicate Init(s: State) {
    && !s.registered && !s.busy && s.threads == map[Main := Setup]
    && s.sent == multiset(s.queue) && s.received == multiset{}
  }

  /** `t` is the thread that takes the step; for Send, the thread that a notification would start. */
  datatype Step = Send(msg: int, t: Tid) | Register(t: Tid) | Receive(t: Tid) | Finish(t: Tid)

  predicate Enabled(s: State, a: Step) {
    match a
    case Send(_, t) => t !in s.threads
    case Register(t) => t in s.threads && s.threads[t] == Setup
    case Receive(t) => t in s.threads && s.threads[t] == Drain && s.queue != []
    case Finish(t) => t in s.threads && s.threads[t] == Drain && s.queue == []
  }

  function Do(s: State, a: Step): State
    requires Enabled(s, a)
  {
    match a
    case Send(msg, t) =>
      var n := s.(queue := s.queue + [msg], sent := s.sent + multiset{msg});
      if s.registered && s.queue == [] then n.(registered := false, threads := s.threads[t := Setup]) else n
    case Register(t) =>
      if s.registered then s.(busy := true) else s.(registered := true, threads := s.threads[t := Drain])
    case Receive(t) => s.(queue := s.queue[1..], received := s.received + multiset{s.queue[0]})
    case Finish(t) => s.(threads := s.threads[t := Done])
  }

  function At(s: State, pc: Pc): set<Tid> {
    set t | t in s.threads && s.threads[t] == pc
  }

  // ----- Safety -----

  /** Exactly one of: the process is registered; one thread has yet to register. */
  ghost predicate OneToRegister(s: State) {
    if s.registered then At(s, Setup) == {} else |At(s, Setup)| == 1
  }

  /** Messages are never left behind: someone has yet to see the queue empty. */
  ghost predicate Attended(s: State) {
    s.queue != [] ==> At(s, Setup) + At(s, Drain) != {}
  }

  ghost predicate Inv(s: State) {
    && !s.busy && OneToRegister(s) && Attended(s)
    && s.sent == multiset(s.queue) + s.received
  }

  lemma InitIsInv(s: State)
    requires Init(s)
    ensures Inv(s)
  {
    assert At(s, Setup) == {Main};
  }

  lemma MoveThread(s: State, u: State, t: Tid, pc: Pc, pc': Pc)
    requires t in s.threads && s.threads[t] == pc && pc != pc' && u.threads == s.threads[t := pc']
    ensures At(u, pc) == At(s, pc) - {t} && At(u, pc') == At(s, pc') + {t}
    ensures forall p :: p != pc && p != pc' ==> At(u, p) == At(s, p)
    ensures |At(u, pc)| == |At(s, pc)| - 1 && |At(u, pc')| == |At(s, pc')| + 1
  {
  }

  /** The notification starts a thread. */
  lemma StartKeepsInv(s: State, msg: int, t: Tid)
    requires Inv(s) && t !in s.threads && s.registered && s.queue == []
    ensures Inv(Do(s, Send(msg, t)))
  {
    var u := Do(s, Send(msg, t));
    assert At(u, Setup) == {t};
    assert multiset(u.queue) == multiset{msg};
  }

  lemma SendKeepsInv(s: State, msg: int, t: Tid)
    requires Inv(s) && t !in s.threads
    ensures Inv(Do(s, Send(msg, t)))
  {
    if s.registered && s.queue == [] {
      StartKeepsInv(s, msg, t);
    } else {
      QuietSendKeepsInv(s, msg, t);
    }
  }

  lemma QuietSendKeepsInv(s: State, msg: int, t: Tid)
    requires Inv(s) && t !in s.threads && (!s.registered || s.queue != [])
    ensures Inv(Do(s, Send(msg, t)))
  {
    var u := Do(s, Send(msg, t));
    assert u.threads == s.threads && At(u, Setup) == At(s, Setup) && At(u, Drain) == At(s, Drain);
    assert multiset(u.queue) == multiset(s.queue) + multiset{msg};
  }

  lemma DrainKeepsInv(s: State, t: Tid)
    requires Inv(s) && t in s.threads && s.threads[t] == Drain
    ensures s.queue != [] ==> Inv(Do(s, Receive(t)))
    ensures s.queue == [] ==> Inv(Do(s, Finish(t)))
  {
    if s.queue == [] {
      MoveThread(s, Do(s, Finish(t)), t, Drain, Done);
    } else {
      var u := Do(s, Receive(t));
      assert t in At(u, Drain) && At(u, Setup) == At(s, Setup);
      assert s.queue == [s.queue[0]] + u.queue;
    }
  }

  lemma RegisterKeepsInv(s: State, t: Tid)
    requires Inv(s) && t in s.threads && s.threads[t] == Setup
    ensures !s.registered && Inv(Do(s, Register(t)))
  {
    assert t in At(s, Setup);
    MoveThread(s, Do(s, Register(t)), t, Setup, Drain);
    assert At(Do(s, Register(t)), Setup) == {};
  }

  lemma StepKeepsInv(s: State, a: Step)
    requires Inv(s) && Enabled(s, a)
    ensures Inv(Do(s, a))
  {
    match a
    case Send(msg, t) => SendKeepsInv(s, msg, t);
    case Register(t) => RegisterKeepsInv(s, t);
    case Receive(t) => DrainKeepsInv(s, t);
    case Finish(t) => DrainKeepsInv(s, t);
  }

  ghost predicate IsRun(ss: seq<State>, steps: seq<Step>) {
    && |ss| == |steps| + 1
    && forall i :: 0 <= i < |steps| ==> Enabled(ss[i], steps[i]) && ss[i + 1] == Do(ss[i], steps[i])
  }

  /** In every interleaving mq_notify finds the queue free, and a nonempty queue is being attended to. */
  lemma {:induction false} EveryRunIsSafe(ss: seq<State>, steps: seq<Step>, i: nat)
    requires IsRun(ss, steps) && Init(ss[0]) && i < |ss|
    ensures Inv(ss[i])
    ensures i < |steps| && steps[i].Register? ==> !ss[i].registered
  {
    if i == 0 {
      InitIsInv(ss[0]);
    } else {
      EveryRunIsSafe(ss, steps, i - 1);
      StepKeepsInv(ss[i - 1], steps[i - 1]);
    }
    if i < |steps| && steps[i].Register? {
      RegisterKeepsInv(ss[i], steps[i].t);
    }
  }

  // ----- Progress: once the senders pause, the queue is emptied -----

  /** How many steps the threads can still take by themselves. */
  function Fuel(s: State): nat {
    2 * |At(s, Setup)| + |At(s, Drain)| + |s.queue|
  }

  lemma OwnStepUsesFuel(s: State, a: Step)
    requires Inv(s) && Enabled(s, a) && !a.Send?
    ensures Fuel(Do(s, a)) == Fuel(s) - 1
  {
    match a
    case Register(t) =>
      RegisterKeepsInv(s, t);
      MoveThread(s, Do(s, a), t, Setup, Drain);
    case Receive(t) =>
      assert forall p :: At(Do(s, a), p) == At(s, p);
    case Finish(t) =>
      MoveThread(s, Do(s, a), t, Drain, Done);
  }

  /** With fuel left some thread can take a step. */
  lemma FuelMeansStep(s: State) returns (a: Step)
    requires Inv(s) && Fuel(s) > 0
    ensures !a.Send? && Enabled(s, a)
  {
    if At(s, Setup) != {} {
      var t :| t in At(s, Setup);
      a := Register(t);
    } else {
      var t :| t in At(s, Drain);
      a := if s.queue == [] then Finish(t) else Receive(t);
    }
  }

  /** Without senders the threads take exactly Fuel steps, in any order, and end idle: all read, all registered. */
  lemma {:induction false} PauseEmptiesQueue(ss: seq<State>, steps: seq<Step>)
    requires IsRun(ss, steps) && Inv(ss[0])
    requires forall i :: 0 <= i < |steps| ==> !steps[i].Send?
    ensures |steps| <= Fuel(ss[0])
    ensures var s := ss[|steps|];
            && Inv(s) && s.sent == ss[0].sent
            && (|steps| == Fuel(ss[0]) ==> s.queue == [] && s.received == s.sent && s.registered)
    decreases |steps|
  {
    if steps == [] {
    } else {
      StepKeepsInv(ss[0], steps[0]);
      OwnStepUsesFuel(ss[0], steps[0]);
      assert IsRun(ss[1..], steps[1..]);
      PauseEmptiesQueue(ss[1..], steps[1..]);
    }
  }
}
