/**
 The event loop while other processes create and remove directories (and touch files) before each of
 its turns: whatever the chunks and the moments, the program and the others together make a run of
 `CacheInterleaving`, so the cache is exact whenever no event is left and is never rebuilt.
 */
module LoopInterleaving {
  import opened DirTree
  import opened WatchModel
  import opened Basics
  import opened TreeMonitor
  import opened CacheInterleaving
  import opened EventLoop

  // ----- What others do -----

  /** Can another process do this now? A call that fails changes nothing. */
  predicate Possible(t: Tree, a: Action) {
    match a
    case MakesDir(id, p, n) => CanMkdir(t, id, p, n)
    case RemovesDir(d) => CanRmdir(t, d)
    case TouchesFile(_) => true
    case HandlesEvent => false
  }

  function After(w: World, a: Action): World {
    match a
    case MakesDir(id, p, n) => MakeDir(w, id, p, n)
    case RemovesDir(d) => RemoveDir(w, d)
    case TouchesFile(p) => TouchFile(w, p)
    case HandlesEvent => w
  }

  /** New events go behind everything that is queued, whether it has been read or not. */
  lemma OthersQueueBehind(w: World, a: Action, buf: seq<Event>)
    ensures After(Queued(w, buf + w.queue), a) == Queued(After(w, a), buf + After(w, a).queue)
  {
    var added := After(w, a).queue[|w.queue|..];
    assert After(w, a).queue == w.queue + added;
    assert buf + (w.queue + added) == (buf + w.queue) + added;
  }

  lemma AfterIsValid(w: World, a: Action)
    requires WellFormed(w.tree) && NonNegative(w.watches) && Wds(w.queue) && Possible(w.tree, a)
    ensures var u := After(w, a); WellFormed(u.tree) && NonNegative(u.watches) && Wds(u.queue)
  {
    match a
    case MakesDir(id, p, n) => MkdirWellFormed(w.tree, id, p, n);
    case RemovesDir(d) => RmdirWellFormed(w.tree, d);
    case TouchesFile(_) =>
    case HandlesEvent =>
  }

  method Act(m: Monitor, a: Action)
    requires m.Valid() && Wds(m.queue) && Possible(m.tree, a)
    modifies m`tree, m`watches, m`queue
    ensures m.Valid() && Wds(m.queue) && m.State() == After(old(m.State()), a)
  {
    AfterIsValid(m.Outside(), a);
    m.Meet(After(m.Outside(), a));
  }

  // ----- Traces -----

  /** The states of program and others together, and what leads from each to the next. */
  datatype Trace = Trace(ws: seq<World>, acts: seq<Action>) {
    ghost predicate Valid() {
      && |ws| == |acts| + 1 && Inv(ws[0])
      && forall i :: 0 <= i < |acts| ==> Acts(ws[i], acts[i], ws[i + 1])
    }

    function Last(): World
      requires ws != []
    {
      ws[|ws| - 1]
    }

    function Then(a: Action, w: World): Trace {
      Trace(ws + [w], acts + [a])
    }
  }

  lemma ThenIsValid(t: Trace, a: Action, w: World)
    requires t.Valid() && Acts(t.Last(), a, w)
    ensures t.Then(a, w).Valid() && t.Then(a, w).Last() == w
  {
    var u := t.Then(a, w);
    forall i | 0 <= i < |u.acts| ensures Acts(u.ws[i], u.acts[i], u.ws[i + 1]) {
      if i < |t.acts| {
        assert u.ws[i] == t.ws[i] && u.ws[i + 1] == t.ws[i + 1] && u.acts[i] == t.acts[i];
      } else {
        assert u.ws[i] == t.Last();
      }
    }
  }

  lemma ActKeepsInv(w: World, a: Action, u: World)
    requires Inv(w) && Acts(w, a, u)
    ensures Inv(u)
  {
    match a
    case MakesDir(id, p, n) => MakeDirKeepsInv(w, id, p, n);
    case RemovesDir(d) => RemoveDirKeepsInv(w, d);
    case TouchesFile(p) => TouchKeepsInv(w, p);
    case HandlesEvent => ConsumeKeepsInv(w, Some(u));
  }

  lemma {:induction false} TraceKeepsInv(t: Trace, i: nat)
    requires t.Valid() && i < |t.ws|
    ensures Inv(t.ws[i])
  {
    if i == 0 {
    } else {
      TraceKeepsInv(t, i - 1);
      ActKeepsInv(t.ws[i - 1], t.acts[i - 1], t.ws[i]);
    }
  }

  /** A trace from a cache that has just been built is a run, to which `EveryInterleavingAgrees` applies. */
  lemma TraceIsRun(t: Trace)
    requires t.Valid() && InSync(t.ws[0]) && t.ws[0].queue == []
    ensures IsRun(t.ws, t.acts)
  {
  }

  // ----- The loop -----

  ghost predicate Amid(m: Monitor, buf: seq<Event>, bytes: int, t: Trace)
    reads m
  {
    t.Valid() && Reading(m, buf, bytes, true, t.Last()) && Inv(t.Last())
  }

  /** Other processes try these actions, one after the other. */
  method OthersAct(m: Monitor, script: seq<Action>, buf: seq<Event>, bytes: int, ghost t: Trace)
    returns (ghost t': Trace)
    requires Amid(m, buf, bytes, t)
    modifies m`tree, m`watches, m`queue
    ensures Amid(m, buf, bytes, t') && t'.ws[0] == t.ws[0]
  {
    t' := t;
    for i := 0 to |script|
      invariant Amid(m, buf, bytes, t') && t'.ws[0] == t.ws[0]
    {
      if Possible(m.tree, script[i]) {
        t' := OneActs(m, script[i], buf, bytes, t');
      }
    }
  }

  method OneActs(m: Monitor, a: Action, buf: seq<Event>, bytes: int, ghost t: Trace) returns (ghost t': Trace)
    requires Amid(m, buf, bytes, t) && Possible(m.tree, a)
    modifies m`tree, m`watches, m`queue
    ensures Amid(m, buf, bytes, t') && t'.ws[0] == t.ws[0]
  {
    OthersQueueBehind(m.State(), a, buf);
    ghost var u := After(t.Last(), a);
    assert Acts(t.Last(), a, u);
    ActKeepsInv(t.Last(), a, u);
    ThenIsValid(t, a, u);
    t' := t.Then(a, u);
    Act(m, a);
  }

  /** Without renames a turn is always one step. */
  method TurnAmid(m: Monitor, buf: seq<Event>, bytes: int, ghost t: Trace)
    returns (buf': seq<Event>, bytes': int, ghost t': Trace)
    requires Amid(m, buf, bytes, t) && bytes > 0
    modifies m
    ensures Amid(m, buf', bytes', t') && t'.ws[0] == t.ws[0]
    ensures Work(buf') + Work(m.queue) <= Work(buf) + old(Work(m.queue)) && |buf'| < |buf|
    ensures Work(buf') + Work(m.queue) < Work(buf) + old(Work(m.queue)) || buf[0].Ignored?
  {
    ghost var w := t.Last();
    CountedHead(bytes, buf, true);
    assert Known(w, 0) && w.queue[0] == buf[0];
    var res;
    res, buf', bytes' := Turn(m, buf, bytes, true, w);
    if res == Rebuild {
      ConsumeKeepsInv(w, None);
    }
    ghost var u := Queued(m.State(), buf' + m.queue);
    ConsumeKeepsInv(w, Some(u));
    ThenIsValid(t, HandlesEvent, u);
    t' := t.Then(HandlesEvent, u);
  }

  /** processInotifyEvents; before turn i of its loop other processes try the actions script[i]. */
  method ProcessAmid(m: Monitor, script: seq<seq<Action>>, ghost t: Trace) returns (ghost t': Trace)
    requires m.Valid() && m.queue != [] && Wds(m.queue) && t.Valid() && Inv(t.Last()) && t.Last() == m.State()
    modifies m
    ensures m.Valid() && Wds(m.queue) && t'.Valid() && Inv(t'.Last()) && t'.Last() == m.State()
    ensures t'.ws[0] == t.ws[0]
  {
    ghost var w := m.State();
    var buf := Read(m);
    WdsOfConcat(buf, m.queue);
    var bytes, rest := Bytes(buf), script;
    t' := t;
    CountedHead(bytes, buf, true);
    while bytes > 0
      invariant Amid(m, buf, bytes, t') && t'.ws[0] == t.ws[0]
      decreases |rest|, Work(buf) + Work(m.queue), |buf|
    {
      if rest != [] {
        t' := OthersAct(m, rest[0], buf, bytes, t');
        rest := rest[1..];
      }
      buf, bytes, t' := TurnAmid(m, buf, bytes, t');
    }
    CountedHead(bytes, buf, true);
    assert [] + m.queue == m.queue;
  }

  /**
   The program from its start: it builds its cache; then, again and again, other processes act, and a call
   of processInotifyEvents is made while they go on acting.
   */
  method Run(tree: Tree, rounds: seq<seq<seq<Action>>>) returns (m: Monitor, ghost t: Trace)
    requires WellFormed(tree)
    ensures m.Valid() && IsRun(t.ws, t.acts) && t.Last() == m.State()
    ensures m.queue == [] ==> InSync(m.State())
  {
    m := new Monitor(tree);
    t := Trace([m.State()], []);
    StartIsInv(m.State());
    ghost var start := m.State();
    for i := 0 to |rounds|
      invariant fresh(m) && m.Valid() && Wds(m.queue) && t.Valid() && t.ws[0] == start
      invariant Inv(t.Last()) && t.Last() == m.State()
    {
      if rounds[i] != [] {
        assert [] + m.queue == m.queue;
        t := OthersAct(m, rounds[i][0], [], 0, t);
        assert [] + m.queue == m.queue;
        if m.queue != [] {
          t := ProcessAmid(m, rounds[i][1..], t);
        }
      }
    }
    TraceIsRun(t);
    if m.queue == [] {
      QuietAgrees(m.State());
    }
  }
}
