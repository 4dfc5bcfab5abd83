/**
 processInotifyEvents: events are read in chunks of any size and handled from a buffer. An
 IN_MOVED_FROM at the end of the buffer is left there while more is read. The chunks do not matter:
 the program makes the steps of `Consume`, each event being taken once and in order from the
 undivided stream, with at most one other step, of `Alone`, for each second read that is interrupted
 while an event is queued.
 */
module EventLoop {
  import opened PathStrings
  import opened DirTree
  import opened WatchModel
  import opened Basics
  import opened TreeMonitor

  // ----- Bytes in the buffer -----

  /** sizeof(struct inotify_event) plus the name with its terminator, rounded up. */
  function Size(e: Event): int {
    match e
    case Create(_, name) => 16 + (|name| + 16) / 16 * 16
    case MovedFrom(_, _, name) => 16 + (|name| + 16) / 16 * 16
    case MovedTo(_, _, name) => 16 + (|name| + 16) / 16 * 16
    case _ => 16
  }

  function Bytes(es: seq<Event>): int {
    if es == [] then 0 else Size(es[0]) + Bytes(es[1..])
  }

  lemma {:induction false} BytesPositive(es: seq<Event>)
    ensures Bytes(es) >= 16 * |es|
  {
    if es == [] {
    } else {
      BytesPositive(es[1..]);
    }
  }

  lemma {:induction false} BytesOfConcat(a: seq<Event>, b: seq<Event>)
    ensures Bytes(a + b) == Bytes(a) + Bytes(b)
  {
    if a == [] {
      assert a + b == b;
    } else {
      assert (a + b)[1..] == a[1..] + b;
      BytesOfConcat(a[1..], b);
    }
  }

  // ----- Handling an event does not look at the queue -----

  function Queued(w: World, q: seq<Event>): World {
    w.(queue := q)
  }

  lemma {:induction false} WalkIgnoresQueue(w: World, order: seq<Id>, q: seq<Event>)
    ensures Walk(Queued(w, q), order) == Queued(Walk(w, order), q) && Walk(w, order).queue == w.queue
    decreases order
  {
    if order == [] {
    } else {
      WalkIgnoresQueue(Visit(w, order[0]), order[1..], q);
    }
  }

  lemma WatchIgnoresQueue(w: World, path: string, u: World, buf: seq<Event>)
    requires WatchSubtree(w, path, u)
    ensures u.queue == w.queue && WatchSubtree(Queued(w, buf + w.queue), path, Queued(u, buf + u.queue))
  {
    if exists d :: At(w.tree, d, path) {
      var d, order :| At(w.tree, d, path) && Walked(w, d, order, u);
      WalkIgnoresQueue(w, order, buf + w.queue);
      assert Walked(Queued(w, buf + w.queue), d, order, Queued(u, buf + u.queue));
    }
  }

  lemma ZapIgnoresQueue(w: World, path: string, u: World, buf: seq<Event>)
    requires WatchModel.ZapSubtree(w, path, Some(u))
    ensures WatchModel.ZapSubtree(Queued(w, buf + w.queue), path, Some(Queued(u, buf + u.queue)))
  {
    var s := EntriesUnder(w.cache, path);
    var order :| Enumerates(order, s) &&
      Some(u) == Some(w.(cache := w.cache - s, watches := Without(w.watches, s), queue := w.queue + Ignoreds(order)));
    assert buf + (w.queue + Ignoreds(order)) == (buf + w.queue) + Ignoreds(order);
  }

  /** With the rest of the buffer put back in front of the queue the step is the same. */
  lemma HandledIgnoresQueue(w: World, e: Event, next: Option<Event>, r: Option<World>, buf: seq<Event>)
    requires Handled(w, e, next, r)
    ensures Handled(Queued(w, buf + w.queue), e, next, if r.Some? then Some(Queued(r.value, buf + r.value.queue))
            else None)
  {
    if r.Some? && !(next.Some? && Pairs(e, next.value)) {
      match e
      case Create(wd, name) =>
        if Join(w.cache[wd], name) !in w.cache.Values {
          WatchIgnoresQueue(w, Join(w.cache[wd], name), r.value, buf);
        }
      case MovedTo(wd, _, name) =>
        if Join(w.cache[wd], name) !in w.cache.Values {
          WatchIgnoresQueue(w, Join(w.cache[wd], name), r.value, buf);
        }
      case MovedFrom(wd, _, name) => ZapIgnoresQueue(w, Join(w.cache[wd], name), r.value, buf);
      case _ =>
    }
  }

  /** Handling the head of the buffer is a step on the buffer followed by the queue. */
  lemma HandledIsConsume(w: World, buf: seq<Event>, r: Option<World>)
    requires buf != []
    requires var next := if |buf| > 1 then Some(buf[1]) else None;
             && Handled(w, buf[0], next, r)
             && (|buf| > 1 || !buf[0].MovedFrom? || w.queue == [])
    ensures var k := if |buf| > 1 && Pairs(buf[0], buf[1]) then 2 else 1;
            Consume(Queued(w, buf + w.queue), if r.Some? then Some(Queued(r.value, buf[k..] + r.value.queue)) else None)
  {
    var next := if |buf| > 1 then Some(buf[1]) else None;
    var k := if |buf| > 1 && Pairs(buf[0], buf[1]) then 2 else 1;
    var q := buf + w.queue;
    HandledIgnoresQueue(w, buf[0], next, r, buf[k..]);
    assert q[k..] == buf[k..] + w.queue && q[0] == buf[0];
    assert |buf| > 1 ==> q[1] == buf[1];
  }

  /** So is handling the first half of a rename by itself. */
  lemma HandledIsAlone(w: World, e: Event, r: Option<World>)
    requires e.MovedFrom? && Handled(w, e, None, r)
    ensures Alone(Queued(w, [e] + w.queue), r)
  {
    assert ([e] + w.queue)[1..] == w.queue;
  }

  /** An unknown descriptor asks for a rebuild, whatever comes after it. */
  lemma UnknownIsConsume(w: World, buf: seq<Event>)
    requires buf != [] && buf[0].MovedFrom? && buf[0].wd !in w.cache
    ensures Consume(Queued(w, buf + w.queue), None)
  {
    assert (buf + w.queue)[0] == buf[0];
  }

  lemma HandledIsStep(w: World, buf: seq<Event>, r: Option<World>)
    requires buf != [] && Handled(w, buf[0], if |buf| > 1 then Some(buf[1]) else None, r)
    ensures var k := if |buf| > 1 && Pairs(buf[0], buf[1]) then 2 else 1;
            var u := if r.Some? then Some(Queued(r.value, buf[k..] + r.value.queue)) else None;
            && Step(Queued(w, buf + w.queue), u)
            && (|buf| > 1 || !buf[0].MovedFrom? || w.queue == [] ==> Consume(Queued(w, buf + w.queue), u))
  {
    if |buf| > 1 || !buf[0].MovedFrom? || w.queue == [] {
      HandledIsConsume(w, buf, r);
    } else {
      HandledIsAlone(w, buf[0], r);
      assert buf == [buf[0]] && buf[1..] == [];
      assert r.Some? ==> Queued(r.value, [] + r.value.queue) == r.value;
    }
  }

  // ----- Progress -----

  /** The number of events that are not IN_IGNORED; no step adds to it. */
  function Work(es: seq<Event>): nat {
    if es == [] then 0 else (if es[0].Ignored? then 0 else 1) + Work(es[1..])
  }

  lemma {:induction false} WorkOfConcat(a: seq<Event>, b: seq<Event>)
    ensures Work(a + b) == Work(a) + Work(b)
  {
    if a == [] {
      assert a + b == b;
    } else {
      assert (a + b)[1..] == a[1..] + b;
      WorkOfConcat(a[1..], b);
    }
  }

  lemma {:induction false} IgnoredsAreNoWork(order: seq<int>)
    ensures Work(Ignoreds(order)) == 0
    decreases order
  {
    if order == [] {
    } else {
      assert Ignoreds(order)[1..] == Ignoreds(order[1..]);
      IgnoredsAreNoWork(order[1..]);
    }
  }

  ghost predicate Wds(es: seq<Event>) {
    forall i :: 0 <= i < |es| ==> es[i].Overflow? || es[i].wd >= 0
  }

  /** Handling an event queues IN_IGNORED events at most. */
  lemma HandledQueue(w: World, e: Event, next: Option<Event>, u: World)
    requires Handled(w, e, next, Some(u)) && Wds(w.queue) && forall wd :: wd in w.cache ==> wd >= 0
    ensures Work(u.queue) == Work(w.queue) && Wds(u.queue)
  {
    if !(next.Some? && Pairs(e, next.value)) {
      match e
      case Create(wd, name) =>
        if Join(w.cache[wd], name) !in w.cache.Values { WatchIgnoresQueue(w, Join(w.cache[wd], name), u, []); }
      case MovedTo(wd, _, name) =>
        if Join(w.cache[wd], name) !in w.cache.Values { WatchIgnoresQueue(w, Join(w.cache[wd], name), u, []); }
      case MovedFrom(wd, _, name) =>
        var s := EntriesUnder(w.cache, Join(w.cache[wd], name));
        var order :| Enumerates(order, s) &&
          Some(u) == Some(w.(cache := w.cache - s, watches := Without(w.watches, s),
              queue := w.queue + Ignoreds(order)));
        WorkOfConcat(w.queue, Ignoreds(order));
        IgnoredsAreNoWork(order);
        forall i | 0 <= i < |order| ensures order[i] >= 0 { assert order[i] in order; }
        WdsOfConcat(w.queue, Ignoreds(order));
      case _ =>
    }
  }

  lemma WdsOfConcat(a: seq<Event>, b: seq<Event>)
    ensures Wds(a + b) <==> Wds(a) && Wds(b)
  {
    if Wds(a + b) {
      assert forall i :: 0 <= i < |a| ==> a[i] == (a + b)[i];
      assert forall i :: 0 <= i < |b| ==> b[i] == (a + b)[|a| + i];
    }
  }

  /** Taking k events off the buffer does work, or shortens the buffer by one IN_IGNORED. */
  lemma WorkDone(buf: seq<Event>, k: nat)
    requires 1 <= k <= |buf| && k <= 2
    ensures Work(buf[k..]) <= Work(buf)
    ensures !buf[0].Ignored? ==> Work(buf[k..]) < Work(buf)
  {
    WorkOfConcat(buf[..k], buf[k..]);
    assert buf == buf[..k] + buf[k..] && buf[..k][0] == buf[0];
  }

  // ----- The byte count -----

  /** What is left of numRead: exact, or one too small after an interrupted second read. */
  ghost predicate Counted(bytes: int, buf: seq<Event>, firstTry: bool) {
    || bytes == Bytes(buf)
    || (!firstTry && |buf| == 1 && bytes == Bytes(buf) - 1)
    || (buf == [] && bytes == -1)
  }

  /** As long as bytes are left there is an event, and the test for a further event is right. */
  lemma CountedHead(bytes: int, buf: seq<Event>, firstTry: bool)
    requires Counted(bytes, buf, firstTry)
    ensures bytes > 0 <==> buf != []
    ensures buf != [] ==> (Size(buf[0]) < bytes <==> |buf| > 1)
  {
    BytesPositive(buf);
    if buf != [] {
      BytesPositive(buf[1..]);
    }
  }

  lemma CountedTail(bytes: int, buf: seq<Event>, firstTry: bool, k: nat)
    requires Counted(bytes, buf, firstTry) && 1 <= k <= |buf| && k <= 2
    ensures Counted(bytes - if k == 2 then Size(buf[0]) + Size(buf[1]) else Size(buf[0]), buf[k..], true)
  {
    if k == 2 {
      assert Bytes(buf) == Size(buf[0]) + Bytes(buf[1..]);
      assert buf[1..][0] == buf[1] && buf[1..][1..] == buf[2..];
    } else if |buf| == 1 {
      assert buf[1..] == [];
    }
  }

  // ----- The loop -----

  /** Consecutive steps of the program on the undivided stream. */
  ghost predicate Steps(trace: seq<World>) {
    trace != [] && forall i :: 0 <= i < |trace| - 1 ==> Step(trace[i], Some(trace[i + 1]))
  }

  /** The same, with every rename pair taken as a pair. */
  ghost predicate PairedSteps(trace: seq<World>) {
    trace != [] && forall i :: 0 <= i < |trace| - 1 ==> Consume(trace[i], Some(trace[i + 1]))
  }

  /** The number of steps that split a pair. */
  ghost function Splits(trace: seq<World>): nat {
    if |trace| <= 1 then 0
    else Splits(trace[..|trace| - 1]) + Split(trace[|trace| - 2], Some(trace[|trace| - 1]))
  }

  ghost function Split(w: World, r: Option<World>): nat {
    if Consume(w, r) then 0 else 1
  }

  lemma {:induction false} NoSplitAt(trace: seq<World>, i: nat)
    requires i + 1 < |trace| && Splits(trace) == 0
    ensures Consume(trace[i], Some(trace[i + 1]))
  {
    if i + 2 == |trace| {
      assert Split(trace[i], Some(trace[i + 1])) == 0;
    } else {
      var init := trace[..|trace| - 1];
      assert init[i] == trace[i] && init[i + 1] == trace[i + 1];
      NoSplitAt(init, i);
    }
  }

  lemma NoSplits(trace: seq<World>)
    requires trace != [] && Splits(trace) == 0
    ensures PairedSteps(trace)
  {
    forall i | 0 <= i < |trace| - 1 ensures Consume(trace[i], Some(trace[i + 1])) { NoSplitAt(trace, i); }
  }

  lemma TraceNext(trace: seq<World>, w: World)
    requires Steps(trace) && Step(trace[|trace| - 1], Some(w))
    ensures Steps(trace + [w]) && (trace + [w])[|trace|] == w && (trace + [w])[0] == trace[0]
    ensures Splits(trace + [w]) == Splits(trace) + Split(trace[|trace| - 1], Some(w))
  {
    var t := trace + [w];
    assert t[..|t| - 1] == trace;
    forall i | 0 <= i < |t| - 1 ensures Step(t[i], Some(t[i + 1])) {
      if i < |trace| - 1 {
        assert t[i] == trace[i] && t[i + 1] == trace[i + 1] && Step(trace[i], Some(trace[i + 1]));
      }
    }
  }

  /** read: takes a chunk of any size from the front of a queue that is not empty. */
  method Read(m: Monitor) returns (chunk: seq<Event>)
    requires m.queue != []
    modifies m`queue
    ensures chunk != [] && chunk + m.queue == old(m.queue)
  {
    var n :| 1 <= n <= |m.queue|;
    chunk := m.queue[..n];
    m.queue := m.queue[n..];
  }

  /** The state of the loop: the buffer in front of the queue is where the last step has led. */
  ghost predicate Reading(m: Monitor, buf: seq<Event>, bytes: int, firstTry: bool, last: World)
    reads m
  {
    && m.Valid() && Wds(buf) && Wds(m.queue) && Counted(bytes, buf, firstTry)
    && last == Queued(m.State(), buf + m.queue)
    && (!firstTry ==> buf != [] && buf[0].MovedFrom?)
  }

  lemma NothingLeft(m: Monitor, buf: seq<Event>, bytes: int, firstTry: bool, last: World)
    requires Reading(m, buf, bytes, firstTry, last) && bytes <= 0
    ensures buf == [] && last == m.State()
  {
    CountedHead(bytes, buf, firstTry);
    assert [] + m.queue == m.queue;
  }

  /** The second read: it takes more events, or is interrupted at any moment and yields -1. */
  method ReadMore(m: Monitor, buf: seq<Event>, bytes: int, interrupted: bool, ghost last: World)
    returns (buf': seq<Event>, bytes': int)
    requires Reading(m, buf, bytes, true, last) && |buf| == 1 && buf[0].MovedFrom? && (m.queue == [] ==> interrupted)
    modifies m`queue
    ensures Reading(m, buf', bytes', false, last) && Work(buf') + Work(m.queue) == Work(buf) + old(Work(m.queue))
    ensures if interrupted then buf' == buf && m.queue == old(m.queue) else |buf'| > 1
  {
    buf', bytes' := buf, bytes;
    if !interrupted {
      var more := Read(m);
      assert buf + (more + m.queue) == (buf + more) + m.queue;
      WdsOfConcat(more, m.queue);
      WdsOfConcat(buf, more);
      BytesOfConcat(buf, more);
      WorkOfConcat(more, m.queue);
      WorkOfConcat(buf, more);
      buf', bytes' := buf + more, bytes + Bytes(more);
    } else {
      bytes' := bytes + -1;
    }
  }

  /** A waiting IN_MOVED_FROM will be handled by itself although more is queued. */
  predicate Owed(m: Monitor, buf: seq<Event>, firstTry: bool)
    reads m
  {
    !firstTry && |buf| == 1 && m.queue != []
  }

  lemma RebuiltIgnoresQueue(w: World, u: World, q: seq<Event>)
    requires Rebuilt(w, u)
    ensures Rebuilt(Queued(w, q), u)
  {
  }

  lemma {:induction false} WalkKeepsTree(w: World, order: seq<Id>)
    ensures Walk(w, order).tree == w.tree
    decreases order
  {
    if order == [] {
    } else {
      WalkKeepsTree(Visit(w, order[0]), order[1..]);
    }
  }

  lemma RebuiltIsExact(w: World, u: World)
    requires Rebuilt(w, u) && WellFormed(u.tree)
    ensures InSync(u) && u.queue == []
  {
    var w0 := w.(watches := map[], queue := [], cache := map[]);
    var order :| Enumerates(order, Live(w.tree)) && u == Walk(w0, order);
    WalkKeepsTree(w0, order);
    RebuildAgrees(w, u);
  }

  /** What a turn does to the buffer when it handles an event, or a pair. */
  lemma TakenFromBuffer(w: World, u: World, buf: seq<Event>, bytes: int, firstTry: bool, k: nat)
    requires buf != [] && Wds(buf) && Wds(w.queue) && Counted(bytes, buf, firstTry)
    requires forall wd :: wd in w.cache ==> wd >= 0
    requires Handled(w, buf[0], if |buf| > 1 then Some(buf[1]) else None, Some(u))
    requires k == if |buf| > 1 && Pairs(buf[0], buf[1]) then 2 else 1
    ensures Wds(buf[k..]) && Wds(u.queue)
    ensures Counted(bytes - if k == 2 then Size(buf[0]) + Size(buf[1]) else Size(buf[0]), buf[k..], true)
    ensures Work(buf[k..]) + Work(u.queue) <= Work(buf) + Work(w.queue)
    ensures !buf[0].Ignored? ==> Work(buf[k..]) + Work(u.queue) < Work(buf) + Work(w.queue)
  {
    HandledQueue(w, buf[0], if |buf| > 1 then Some(buf[1]) else None, u);
    CountedTail(bytes, buf, firstTry, k);
    WorkDone(buf, k);
    assert buf == buf[..k] + buf[k..];
    WdsOfConcat(buf[..k], buf[k..]);
  }

  lemma RebuildIsStep(w: World, buf: seq<Event>, firstTry: bool)
    requires buf != [] && Handled(w, buf[0], if |buf| > 1 then Some(buf[1]) else None, None)
    requires firstTry && |buf| == 1 && buf[0].MovedFrom? ==> buf[0].wd !in w.cache
    requires !firstTry ==> buf[0].MovedFrom?
    ensures Step(Queued(w, buf + w.queue), None)
    ensures firstTry || |buf| > 1 || w.queue == [] ==> Consume(Queued(w, buf + w.queue), None)
  {
    if firstTry && buf[0].MovedFrom? && |buf| == 1 {
      UnknownIsConsume(w, buf);
    } else {
      HandledIsStep(w, buf, None);
    }
  }

  lemma CachedWds(slots: seq<Slot>)
    requires ValidSlots(slots)
    ensures forall wd :: wd in CacheOf(slots) ==> wd >= 0
  {
    forall wd | wd in CacheOf(slots) ensures wd >= 0 { var _ := CacheHas(slots, wd); }
  }

  /** One turn of the loop: rebuild, one step, or a request for a second read. */
  method Turn(m: Monitor, buf: seq<Event>, bytes: int, firstTry: bool, ghost last: World)
    returns (res: Outcome, buf': seq<Event>, bytes': int)
    requires Reading(m, buf, bytes, firstTry, last) && bytes > 0
    modifies m
    ensures m.Valid() && m.tree == old(m.tree)
    ensures res == Rebuild ==> Step(last, None) && Rebuilt(last, m.State())
    ensures res == Rebuild && !old(Owed(m, buf, firstTry)) ==> Consume(last, None)
    ensures res == Hanging ==> firstTry && |buf| == 1 && buf[0].MovedFrom? && Reading(m, buf, bytes, true, last)
    ensures res == Hanging ==> buf' == buf && bytes' == bytes && m.queue == old(m.queue)
    ensures res.Consumed? ==>
              var u := Queued(m.State(), buf' + m.queue);
              && Step(last, Some(u)) && Reading(m, buf', bytes', true, u)
              && (!old(Owed(m, buf, firstTry)) ==> Consume(last, Some(u)))
    ensures res.Consumed? ==> Work(buf') + Work(m.queue) <= Work(buf) + old(Work(m.queue)) && |buf'| < |buf|
    ensures res.Consumed? && !buf[0].Ignored? ==> Work(buf') + Work(m.queue) < Work(buf) + old(Work(m.queue))
  {
    buf', bytes' := buf, bytes;
    CountedHead(bytes, buf, firstTry);
    var e := buf[0];
    var next := None;
    if Size(e) < bytes {
      next := Some(buf[1]);
    }
    ghost var w := m.State();
    CachedWds(m.slots);
    res := m.ProcessNextEvent(e, next, firstTry);
    if res == Rebuild {
      RebuildIsStep(w, buf, firstTry);
      RebuiltIgnoresQueue(w, m.State(), buf + w.queue);
    } else if res.Consumed? {
      HandledIsStep(w, buf, Some(m.State()));
      TakenFromBuffer(w, m.State(), buf, bytes, firstTry, res.events);
      bytes' := bytes - if res.events == 2 then Size(e) + Size(next.value) else Size(e);
      buf' := buf[res.events..];
    }
  }

  /** The state of the loop with its trace; `cuts` second reads were interrupted while an event was queued. */
  ghost predicate Along(m: Monitor, buf: seq<Event>, bytes: int, firstTry: bool, trace: seq<World>, cuts: nat)
    reads m
  {
    && Steps(trace) && Reading(m, buf, bytes, firstTry, trace[|trace| - 1])
    && Splits(trace) + (if Owed(m, buf, firstTry) then 1 else 0) <= cuts
  }

  /** A second read; with `steady` it is interrupted only when nothing is queued. */
  method Retry(m: Monitor, buf: seq<Event>, bytes: int, steady: bool, ghost trace: seq<World>, cuts: nat)
    returns (buf': seq<Event>, bytes': int, cuts': nat)
    requires Along(m, buf, bytes, true, trace, cuts) && |buf| == 1 && buf[0].MovedFrom?
    modifies m`queue
    ensures Along(m, buf', bytes', false, trace, cuts') && cuts <= cuts' <= cuts + 1 && (steady ==> cuts' == cuts)
    ensures Work(buf') + Work(m.queue) == Work(buf) + old(Work(m.queue))
  {
    var interrupted := m.queue == [];
    if * {
      interrupted := interrupted || !steady;
    }
    cuts' := if interrupted && m.queue != [] then cuts + 1 else cuts;
    buf', bytes' := ReadMore(m, buf, bytes, interrupted, trace[|trace| - 1]);
  }

  /** One turn, with the second read it may ask for. */
  method Round(m: Monitor, buf: seq<Event>, bytes: int, firstTry: bool, steady: bool, ghost trace: seq<World>,
               cuts: nat)
    returns (rebuilt: bool, retried: bool, buf': seq<Event>, bytes': int, ghost trace': seq<World>, cuts': nat)
    requires Along(m, buf, bytes, firstTry, trace, cuts) && bytes > 0
    modifies m
    ensures m.Valid() && m.tree == old(m.tree) && trace' != [] && trace'[0] == trace[0]
    ensures rebuilt ==> Ends(trace', m.State(), cuts') && !retried
    ensures !rebuilt ==> Along(m, buf', bytes', !retried, trace', cuts')
    ensures retried ==> firstTry && buf' != [] && Work(buf') + Work(m.queue) == Work(buf) + old(Work(m.queue))
    ensures !rebuilt && !retried ==>
              Work(buf') + Work(m.queue) <= Work(buf) + old(Work(m.queue)) && |buf'| < |buf|
    ensures !rebuilt && !retried && !firstTry ==>
              Work(buf') + Work(m.queue) < Work(buf) + old(Work(m.queue))
    ensures |trace'| == |trace| + if rebuilt || retried then 0 else 1
    ensures cuts <= cuts' <= cuts + (if retried then 1 else 0) && (steady ==> cuts' == cuts)
  {
    ghost var last := trace[|trace| - 1];
    trace', cuts', rebuilt, retried := trace, cuts, false, false;
    var res;
    res, buf', bytes' := Turn(m, buf, bytes, firstTry, last);
    if res == Rebuild {
      rebuilt := true;
    } else if res == Hanging {
      retried := true;
      buf', bytes', cuts' := Retry(m, buf, bytes, steady, trace, cuts);
      CountedHead(bytes', buf', false);
    } else {
      TraceNext(trace, Queued(m.State(), buf' + m.queue));
      trace' := trace + [Queued(m.State(), buf' + m.queue)];
    }
  }

  /** The steps end in a rebuild that leaves u. */
  ghost predicate Ends(trace: seq<World>, u: World, cuts: nat) {
    && Steps(trace) && Step(trace[|trace| - 1], None) && Rebuilt(trace[|trace| - 1], u)
    && Splits(trace) + Split(trace[|trace| - 1], None) <= cuts
  }

  /** The steps end because the buffer is empty. */
  ghost predicate Stops(m: Monitor, trace: seq<World>, cuts: nat)
    reads m
  {
    && m.Valid() && Wds(m.queue) && Steps(trace) && |trace| > 1 && trace[|trace| - 1] == m.State()
    && Splits(trace) <= cuts
  }

  /**
   The first read, and turns until the buffer is empty or the cache is rebuilt. `bytes` is what is left of
   numRead. When the second read is interrupted its result -1 is added to numRead like a byte count; the
   code is right nevertheless, because the event that waits in the buffer is still taken as a whole.
   */
  method Rounds(m: Monitor, steady: bool) returns (rebuilt: bool, retries: nat, cuts: nat, ghost trace: seq<World>)
    requires m.Valid() && m.queue != [] && Wds(m.queue)
    modifies m
    ensures m.Valid() && m.tree == old(m.tree) && trace != [] && trace[0] == old(m.State())
    ensures if rebuilt then Ends(trace, m.State(), cuts) else Stops(m, trace, cuts)
    ensures cuts <= retries <= |trace| && (steady ==> cuts == 0)
  {
    retries, cuts, rebuilt := 0, 0, false;
    trace := [m.State()];
    var firstTry := true;
    var buf := Read(m);
    WdsOfConcat(buf, m.queue);
    var bytes := Bytes(buf);
    while bytes > 0
      invariant trace != [] && trace[0] == old(m.State()) && m.tree == old(m.tree)
      invariant Along(m, buf, bytes, firstTry, trace, cuts) && (steady ==> cuts == 0)
      invariant cuts <= retries <= |trace| - 1 + if firstTry then 0 else 1
      invariant buf == [] ==> |trace| > 1
      decreases Work(buf) + Work(m.queue), firstTry, |buf|
    {
      var retried;
      rebuilt, retried, buf, bytes, trace, cuts := Round(m, buf, bytes, firstTry, steady, trace, cuts);
      if rebuilt {
        return;
      }
      firstTry, retries := !retried, if retried then retries + 1 else retries;
    }
    NothingLeft(m, buf, bytes, firstTry, trace[|trace| - 1]);
    rebuilt := false;
  }

  /**
   One call of processInotifyEvents. `cuts` counts the second reads that are interrupted while an event is
   queued: no more pairs than that are split.
   */
  method ProcessInotifyEvents(m: Monitor, steady: bool)
    returns (rebuilt: bool, retries: nat, cuts: nat, ghost trace: seq<World>)
    requires m.Valid() && m.queue != [] && Wds(m.queue)
    modifies m
    ensures m.Valid() && m.tree == old(m.tree)
    ensures Steps(trace) && trace[0] == old(m.State())
    ensures !rebuilt ==> |trace| > 1 && trace[|trace| - 1] == m.State() && Wds(m.queue)
    ensures rebuilt ==> Step(trace[|trace| - 1], None) && Rebuilt(trace[|trace| - 1], m.State())
    ensures rebuilt ==> InSync(m.State()) && m.queue == []
    ensures Splits(trace) + (if rebuilt then Split(trace[|trace| - 1], None) else 0) <= cuts <= retries <= |trace|
    ensures steady ==> cuts == 0
    ensures cuts == 0 ==> PairedSteps(trace) && (rebuilt ==> Consume(trace[|trace| - 1], None))
  {
    rebuilt, retries, cuts, trace := Rounds(m, steady);
    if rebuilt {
      RebuiltIsExact(trace[|trace| - 1], m.State());
    }
    if cuts == 0 {
      NoSplits(trace);
    }
  }
}
