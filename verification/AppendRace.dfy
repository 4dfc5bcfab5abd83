/**
 atomic_append.c: processes add bytes to one file, each either with O_APPEND, where a write goes to the
 end of the file in one step, or by seeking to the end and writing there in two steps.
 */
module AppendRace {

  /** A process writes `total` bytes; `atEnd` is whether its lseek has been done for the next one. */
  datatype Proc = Proc(useLseek: bool, total: nat, done: nat, atEnd: bool, offset: nat)

  datatype File = File(size: nat, procs: seq<Proc>)

  ghost predicate Init(f: File) {
    forall i :: 0 <= i < |f.procs| ==> f.procs[i].done == 0 && !f.procs[i].atEnd
  }

  predicate Enabled(f: File, i: int) {
    0 <= i < |f.procs| && f.procs[i].done < f.procs[i].total
  }

  function Max(a: int, b: int): int { if a > b then a else b }

  /** The next system call of process i. */
  function Do(f: File, i: int): File
    requires Enabled(f, i)
  {
    var p := f.procs[i];
    if p.useLseek && !p.atEnd then
      f.(procs := f.procs[i := p.(atEnd := true, offset := f.size)])
    else if p.useLseek then
      File(Max(f.size, p.offset + 1), f.procs[i := p.(atEnd := false, offset := p.offset + 1, done := p.done + 1)])
    else
      File(f.size + 1, f.procs[i := p.(offset := f.size + 1, done := p.done + 1)])
  }

  predicate Finished(f: File) {
    forall i :: 0 <= i < |f.procs| ==> f.procs[i].done == f.procs[i].total
  }

  // ----- Sums and maxima over the processes -----

  function Done(ps: seq<Proc>): nat {
    if ps == [] then 0 else ps[0].done + Done(ps[1..])
  }

  function Total(ps: seq<Proc>): nat {
    if ps == [] then 0 else ps[0].total + Total(ps[1..])
  }

  /** The bytes written so far with O_APPEND, and those to be written. */
  function Appended(ps: seq<Proc>): nat {
    if ps == [] then 0 else (if ps[0].useLseek then 0 else ps[0].done) + Appended(ps[1..])
  }

  function ToAppend(ps: seq<Proc>): nat {
    if ps == [] then 0 else (if ps[0].useLseek then 0 else ps[0].total) + ToAppend(ps[1..])
  }

  /** The largest count of a process that seeks. */
  function Largest(ps: seq<Proc>): nat {
    if ps == [] then 0 else Max(if ps[0].useLseek then ps[0].total else 0, Largest(ps[1..]))
  }

  /** What the file grows by at least. */
  function Floor(ps: seq<Proc>): nat {
    Max(ToAppend(ps), Largest(ps))
  }

  lemma {:induction false} UpdateSums(ps: seq<Proc>, i: nat, p: Proc)
    requires i < |ps| && p.total == ps[i].total && p.useLseek == ps[i].useLseek
    ensures Done(ps[i := p]) == Done(ps) - ps[i].done + p.done
    ensures Appended(ps[i := p]) == Appended(ps) + if p.useLseek then 0 else p.done - ps[i].done
    ensures Total(ps[i := p]) == Total(ps) && Largest(ps[i := p]) == Largest(ps) && ToAppend(ps[i := p]) == ToAppend(ps)
    decreases |ps|
  {
    if i == 0 {
      assert ps[i := p][1..] == ps[1..];
    } else {
      assert ps[i := p][1..] == ps[1..][i - 1 := p];
      UpdateSums(ps[1..], i - 1, p);
    }
  }

  lemma {:induction false} FinishedSums(ps: seq<Proc>)
    requires forall i :: 0 <= i < |ps| ==> ps[i].done == ps[i].total
    ensures Done(ps) == Total(ps) && Appended(ps) == ToAppend(ps)
  {
    if ps == [] {
    } else {
      FinishedSums(ps[1..]);
    }
  }

  lemma {:induction false} LargestIs(ps: seq<Proc>)
    ensures forall i :: 0 <= i < |ps| && ps[i].useLseek ==> ps[i].total <= Largest(ps)
    ensures Largest(ps) > 0 ==> exists i :: 0 <= i < |ps| && ps[i].useLseek && ps[i].total == Largest(ps)
  {
    if ps == [] {
    } else {
      LargestIs(ps[1..]);
      forall i | 0 <= i < |ps| && ps[i].useLseek ensures ps[i].total <= Largest(ps) {
        if i > 0 { assert ps[i] == ps[1..][i - 1]; }
      }
      if Largest(ps) == Largest(ps[1..]) > 0 {
        var j :| 0 <= j < |ps[1..]| && ps[1..][j].useLseek && ps[1..][j].total == Largest(ps[1..]);
        assert ps[j + 1].total == Largest(ps);
      }
    }
  }

  lemma {:induction false} AllAppendSums(ps: seq<Proc>)
    requires forall i :: 0 <= i < |ps| ==> !ps[i].useLseek
    ensures ToAppend(ps) == Total(ps)
  {
    if ps == [] {
    } else {
      AllAppendSums(ps[1..]);
    }
  }

  // ----- Every run -----

  /** No process loses its own bytes to itself, no O_APPEND write is lost, and no write adds more than a byte. */
  ghost predicate Inv(f: File, start: nat) {
    && start + Appended(f.procs) <= f.size <= start + Done(f.procs)
    && (forall i :: 0 <= i < |f.procs| ==> start + f.procs[i].done <= f.size)
    && (forall i :: 0 <= i < |f.procs| && f.procs[i].atEnd ==> start + f.procs[i].done <= f.procs[i].offset <= f.size)
  }

  lemma StepKeepsInv(f: File, start: nat, i: int)
    requires Inv(f, start) && Enabled(f, i)
    ensures var g := Do(f, i);
            && Inv(g, start) && Total(g.procs) == Total(f.procs)
            && Largest(g.procs) == Largest(f.procs) && ToAppend(g.procs) == ToAppend(f.procs)
  {
    var g := Do(f, i);
    UpdateSums(f.procs, i, g.procs[i]);
  }

  ghost predicate IsRun(fs: seq<File>, sched: seq<int>) {
    && |fs| == |sched| + 1
    && forall k :: 0 <= k < |sched| ==> Enabled(fs[k], sched[k]) && fs[k + 1] == Do(fs[k], sched[k])
  }

  ghost predicate AllAppend(f: File) {
    forall j :: 0 <= j < |f.procs| ==> !f.procs[j].useLseek
  }

  lemma {:induction false} DoneIsZero(ps: seq<Proc>)
    requires forall i :: 0 <= i < |ps| ==> ps[i].done == 0
    ensures Done(ps) == 0 == Appended(ps)
  {
    if ps == [] {
    } else {
      DoneIsZero(ps[1..]);
    }
  }

  lemma {:induction false} RunKeepsInv(fs: seq<File>, sched: seq<int>, k: nat)
    requires IsRun(fs, sched) && Init(fs[0]) && k < |fs|
    ensures Inv(fs[k], fs[0].size)
    ensures Total(fs[k].procs) == Total(fs[0].procs)
    ensures Largest(fs[k].procs) == Largest(fs[0].procs) && ToAppend(fs[k].procs) == ToAppend(fs[0].procs)
  {
    if k == 0 {
      DoneIsZero(fs[0].procs);
    } else {
      RunKeepsInv(fs, sched, k - 1);
      StepKeepsInv(fs[k - 1], fs[0].size, sched[k - 1]);
    }
  }

  /**
   When all processes have finished, the file has grown by at most the sum of the counts, and by at least
   the sum of the O_APPEND counts and the largest count of a process that seeks. With O_APPEND
   throughout every byte is there.
   */
  lemma EveryRunIsBounded(fs: seq<File>, sched: seq<int>)
    requires IsRun(fs, sched) && Init(fs[0]) && Finished(fs[|sched|])
    ensures var start, size := fs[0].size, fs[|sched|].size;
            && start + Floor(fs[0].procs) <= size <= start + Total(fs[0].procs)
            && (AllAppend(fs[0]) ==> size == start + Total(fs[0].procs))
  {
    var f := fs[|sched|];
    RunKeepsInv(fs, sched, |sched|);
    FinishedSums(f.procs);
    LargestIs(f.procs);
    if Largest(f.procs) > 0 {
      var i :| 0 <= i < |f.procs| && f.procs[i].useLseek && f.procs[i].total == Largest(f.procs);
      assert fs[0].size + f.procs[i].done <= f.size;
    }
    if AllAppend(fs[0]) {
      AllAppendSums(fs[0].procs);
    }
  }

  // ----- Both bounds are met -----

  ghost predicate Reaches(f: File, g: File) {
    exists fs, sched :: IsRun(fs, sched) && fs[0] == f && fs[|sched|] == g
  }

  lemma ReachesItself(f: File)
    ensures Reaches(f, f)
  {
    assert IsRun([f], []);
  }

  lemma ReachesNext(f: File, g: File, i: int)
    requires Reaches(f, g) && Enabled(g, i)
    ensures Reaches(f, Do(g, i))
  {
    var fs, sched :| IsRun(fs, sched) && fs[0] == f && fs[|sched|] == g;
    assert IsRun(fs + [Do(g, i)], sched + [i]);
    assert (fs + [Do(g, i)])[0] == f;
  }

  ghost predicate Calm(f: File) {
    forall i :: 0 <= i < |f.procs| ==> !f.procs[i].atEnd && f.procs[i].done <= f.procs[i].total
  }

  lemma {:induction false} SomeoneUnfinished(ps: seq<Proc>) returns (i: nat)
    requires Done(ps) < Total(ps)
    ensures i < |ps| && ps[i].done < ps[i].total
  {
    if ps[0].done < ps[0].total {
      i := 0;
    } else {
      i := SomeoneUnfinished(ps[1..]);
      i := i + 1;
    }
  }

  lemma {:induction false} DoneBelowTotal(ps: seq<Proc>)
    requires forall i :: 0 <= i < |ps| ==> ps[i].done <= ps[i].total
    ensures Done(ps) <= Total(ps)
    ensures Done(ps) == Total(ps) ==> forall i :: 0 <= i < |ps| ==> ps[i].done == ps[i].total
  {
    if ps == [] {
    } else {
      DoneBelowTotal(ps[1..]);
      if Done(ps) == Total(ps) {
        forall i | 0 <= i < |ps| ensures ps[i].done == ps[i].total {
          if i > 0 { assert ps[i] == ps[1..][i - 1]; }
        }
      }
    }
  }

  /** A process that seeks and writes undisturbed adds a byte. */
  lemma WholeWrite(f: File, i: nat) returns (g: File)
    requires Calm(f) && Enabled(f, i)
    ensures Calm(g) && g.size == f.size + 1 && Done(g.procs) == Done(f.procs) + 1 && Total(g.procs) == Total(f.procs)
    ensures forall e :: Reaches(e, f) ==> Reaches(e, g)
  {
    var h := Do(f, i);
    g := if f.procs[i].useLseek then Do(h, i) else h;
    forall e | Reaches(e, f) ensures Reaches(e, g) {
      ReachesNext(e, f, i);
      if f.procs[i].useLseek {
        ReachesNext(e, h, i);
      }
    }
    assert g.procs == f.procs[i := g.procs[i]];
    UpdateSums(f.procs, i, g.procs[i]);
  }

  /** One write at a time: nothing is lost, whatever the modes. */
  lemma {:induction false} SumIsMet(f: File, g: File) returns (h: File)
    requires Calm(g) && Reaches(f, g)
    ensures Reaches(f, h) && Finished(h) && h.size == g.size + Total(g.procs) - Done(g.procs)
    decreases Total(g.procs) - Done(g.procs)
  {
    DoneBelowTotal(g.procs);
    if Done(g.procs) == Total(g.procs) {
      h := g;
    } else {
      var i := SomeoneUnfinished(g.procs);
      var g' := WholeWrite(g, i);
      h := SumIsMet(f, g');
    }
  }

  function Min(a: int, b: int): int { if a < b then a else b }

  /**
   Round r of the worst case: those that seek and have more than r bytes to write all seek, one O_APPEND
   write is made if there is one left, and then they all write. The processes below k have had their turn
   to seek or, if `wrote`, to write; `joined` is whether the O_APPEND write has been made.
   */
  ghost predicate Round(f: File, start: nat, r: nat, k: nat, joined: bool, wrote: bool) {
    && k <= |f.procs|
    && f.size == start + r + (if joined || (wrote && Wrote(f.procs, r, k)) then 1 else 0)
    && Appended(f.procs) == Min(ToAppend(f.procs), r) + (if joined then 1 else 0)
    && forall i :: 0 <= i < |f.procs| ==> InRound(f.procs[i], start, r, i < k, wrote)
  }

  ghost predicate Wrote(ps: seq<Proc>, r: nat, k: nat) {
    exists i :: 0 <= i < k <= |ps| && ps[i].useLseek && ps[i].total > r
  }

  ghost predicate InRound(p: Proc, start: nat, r: nat, turn: bool, wrote: bool) {
    if p.useLseek then
      && p.done == Min(p.total, if wrote && turn then r + 1 else r)
      && p.atEnd == (p.total > r && (if wrote then !turn else turn))
      && (p.atEnd ==> p.offset == start + r)
    else
      p.done <= p.total && !p.atEnd
  }

  lemma RoundNext(f: File, start: nat, r: nat, k: nat, joined: bool, wrote: bool) returns (g: File)
    requires Round(f, start, r, k, joined, wrote) && k < |f.procs| && (joined ==> wrote)
    ensures Round(g, start, r, k + 1, joined, wrote) && Same(f, g)
  {
    var p := f.procs[k];
    assert InRound(p, start, r, false, wrote);
    if p.useLseek && p.total > r {
      g := Do(f, k);
      OneStep(f, k);
      assert g.procs[k].total > r && g.procs[k].useLseek;
      assert forall i :: 0 <= i < |f.procs| && i != k ==> g.procs[i] == f.procs[i];
      assert wrote ==> Wrote(g.procs, r, k + 1);
    } else {
      g := f;
      assert Wrote(f.procs, r, k) <==> Wrote(f.procs, r, k + 1);
    }
  }

  /** What every schedule keeps. */
  ghost predicate Same(f: File, g: File) {
    && |g.procs| == |f.procs| && ToAppend(g.procs) == ToAppend(f.procs) && Largest(g.procs) == Largest(f.procs)
    && forall e :: Reaches(e, f) ==> Reaches(e, g)
  }

  lemma OneStep(f: File, i: nat)
    requires Enabled(f, i)
    ensures var g := Do(f, i);
            && Same(f, g) && g.procs == f.procs[i := g.procs[i]]
            && Appended(g.procs) == Appended(f.procs) + if f.procs[i].useLseek then 0 else 1
  {
    var g := Do(f, i);
    forall e | Reaches(e, f) ensures Reaches(e, g) { ReachesNext(e, f, i); }
    UpdateSums(f.procs, i, g.procs[i]);
  }

  lemma {:induction false} RoundEnds(f: File, start: nat, r: nat, k: nat, joined: bool, wrote: bool) returns (g: File)
    requires Round(f, start, r, k, joined, wrote) && (joined ==> wrote)
    ensures Round(g, start, r, |f.procs|, joined, wrote) && Same(f, g)
    decreases |f.procs| - k
  {
    if k == |f.procs| {
      g := f;
    } else {
      g := RoundNext(f, start, r, k, joined, wrote);
      g := RoundEnds(g, start, r, k + 1, joined, wrote);
    }
  }

  lemma {:induction false} SomeoneAppends(ps: seq<Proc>) returns (i: nat)
    requires Appended(ps) < ToAppend(ps)
    ensures i < |ps| && !ps[i].useLseek && ps[i].done < ps[i].total
  {
    if !ps[0].useLseek && ps[0].done < ps[0].total {
      i := 0;
    } else {
      i := SomeoneAppends(ps[1..]);
      i := i + 1;
    }
  }

  /** Between the seeks and the writes of a round one O_APPEND write is made, if one is left. */
  lemma Joins(f: File, start: nat, r: nat) returns (g: File)
    requires Round(f, start, r, |f.procs|, false, false)
    ensures Round(g, start, r, 0, ToAppend(f.procs) > r, true) && Same(f, g)
  {
    if ToAppend(f.procs) > r {
      var i := SomeoneAppends(f.procs);
      g := Do(f, i);
      OneStep(f, i);
      forall j | 0 <= j < |g.procs| ensures InRound(g.procs[j], start, r, false, true) {
        assert InRound(f.procs[j], start, r, true, false);
      }
    } else {
      g := f;
      forall j | 0 <= j < |g.procs| ensures InRound(g.procs[j], start, r, false, true) {
        assert InRound(f.procs[j], start, r, true, false);
      }
    }
  }

  /** A round adds one byte to the file. */
  lemma WholeRound(f: File, start: nat, r: nat) returns (g: File)
    requires Round(f, start, r, 0, false, false) && r < Floor(f.procs)
    ensures Round(g, start, r + 1, 0, false, false) && Same(f, g)
  {
    var h := RoundEnds(f, start, r, 0, false, false);
    var j := Joins(h, start, r);
    g := RoundEnds(j, start, r, 0, ToAppend(f.procs) > r, true);
    LargestIs(g.procs);
    assert g.size == start + r + 1 by {
      if Largest(g.procs) > r {
        var i :| 0 <= i < |g.procs| && g.procs[i].useLseek && g.procs[i].total == Largest(g.procs);
        assert Wrote(g.procs, r, |g.procs|);
      }
    }
    forall i | 0 <= i < |g.procs| ensures InRound(g.procs[i], start, r + 1, false, false) {
      assert InRound(g.procs[i], start, r, true, true);
    }
  }

  lemma {:induction false} FloorIsMetFrom(f: File, g: File, start: nat, r: nat) returns (h: File)
    requires Round(g, start, r, 0, false, false) && r <= Floor(g.procs) && Reaches(f, g)
    ensures Reaches(f, h) && Finished(h) && h.size == start + Floor(g.procs)
    decreases Floor(g.procs) - r
  {
    if r == Floor(g.procs) {
      LargestIs(g.procs);
      AllAppended(g.procs);
      h := g;
      forall i | 0 <= i < |h.procs| ensures h.procs[i].done == h.procs[i].total {
        assert InRound(h.procs[i], start, r, false, false);
      }
    } else {
      var g' := WholeRound(g, start, r);
      h := FloorIsMetFrom(f, g', start, r + 1);
    }
  }

  lemma {:induction false} AllAppended(ps: seq<Proc>)
    requires forall i :: 0 <= i < |ps| && !ps[i].useLseek ==> ps[i].done <= ps[i].total
    ensures Appended(ps) <= ToAppend(ps)
    ensures Appended(ps) == ToAppend(ps) ==> forall i :: 0 <= i < |ps| && !ps[i].useLseek ==> ps[i].done == ps[i].total
  {
    if ps == [] {
    } else {
      AllAppended(ps[1..]);
      if Appended(ps) == ToAppend(ps) {
        forall i | 0 <= i < |ps| && !ps[i].useLseek ensures ps[i].done == ps[i].total {
          if i > 0 { assert ps[i] == ps[1..][i - 1]; }
        }
      }
    }
  }

  lemma FirstRound(f: File)
    requires Init(f)
    ensures Round(f, f.size, 0, 0, false, false)
  {
    DoneIsZero(f.procs);
    forall i | 0 <= i < |f.procs| ensures InRound(f.procs[i], f.size, 0, false, false) {}
  }

  /**
   Neither bound can be improved, in any mix of modes: from any start some interleaving keeps every
   byte, and some interleaving leaves no more than the lower bound says.
   */
  lemma BoundsAreMet(f: File)
    requires Init(f)
    ensures exists h :: Reaches(f, h) && Finished(h) && h.size == f.size + Total(f.procs)
    ensures exists h :: Reaches(f, h) && Finished(h) && h.size == f.size + Floor(f.procs)
  {
    ReachesItself(f);
    DoneIsZero(f.procs);
    var h := SumIsMet(f, f);
    FirstRound(f);
    var h' := FloorIsMetFrom(f, f, f.size, 0);
  }
}
