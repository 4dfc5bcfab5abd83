/**
 Two implementations of unsetenv and setenv: tlpi-dist/proc/setenv.c shifts the array down for each
 definition it removes, ch06/3_env.c compacts it with two pointers. The environment is an array of
 strings ended by NULL.
 */
module Environ {
  import opened Basics

  type Cell = Option<string>

  // ----- Entries, definitions, lookups -----

  /** The entry has the form name=value. */
  predicate Defines(entry: string, name: string) {
    |entry| > |name| && entry[..|name|] == name && entry[|name|] == '='
  }

  /** The strings before the terminator. */
  function Entries(cells: seq<Cell>): seq<string> {
    if cells == [] || cells[0].None? then [] else [cells[0].value] + Entries(cells[1..])
  }

  predicate EndedBy(cells: seq<Cell>, n: nat) {
    n < |cells| && cells[n].None? && forall i :: 0 <= i < n ==> cells[i].Some?
  }

  /** The entries that do not define the name, in order. */
  function Without(es: seq<string>, name: string): seq<string> {
    if es == [] then [] else (if Defines(es[0], name) then [] else [es[0]]) + Without(es[1..], name)
  }

  /** getenv: the value of the first definition. */
  function Lookup(es: seq<string>, name: string): Option<string> {
    if es == [] then None
    else if Defines(es[0], name) then Some(es[0][|name| + 1..])
    else Lookup(es[1..], name)
  }

  function Definitions(es: seq<string>, name: string): nat {
    if es == [] then 0 else (if Defines(es[0], name) then 1 else 0) + Definitions(es[1..], name)
  }

  predicate IsPlain(name: string) {
    name != "" && '=' !in name
  }

  lemma DefinesOne(entry: string, m: string, n: string)
    requires IsPlain(m) && IsPlain(n) && Defines(entry, m) && Defines(entry, n)
    ensures m == n
  {
    assert forall i :: 0 <= i < |m| ==> m[i] == entry[..|m|][i] == entry[i];
    assert forall i :: 0 <= i < |n| ==> n[i] == entry[..|n|][i] == entry[i];
    assert |m| == |n|;
  }

  /** Removing a name removes all of its definitions and changes no other lookup. */
  lemma {:induction false} WithoutLooksUp(es: seq<string>, name: string, other: string)
    requires IsPlain(name) && IsPlain(other)
    ensures Lookup(Without(es, name), other) == if other == name then None else Lookup(es, other)
    ensures Definitions(Without(es, name), name) == 0
  {
    if es == [] {
    } else {
      WithoutLooksUp(es[1..], name, other);
      var rest := Without(es[1..], name);
      if Defines(es[0], name) {
        assert Without(es, name) == rest;
        if Defines(es[0], other) { DefinesOne(es[0], name, other); }
      } else {
        assert Without(es, name) == [es[0]] + rest && ([es[0]] + rest)[1..] == rest;
      }
    }
  }

  lemma {:induction false} WithoutOfConcat(a: seq<string>, b: seq<string>, name: string)
    ensures Without(a + b, name) == Without(a, name) + Without(b, name)
  {
    if a == [] {
      assert a + b == b;
    } else {
      assert (a + b)[1..] == a[1..] + b;
      WithoutOfConcat(a[1..], b, name);
    }
  }

  lemma {:induction false} EntriesOfConcat(a: seq<Cell>, b: seq<Cell>)
    requires forall i :: 0 <= i < |a| ==> a[i].Some?
    ensures Entries(a + b) == Entries(a) + Entries(b)
  {
    if a == [] {
      assert a + b == b;
    } else {
      assert (a + b)[1..] == a[1..] + b;
      EntriesOfConcat(a[1..], b);
    }
  }

  lemma EntriesUpTo(cells: seq<Cell>, n: nat)
    requires EndedBy(cells, n)
    ensures Entries(cells) == Entries(cells[..n])
  {
    assert cells == cells[..n] + cells[n..];
    EntriesOfConcat(cells[..n], cells[n..]);
  }

  lemma {:induction false} Ends(cells: seq<Cell>) returns (n: nat)
    requires None in cells
    ensures EndedBy(cells, n)
  {
    if cells[0].None? {
      n := 0;
    } else {
      n := Ends(cells[1..]);
      n := n + 1;
    }
  }

  /** One more cell: the entry is kept or dropped. */
  lemma StepWithout(cells: seq<Cell>, i: nat, name: string)
    requires i < |cells| && forall j :: 0 <= j <= i ==> cells[j].Some?
    ensures Without(Entries(cells[..i + 1]), name) ==
            Without(Entries(cells[..i]), name) + if Defines(cells[i].value, name) then [] else [cells[i].value]
  {
    assert cells[..i + 1] == cells[..i] + [cells[i]];
    EntriesOfConcat(cells[..i], [cells[i]]);
    assert [cells[i]][1..] == [];
    WithoutOfConcat(Entries(cells[..i]), Entries([cells[i]]), name);
    assert [cells[i].value][1..] == [];
  }

  /** Exactly the entries that consist of the name, '=' and a value are removed; the others keep their order. */
  lemma WithoutIsFilter(a: seq<string>, entry: string, b: seq<string>, name: string)
    ensures Without([], name) == []
    ensures Without(a + [entry] + b, name) ==
            Without(a, name) + (if exists v :: entry == name + "=" + v then [] else [entry]) + Without(b, name)
  {
    WithoutOfConcat(a + [entry], b, name);
    WithoutOfConcat(a, [entry], name);
    assert [entry][1..] == [];
    if Defines(entry, name) {
      assert entry == name + "=" + entry[|name| + 1..];
    }
    if v :| entry == name + "=" + v {
      assert entry[..|name|] == name && entry[|name|] == '=';
    }
  }

  // ----- Names -----

  /** What tlpi-dist/proc/setenv.c accepts. */
  predicate Accepted(name: Option<string>) {
    name.Some? && IsPlain(name.value)
  }

  predicate IsAlpha(c: char) { 'a' <= c <= 'z' || 'A' <= c <= 'Z' }

  predicate IsWord(c: char) { IsAlpha(c) || '0' <= c <= '9' || c == '_' }

  /** What ch06/3_env.c accepts: an identifier. */
  predicate IsIdentifier(name: string) {
    name != "" && !('0' <= name[0] <= '9') && forall i :: 0 <= i < |name| ==> IsWord(name[i])
  }

  /** Underscores and digits are allowed, but not a digit in front. */
  lemma NamesThatAreValid()
    ensures IsIdentifier("MY_VAR") && IsIdentifier("_v2") && IsIdentifier("azAZ09")
    ensures !IsIdentifier("") && !IsIdentifier("2v") && !IsIdentifier("MY-VAR") && !IsIdentifier("A=B")
  {
    assert "MY-VAR"[2] == '-' && "A=B"[1] == '=';
  }

  method IsValidEnvName(name: Option<string>) returns (valid: bool)
    ensures valid == (name.Some? && IsIdentifier(name.value))
  {
    if name.None? || name.value == "" {
      return false;
    }
    var s := name.value;
    if !(IsAlpha(s[0]) || s[0] == '_') {
      return false;
    }
    for i := 1 to |s|
      invariant forall j :: 0 <= j < i ==> IsWord(s[j])
    {
      if !IsWord(s[i]) {
        return false;
      }
    }
    return true;
  }

  // ----- unsetenv by shifting down -----

  /** Cell i is gone, those after it up to the terminator have moved down one place. */
  ghost predicate Shifted(cells: seq<Cell>, s: seq<Cell>, i: nat, n: nat) {
    && |s| == |cells| && i <= n < |cells|
    && (forall j :: 0 <= j < i ==> s[j] == cells[j])
    && (forall j :: i <= j < n ==> s[j] == cells[j + 1])
    && (forall j :: n <= j < |cells| ==> s[j] == cells[j])
  }

  /** The inner loop. */
  method ShiftDown(environ: array<Cell>, i: nat, ghost n: nat)
    requires EndedBy(environ[..], n) && i < n
    modifies environ
    ensures Shifted(old(environ[..]), environ[..], i, n)
  {
    var sp := i;
    while environ[sp].Some?
      invariant i <= sp <= n && Shifted(old(environ[..]), environ[..], i, sp)
      decreases n - sp
    {
      assert environ[..][sp + 1] == old(environ[..])[sp + 1];
      environ[sp] := environ[sp + 1];
      sp := sp + 1;
    }
    assert environ[..][sp] == old(environ[..])[sp];
  }

  /** What the array will hold when the scan, now at ep, is over. */
  ghost function Outcome(cells: seq<Cell>, ep: nat, n: nat, name: string): seq<string>
    requires ep <= n <= |cells|
  {
    Entries(cells[..ep]) + Without(Entries(cells[ep..n]), name)
  }

  lemma DropKeepsOutcome(cells: seq<Cell>, s: seq<Cell>, ep: nat, n: nat, name: string)
    requires EndedBy(cells, n) && ep < n && Shifted(cells, s, ep, n) && Defines(cells[ep].value, name)
    ensures EndedBy(s, n - 1) && Outcome(s, ep, n - 1, name) == Outcome(cells, ep, n, name)
  {
    assert s[..ep] == cells[..ep] && s[ep..n - 1] == cells[ep + 1..n];
    HeadOf(cells, ep, n);
    WithoutOfConcat([cells[ep].value], Entries(cells[ep + 1..n]), name);
    assert [cells[ep].value][1..] == [];
  }

  lemma KeepKeepsOutcome(cells: seq<Cell>, ep: nat, n: nat, name: string)
    requires EndedBy(cells, n) && ep < n && !Defines(cells[ep].value, name)
    ensures Outcome(cells, ep + 1, n, name) == Outcome(cells, ep, n, name)
  {
    HeadOf(cells, ep, n);
    WithoutOfConcat([cells[ep].value], Entries(cells[ep + 1..n]), name);
    assert [cells[ep].value][1..] == [];
    assert cells[..ep + 1] == cells[..ep] + [cells[ep]] && [cells[ep]][1..] == [];
    EntriesOfConcat(cells[..ep], [cells[ep]]);
  }

  lemma OutcomeEnds(cells: seq<Cell>, n: nat, name: string)
    requires EndedBy(cells, n)
    ensures Outcome(cells, 0, n, name) == Without(Entries(cells), name) && Outcome(cells, n, n, name) == Entries(cells)
  {
    EntriesUpTo(cells, n);
    assert cells[..0] == [] && cells[0..n] == cells[..n] && cells[n..n] == [];
  }

  /** The entry at ep defines the name and is dropped. */
  method DropEntry(environ: array<Cell>, ep: nat, ghost n: nat, name: string)
    requires EndedBy(environ[..], n) && ep < n && Defines(environ[ep].value, name)
    modifies environ
    ensures EndedBy(environ[..], n - 1)
    ensures Outcome(environ[..], ep, n - 1, name) == old(Outcome(environ[..], ep, n, name))
  {
    ghost var cells := environ[..];
    assert cells[ep] == environ[ep];
    ShiftDown(environ, ep, n);
    DropKeepsOutcome(cells, environ[..], ep, n, name);
  }

  /** One step of the scan: the entry at ep is dropped or kept. */
  method ScanEntry(environ: array<Cell>, ep: nat, ghost n: nat, name: string) returns (ep': nat, ghost n': nat)
    requires EndedBy(environ[..], n) && ep < n
    modifies environ
    ensures ep' <= n' && n' - ep' < n - ep && EndedBy(environ[..], n')
    ensures Outcome(environ[..], ep', n', name) == old(Outcome(environ[..], ep, n, name))
  {
    assert environ[..][ep] == environ[ep];
    if Defines(environ[ep].value, name) {
      DropEntry(environ, ep, n, name);
      ep', n' := ep, n - 1;
    } else {
      KeepKeepsOutcome(environ[..], ep, n, name);
      ep', n' := ep + 1, n;
    }
  }

  method UnsetEnv(name: Option<string>, environ: array<Cell>) returns (rc: int)
    requires None in environ[..]
    modifies environ
    ensures rc == if Accepted(name) then 0 else -1
    ensures rc == -1 ==> environ[..] == old(environ[..])
    ensures rc == 0 ==> Entries(environ[..]) == Without(Entries(old(environ[..])), name.value) && None in environ[..]
  {
    if name.None? || name.value == "" || '=' in name.value {
      return -1;
    }
    ghost var n := Ends(environ[..]);
    OutcomeEnds(environ[..], n, name.value);
    var ep: nat := 0;
    while environ[ep].Some?
      invariant ep <= n && EndedBy(environ[..], n)
      invariant Outcome(environ[..], ep, n, name.value) == Without(Entries(old(environ[..])), name.value)
      decreases n - ep
    {
      assert environ[..][ep] == environ[ep];
      ep, n := ScanEntry(environ, ep, n, name.value);
    }
    assert environ[..][ep] == environ[ep];
    OutcomeEnds(environ[..], n, name.value);
    assert environ[..][n].None?;
    return 0;
  }

  lemma HeadOf(cells: seq<Cell>, i: nat, n: nat)
    requires EndedBy(cells, n) && i < n
    ensures Entries(cells[i..n]) == [cells[i].value] + Entries(cells[i + 1..n])
  {
    assert cells[i..n][1..] == cells[i + 1..n];
  }

  // ----- unsetenv by compaction -----

  /** The first `dest` cells hold what is kept of the first `env`; from `env` on nothing has changed. */
  ghost predicate Compacting(cells: seq<Cell>, s: seq<Cell>, env: nat, dest: nat, name: string) {
    && |s| == |cells| && dest <= env <= |cells|
    && (forall j :: 0 <= j < dest ==> s[j].Some?) && (forall j :: 0 <= j < env ==> cells[j].Some?)
    && (forall j :: env <= j < |cells| ==> s[j] == cells[j])
    && Entries(s[..dest]) == Without(Entries(cells[..env]), name)
  }

  lemma CompactNext(cells: seq<Cell>, s: seq<Cell>, env: nat, dest: nat, name: string)
    requires Compacting(cells, s, env, dest, name) && env < |cells| && cells[env].Some?
    ensures Defines(cells[env].value, name) ==> Compacting(cells, s, env + 1, dest, name)
    ensures !Defines(cells[env].value, name) ==> Compacting(cells, s[dest := cells[env]], env + 1, dest + 1, name)
  {
    StepWithout(cells, env, name);
    if !Defines(cells[env].value, name) {
      var t := s[dest := cells[env]];
      assert t[..dest + 1] == s[..dest] + [cells[env]] && [cells[env]][1..] == [];
      EntriesOfConcat(s[..dest], [cells[env]]);
    }
  }

  method MyUnsetEnv(name: Option<string>, environ: array<Cell>) returns (rc: int)
    requires None in environ[..]
    modifies environ
    ensures rc == if name.Some? && IsIdentifier(name.value) then 0 else -1
    ensures rc == -1 ==> environ[..] == old(environ[..])
    ensures rc == 0 ==> Entries(environ[..]) == Without(Entries(old(environ[..])), name.value) && None in environ[..]
  {
    var valid := IsValidEnvName(name);
    if name.None? || !valid {
      return -1;
    }
    ghost var cells := environ[..];
    ghost var n := Ends(cells);
    EntriesUpTo(cells, n);
    var env, dest := 0, 0;
    while environ[env].Some?
      invariant dest <= env <= n && Compacting(cells, environ[..], env, dest, name.value)
      decreases n - env
    {
      assert environ[env] == environ[..][env] == cells[env];
      CompactNext(cells, environ[..], env, dest, name.value);
      if Defines(environ[env].value, name.value) {
        env := env + 1;
        continue;
      }
      ghost var before := environ[..];
      environ[dest] := environ[env];
      assert environ[..] == before[dest := cells[env]];
      dest := dest + 1;
      env := env + 1;
    }
    assert environ[env] == environ[..][env] == cells[env];
    ghost var before := environ[..];
    environ[dest] := None;
    assert environ[..] == before[dest := None] && environ[..][dest].None? && environ[..dest] == before[..dest];
    EntriesUpTo(environ[..], dest);
    return 0;
  }

  /** Every name that the second implementation accepts the first accepts too. */
  lemma IdentifierIsPlain(name: string)
    requires IsIdentifier(name)
    ensures IsPlain(name)
  {
    assert forall i :: 0 <= i < |name| ==> IsWord(name[i]) && name[i] != '=';
  }

  /** On a name that both accept, the two leave the same environment. */
  method UnsetsAgree(name: string, a: array<Cell>, b: array<Cell>)
    requires a != b && None in a[..] && a[..] == b[..] && IsIdentifier(name)
    modifies a, b
    ensures Entries(a[..]) == Entries(b[..]) == Without(Entries(old(a[..])), name)
  {
    IdentifierIsPlain(name);
    var _ := UnsetEnv(Some(name), a);
    var _ := MyUnsetEnv(Some(name), b);
  }

  // ----- setenv -----

  /** The string name=value. */
  function Definition(name: string, value: string): string {
    name + "=" + value
  }

  /** putenv: the first definition of the name is replaced, or the string is added at the end. */
  function Put(es: seq<string>, name: string, entry: string): seq<string> {
    if es == [] then [entry]
    else if Defines(es[0], name) then [entry] + es[1..]
    else [es[0]] + Put(es[1..], name, entry)
  }

  lemma DefinitionDefines(name: string, value: string)
    ensures Defines(Definition(name, value), name) && Definition(name, value)[|name| + 1..] == value
  {
    var d := Definition(name, value);
    assert d[..|name|] == name && d[|name|] == '=';
  }

  /** After putenv the name has its new value, and every other name the value it had. */
  lemma {:induction false} PutLooksUp(es: seq<string>, name: string, value: string, other: string)
    requires IsPlain(name) && IsPlain(other)
    ensures Lookup(Put(es, name, Definition(name, value)), other) ==
            if other == name then Some(value) else Lookup(es, other)
    ensures Definitions(Put(es, name, Definition(name, value)), name) ==
            if Definitions(es, name) == 0 then 1 else Definitions(es, name)
  {
    var entry := Definition(name, value);
    DefinitionDefines(name, value);
    if Defines(entry, other) { DefinesOne(entry, name, other); }
    if es == [] {
      assert [entry][1..] == [];
    } else if Defines(es[0], name) {
      assert ([entry] + es[1..])[1..] == es[1..];
      if Defines(es[0], other) { DefinesOne(es[0], name, other); }
    } else {
      PutLooksUp(es[1..], name, value, other);
      var rest := Put(es[1..], name, entry);
      assert ([es[0]] + rest)[1..] == rest;
    }
  }

  /**
   The two setenv implementations answer every lookup alike; the first leaves one definition of the
   name, the second as many as there were, or one.
   */
  lemma SetsAgree(es: seq<string>, name: string, value: string, other: string)
    requires IsPlain(name) && IsPlain(other)
    ensures var d := Definition(name, value);
            && Lookup(Put(Without(es, name), name, d), other) == Lookup(Put(es, name, d), other)
            && Definitions(Put(Without(es, name), name, d), name) == 1
            && Definitions(Put(es, name, d), name) == if Definitions(es, name) == 0 then 1 else Definitions(es, name)
  {
    WithoutLooksUp(es, name, other);
    PutLooksUp(es, name, value, other);
    PutLooksUp(Without(es, name), name, value, other);
  }

  lemma PutNext(cells: seq<Cell>, i: nat, n: nat, name: string, entry: string)
    requires EndedBy(cells, n) && i < n && !Defines(cells[i].value, name)
    ensures Entries(cells[..i]) + Put(Entries(cells[i..n]), name, entry)
         == Entries(cells[..i + 1]) + Put(Entries(cells[i + 1..n]), name, entry)
  {
    HeadOf(cells, i, n);
    var tail := Entries(cells[i + 1..n]);
    assert ([cells[i].value] + tail)[1..] == tail;
    assert cells[..i + 1] == cells[..i] + [cells[i]] && [cells[i]][1..] == [];
    EntriesOfConcat(cells[..i], [cells[i]]);
  }

  /** Storing over the first definition, in the cell where it was found. */
  lemma PutHere(cells: seq<Cell>, i: nat, n: nat, name: string, entry: string)
    requires EndedBy(cells, n) && i < n && Defines(cells[i].value, name)
    ensures Entries(cells[i := Some(entry)]) == Entries(cells[..i]) + Put(Entries(cells[i..n]), name, entry)
  {
    var t := cells[i := Some(entry)];
    assert EndedBy(t, n);
    EntriesUpTo(t, n);
    HeadOf(cells, i, n);
    HeadOf(t, i, n);
    assert t[..n] == t[..i] + t[i..n] && t[..i] == cells[..i] && t[i + 1..n] == cells[i + 1..n];
    EntriesOfConcat(t[..i], t[i..n]);
    var tail := Entries(cells[i + 1..n]);
    assert ([cells[i].value] + tail)[1..] == tail;
  }

  class Environment {
    var environ: array<Cell>

    ghost predicate Valid()
      reads this, environ
    {
      None in environ[..]
    }

    ghost function List(): seq<string>
      reads this, environ
    {
      Entries(environ[..])
    }

    method GetEnv(name: string) returns (value: Option<string>)
      requires Valid()
      ensures value == Lookup(List(), name)
    {
      ghost var n := Ends(environ[..]);
      EntriesUpTo(environ[..], n);
      var i := 0;
      assert environ[0..n] == environ[..n];
      while environ[i].Some?
        invariant i <= n && Lookup(List(), name) == Lookup(Entries(environ[i..n]), name)
        decreases n - i
      {
        HeadOf(environ[..], i, n);
        assert environ[..][i..n] == environ[i..n] && environ[..][i + 1..n] == environ[i + 1..n];
        assert ([environ[i].value] + Entries(environ[i + 1..n]))[1..] == Entries(environ[i + 1..n]);
        if Defines(environ[i].value, name) {
          return Some(environ[i].value[|name| + 1..]);
        }
        i := i + 1;
      }
      return None;
    }

    /**
     What putenv promises: `entry` is a definition of `name`, or it fails and changes nothing. The array may
     be reallocated.
     */
    method PutEnv(name: string, entry: string, ok: bool) returns (rc: int)
      requires Valid()
      modifies this, environ
      ensures Valid() && (environ == old(environ) || fresh(environ))
      ensures rc == 0 <==> ok
      ensures List() == if ok then Put(old(List()), name, entry) else old(List())
    {
      if !ok {
        return 12;
      }
      Define(name, entry);
      return 0;
    }

    method Define(name: string, entry: string)
      requires Valid()
      modifies this, environ
      ensures Valid() && (environ == old(environ) || fresh(environ))
      ensures List() == Put(old(List()), name, entry)
    {
      ghost var n := Ends(environ[..]);
      EntriesUpTo(environ[..], n);
      var i := 0;
      assert environ[..0] == [] && environ[0..n] == environ[..n];
      ghost var cells := environ[..];
      while environ[i].Some? && !Defines(environ[i].value, name)
        invariant i <= n && environ == old(environ) && environ[..] == cells
        invariant Put(Entries(cells), name, entry) == Entries(cells[..i]) + Put(Entries(cells[i..n]), name, entry)
        decreases n - i
      {
        PutNext(cells, i, n, name, entry);
        i := i + 1;
      }
      if environ[i].Some? {
        PutHere(cells, i, n, name, entry);
        environ[i] := Some(entry);
        assert environ[..] == cells[i := Some(entry)];
        assert environ[..][n].None?;
      } else {
        var bigger := new Cell[i + 2] (j => None);
        forall j | 0 <= j < i { bigger[j] := environ[j]; }
        bigger[i] := Some(entry);
        assert bigger[..] == cells[..i] + [Some(entry), None];
        EntriesOfConcat(cells[..i], [Some(entry), None]);
        assert [Some(entry), None][1..] == [None];
        assert cells[i..n] == [];
        environ := bigger;
        assert environ[..][i + 1].None?;
      }
    }

    /**
     tlpi-dist/proc/setenv.c; `ok` is whether malloc succeeds and `putOk` whether putenv does. If either fails
     the old definitions are already gone.
     */
    method SetEnv(name: Option<string>, value: Option<string>, overwrite: bool, ok: bool, putOk: bool) returns (rc: int)
      requires Valid()
      modifies this, environ
      ensures Valid()
      ensures !Accepted(name) || value.None? ==> rc == -1 && List() == old(List())
      ensures Accepted(name) && value.Some? ==>
                if Lookup(old(List()), name.value).Some? && !overwrite then rc == 0 && List() == old(List())
                else if !ok || !putOk then rc == -1 && List() == Without(old(List()), name.value)
                else rc == 0 && List() == Put(Without(old(List()), name.value), name.value,
                    Definition(name.value, value.value))
    {
      if name.None? || name.value == "" || '=' in name.value || value.None? {
        return -1;
      }
      var current := GetEnv(name.value);
      if current.Some? && !overwrite {
        return 0;
      }
      var _ := UnsetEnv(name, environ);
      if !ok {
        return -1;
      }
      rc := PutEnv(name.value, Definition(name.value, value.value), putOk);
      return if rc != 0 then -1 else 0;
    }

    /** ch06/3_env.c. A failing malloc or putenv leaves the environment as it was. */
    method MySetEnv(name: Option<string>, value: Option<string>, overwrite: bool, ok: bool, putOk: bool)
      returns (rc: int)
      requires Valid()
      modifies this, environ
      ensures Valid()
      ensures name.None? || value.None? || !IsIdentifier(name.value) ==> rc == -1 && List() == old(List())
      ensures name.Some? && value.Some? && IsIdentifier(name.value) ==>
                if Lookup(old(List()), name.value).Some? && !overwrite then rc == 0 && List() == old(List())
                else if !ok || !putOk then rc == -1 && List() == old(List())
                else rc == 0 && List() == Put(old(List()), name.value, Definition(name.value, value.value))
    {
      var valid := IsValidEnvName(name);
      if name.None? || value.None? || !valid {
        return -1;
      }
      var current := GetEnv(name.value);
      if current.Some? && !overwrite {
        return 0;
      }
      if !ok {
        return -1;
      }
      rc := PutEnv(name.value, Definition(name.value, value.value), putOk);
      return if rc != 0 then -1 else 0;
    }
  }
}
