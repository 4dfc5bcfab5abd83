/**
 ch13/5_tail.c: the file is read backwards in blocks until enough newlines have been seen, then
 printed from there. Reads of a regular file return what was asked for.
 */
module Tail {

  function Newlines(s: string): nat {
    if s == "" then 0 else (if s[|s| - 1] == '\n' then 1 else 0) + Newlines(s[..|s| - 1])
  }

  lemma {:induction false} NewlinesOfConcat(a: string, b: string)
    ensures Newlines(a + b) == Newlines(a) + Newlines(b)
    decreases |b|
  {
    if b == "" {
      assert a + b == a;
    } else {
      assert (a + b)[..|a + b| - 1] == a + b[..|b| - 1];
      NewlinesOfConcat(a, b[..|b| - 1]);
    }
  }

  lemma NewlinesFrom(s: string, i: nat)
    requires i < |s|
    ensures Newlines(s[i..]) == (if s[i] == '\n' then 1 else 0) + Newlines(s[i + 1..])
  {
    assert s[i..] == [s[i]] + s[i + 1..];
    assert Newlines([s[i]]) == (if s[i] == '\n' then 1 else 0) + Newlines("");
    NewlinesOfConcat([s[i]], s[i + 1..]);
  }

  // ----- The program -----

  /** read at offset pos: n bytes of the file go to the front of the buffer. */
  method ReadAt(file: string, pos: nat, n: nat, buffer: array<char>)
    requires pos + n <= |file| && n <= buffer.Length
    modifies buffer
    ensures buffer[..n] == file[pos..pos + n]
  {
    for i := 0 to n
      invariant buffer[..i] == file[pos..pos + i]
    {
      buffer[i] := file[pos + i];
    }
  }

  /** Just after the (n+1)-th newline from the end, or at 0 if there are not that many; at the end for n < 0. */
  ghost predicate IsTailStart(file: string, n: int, pos: int) {
    && 0 <= pos <= |file|
    && if n < 0 then pos == |file|
       else if Newlines(file) <= n then pos == 0
       else pos > 0 && file[pos - 1] == '\n' && Newlines(file[pos..]) == n
  }

  /** The tail starts after the newline that has n newlines behind it. */
  lemma StartsAfter(file: string, n: nat, i: nat)
    requires i < |file| && file[i] == '\n' && Newlines(file[i + 1..]) == n
    ensures IsTailStart(file, n, i + 1)
  {
    NewlinesFrom(file, i);
    assert file == file[..i] + file[i..];
    NewlinesOfConcat(file[..i], file[i..]);
  }

  /**
   The inner loop: the block in the buffer is scanned from its end. `found` is the offset just after
   the newline that is one too many, or -1; `count` is the newlines seen so far, in later blocks too.
   */
  method ScanBlock(file: string, pos: nat, len: nat, buffer: array<char>, before: int, n: int)
    returns (found: int, count: int)
    requires 0 <= n && len <= buffer.Length && pos + len <= |file| && buffer[..len] == file[pos..pos + len]
    requires before == Newlines(file[pos + len..]) && before <= n
    ensures found == -1 ==> count == Newlines(file[pos..]) && count <= n
    ensures found != -1 ==> 1 <= found <= len && count == n + 1 && IsTailStart(file, n, pos + found)
  {
    found, count := -1, before;
    var i := len - 1;
    while i >= 0
      invariant -1 <= i < len && found == -1
      invariant count == Newlines(file[pos + i + 1..]) && count <= n
      decreases i
    {
      assert buffer[i] == buffer[..len][i] == file[pos + i];
      NewlinesFrom(file, pos + i);
      if buffer[i] == '\n' {
        count := count + 1;
        if count > n {
          found := i + 1;
          StartsAfter(file, n, pos + i);
          return;
        }
      }
      i := i - 1;
    }
  }

  /** The backward search, whatever the block size. */
  method FindStart(file: string, n: int, buffer: array<char>) returns (pos: nat)
    requires buffer.Length > 0
    modifies buffer
    ensures IsTailStart(file, n, pos)
  {
    pos := |file|;
    var count := 0;
    assert file[pos..] == "";
    while pos > 0 && count <= n
      invariant pos <= |file|
      invariant count <= n && 0 <= n ==> count == Newlines(file[pos..])
      invariant n < 0 ==> pos == |file| && count == 0
      invariant 0 <= n < count ==> IsTailStart(file, n, pos)
      decreases if count <= n then 1 else 0, pos
    {
      var toRead := if pos > buffer.Length then buffer.Length else pos;
      pos := pos - toRead;
      ReadAt(file, pos, toRead, buffer);
      var found;
      found, count := ScanBlock(file, pos, toRead, buffer, count, n);
      if found != -1 {
        pos := pos + found;
      }
    }
    assert file[0..] == file;
  }

  /** The whole of tail: what is written is the file from the start position on. */
  method Tail(file: string, n: int, bufferSize: nat) returns (out: string, pos: nat)
    requires bufferSize > 0
    ensures IsTailStart(file, n, pos) && out == file[pos..]
  {
    var buffer := new char[bufferSize];
    pos := FindStart(file, n, buffer);
    out := "";
    var offset := pos;
    while offset < |file|
      invariant pos <= offset <= |file| && out == file[pos..offset]
    {
      var len := if |file| - offset > bufferSize then bufferSize else |file| - offset;
      ReadAt(file, offset, len, buffer);
      assert file[pos..offset + len] == file[pos..offset] + file[offset..offset + len];
      out := out + buffer[..len];
      offset := offset + len;
    }
  }

  lemma TailStartIsUnique(file: string, n: int, p: int, q: int)
    requires IsTailStart(file, n, p) && IsTailStart(file, n, q)
    ensures p == q
  {
    if 0 <= n < Newlines(file) {
      if p < q { StartIsLeftmost(file, p, q); }
      if q < p { StartIsLeftmost(file, q, p); }
    }
  }

  /** A later start that follows a newline leaves fewer newlines. */
  lemma StartIsLeftmost(file: string, p: int, q: int)
    requires 0 <= p < q <= |file| && file[q - 1] == '\n'
    ensures Newlines(file[p..]) > Newlines(file[q..])
  {
    assert file[p..] == file[p..q - 1] + file[q - 1..];
    NewlinesOfConcat(file[p..q - 1], file[q - 1..]);
    NewlinesFrom(file, q - 1);
  }

  // ----- Lines -----

  function FirstLineLength(s: string): (k: nat)
    requires s != ""
    ensures 0 < k <= |s|
    ensures forall i :: 0 <= i < k - 1 ==> s[i] != '\n'
    ensures k < |s| ==> s[k - 1] == '\n'
  {
    if s[0] == '\n' || |s| == 1 then 1 else 1 + FirstLineLength(s[1..])
  }

  /** The lines of a text, each with its newline; the last one may lack it. */
  function Lines(s: string): seq<string>
    decreases |s|
  {
    if s == "" then [] else [s[..FirstLineLength(s)]] + Lines(s[FirstLineLength(s)..])
  }

  function Concat(ls: seq<string>): string {
    if ls == [] then "" else ls[0] + Concat(ls[1..])
  }

  function LastLines(s: string, n: nat): string {
    var ls := Lines(s);
    Concat(ls[if |ls| <= n then 0 else |ls| - n..])
  }

  predicate Terminated(s: string) {
    s == "" || s[|s| - 1] == '\n'
  }

  lemma {:induction false} ConcatLines(s: string)
    ensures Concat(Lines(s)) == s
    decreases |s|
  {
    if s == "" {
    } else {
      var k := FirstLineLength(s);
      var rest := Lines(s[k..]);
      ConcatLines(s[k..]);
      assert Lines(s) == [s[..k]] + rest && ([s[..k]] + rest)[1..] == rest;
    }
  }

  /** A text of complete lines followed by more text is split at the seam. */
  lemma {:induction false} LinesOfConcat(a: string, b: string)
    requires Terminated(a)
    ensures Lines(a + b) == Lines(a) + Lines(b)
    decreases |a|
  {
    if a == "" {
      assert a + b == b;
    } else {
      var k := FirstLineLength(a);
      FirstLineAlone(a, b);
      assert (a + b)[..k] == a[..k] && (a + b)[k..] == a[k..] + b;
      LinesOfConcat(a[k..], b);
    }
  }

  lemma FirstLineAlone(a: string, b: string)
    requires a != "" && Terminated(a)
    ensures FirstLineLength(a + b) == FirstLineLength(a)
  {
    var k, m := FirstLineLength(a), FirstLineLength(a + b);
    assert a[k - 1] == '\n' == (a + b)[k - 1];
    assert forall i :: 0 <= i < |a| ==> (a + b)[i] == a[i];
  }

  lemma {:induction false} LineCount(s: string)
    ensures |Lines(s)| == Newlines(s) + if Terminated(s) then 0 else 1
    decreases |s|
  {
    if s == "" {
    } else {
      var k := FirstLineLength(s);
      assert s == s[..k] + s[k..];
      NewlinesOfConcat(s[..k], s[k..]);
      OneLine(s[..k]);
      LineCount(s[k..]);
      assert k < |s| ==> (Terminated(s[k..]) <==> Terminated(s));
    }
  }

  lemma {:induction false} NoNewlines(s: string)
    requires forall i :: 0 <= i < |s| ==> s[i] != '\n'
    ensures Newlines(s) == 0
  {
    if s == "" {
    } else {
      NoNewlines(s[..|s| - 1]);
    }
  }

  lemma OneLine(s: string)
    requires s != "" && forall i :: 0 <= i < |s| - 1 ==> s[i] != '\n'
    ensures Newlines(s) == if Terminated(s) then 1 else 0
  {
    NoNewlines(s[..|s| - 1]);
  }

  lemma LastOfSplit(file: string, a: string, b: string, m: nat)
    requires Lines(file) == Lines(a) + Lines(b) && (m == |Lines(b)| || (a == "" && m >= |Lines(b)|))
    ensures LastLines(file, m) == b
  {
    ConcatLines(b);
    var ls, lb := Lines(file), Lines(b);
    assert ls[|ls| - |lb|..] == lb;
  }

  lemma LastOfFewer(file: string, a: string, b: string, m: nat)
    requires Lines(file) == Lines(a) + Lines(b) && m + 1 == |Lines(b)|
    ensures |LastLines(file, m)| < |b|
  {
    ConcatLines(b);
    var ls, lb := Lines(file), Lines(b);
    assert ls[|ls| - m..] == lb[1..];
    assert |lb[0]| > 0;
  }

  /** The number of lines that tail prints. */
  lemma LinesPrinted(file: string, n: nat, pos: nat)
    requires IsTailStart(file, n, pos)
    ensures Lines(file) == Lines(file[..pos]) + Lines(file[pos..])
    ensures Terminated(file) || n > Newlines(file) ==>
              |Lines(file[pos..])| == n || (pos == 0 && |Lines(file[pos..])| <= n)
    ensures !(Terminated(file) || n > Newlines(file)) ==> |Lines(file[pos..])| == n + 1
  {
    var a, b := file[..pos], file[pos..];
    assert file == a + b;
    LinesOfConcat(a, b);
    LineCount(b);
    if pos == 0 {
      assert b == file;
    } else {
      assert Terminated(b) <==> Terminated(file);
    }
  }

  /**
   What tail prints is the last n lines exactly when the file ends with a newline or has fewer
   than n complete lines; otherwise it prints one line too many.
   */
  lemma TailIsLastLines(file: string, n: nat, pos: nat)
    requires IsTailStart(file, n, pos)
    ensures file[pos..] == LastLines(file, n) <==> Terminated(file) || n > Newlines(file)
    ensures !(Terminated(file) || n > Newlines(file)) ==> file[pos..] == LastLines(file, n + 1)
  {
    LinesPrinted(file, n, pos);
    if Terminated(file) || n > Newlines(file) {
      LastOfSplit(file, file[..pos], file[pos..], n);
    } else {
      LastOfFewer(file, file[..pos], file[pos..], n);
      LastOfSplit(file, file[..pos], file[pos..], n + 1);
    }
  }

  lemma LinesOfExample()
    ensures Newlines("a\nb") == 1 && LastLines("a\nb", 1) == "b"
  {
    assert Newlines("a\nb") == 1 by {
      assert "a\nb" == "a\n" + "b";
      NewlinesOfConcat("a\n", "b");
      OneLine("a\n");
      OneLine("b");
    }
    assert Lines("b") == ["b"] by {
      assert "b"[..1] == "b" && "b"[1..] == "";
    }
    assert Lines("a\n") == ["a\n"] by {
      assert FirstLineLength("a\n") == 2 && "a\n"[..2] == "a\n" && "a\n"[2..] == "";
    }
    LinesOfConcat("a\n", "b");
    assert "a\n" + "b" == "a\nb";
    LastOfSplit("a\nb", "a\n", "b", 1);
  }

  /** One line is asked for of a file whose last line has no newline, and two are printed. */
  method OneLineTooMany() returns (out: string)
    ensures out == "a\nb" && LastLines("a\nb", 1) == "b"
  {
    LinesOfExample();
    var pos;
    out, pos := Tail("a\nb", 1, 4096);
    assert pos == 0 && "a\nb"[0..] == "a\nb";
  }
}
