/**
 namespaces_of.go, wrapText: words are put on lines greedily. Lengths count characters, which for
 the ASCII text of the program are the bytes that Go counts.
 */
module WrapText {

  type Word = string

  // ----- Words of a text -----

  predicate IsSpace(c: char) {
    c == ' ' || '\t' <= c <= '\r'
  }

  predicate IsWord(w: Word) {
    w != "" && forall i :: 0 <= i < |w| ==> !IsSpace(w[i])
  }

  /** The length of the word at the start of the text. */
  function WordLength(s: string): (k: nat)
    ensures k <= |s|
    ensures forall i :: 0 <= i < k ==> !IsSpace(s[i])
    ensures k < |s| ==> IsSpace(s[k])
  {
    if s == "" || IsSpace(s[0]) then 0 else 1 + WordLength(s[1..])
  }

  /** strings.Fields. */
  function Fields(s: string): (ws: seq<Word>)
    ensures forall i :: 0 <= i < |ws| ==> IsWord(ws[i])
    decreases |s|
  {
    if s == "" then []
    else if IsSpace(s[0]) then Fields(s[1..])
    else [s[..WordLength(s)]] + Fields(s[WordLength(s)..])
  }

  // ----- Layouts -----

  function LineLength(line: seq<Word>): int {
    if line == [] then -1 else LineLength(line[..|line| - 1]) + 1 + |line[|line| - 1]|
  }

  /** A line fits the width, unless it is a single word that is too long by itself. */
  predicate Fits(line: seq<Word>, width: int) {
    |line| == 1 || LineLength(line) <= width
  }

  function Flatten(lines: seq<seq<Word>>): seq<Word> {
    if lines == [] then [] else lines[0] + Flatten(lines[1..])
  }

  ghost predicate IsLayout(lines: seq<seq<Word>>, words: seq<Word>, width: int) {
    && Flatten(lines) == words
    && forall i :: 0 <= i < |lines| ==> lines[i] != [] && Fits(lines[i], width)
  }

  /** How many words the greedy rule puts on the first line, given that the first n are on it. */
  function FirstLine(words: seq<Word>, width: int, n: nat): (k: nat)
    requires 1 <= n <= |words| && Fits(words[..n], width)
    ensures n <= k <= |words| && Fits(words[..k], width)
    ensures k < |words| ==> LineLength(words[..k + 1]) > width
    decreases |words| - n
  {
    if n == |words| || LineLength(words[..n + 1]) > width then n else FirstLine(words, width, n + 1)
  }

  function Greedy(words: seq<Word>, width: int): seq<seq<Word>>
    decreases |words|
  {
    if words == [] then []
    else
      var k := FirstLine(words, width, 1);
      [words[..k]] + Greedy(words[k..], width)
  }

  // ----- The greedy layout is a layout -----

  lemma LayoutOfMore(line: seq<Word>, lines: seq<seq<Word>>, words: seq<Word>, width: int)
    requires line != [] && Fits(line, width) && IsLayout(lines, words, width)
    ensures IsLayout([line] + lines, line + words, width)
  {
    assert ([line] + lines)[1..] == lines;
  }

  lemma {:induction false} GreedyIsLayout(words: seq<Word>, width: int)
    ensures IsLayout(Greedy(words, width), words, width)
    decreases |words|
  {
    if words == [] {
    } else {
      var k := FirstLine(words, width, 1);
      GreedyIsLayout(words[k..], width);
      LayoutOfMore(words[..k], Greedy(words[k..], width), words[k..], width);
      assert words == words[..k] + words[k..];
    }
  }

  // ----- No layout has fewer lines -----

  lemma {:induction false} LongerLine(words: seq<Word>, i: nat, j: nat)
    requires i <= j <= |words|
    ensures LineLength(words[..i]) <= LineLength(words[..j])
            && (i < j ==> LineLength(words[..i]) < LineLength(words[..j]))
    decreases j - i
  {
    if i >= j {
    } else {
      LongerLine(words, i, j - 1);
      assert words[..j][..j - 1] == words[..j - 1];
    }
  }

  /** A line that fits has at most as many words as the greedy first line. */
  lemma FirstLineIsLongest(words: seq<Word>, width: int, j: nat)
    requires 1 <= j <= |words| && Fits(words[..j], width)
    ensures j <= FirstLine(words, width, 1)
  {
    var k := FirstLine(words, width, 1);
    if k < j {
      LongerLine(words, k + 1, j);
    }
  }

  lemma {:induction false} TailOfLine(words: seq<Word>, j: nat)
    requires 2 <= j <= |words|
    ensures LineLength(words[1..][..j - 1]) < LineLength(words[..j])
  {
    var t := words[1..];
    assert words[..j][..j - 1] == words[..j - 1];
    assert t[..j - 1][..j - 2] == t[..j - 2];
    if j == 2 {
      assert words[..1][..0] == [] && t[..0] == [];
    } else {
      TailOfLine(words, j - 1);
    }
  }

  /** Dropping the first word does not shorten the reach of the greedy first line. */
  lemma FirstLineReaches(words: seq<Word>, width: int)
    requires |words| >= 2 && FirstLine(words, width, 1) >= 2
    ensures FirstLine(words[1..], width, 1) + 1 >= FirstLine(words, width, 1)
  {
    var k := FirstLine(words, width, 1);
    TailOfLine(words, k);
    FirstLineIsLongest(words[1..], width, k - 1);
  }

  lemma GreedyLines(words: seq<Word>, width: int)
    requires words != []
    ensures |Greedy(words, width)| == 1 + |Greedy(words[FirstLine(words, width, 1)..], width)|
  {
  }

  /** Fewer words never need more lines. */
  lemma {:induction false} SuffixNeedsNoMore(words: seq<Word>, width: int, i: nat)
    requires i <= |words|
    ensures |Greedy(words[i..], width)| <= |Greedy(words, width)|
    decreases |words|, 1
  {
    if i == 0 {
      assert words[0..] == words;
    } else {
      DropOne(words, width);
      SuffixNeedsNoMore(words[1..], width, i - 1);
      assert words[1..][i - 1..] == words[i..];
    }
  }

  lemma SuffixOfSuffix(words: seq<Word>, k: nat, m: nat)
    requires 1 <= k <= m + 1 <= |words|
    ensures words[k..][m + 1 - k..] == words[1..][m..]
  {
  }

  lemma {:induction false} DropOne(words: seq<Word>, width: int)
    requires words != []
    ensures |Greedy(words[1..], width)| <= |Greedy(words, width)|
    decreases |words|, 0
  {
    var k := FirstLine(words, width, 1);
    GreedyLines(words, width);
    if k >= 2 {
      var m := FirstLine(words[1..], width, 1);
      FirstLineReaches(words, width);
      GreedyLines(words[1..], width);
      SuffixNeedsNoMore(words[k..], width, m + 1 - k);
      SuffixOfSuffix(words, k, m);
    }
  }

  /** No layout of the words has fewer lines than the greedy one. */
  lemma {:induction false} GreedyIsShortest(lines: seq<seq<Word>>, words: seq<Word>, width: int)
    requires IsLayout(lines, words, width)
    ensures |Greedy(words, width)| <= |lines|
    decreases |lines|
  {
    if lines == [] {
    } else {
      var j, rest := |lines[0]|, lines[1..];
      assert words[..j] == lines[0] && words[j..] == Flatten(rest);
      GreedyIsShortest(rest, words[j..], width);
      FirstLineIsLongest(words, width, j);
      var k := FirstLine(words, width, 1);
      SuffixNeedsNoMore(words[j..], width, k - j);
      assert words[j..][k - j..] == words[k..];
    }
  }

  // ----- The text of a layout -----

  function JoinWords(line: seq<Word>): string {
    if line == [] then "" else if |line| == 1 then line[0] else JoinWords(line[..|line| - 1]) + " " + line[|line| - 1]
  }

  function Render(lines: seq<seq<Word>>, indent: string): string {
    if lines == [] then ""
    else if |lines| == 1 then indent + JoinWords(lines[0])
    else Render(lines[..|lines| - 1], indent) + "\n" + (indent + JoinWords(lines[|lines| - 1]))
  }

  /** A fitting prefix of the words is a prefix of the greedy first line; where it ends is decided by the next word. */
  lemma GreedyCut(cur: seq<Word>, rest: seq<Word>, width: int)
    requires cur != [] && Fits(cur, width) && (rest != [] ==> LineLength(cur + [rest[0]]) > width)
    ensures Greedy(cur + rest, width) == [cur] + Greedy(rest, width)
  {
    var words := cur + rest;
    assert words[..|cur|] == cur && words[|cur|..] == rest;
    FirstLineIsLongest(words, width, |cur|);
    var k := FirstLine(words, width, 1);
    if k > |cur| {
      assert words[..|cur| + 1] == cur + [rest[0]];
      LongerLine(words, |cur| + 1, k);
    }
  }

  lemma RenderMore(lines: seq<seq<Word>>, cur: seq<Word>, word: Word, indent: string)
    requires cur != []
    ensures Render(lines + [cur + [word]], indent) == Render(lines + [cur], indent) + " " + word
    ensures Render(lines + [cur] + [[word]], indent) == Render(lines + [cur], indent) + "\n" + indent + word
  {
    var more := cur + [word];
    assert more[..|more| - 1] == cur;
    assert (lines + [cur])[..|lines|] == lines == (lines + [more])[..|lines|];
    assert (lines + [cur] + [[word]])[..|lines| + 1] == lines + [cur];
  }

  /** After i words: complete lines, the current line, and what is still to be laid out. */
  ghost predicate Wrapping(words: seq<Word>, width: int, indent: string, i: nat,
                           lines: seq<seq<Word>>, cur: seq<Word>, result: string, column: int) {
    && i <= |words| && cur != [] && Fits(cur, width) && column == LineLength(cur)
    && result == Render(lines + [cur], indent)
    && Greedy(words, width) == lines + Greedy(cur + words[i..], width)
  }

  lemma LineOfOne(word: Word)
    ensures LineLength([word]) == |word|
  {
    assert [word][..0] == [];
  }

  lemma LineAndWord(cur: seq<Word>, word: Word)
    ensures LineLength(cur + [word]) == LineLength(cur) + 1 + |word|
  {
    assert (cur + [word])[..|cur|] == cur;
  }

  lemma StartsWrapping(words: seq<Word>, width: int, indent: string)
    requires words != []
    ensures Wrapping(words, width, indent, 1, [], [words[0]], indent + words[0], |words[0]|)
  {
    LineOfOne(words[0]);
    assert [] + [[words[0]]] == [[words[0]]] && [words[0]] + words[1..] == words;
  }

  lemma BreaksGreedy(whole: seq<seq<Word>>, lines: seq<seq<Word>>, cur: seq<Word>, rest: seq<Word>, width: int)
    requires cur != [] && rest != [] && Fits(cur, width) && LineLength(cur + [rest[0]]) > width
    requires whole == lines + Greedy(cur + rest, width)
    ensures whole == lines + [cur] + Greedy(rest, width)
  {
    GreedyCut(cur, rest, width);
    var g := Greedy(rest, width);
    assert lines + ([cur] + g) == lines + [cur] + g;
  }

  lemma BreaksLine(words: seq<Word>, width: int, indent: string, i: nat,
                   lines: seq<seq<Word>>, cur: seq<Word>, result: string, column: int)
    requires Wrapping(words, width, indent, i, lines, cur, result, column) && i < |words|
    requires column + |words[i]| + 1 > width
    ensures Wrapping(words, width, indent, i + 1, lines + [cur], [words[i]], result + "\n" + indent + words[i],
            |words[i]|)
  {
    LineOfOne(words[i]);
    LineAndWord(cur, words[i]);
    RenderMore(lines, cur, words[i], indent);
    BreaksGreedy(Greedy(words, width), lines, cur, words[i..], width);
    assert words[i..] == [words[i]] + words[i + 1..];
  }

  lemma ExtendsLine(words: seq<Word>, width: int, indent: string, i: nat,
                    lines: seq<seq<Word>>, cur: seq<Word>, result: string, column: int)
    requires Wrapping(words, width, indent, i, lines, cur, result, column) && i < |words|
    requires column + |words[i]| + 1 <= width
    ensures Wrapping(words, width, indent, i + 1, lines, cur + [words[i]], result + " " + words[i],
            column + 1 + |words[i]|)
  {
    LineAndWord(cur, words[i]);
    RenderMore(lines, cur, words[i], indent);
    assert cur + words[i..] == cur + [words[i]] + words[i + 1..];
  }

  lemma EndsWrapping(words: seq<Word>, width: int, indent: string,
                     lines: seq<seq<Word>>, cur: seq<Word>, result: string, column: int)
    requires Wrapping(words, width, indent, |words|, lines, cur, result, column)
    ensures result == Render(Greedy(words, width), indent)
  {
    GreedyCut(cur, [], width);
    assert words[|words|..] == [] && [cur] + [] == [cur];
  }

  // ----- The lines of the text -----

  /** The text split at its newlines. */
  function Lines(s: string): (ls: seq<string>)
    ensures ls != []
  {
    if s == "" then [""]
    else if s[0] == '\n' then [""] + Lines(s[1..])
    else
      var rest := Lines(s[1..]);
      [[s[0]] + rest[0]] + rest[1..]
  }

  lemma {:induction false} LinesOfOne(s: string)
    requires '\n' !in s
    ensures Lines(s) == [s]
  {
    if s == "" {
    } else {
      LinesOfOne(s[1..]);
      assert [s[0]] + s[1..] == s;
    }
  }

  lemma {:induction false} LinesAtNewline(a: string, b: string)
    ensures Lines(a + "\n" + b) == Lines(a) + Lines(b)
  {
    var s := a + "\n" + b;
    if a == "" {
      assert s[1..] == b;
    } else {
      assert s[1..] == a[1..] + "\n" + b;
      LinesAtNewline(a[1..], b);
    }
  }

  lemma {:induction false} NoNewlineInLine(line: seq<Word>)
    requires AllWords(line)
    ensures '\n' !in JoinWords(line)
  {
    if |line| <= 1 {
    } else {
      NoNewlineInLine(line[..|line| - 1]);
    }
  }

  lemma WordsOfConcat(a: seq<Word>, b: seq<Word>)
    requires AllWords(a + b)
    ensures AllWords(a) && AllWords(b)
  {
    assert forall i :: 0 <= i < |a| ==> a[i] == (a + b)[i];
    assert forall i :: 0 <= i < |b| ==> b[i] == (a + b)[|a| + i];
  }

  /** The words of all lines but the last, and those of the last. */
  lemma WordsOfParts(lines: seq<seq<Word>>)
    requires lines != [] && AllWords(Flatten(lines))
    ensures AllWords(Flatten(lines[..|lines| - 1])) && AllWords(lines[|lines| - 1])
  {
    FlattenLast(lines);
    WordsOfConcat(Flatten(lines[..|lines| - 1]), lines[|lines| - 1]);
  }

  function Printed(lines: seq<seq<Word>>, indent: string): seq<string> {
    if lines == [] then [] else Printed(lines[..|lines| - 1], indent) + [indent + JoinWords(lines[|lines| - 1])]
  }

  lemma {:induction false} PrintedAt(lines: seq<seq<Word>>, indent: string, i: nat)
    requires i < |lines|
    ensures |Printed(lines, indent)| == |lines| && Printed(lines, indent)[i] == indent + JoinWords(lines[i])
  {
    if |lines| == 1 {
    } else {
      PrintedAt(lines[..|lines| - 1], indent, if i < |lines| - 1 then i else 0);
    }
  }

  /** The printed lines of a layout are its lines, each after the indent. */
  lemma {:induction false} LinesOfRender(lines: seq<seq<Word>>, indent: string)
    requires lines != [] && AllWords(Flatten(lines)) && '\n' !in indent
    ensures Lines(Render(lines, indent)) == Printed(lines, indent)
  {
    var init, last := lines[..|lines| - 1], lines[|lines| - 1];
    WordsOfParts(lines);
    NoNewlineInLine(last);
    LinesOfOne(indent + JoinWords(last));
    if |lines| == 1 {
      assert Printed(init, indent) == [];
    } else {
      LinesOfRender(init, indent);
      LinesAtNewline(Render(init, indent), indent + JoinWords(last));
    }
  }

  /** The length by which lines are measured is the length of what is printed. */
  lemma {:induction false} LineLengthIsPrinted(line: seq<Word>)
    requires line != []
    ensures LineLength(line) == |JoinWords(line)|
  {
    if |line| == 1 {
      LineOfOne(line[0]);
      assert line == [line[0]];
    } else {
      LineLengthIsPrinted(line[..|line| - 1]);
    }
  }

  /** A printed line: the indent, and then at most `width` characters or a single word. */
  predicate PrintedWell(printed: string, width: int, indent: string) {
    indent <= printed && (|printed| - |indent| <= width || IsWord(printed[|indent|..]))
  }

  /** No layout of the words in lines of that width has fewer lines than the text that is printed. */
  ghost predicate Shortest(printed: seq<string>, words: seq<Word>, width: int) {
    forall lines :: IsLayout(lines, words, width) ==> |printed| <= |lines|
  }

  lemma {:induction false} LineOfLayout(lines: seq<seq<Word>>, i: nat)
    requires i < |lines| && AllWords(Flatten(lines))
    ensures AllWords(lines[i])
  {
    var rest := Flatten(lines[1..]);
    if i == 0 {
      assert forall j :: 0 <= j < |lines[0]| ==> lines[0][j] == Flatten(lines)[j];
    } else {
      assert forall j :: 0 <= j < |rest| ==> rest[j] == Flatten(lines)[|lines[0]| + j];
      LineOfLayout(lines[1..], i - 1);
    }
  }

  /** What holds of the greedy layout holds of the printed text. */
  lemma PrintedIsGreedy(words: seq<Word>, width: int, indent: string)
    requires words != [] && AllWords(words) && '\n' !in indent
    ensures var printed := Lines(Render(Greedy(words, width), indent));
            && |printed| == |Greedy(words, width)| && Shortest(printed, words, width)
            && forall i :: 0 <= i < |printed| ==> PrintedWell(printed[i], width, indent)
  {
    var lines := Greedy(words, width);
    var printed := Lines(Render(lines, indent));
    GreedyIsLayout(words, width);
    LinesOfRender(lines, indent);
    PrintedAt(lines, indent, 0);
    forall i | 0 <= i < |printed| ensures PrintedWell(printed[i], width, indent) {
      LineOfLayout(lines, i);
      LineLengthIsPrinted(lines[i]);
      PrintedAt(lines, indent, i);
      assert printed[i][|indent|..] == JoinWords(lines[i]);
    }
    forall ls | IsLayout(ls, words, width) ensures |printed| <= |ls| { GreedyIsShortest(ls, words, width); }
  }

  /**
   wrapText returns the text of the greedy layout, and nothing for a text without words. Its lines fit the
   width or are single words, and there are no more of them than needed.
   */
  method Wrap(text: string, width: int, indent: string) returns (result: string)
    ensures result == Render(Greedy(Fields(text), width), indent)
    ensures Fields(text) == [] ==> result == ""
    ensures Fields(text) != [] && '\n' !in indent ==>
              && Shortest(Lines(result), Fields(text), width)
              && forall i :: 0 <= i < |Lines(result)| ==> PrintedWell(Lines(result)[i], width, indent)
  {
    var words := Fields(text);
    if |words| == 0 {
      return "";
    }
    result := WrapWords(words, width, indent);
    if '\n' !in indent {
      PrintedIsGreedy(words, width, indent);
    }
  }

  /** The loop over the words. */
  method WrapWords(words: seq<Word>, width: int, indent: string) returns (result: string)
    requires words != []
    ensures result == Render(Greedy(words, width), indent)
  {
    result := indent + words[0];
    var column := |words[0]|;
    ghost var lines, cur := [], [words[0]];
    StartsWrapping(words, width, indent);
    for i := 1 to |words|
      invariant Wrapping(words, width, indent, i, lines, cur, result, column)
    {
      var word := words[i];
      if column + |word| + 1 > width {
        BreaksLine(words, width, indent, i, lines, cur, result, column);
        result := result + "\n" + indent + word;
        column := |word|;
        lines, cur := lines + [cur], [word];
      } else {
        ExtendsLine(words, width, indent, i, lines, cur, result, column);
        result := result + " " + word;
        column := column + 1 + |word|;
        cur := cur + [word];
      }
    }
    EndsWrapping(words, width, indent, lines, cur, result, column);
  }

  // ----- Wrapping keeps the words -----

  lemma WordOfConcat(a: string, c: char, b: string)
    requires IsSpace(c)
    ensures WordLength(a + [c] + b) == WordLength(a)
  {
    var s, k := a + [c] + b, WordLength(a);
    assert forall i :: 0 <= i < |a| ==> s[i] == a[i];
    assert s[|a|] == c;
  }

  /** A space separates the words on its two sides. */
  lemma {:induction false} FieldsAtSpace(a: string, c: char, b: string)
    requires IsSpace(c)
    ensures Fields(a + [c] + b) == Fields(a) + Fields(b)
    decreases |a|
  {
    var s := a + [c] + b;
    if a == "" {
      assert s[1..] == b;
    } else if IsSpace(a[0]) {
      assert s[1..] == a[1..] + [c] + b;
      FieldsAtSpace(a[1..], c, b);
    } else {
      var k := WordLength(a);
      WordOfConcat(a, c, b);
      FieldsAtSpace(a[k..], c, b);
      assert s[..k] == a[..k] && s[k..] == a[k..] + [c] + b;
      assert Fields(s) == [a[..k]] + (Fields(a[k..]) + Fields(b));
    }
  }

  predicate Blank(indent: string) {
    forall i :: 0 <= i < |indent| ==> IsSpace(indent[i])
  }

  lemma {:induction false} FieldsAfterBlank(indent: string, s: string)
    requires Blank(indent)
    ensures Fields(indent + s) == Fields(s)
  {
    if indent == "" {
      assert indent + s == s;
    } else {
      assert (indent + s)[1..] == indent[1..] + s;
      FieldsAfterBlank(indent[1..], s);
    }
  }

  lemma FieldsOfWord(w: Word)
    requires IsWord(w)
    ensures Fields(w) == [w]
  {
    assert WordLength(w) == |w| && w[..|w|] == w && w[|w|..] == "";
  }

  /** The words are what the white space of ASCII separates; with FieldsAtSpace this determines them. */
  lemma FieldsOfParts(a: string, c: char, b: string, w: Word)
    requires c in [' ', '\t', '\n', '\U{B}', '\U{C}', '\r']
    requires w != "" && forall i :: 0 <= i < |w| ==> w[i] !in [' ', '\t', '\n', '\U{B}', '\U{C}', '\r']
    ensures Fields("") == [] && Fields(w) == [w] && Fields(a + [c] + b) == Fields(a) + Fields(b)
  {
    FieldsOfWord(w);
    FieldsAtSpace(a, c, b);
  }

  /** No line but the last could take the next word as well. */
  lemma {:induction false} GreedyIsTight(words: seq<Word>, width: int, i: nat)
    requires i + 1 < |Greedy(words, width)|
    ensures var lines := Greedy(words, width);
            lines[i + 1] != [] && LineLength(lines[i] + [lines[i + 1][0]]) > width
    decreases i
  {
    var k := FirstLine(words, width, 1);
    var rest := Greedy(words[k..], width);
    assert Greedy(words, width) == [words[..k]] + rest;
    if i == 0 {
      assert rest[0][0] == words[k..][0] == words[k] && words[..k + 1] == words[..k] + [words[k]];
    } else {
      GreedyIsTight(words[k..], width, i - 1);
    }
  }

  /** Words are printed with one blank between them. */
  lemma {:induction false} JoinOfConcat(a: seq<Word>, b: seq<Word>)
    requires a != [] && b != []
    ensures JoinWords([a[0]]) == a[0] && JoinWords(a + b) == JoinWords(a) + " " + JoinWords(b)
    decreases |b|
  {
    var line := a + b;
    if |b| == 1 {
      assert line[..|line| - 1] == a;
    } else {
      assert line[..|line| - 1] == a + b[..|b| - 1];
      JoinOfConcat(a, b[..|b| - 1]);
    }
  }

  ghost predicate AllWords(words: seq<Word>) {
    forall i :: 0 <= i < |words| ==> IsWord(words[i])
  }

  lemma {:induction false} FieldsOfLine(line: seq<Word>)
    requires AllWords(line)
    ensures Fields(JoinWords(line)) == line
  {
    if |line| == 1 {
      FieldsOfWord(line[0]);
    } else if |line| > 1 {
      var init, last := line[..|line| - 1], line[|line| - 1];
      FieldsOfLine(init);
      FieldsOfWord(last);
      FieldsAtSpace(JoinWords(init), ' ', last);
    }
  }

  lemma {:induction false} FlattenLast(lines: seq<seq<Word>>)
    requires lines != []
    ensures Flatten(lines) == Flatten(lines[..|lines| - 1]) + lines[|lines| - 1]
  {
    if |lines| <= 1 {
    } else {
      assert lines[1..][..|lines| - 2] == lines[..|lines| - 1][1..];
      FlattenLast(lines[1..]);
    }
  }

  lemma {:induction false} FieldsOfRender(lines: seq<seq<Word>>, indent: string)
    requires Blank(indent) && AllWords(Flatten(lines))
    ensures Fields(Render(lines, indent)) == Flatten(lines)
  {
    if lines == [] {
    } else {
      var init, last := lines[..|lines| - 1], lines[|lines| - 1];
      FlattenLast(lines);
      WordsOfParts(lines);
      FieldsOfLine(last);
      FieldsAfterBlank(indent, JoinWords(last));
      if |lines| > 1 {
        FieldsOfRender(init, indent);
        FieldsAtSpace(Render(init, indent), '\n', indent + JoinWords(last));
      }
    }
  }

  /** With a blank indent the wrapped text has the same words, so that wrapping it again changes nothing. */
  lemma WrapKeepsWords(text: string, width: int, indent: string)
    requires Blank(indent)
    ensures var wrapped := Render(Greedy(Fields(text), width), indent);
            && Fields(wrapped) == Fields(text)
            && Render(Greedy(Fields(wrapped), width), indent) == wrapped
  {
    GreedyIsLayout(Fields(text), width);
    FieldsOfRender(Greedy(Fields(text), width), indent);
  }
}
