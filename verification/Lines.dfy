/** Lines, words and occurrences, as Python's string methods find them. */
module Lines {
  import opened Sequences
  import opened Wrappers
  import opened Text

  /** The characters `splitlines` ends a line at. */
  predicate IsBreak(c: char) {
    var n := c as int;
    10 <= n <= 13 || 28 <= n <= 30 || n == 133 || n == 8232 || n == 8233
  }

  /** The characters `split()` and `strip()` take for white space. */
  predicate IsSpace(c: char) {
    var n := c as int;
    9 <= n <= 13 || 28 <= n <= 32 || n == 133 || n == 160 || n == 5760 || 8192 <= n <= 8202
    || n == 8232 || n == 8233 || n == 8239 || n == 8287 || n == 12288
  }

  const BREAKS := "\n\U{000B}\U{000C}\r\U{001C}\U{001D}\U{001E}\U{0085}\U{2028}\U{2029}"
  const OTHER_SPACES := "\t\U{001F} \U{00A0}\U{1680}\U{202F}\U{205F}\U{3000}"

  /** Both kinds of characters, one by one: every line end is white space too. */
  lemma CharactersExactly(c: char)
    ensures IsBreak(c) <==> c in BREAKS
    ensures IsSpace(c) <==> c in BREAKS || c in OTHER_SPACES || '\U{2000}' <= c <= '\U{200A}'
  {
  }

  /** No character of a text passes a test. */
  predicate Free(s: string, test: char -> bool) {
    forall i :: 0 <= i < |s| ==> !test(s[i])
  }

  /** `not s.strip()`. */
  predicate Blank(s: string) {
    Free(s, c => !IsSpace(c))
  }

  /** Where the first character that passes a test is, or the length. */
  function FirstIndex(s: string, test: char -> bool): (i: nat)
    ensures i <= |s| && Free(s[..i], test) && (i < |s| ==> test(s[i]))
  {
    if s == "" || test(s[0]) then 0 else 1 + FirstIndex(s[1..], test)
  }

  lemma {:induction false} FirstIndexAt(head: string, tail: string, test: char -> bool)
    requires Free(head, test) && (tail == "" || test(tail[0]))
    ensures FirstIndex(head + tail, test) == |head|
  {
    if head == "" {
      Neutral(tail);
    } else {
      FirstIndexAt(head[1..], tail, test);
      assert (head + tail)[1..] == head[1..] + tail;
    }
  }

  // ---------- lines ----------

  const BREAK: char -> bool := c => IsBreak(c)
  const SPACE: char -> bool := c => IsSpace(c)

  /** `\r\n` is one line end. */
  function Width(s: string, i: nat): (w: nat)
    requires i < |s|
    ensures 1 <= w && i + w <= |s|
  {
    if s[i] == '\r' && i + 1 < |s| && s[i + 1] == '\n' then 2 else 1
  }

  /** `s.splitlines()`. */
  function SplitLines(s: string): (lines: seq<string>)
    ensures forall k :: 0 <= k < |lines| ==> Free(lines[k], BREAK)
    decreases |s|
  {
    if s == "" then []
    else
      var i := FirstIndex(s, BREAK);
      if i == |s| then [s[..i]] else [s[..i]] + SplitLines(s[i + Width(s, i)..])
  }

  /** A line, then any line end that does not run into what follows, then the rest. */
  lemma SplitLinesAt(line: string, c: char, rest: string)
    requires Free(line, BREAK) && IsBreak(c) && !(c == '\r' && rest != "" && rest[0] == '\n')
    ensures SplitLines(line + [c] + rest) == [line] + SplitLines(rest)
  {
    var s := line + [c] + rest;
    Associate(line, [c], rest);
    FirstIndexAt(line, [c] + rest, BREAK);
    assert s[|line|] == c && s[|line| + 1..] == rest && s[..|line|] == line;
    assert rest != "" ==> s[|line| + 1] == rest[0];
  }

  /** A carriage return and a newline end one line together. */
  lemma SplitLinesPair(line: string, rest: string)
    requires Free(line, BREAK)
    ensures SplitLines(line + "\r\n" + rest) == [line] + SplitLines(rest)
  {
    var s := line + "\r\n" + rest;
    Associate(line, "\r\n", rest);
    FirstIndexAt(line, "\r\n" + rest, BREAK);
    assert s[|line|] == '\r' && s[|line| + 1] == '\n' && s[..|line|] == line;
    assert s[|line| + 2..] == rest;
  }

  /** A last line need not be ended. */
  lemma SplitLinesLast(line: string)
    requires Free(line, BREAK)
    ensures SplitLines(line) == if line == "" then [] else [line]
  {
    if line != "" {
      FirstIndexAt(line, "", BREAK);
      Neutral(line);
    }
  }

  /** The first line, whatever ends it. */
  lemma SplitLinesOnce(line: string, more: string)
    requires Free(line, BREAK) && more != "" && IsBreak(more[0])
    ensures SplitLines(line + more) == [line] + SplitLines(more[Width(more, 0)..])
  {
    FirstIndexAt(line, more, BREAK);
    TakeAppend(line, more);
    var w := Width(more, 0);
    assert Width(line + more, |line|) == w;
    DropDrop(line + more, |line|, w);
  }

  /** Splitting what was put together with newlines gives the lines back. */
  lemma {:induction false} SplitLinesJoin(lines: seq<string>)
    requires lines != [] && forall k :: 0 <= k < |lines| ==> Free(lines[k], BREAK)
    ensures SplitLines(Join(lines, "\n") + "\n") == lines
  {
    var rest := if |lines| == 1 then "" else Join(lines[1..], "\n") + "\n";
    assert Join(lines, "\n") + "\n" == lines[0] + "\n" + rest;
    SplitLinesAt(lines[0], '\n', rest);
    if |lines| > 1 {
      SplitLinesJoin(lines[1..]);
    }
    Uncons(lines);
  }

  // ---------- words ----------

  /** `s.split()`: the longest stretches free of white space. */
  function Words(s: string): (words: seq<string>)
    ensures forall k :: 0 <= k < |words| ==> IsWord(words[k])
    decreases |s|
  {
    if s == "" then []
    else if IsSpace(s[0]) then Words(s[1..])
    else
      var i := FirstIndex(s, SPACE);
      [s[..i]] + Words(s[i..])
  }

  predicate IsWord(s: string) {
    s != "" && Free(s, SPACE)
  }

  /** White space before a word, and what comes after it, however much of it there is. */
  lemma {:induction false} WordsApart(gap: string, word: string, rest: string)
    requires Free(gap, c => !IsSpace(c)) && IsWord(word) && (rest == "" || IsSpace(rest[0]))
    ensures Words(gap + word + rest) == [word] + Words(rest)
  {
    var s := gap + word + rest;
    if gap == "" {
      assert s == word + rest && s[0] == word[0] && !SPACE(word[0]);
      FirstIndexAt(word, rest, SPACE);
      TakeAppend(word, rest);
    } else {
      assert s[1..] == gap[1..] + word + rest && s[0] == gap[0];
      WordsApart(gap[1..], word, rest);
    }
  }

  /** A text is blank exactly when there are no words in it. */
  lemma {:induction false} BlankExactly(s: string)
    ensures Blank(s) <==> Words(s) == []
  {
    if s != "" {
      BlankExactly(s[1..]);
      Uncons(s);
    }
  }

  /** Words joined by single blanks come back unchanged. */
  lemma {:induction false} WordsJoin(words: seq<string>)
    requires forall k :: 0 <= k < |words| ==> IsWord(words[k])
    ensures Words(Join(words, " ")) == words
  {
    if words != [] {
      var head := words[0];
      var tail := if |words| == 1 then "" else " " + Join(words[1..], " ");
      var s := Join(words, " ");
      assert s == head + tail;
      assert s[0] == head[0] && !SPACE(head[0]);
      FirstIndexAt(head, tail, SPACE);
      assert s[..|head|] == head && s[|head|..] == tail;
      WordsJoin(words[1..]);
      if |words| > 1 {
        assert Words(tail) == Words(Join(words[1..], " ")) by { Cons(' ', Join(words[1..], " ")); }
      }
      Uncons(words);
    }
  }

  // ---------- occurrences ----------

  /** `s.find(part)`. */
  function Find(s: string, part: string): (at: Option<nat>)
    ensures at.Some? ==> at.value + |part| <= |s| && s[at.value..at.value + |part|] == part
  {
    if part <= s then Some(0)
    else if s == "" then None
    else
      match Find(s[1..], part)
      case None => None
      case Some(i) =>
        DropSlice(s, 1, i, i + |part|);
        Some(i + 1)
  }

  /** The occurrence found is the first one, and one is found if there is any. */
  lemma {:induction false} FindIsFirst(s: string, part: string, i: nat)
    requires i <= |s|
    ensures part <= s[i..] ==> Find(s, part).Some? && Find(s, part).value <= i
  {
    if i > 0 {
      FindIsFirst(s[1..], part, i - 1);
      DropDrop(s, 1, i - 1);
    } else {
      Neutral(s);
    }
  }

  /** Where the first occurrence is, told by where there is one. */
  lemma FindExactly(s: string, part: string, i: nat)
    requires i <= |s|
    ensures Find(s, part) == Some(i) <==> part <= s[i..] && forall j :: 0 <= j < i ==> !(part <= s[j..])
    ensures Find(s, part).None? <==> forall j :: 0 <= j <= |s| ==> !(part <= s[j..])
  {
    forall j | 0 <= j <= |s| && part <= s[j..] ensures Find(s, part).Some? && Find(s, part).value <= j {
      FindIsFirst(s, part, j);
    }
    if Find(s, part).Some? {
      OccursAt(s, part, Find(s, part).value);
    }
  }

  lemma OccursAt(s: string, part: string, i: nat)
    requires i + |part| <= |s| && s[i..i + |part|] == part
    ensures part <= s[i..]
  {
    assert s[i..][..|part|] == s[i..i + |part|];
  }

  /** What follows the first occurrence. */
  function Rest(s: string, part: string): (rest: Option<string>)
    ensures rest.Some? ==> |rest.value| + |part| <= |s|
  {
    match Find(s, part)
    case None => None
    case Some(i) => Some(s[i + |part|..])
  }

  /** `s.count(part)`: occurrences that do not overlap, from the left. */
  function Count(s: string, part: string): nat
    requires part != ""
    decreases |s|
  {
    var rest := Rest(s, part);
    if rest.None? then 0 else 1 + Count(rest.value, part)
  }
}
