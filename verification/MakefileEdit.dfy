/** The check that a Makefile only gained a marked block and its targets. */
module MakefileEdit {
  import opened Sequences
  import opened Wrappers
  import opened Text
  import opened Lines
  import opened Ordering

  /** The block's marker, how the declaration of phony targets starts, and the new targets. */
  datatype Rules = Rules(marker: string, header: string, targets: seq<string>)

  const P11R := Rules(
    "\n# P11R current-main CI alignment\n",
    ".PHONY: ",
    ["p11-ci", "ci", "p11r-test", "p11r-compose-smoke", "p11r-check", "evidence-p11r"])

  predicate Proper(rules: Rules) {
    rules.marker != "" && Distinct(rules.targets)
  }

  lemma P11RIsProper()
    ensures Proper(P11R)
  {
    var t := P11R.targets;
    assert |t[0]| == 6 && |t[1]| == 2 && |t[2]| == 9 && |t[3]| == 18 && |t[4]| == 10 && |t[5]| == 13;
    assert |t| == 6;
  }

  datatype MakefileError =
    MarkerInvalid | BlockAbsent | PhonyUnavailable | PhonyTargetInvalid | BaseChanged | TargetSetInvalid

  // ---------- removing tokens ----------

  /** `tokens.remove(target)`: without its first occurrence. */
  function Remove(tokens: seq<string>, target: string): seq<string>
    requires target in tokens
  {
    if tokens[0] == target then tokens[1..] else [tokens[0]] + Remove(tokens[1..], target)
  }

  /** Tokens without a set of them, in order. */
  function Without(tokens: seq<string>, dropped: set<string>): (kept: seq<string>)
    ensures forall x :: x in kept <==> x in tokens && x !in dropped
  {
    if tokens == [] then []
    else if tokens[0] in dropped then Without(tokens[1..], dropped)
    else [tokens[0]] + Without(tokens[1..], dropped)
  }

  /** `tokens.count(target)`. */
  function Occurrences(tokens: seq<string>, target: string): (n: nat)
    ensures n > 0 <==> target in tokens
  {
    if tokens == [] then 0 else (if tokens[0] == target then 1 else 0) + Occurrences(tokens[1..], target)
  }

  lemma {:induction false} WithoutNothing(tokens: seq<string>)
    ensures Without(tokens, {}) == tokens
  {
    if tokens != [] {
      WithoutNothing(tokens[1..]);
      Uncons(tokens);
    }
  }

  lemma {:induction false} WithoutAbsent(tokens: seq<string>, dropped: set<string>, target: string)
    requires target !in tokens
    ensures Without(tokens, dropped + {target}) == Without(tokens, dropped)
  {
    if tokens != [] {
      WithoutAbsent(tokens[1..], dropped, target);
    }
  }

  /** Dropping tokens of other kinds does not change how often one occurs. */
  lemma {:induction false} WithoutCounts(tokens: seq<string>, dropped: set<string>, target: string)
    requires target !in dropped
    ensures Occurrences(Without(tokens, dropped), target) == Occurrences(tokens, target)
  {
    if tokens != [] {
      WithoutCounts(tokens[1..], dropped, target);
      if tokens[0] !in dropped {
        Cons(tokens[0], Without(tokens[1..], dropped));
      }
    }
  }

  /** Removing the only occurrence of a target drops the target altogether. */
  lemma {:induction false} RemoveTheOnly(tokens: seq<string>, dropped: set<string>, target: string)
    requires Occurrences(Without(tokens, dropped), target) == 1 && target !in dropped
    ensures Remove(Without(tokens, dropped), target) == Without(tokens, dropped + {target})
  {
    if tokens != [] {
      var rest := Without(tokens[1..], dropped);
      Cons(tokens[0], rest);
      if tokens[0] in dropped {
        RemoveTheOnly(tokens[1..], dropped, target);
      } else if tokens[0] == target {
        assert target !in rest;
        assert target !in tokens[1..];
        WithoutAbsent(tokens[1..], dropped, target);
      } else {
        RemoveTheOnly(tokens[1..], dropped, target);
      }
    }
  }

  predicate EachOnce(tokens: seq<string>, targets: seq<string>) {
    forall j :: 0 <= j < |targets| ==> Occurrences(tokens, targets[j]) == 1
  }

  /** Each target must occur once and is removed: what remains is the tokens without the targets, in order. */
  method RemoveTargets(tokens: seq<string>, targets: seq<string>) returns (r: Option<seq<string>>)
    requires Distinct(targets)
    ensures r.Some? <==> EachOnce(tokens, targets)
    ensures r.Some? ==> r.value == Without(tokens, Elements(targets))
  {
    var left := tokens;
    WithoutNothing(tokens);
    assert Elements(targets[..0]) == {};
    for i := 0 to |targets|
      invariant left == Without(tokens, Elements(targets[..i]))
      invariant EachOnce(tokens, targets[..i])
    {
      var target := targets[i];
      TakeStep(targets, i);
      assert Elements(targets[..i + 1]) == Elements(targets[..i]) + {target};
      WithoutCounts(tokens, Elements(targets[..i]), target);
      if Occurrences(left, target) != 1 {
        return None;
      }
      RemoveTheOnly(tokens, Elements(targets[..i]), target);
      left := Remove(left, target);
    }
    Neutral(targets);
    return Some(left);
  }

  // ---------- the declared targets ----------

  /** A line of the block that declares something. */
  predicate Declares(line: string) {
    line != "" && line[0] != '\t' && line[0] != '#' && ':' in line
  }

  function Declared(block: string): set<string> {
    set k | 0 <= k < |SplitLines(block)| && Declares(SplitLines(block)[k]) :: Before(SplitLines(block)[k], ':')
  }

  /** The line is a rule for the target: `target:` and anything behind it, neither a recipe line nor a comment. */
  ghost predicate IsRule(line: string, target: string) {
    ':' !in target && line != "" && line[0] != '\t' && line[0] != '#' && exists rest :: line == target + ":" + rest
  }

  ghost predicate HasRule(lines: seq<string>, target: string) {
    exists k :: 0 <= k < |lines| && IsRule(lines[k], target)
  }

  lemma IsRuleExactly(line: string, target: string)
    ensures IsRule(line, target) <==> Declares(line) && Before(line, ':') == target
  {
    if IsRule(line, target) {
      var rest :| line == target + ":" + rest;
      RuleStarts(target, rest);
    }
    if Declares(line) && Before(line, ':') == target {
      var tail := From(line, ':');
      assert tail != [] by { assert line == target + tail; }
      Uncons(tail);
      Associate(target, ":", tail[1..]);
      assert line == target + ":" + tail[1..];
    }
  }

  lemma RuleStarts(target: string, rest: string)
    requires ':' !in target
    ensures ':' in target + ":" + rest && Before(target + ":" + rest, ':') == target
  {
    Associate(target, ":", rest);
    BeforeAppend(target, ":" + rest, ':');
    BeforeAll(target, ':');
    assert (target + ":" + rest)[|target|] == ':';
  }

  lemma {:induction false} BeforeAll(t: string, sep: char)
    requires sep !in t
    ensures Before(t, sep) == t
  {
    if t != "" {
      BeforeAll(t[1..], sep);
      Uncons(t);
    }
  }

  lemma DeclaredExactly(block: string, target: string)
    ensures target in Declared(block) <==> HasRule(SplitLines(block), target)
  {
    var lines := SplitLines(block);
    if target in Declared(block) {
      var k :| 0 <= k < |lines| && Declares(lines[k]) && Before(lines[k], ':') == target;
      IsRuleExactly(lines[k], target);
    }
    if HasRule(lines, target) {
      var k :| 0 <= k < |lines| && IsRule(lines[k], target);
      IsRuleExactly(lines[k], target);
    }
  }

  // ---------- an additive edit ----------

  /** The declaration of phony targets is the one line of the old file that may differ, and how. */
  predicate PhonyGrew(rules: Rules, was: string, now: string) {
    && rules.header <= now
    && EachOnce(Words(now), rules.targets)
    && was == Join(Without(Words(now), Elements(rules.targets)), " ")
  }

  /** Line by line, the old file is the part before the block, but for the fifth line. */
  predicate KeepsLines(rules: Rules, was: seq<string>, now: seq<string>) {
    && |was| == |now| && |now| >= 5 && PhonyGrew(rules, was[4], now[4])
    && forall k :: 0 <= k < |now| && k != 4 ==> was[k] == now[k]
  }

  /** What follows the marker declares the new targets and no others. */
  ghost predicate IsBlock(rules: Rules, block: string) {
    !Blank(block) && forall t :: t in rules.targets <==> HasRule(SplitLines(block), t)
  }

  lemma IsBlockExactly(rules: Rules, block: string)
    ensures IsBlock(rules, block) <==> !Blank(block) && Declared(block) == Elements(rules.targets)
  {
    forall t ensures t in Declared(block) <==> HasRule(SplitLines(block), t) {
      DeclaredExactly(block, t);
    }
  }

  /** A text is these lines, each ended by a newline. */
  predicate HasLines(text: string, lines: seq<string>) {
    Split(text, '\n') == lines + [""]
  }

  /** The part before the block holds every line of the base, and the block declares the targets. */
  ghost predicate IsAdditiveEdit(rules: Rules, base: string, prefix: string, block: string) {
    && IsBlock(rules, block)
    && exists was :: HasLines(base, was) && KeepsLines(rules, was, SplitLines(prefix))
  }

  /** The marker occurs once, counted without overlaps, and splits the text in two. */
  predicate SplitsAt(text: string, marker: string, prefix: string, block: string) {
    && text == prefix + marker + block
    && Find(text, marker) == Some(|prefix|)
    && Find(block, marker) == None
  }

  lemma JoinTerminated(lines: seq<string>, text: string)
    requires lines != [] && forall k :: 0 <= k < |lines| ==> '\n' !in lines[k]
    ensures text == Join(lines, "\n") + "\n" <==> HasLines(text, lines)
  {
    var fields := lines + [""];
    JoinAppend(lines, "", "\n");
    Neutral(Join(lines, "\n") + "\n");
    forall f | f in fields ensures '\n' !in f {
      var k :| 0 <= k < |fields| && fields[k] == f;
      assert k < |lines| ==> f == lines[k];
    }
    JoinedIs(fields, text, '\n');
  }

  lemma JoinedIs(fields: seq<string>, text: string, sep: char)
    requires fields != [] && forall f :: f in fields ==> sep !in f
    ensures text == Join(fields, [sep]) <==> Split(text, sep) == fields
  {
    SplitJoin(fields, sep);
  }

  lemma {:induction false} JoinAppend(fields: seq<string>, last: string, sep: string)
    requires fields != []
    ensures Join(fields + [last], sep) == Join(fields, sep) + sep + last
  {
    assert (fields + [last])[1..] == fields[1..] + [last];
    if |fields| > 1 {
      JoinAppend(fields[1..], last, sep);
      Associate(fields[0] + sep, Join(fields[1..], sep), sep + last);
      Associate(Join(fields[1..], sep), sep, last);
      Associate(fields[0] + sep + Join(fields[1..], sep), sep, last);
    } else {
      assert fields[1..] == [];
      assert Join([last], sep) == last;
    }
  }

  /** Words joined by blanks hold no line end. */
  lemma {:induction false} JoinedWordsOneLine(words: seq<string>)
    requires forall k :: 0 <= k < |words| ==> IsWord(words[k])
    ensures Free(Join(words, " "), BREAK)
  {
    if |words| == 1 {
      assert Free(words[0], SPACE);
    } else if |words| > 1 {
      JoinedWordsOneLine(words[1..]);
      assert Free(words[0], SPACE);
    }
  }

  lemma {:induction false} WithoutWords(words: seq<string>, dropped: set<string>)
    requires forall k :: 0 <= k < |words| ==> IsWord(words[k])
    ensures forall k :: 0 <= k < |Without(words, dropped)| ==> IsWord(Without(words, dropped)[k])
  {
    var kept := Without(words, dropped);
    forall k | 0 <= k < |kept| ensures IsWord(kept[k]) {
      assert kept[k] in words;
    }
  }

  lemma FreeOfNewline(line: string)
    requires Free(line, BREAK)
    ensures '\n' !in line
  {
    assert IsBreak('\n');
  }

  /** Comparing the rebuilt text with the base compares line by line. */
  lemma RebuiltIsBase(rules: Rules, base: string, now: seq<string>, tokens: seq<string>)
    requires |now| >= 5 && rules.header <= now[4] && EachOnce(Words(now[4]), rules.targets)
    requires forall k :: 0 <= k < |now| ==> Free(now[k], BREAK)
    requires tokens == Without(Words(now[4]), Elements(rules.targets))
    ensures Join(now[4 := Join(tokens, " ")], "\n") + "\n" == base
            <==> exists was :: HasLines(base, was) && KeepsLines(rules, was, now)
  {
    var lines := now[4 := Join(tokens, " ")];
    WithoutWords(Words(now[4]), Elements(rules.targets));
    JoinedWordsOneLine(tokens);
    forall k | 0 <= k < |lines| ensures '\n' !in lines[k] {
      FreeOfNewline(lines[k]);
    }
    JoinTerminated(lines, base);
    if was :| HasLines(base, was) && KeepsLines(rules, was, now) {
      assert was == lines;
    }
    assert KeepsLines(rules, lines, now);
  }

  /** The text is an additive edit of the base: it splits at the marker into a part that keeps the base and a block. */
  ghost predicate IsAccepted(rules: Rules, base: string, current: string) {
    exists prefix, block :: SplitsAt(current, rules.marker, prefix, block) && IsAdditiveEdit(rules, base, prefix, block)
  }

  /** The part before the block must keep the base, and the block must declare the targets. */
  method ValidateParts(rules: Rules, base: string, prefix: string, block: string) returns (r: Result<(), MakefileError>)
    requires Proper(rules)
    ensures r.Ok? <==> IsAdditiveEdit(rules, base, prefix, block)
    ensures r.Err? ==> r.error != MarkerInvalid
  {
    IsBlockExactly(rules, block);
    if Blank(block) {
      return Err(BlockAbsent);
    }
    var lines := SplitLines(prefix);
    if |lines| < 5 || !(rules.header <= lines[4]) {
      return Err(PhonyUnavailable);
    }
    var tokens := RemoveTargets(Words(lines[4]), rules.targets);
    if tokens.None? {
      return Err(PhonyTargetInvalid);
    }
    RebuiltIsBase(rules, base, lines, tokens.value);
    lines := lines[4 := Join(tokens.value, " ")];
    var normalized := Join(lines, "\n") + "\n";
    if normalized != base {
      return Err(BaseChanged);
    }
    if Declared(block) != Elements(rules.targets) {
      return Err(TargetSetInvalid);
    }
    return Ok(());
  }

  /** The check: it accepts exactly the additive edits. */
  method ValidateMakefileContents(rules: Rules, base: string, current: string) returns (r: Result<(), MakefileError>)
    requires Proper(rules)
    ensures r.Ok? <==> IsAccepted(rules, base, current)
    ensures r == Err(MarkerInvalid) <==> Count(current, rules.marker) != 1
  {
    MarkerOnce(current, rules.marker);
    if Count(current, rules.marker) != 1 {
      return Err(MarkerInvalid);
    }
    var at := Find(current, rules.marker).value;
    OneSplit(current, rules.marker);
    r := ValidateParts(rules, base, current[..at], current[at + |rules.marker|..]);
  }

  lemma MarkerOnce(text: string, marker: string)
    requires marker != ""
    ensures Count(text, marker) == 1 <==> Rest(text, marker).Some? && Rest(Rest(text, marker).value, marker).None?
  {
  }

  /** The two parts around the first occurrence. */
  predicate AroundFirst(text: string, marker: string, prefix: string, block: string) {
    var at := Find(text, marker);
    at.Some? && prefix == text[..at.value] && block == text[at.value + |marker|..]
  }

  lemma SplitsAroundFirst(text: string, marker: string, prefix: string, block: string)
    requires marker != ""
    ensures SplitsAt(text, marker, prefix, block)
        <==> AroundFirst(text, marker, prefix, block) && Find(block, marker).None?
  {
    if SplitsAt(text, marker, prefix, block) {
      TakeAppend(prefix, marker + block);
      Associate(prefix, marker, block);
      TakeAppend(prefix + marker, block);
    }
    if AroundFirst(text, marker, prefix, block) {
      PutTogether(text, marker, Find(text, marker).value);
    }
  }

  lemma PutTogether(text: string, marker: string, i: nat)
    requires i + |marker| <= |text| && text[i..i + |marker|] == marker
    ensures text == text[..i] + marker + text[i + |marker|..]
  {
  }

  /** A text splits at a marker in at most one way. */
  lemma OneSplit(text: string, marker: string)
    requires marker != ""
    ensures Count(text, marker) == 1 ==>
              SplitsAt(text, marker, text[..Find(text, marker).value], text[Find(text, marker).value + |marker|..])
    ensures forall prefix, block :: SplitsAt(text, marker, prefix, block) ==>
              Count(text, marker) == 1 && AroundFirst(text, marker, prefix, block)
  {
    MarkerOnce(text, marker);
    forall prefix, block ensures SplitsAt(text, marker, prefix, block)
                                 <==> AroundFirst(text, marker, prefix, block) && Find(block, marker).None?
    {
      SplitsAroundFirst(text, marker, prefix, block);
    }
  }

  // ---------- which texts split where they were put together ----------

  /** A marker is a line of its own: newlines at both ends and no line end in between. */
  predicate IsMarker(m: string) {
    |m| >= 3 && m[0] == '\n' && m[|m| - 1] == '\n' && forall i :: 0 < i < |m| - 1 ==> !IsBreak(m[i])
  }

  /** The marker stands neither in what comes before it nor in the block. */
  predicate IsFresh(marker: string, prefix: string, block: string) {
    Find(prefix + "\n", marker).None? && Find(block, marker).None?
  }

  /** No occurrence reaches into the marker beyond its first newline. */
  lemma NoStraddling(prefix: string, m: string, block: string, j: nat)
    requires IsMarker(m) && j < |prefix| && j + |m| > |prefix| + 1
    ensures !(m <= (prefix + m + block)[j..])
  {
    var text := prefix + m + block;
    assert text[j..][|prefix| - j] == text[|prefix|] == '\n';
    assert !IsBreak(m[|prefix| - j]) && IsBreak('\n');
  }

  /** An occurrence that starts before the marker ends with the marker's first newline at the latest. */
  lemma EarlierOccurrence(prefix: string, m: string, block: string, j: nat)
    requires IsMarker(m) && j < |prefix|
    ensures m <= (prefix + m + block)[j..] <==> m <= (prefix + "\n")[j..]
  {
    var text, short := prefix + m + block, prefix + "\n";
    assert forall k :: 0 <= k <= |prefix| ==> text[k] == short[k];
    if j + |m| > |prefix| + 1 {
      NoStraddling(prefix, m, block, j);
    }
    if m <= text[j..] {
      assert forall k :: 0 <= k < |m| ==> m[k] == text[j..][k] == text[j + k] == short[j + k] == short[j..][k];
    }
    if m <= short[j..] {
      assert forall k :: 0 <= k < |m| ==> m[k] == short[j..][k] == short[j + k] == text[j + k] == text[j..][k];
    }
  }

  /** A text put together around a marker splits there exactly when the marker is found in neither part. */
  lemma MarkerSplits(prefix: string, m: string, block: string)
    requires IsMarker(m)
    ensures SplitsAt(prefix + m + block, m, prefix, block) <==> IsFresh(m, prefix, block)
  {
    var text, short := prefix + m + block, prefix + "\n";
    Associate(prefix, m, block);
    TakeAppend(prefix, m + block);
    assert m <= m + block;
    assert m <= text[|prefix|..];
    FindExactly(text, m, |prefix|);
    FindExactly(short, m, 0);
    forall j | 0 <= j < |prefix| ensures m <= text[j..] <==> m <= short[j..] {
      EarlierOccurrence(prefix, m, block, j);
    }
    assert forall j :: |prefix| <= j <= |short| ==> |short[j..]| < |m|;
  }

  // ---------- what an accepted edit keeps ----------

  predicate IsLines(lines: seq<string>) {
    forall k :: 0 <= k < |lines| ==> Free(lines[k], BREAK)
  }

  /** The old declaration names the new one's tokens, each target deleted, the others in order. */
  lemma PhonyTokensDeleted(rules: Rules, was: string, now: string)
    requires PhonyGrew(rules, was, now)
    ensures Words(was) == Without(Words(now), Elements(rules.targets))
    ensures forall j :: 0 <= j < |rules.targets| ==> rules.targets[j] !in Words(was)
  {
    WithoutWords(Words(now), Elements(rules.targets));
    WordsJoin(Without(Words(now), Elements(rules.targets)));
    forall j | 0 <= j < |rules.targets| ensures rules.targets[j] !in Words(was) {
      assert rules.targets[j] in Elements(rules.targets);
    }
  }

  lemma EveryInterleavingAdditive(rules: Rules, now: seq<string>, tokens: seq<string>, block: string)
    requires |now| >= 5 && IsLines(now) && IsBlock(rules, block)
    requires now[4] == Join(tokens, " ") && forall k :: 0 <= k < |tokens| ==> IsWord(tokens[k])
    requires EachOnce(tokens, rules.targets) && rules.header <= now[4]
    ensures IsAdditiveEdit(rules, BaseOf(rules, now, tokens), Written(now), block)
  {
    WordsJoin(tokens);
    SplitLinesJoin(now);
    var kept := Without(tokens, Elements(rules.targets));
    RebuiltIsBase(rules, Written(now[4 := Join(kept, " ")]), now, kept);
  }

  /** Lines, each ended by a newline. */
  function Written(lines: seq<string>): string {
    Join(lines, "\n") + "\n"
  }

  /** The old file: the new one's lines, with the targets deleted from the fifth. */
  function BaseOf(rules: Rules, now: seq<string>, tokens: seq<string>): string
    requires |now| >= 5
  {
    Written(now[4 := Join(Without(tokens, Elements(rules.targets)), " ")])
  }

  lemma AcceptedText(rules: Rules, base: string, prefix: string, block: string)
    requires IsMarker(rules.marker) && IsFresh(rules.marker, prefix, block)
        && IsAdditiveEdit(rules, base, prefix, block)
    ensures IsAccepted(rules, base, prefix + rules.marker + block)
  {
    MarkerSplits(prefix, rules.marker, block);
  }

  /** Any way of putting the targets among the old tokens, then the marker and a proper block, is accepted. */
  lemma EveryInterleavingAccepted(rules: Rules, now: seq<string>, tokens: seq<string>, block: string)
    requires IsMarker(rules.marker) && |now| >= 5 && IsLines(now) && IsBlock(rules, block)
    requires now[4] == Join(tokens, " ") && forall k :: 0 <= k < |tokens| ==> IsWord(tokens[k])
    requires EachOnce(tokens, rules.targets) && rules.header <= now[4]
    requires IsFresh(rules.marker, Written(now), block)
    ensures IsAccepted(rules, BaseOf(rules, now, tokens), Written(now) + rules.marker + block)
  {
    EveryInterleavingAdditive(rules, now, tokens, block);
    AcceptedText(rules, BaseOf(rules, now, tokens), Written(now), block);
  }

  /** Where the part before the marker keeps the base, acceptance turns on the rules of the block alone. */
  lemma BlockDecides(rules: Rules, base: string, prefix: string, block: string, was: seq<string>)
    requires IsMarker(rules.marker) && IsFresh(rules.marker, prefix, block)
    requires HasLines(base, was) && KeepsLines(rules, was, SplitLines(prefix))
    ensures IsAccepted(rules, base, prefix + rules.marker + block) <==> IsBlock(rules, block)
  {
    var text := prefix + rules.marker + block;
    MarkerSplits(prefix, rules.marker, block);
    SplitsAroundFirst(text, rules.marker, prefix, block);
    if IsAccepted(rules, base, text) {
      var p, b :| SplitsAt(text, rules.marker, p, b) && IsAdditiveEdit(rules, base, p, b);
      SplitsAroundFirst(text, rules.marker, p, b);
    }
  }

  /** A rule for anything but a new target makes the edit fail, prerequisites or not; so does a target without one. */
  lemma OtherRulesRefused(rules: Rules, base: string, prefix: string, block: string, target: string)
    requires IsMarker(rules.marker) && IsFresh(rules.marker, prefix, block)
    requires HasRule(SplitLines(block), target) != (target in rules.targets)
    ensures !IsAccepted(rules, base, prefix + rules.marker + block)
  {
    var text := prefix + rules.marker + block;
    MarkerSplits(prefix, rules.marker, block);
    SplitsAroundFirst(text, rules.marker, prefix, block);
    if IsAccepted(rules, base, text) {
      var p, b :| SplitsAt(text, rules.marker, p, b) && IsAdditiveEdit(rules, base, p, b);
      SplitsAroundFirst(text, rules.marker, p, b);
    }
  }

  predicate OnlyNewlines(text: string) {
    forall i :: 0 <= i < |text| && IsBreak(text[i]) ==> text[i] == '\n'
  }

  lemma {:induction false} OnlyNewlinesJoin(lines: seq<string>)
    requires IsLines(lines)
    ensures OnlyNewlines(Join(lines, "\n"))
  {
    if |lines| == 1 {
      assert Free(lines[0], BREAK);
    } else if |lines| > 1 {
      OnlyNewlinesJoin(lines[1..]);
      assert Free(lines[0], BREAK);
    }
  }

  /** A text with newlines only is its lines joined, up to the last newline. */
  lemma {:induction false} JoinSplitLines(text: string)
    requires OnlyNewlines(text) && text != ""
    ensures SplitLines(text) != []
    ensures var joined := Join(SplitLines(text), "\n"); text == joined || text == joined + "\n"
    decreases |text|
  {
    var i := FirstIndex(text, BREAK);
    if i < |text| {
      assert text[i] == '\n';
      var rest := text[i + 1..];
      assert text == text[..i] + "\n" + rest;
      assert SplitLines(text) == [text[..i]] + SplitLines(rest);
      if rest != "" {
        JoinSplitLines(rest);
        Cons(text[..i], SplitLines(rest));
        Associate(text[..i] + "\n", Join(SplitLines(rest), "\n"), "\n");
      }
    } else {
      Neutral(text);
    }
  }

  /** The new file's part before the block, as it would be if the old file only gained tokens on its fifth line. */
  function Expected(was: seq<string>, now: string): string
    requires |was| >= 5
  {
    Join(was[4 := now], "\n") + "\n"
  }

  /**
   * An accepted edit keeps the old file to the byte, up to a last
   * newline, exactly when it has no line end but newlines.
   */
  lemma BytesKeptExactlyWithNewlines(rules: Rules, was: seq<string>, prefix: string)
    requires KeepsLines(rules, was, SplitLines(prefix))
    ensures var expected := Expected(was, SplitLines(prefix)[4]);
            OnlyNewlines(prefix) <==> prefix == expected || prefix + "\n" == expected
  {
    var now := SplitLines(prefix);
    assert was[4 := now[4]] == now;
    var joined := Join(now, "\n");
    OnlyNewlinesJoin(now);
    if OnlyNewlines(prefix) {
      JoinSplitLines(prefix);
    }
    if prefix + "\n" == joined + "\n" {
      TakeAppend(prefix, "\n");
      TakeAppend(joined, "\n");
    }
  }

  /** Any line end stands for any other, unless it would pair up as `\r\n`. */
  lemma {:induction false} LineEndsInterchange(head: string, c: char, d: char, tail: string)
    requires IsBreak(c) && IsBreak(d) && c != '\r' && d != '\r'
    requires head == "" || head[|head| - 1] != '\r'
    ensures SplitLines(head + [c] + tail) == SplitLines(head + [d] + tail)
    decreases |head|
  {
    var i := FirstIndex(head, BREAK);
    if i == |head| {
      Neutral(head);
      SplitLinesAt(head, c, tail);
      SplitLinesAt(head, d, tail);
    } else {
      var w := Width(head, i);
      var rest := head[i + w..];
      SplitLinesInside(head, c, tail);
      SplitLinesInside(head, d, tail);
      assert rest == "" || rest[|rest| - 1] == head[|head| - 1];
      LineEndsInterchange(rest, c, d, tail);
    }
  }

  lemma SplitLinesInside(head: string, c: char, tail: string)
    requires head != "" && head[|head| - 1] != '\r' && FirstIndex(head, BREAK) < |head|
    ensures var i := FirstIndex(head, BREAK);
            SplitLines(head + [c] + tail) == [head[..i]] + SplitLines(head[i + Width(head, i)..] + [c] + tail)
  {
    var i := FirstIndex(head, BREAK);
    var w := Width(head, i);
    var more := head[i..] + ([c] + tail);
    Associate(head, [c], tail);
    TakeDrop(head, i);
    Associate(head[..i], head[i..], [c] + tail);
    assert Width(more, 0) == w;
    SplitLinesOnce(head[..i], more);
    DropOfAppend(head[i..], [c] + tail, w);
    DropDrop(head, i, w);
    Associate(head[i + w..], [c], tail);
  }

  lemma DropOfAppend<T>(a: seq<T>, b: seq<T>, k: nat)
    requires k <= |a|
    ensures (a + b)[k..] == a[k..] + b
  {
  }

  const FORM_FEED: char := 12 as char

  /** Replacing a newline by another line end adds no occurrence of a marker. */
  lemma NoNewOccurrence(head: string, d: char, tail: string, m: string)
    requires IsMarker(m) && IsBreak(d) && d != '\n' && Find(head + ['\n'] + tail, m).None?
    ensures Find(head + [d] + tail, m).None?
  {
    var was, now := head + ['\n'] + tail, head + [d] + tail;
    FindExactly(was, m, 0);
    FindExactly(now, m, 0);
    forall j | 0 <= j <= |now| ensures !(m <= now[j..]) {
      OccurrenceElsewhere(head, d, tail, m, j);
    }
  }

  lemma OccurrenceElsewhere(head: string, d: char, tail: string, m: string, j: nat)
    requires IsMarker(m) && IsBreak(d) && d != '\n' && j <= |head| + 1 + |tail|
    ensures m <= (head + [d] + tail)[j..] ==> m <= (head + ['\n'] + tail)[j..]
  {
    var was, now := head + ['\n'] + tail, head + [d] + tail;
    if m <= now[j..] {
      forall k | 0 <= k < |m| ensures m[k] == was[j..][k] {
        assert m[k] == now[j..][k] == now[j + k] && was[j..][k] == was[j + k];
        assert m[k] == '\n' || !IsBreak(m[k]);
        assert j + k != |head|;
      }
    }
  }

  lemma StaysFresh(marker: string, head: string, tail: string, block: string)
    requires IsMarker(marker) && IsFresh(marker, head + ['\n'] + tail, block)
    ensures IsFresh(marker, head + [FORM_FEED] + tail, block)
  {
    Associate(head + ['\n'], tail, "\n");
    Associate(head + [FORM_FEED], tail, "\n");
    NoNewOccurrence(head, FORM_FEED, tail + "\n", marker);
  }

  lemma StaysAdditive(rules: Rules, base: string, head: string, tail: string, block: string)
    requires IsAdditiveEdit(rules, base, head + ['\n'] + tail, block) && (head == "" || head[|head| - 1] != '\r')
    ensures IsAdditiveEdit(rules, base, head + [FORM_FEED] + tail, block)
  {
    LineEndsInterchange(head, '\n', FORM_FEED, tail);
  }

  /**
   * So an old newline may have become a form feed: the file differs
   * from an accepted one, and is accepted all the same.
   */
  lemma OtherLineEndAccepted(rules: Rules, base: string, head: string, tail: string, block: string)
    requires IsMarker(rules.marker) && (head == "" || head[|head| - 1] != '\r')
    requires IsFresh(rules.marker, head + ['\n'] + tail, block)
    requires IsAdditiveEdit(rules, base, head + ['\n'] + tail, block)
    ensures IsAccepted(rules, base, head + ['\n'] + tail + rules.marker + block)
    ensures IsAccepted(rules, base, head + [FORM_FEED] + tail + rules.marker + block)
  {
    AcceptedText(rules, base, head + ['\n'] + tail, block);
    StaysFresh(rules.marker, head, tail, block);
    StaysAdditive(rules, base, head, tail, block);
    AcceptedText(rules, base, head + [FORM_FEED] + tail, block);
  }
}
