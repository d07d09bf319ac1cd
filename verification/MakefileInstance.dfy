/** The rules in use, on a small Makefile: an edit that is accepted, also with a form feed in place of a newline. */
module MakefileInstance {
  import opened Sequences
  import opened Text
  import opened Lines
  import opened Ordering
  import opened MakefileEdit

  /** A target that can stand in the declaration and head a rule. */
  predicate IsPlain(t: string) {
    IsWord(t) && '#' !in t && ':' !in t
  }

  function RuleLine(t: string): string {
    t + ":"
  }

  /** The shortest block: a rule without recipe for each target. */
  function BlockLines(targets: seq<string>): seq<string> {
    seq(|targets|, i requires 0 <= i < |targets| => RuleLine(targets[i]))
  }

  lemma WordIsLine(t: string)
    requires IsWord(t)
    ensures Free(t, BREAK)
  {
    assert forall i :: 0 <= i < |t| ==> !SPACE(t[i]);
  }

  lemma RuleLineDeclares(t: string)
    requires IsPlain(t)
    ensures Free(RuleLine(t), BREAK) && Declares(RuleLine(t)) && Before(RuleLine(t), ':') == t && '#' !in RuleLine(t)
  {
    WordIsLine(t);
    assert RuleLine(t)[0] == t[0] && !SPACE(t[0]);
    assert RuleLine(t)[|t|] == ':';
    BeforeAppend(t, ":", ':');
    BeforeAll(t, ':');
  }

  predicate AllPlain(targets: seq<string>) {
    forall i :: 0 <= i < |targets| ==> IsPlain(targets[i])
  }

  /** The shortest block is a proper one. */
  lemma ShortestBlock(rules: Rules)
    requires rules.targets != [] && AllPlain(rules.targets)
    ensures IsBlock(rules, Written(BlockLines(rules.targets)))
  {
    var targets := rules.targets;
    var lines := BlockLines(targets);
    var block := Written(lines);
    IsBlockExactly(rules, block);
    forall i | 0 <= i < |targets|
      ensures Free(lines[i], BREAK) && Declares(lines[i]) && Before(lines[i], ':') == targets[i]
    {
      RuleLineDeclares(targets[i]);
    }
    SplitLinesJoin(lines);
    forall t ensures t in Declared(block) <==> t in Elements(targets) {
      if t in Elements(targets) {
        var i :| 0 <= i < |targets| && targets[i] == t;
        assert Declares(SplitLines(block)[i]);
      }
    }
    JoinStarts(lines);
    assert block[0] == targets[0][0] && !SPACE(targets[0][0]);
  }

  lemma JoinStarts(lines: seq<string>)
    requires lines != [] && lines[0] != ""
    ensures Join(lines, "\n") != "" && Join(lines, "\n")[0] == lines[0][0]
  {
  }

  // ---------- a text without the marker's `#` does not hold the marker ----------

  lemma {:induction false} JoinLacks(lines: seq<string>, sep: char, c: char)
    requires c != sep && forall i :: 0 <= i < |lines| ==> c !in lines[i]
    ensures c !in Join(lines, [sep])
  {
    if |lines| > 1 {
      JoinLacks(lines[1..], sep, c);
    }
  }

  lemma NotFound(s: string, part: string, c: char, i: nat)
    requires i < |part| && part[i] == c && c !in s
    ensures Find(s, part).None?
  {
    FindExactly(s, part, 0);
    forall j | 0 <= j <= |s| ensures !(part <= s[j..]) {
      if j + |part| <= |s| {
        assert s[j..][i] == s[j + i] && s[j + i] in s;
      }
    }
  }

  // ---------- the tokens ----------

  lemma {:induction false} AbsentCount(tokens: seq<string>, t: string)
    requires t !in tokens
    ensures Occurrences(tokens, t) == 0
  {
  }

  lemma {:induction false} DistinctOnce(tokens: seq<string>, t: string)
    requires Distinct(tokens) && t in tokens
    ensures Occurrences(tokens, t) == 1
  {
    if tokens[0] == t {
      assert t !in tokens[1..];
      AbsentCount(tokens[1..], t);
    } else {
      DistinctOnce(tokens[1..], t);
    }
  }

  lemma {:induction false} WithoutAppended(tokens: seq<string>, targets: seq<string>)
    requires forall i :: 0 <= i < |tokens| ==> tokens[i] !in targets
    ensures Without(tokens + targets, Elements(targets)) == tokens
  {
    if tokens == [] {
      Neutral(targets);
      WithoutAll(targets, Elements(targets));
    } else {
      TailAppend(tokens, targets);
      WithoutAppended(tokens[1..], targets);
      Uncons(tokens);
    }
  }

  lemma {:induction false} WithoutAll(tokens: seq<string>, dropped: set<string>)
    requires Elements(tokens) <= dropped
    ensures Without(tokens, dropped) == []
  {
    if tokens != [] {
      assert tokens[0] in Elements(tokens) && forall x :: x in Elements(tokens[1..]) ==> x in Elements(tokens);
      WithoutAll(tokens[1..], dropped);
    }
  }

  // ---------- the instance ----------

  /** Small letters, digits and hyphens only. */
  predicate IsSimple(t: string) {
    t != "" && forall i :: 0 <= i < |t| ==> 'a' <= t[i] <= 'z' || '0' <= t[i] <= '9' || t[i] == '-'
  }

  lemma SimpleIsPlain(t: string)
    requires IsSimple(t)
    ensures IsPlain(t)
  {
  }

  lemma SimpleTargets()
    ensures forall j :: 0 <= j < |P11R.targets| ==> IsSimple(P11R.targets[j])
  {
    assert IsSimple("p11-ci") && IsSimple("ci") && IsSimple("p11r-test");
    assert IsSimple("p11r-compose-smoke") && IsSimple("p11r-check") && IsSimple("evidence-p11r");
  }

  lemma P11RTargets()
    ensures AllPlain(P11R.targets) && Distinct(P11R.targets) && |P11R.targets| == 6
  {
    P11RIsProper();
    SimpleTargets();
    forall j | 0 <= j < |P11R.targets| ensures IsPlain(P11R.targets[j]) {
      SimpleIsPlain(P11R.targets[j]);
    }
  }

  lemma P11RMarker()
    ensures IsMarker(P11R.marker) && P11R.marker[1] == '#'
  {
  }

  const OLD_TOKENS := [".PHONY:", "all"]

  /** The declaration's tokens with the targets in front of nothing else: one of the many interleavings. */
  function NewTokens(): seq<string> {
    OLD_TOKENS + P11R.targets
  }

  function OldLines(): seq<string> {
    ["a", "b", "c", "d", ".PHONY: all"]
  }

  function NewLines(): seq<string> {
    ["a", "b", "c", "d", Join(NewTokens(), " ")]
  }

  function Block(): string {
    Written(BlockLines(P11R.targets))
  }

  lemma OldTokensFacts()
    ensures forall k :: 0 <= k < |OLD_TOKENS| ==> IsWord(OLD_TOKENS[k]) && '#' !in OLD_TOKENS[k]
    ensures forall i :: 0 <= i < |OLD_TOKENS| ==> OLD_TOKENS[i] !in P11R.targets
    ensures Distinct(OLD_TOKENS)
  {
    var targets := P11R.targets;
    assert |".PHONY:"| == 7 && |"all"| == 3;
    assert |targets[0]| == 6 && |targets[1]| == 2 && |targets[2]| == 9 && |targets[3]| == 18 && |targets[4]| == 10
        && |targets[5]| == 13;
    assert IsWord(".PHONY:") && IsWord("all") && '#' !in ".PHONY:" && '#' !in "all";
  }

  /** Tokens followed by targets that are none of them. */
  lemma AppendedFacts(tokens: seq<string>, targets: seq<string>)
    requires Distinct(tokens) && Distinct(targets) && forall i :: 0 <= i < |tokens| ==> tokens[i] !in targets
    ensures EachOnce(tokens + targets, targets)
    ensures Without(tokens + targets, Elements(targets)) == tokens
  {
    var all := tokens + targets;
    assert Distinct(all);
    forall j | 0 <= j < |targets| ensures Occurrences(all, targets[j]) == 1 {
      assert all[j + |tokens|] == targets[j];
      DistinctOnce(all, targets[j]);
    }
    WithoutAppended(tokens, targets);
  }

  lemma NewTokensFacts()
    ensures forall k :: 0 <= k < |NewTokens()| ==> IsWord(NewTokens()[k]) && '#' !in NewTokens()[k]
    ensures EachOnce(NewTokens(), P11R.targets)
    ensures Without(NewTokens(), Elements(P11R.targets)) == OLD_TOKENS
  {
    P11RTargets();
    OldTokensFacts();
    AppendedFacts(OLD_TOKENS, P11R.targets);
  }

  lemma Declaration(first: string, rest: seq<string>)
    requires rest != []
    ensures first + " " <= Join([first] + rest, " ")
  {
    Cons(first, rest);
  }

  lemma NewDeclarationStarts()
    ensures P11R.header <= Join(NewTokens(), " ")
  {
    var rest := ["all"] + P11R.targets;
    Declaration(".PHONY:", rest);
    Associate([".PHONY:"], ["all"], P11R.targets);
    assert OLD_TOKENS == [".PHONY:"] + ["all"];
    assert P11R.header == ".PHONY:" + " ";
  }

  lemma NewDeclarationIsLine()
    ensures Free(Join(NewTokens(), " "), BREAK) && '#' !in Join(NewTokens(), " ")
  {
    NewTokensFacts();
    JoinedWordsOneLine(NewTokens());
    JoinLacks(NewTokens(), ' ', '#');
  }

  /** Four short lines and a declaration. */
  lemma FiveLines(declaration: string)
    requires Free(declaration, BREAK) && '#' !in declaration
    ensures IsLines(["a", "b", "c", "d", declaration]) && '#' !in Written(["a", "b", "c", "d", declaration])
  {
    var lines := ["a", "b", "c", "d", declaration];
    assert Free("a", BREAK) && Free("b", BREAK) && Free("c", BREAK) && Free("d", BREAK);
    JoinLacks(lines, '\n', '#');
  }

  lemma NewLinesFacts()
    ensures IsLines(NewLines()) && '#' !in Written(NewLines())
  {
    NewDeclarationIsLine();
    FiveLines(Join(NewTokens(), " "));
  }

  lemma OldDeclaration()
    ensures Join(OLD_TOKENS, " ") == ".PHONY: all"
  {
    assert OLD_TOKENS[1..] == ["all"];
  }

  lemma FifthReplaced(declaration: string, other: string)
    ensures ["a", "b", "c", "d", declaration][4 := other] == ["a", "b", "c", "d", other]
  {
  }

  lemma BaseIsOld()
    ensures BaseOf(P11R, NewLines(), NewTokens()) == Written(OldLines())
  {
    NewTokensFacts();
    OldDeclaration();
    FifthReplaced(Join(NewTokens(), " "), ".PHONY: all");
  }

  lemma BlockLacksHash()
    ensures '#' !in Block()
  {
    P11RTargets();
    forall i | 0 <= i < |BlockLines(P11R.targets)| ensures '#' !in BlockLines(P11R.targets)[i] {
      RuleLineDeclares(P11R.targets[i]);
    }
    JoinLacks(BlockLines(P11R.targets), '\n', '#');
  }

  lemma InstanceIsFresh()
    ensures IsFresh(P11R.marker, Written(NewLines()), Block())
  {
    P11RMarker();
    NewLinesFacts();
    BlockLacksHash();
    NotFound(Written(NewLines()) + "\n", P11R.marker, '#', 1);
    NotFound(Block(), P11R.marker, '#', 1);
  }

  /** The old and the new Makefile of the instance; in the last one the first newline is a form feed. */
  function Base(): string {
    Written(OldLines())
  }

  function Current(): string {
    Written(NewLines()) + P11R.marker + Block()
  }

  function WithFormFeed(): string {
    Current()[1 := FORM_FEED]
  }

  lemma InstanceIsAdditive()
    ensures IsAdditiveEdit(P11R, Base(), Written(NewLines()), Block())
  {
    NewTokensFacts();
    NewDeclarationStarts();
    NewLinesFacts();
    P11RTargets();
    ShortestBlock(P11R);
    BaseIsOld();
    EveryInterleavingAdditive(P11R, NewLines(), NewTokens(), Block());
  }

  /**
   * With the rules in use: the edit is accepted, and so is the text
   * in which a newline of the base became a form feed.
   */
  lemma FormFeedAccepted()
    ensures Current()[1] == '\n' && IsAccepted(P11R, Base(), Current()) && IsAccepted(P11R, Base(), WithFormFeed())
  {
    P11RMarker();
    NewLinesFacts();
    InstanceIsFresh();
    InstanceIsAdditive();
    FirstNewlineReplaced(P11R, Base(), NewLines(), Block());
  }

  /** In any accepted text made of lines, the newline after the first one may be a form feed. */
  lemma FirstNewlineReplaced(rules: Rules, base: string, lines: seq<string>, block: string)
    requires IsMarker(rules.marker) && |lines| >= 2 && IsLines(lines)
    requires IsFresh(rules.marker, Written(lines), block) && IsAdditiveEdit(rules, base, Written(lines), block)
    ensures var current, i := Written(lines) + rules.marker + block, |lines[0]|;
            && i < |current| && current[i] == '\n'
            && IsAccepted(rules, base, current) && IsAccepted(rules, base, current[i := FORM_FEED])
  {
    var head, tail := lines[0], Join(lines[1..], "\n") + "\n";
    assert Written(lines) == head + ['\n'] + tail;
    assert head != "" ==> !BREAK(head[|head| - 1]);
    OtherLineEndAccepted(rules, base, head, tail, block);
    SameButOne(head, tail, rules.marker, block);
  }

  lemma SameButOne(head: string, tail: string, marker: string, block: string)
    ensures var text := head + ['\n'] + tail + marker + block;
            text[|head|] == '\n' && text[|head| := FORM_FEED] == head + [FORM_FEED] + tail + marker + block
  {
  }
}
