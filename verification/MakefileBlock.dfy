/** Blocks with recipes, prerequisites and comments, and which of them the check takes. */
module MakefileBlock {
  import opened Lines
  import opened MakefileEdit

  /** A recipe line, a comment, or a line that declares nothing. */
  predicate IsQuiet(line: string) {
    line == "" || line[0] == '\t' || line[0] == '#' || ':' !in line
  }

  ghost predicate IsRuleForSome(line: string, targets: seq<string>) {
    exists j :: 0 <= j < |targets| && IsRule(line, targets[j])
  }

  /** A line is a rule for one target at most. */
  lemma OneTarget(line: string, t: string, u: string)
    requires IsRule(line, t) && IsRule(line, u)
    ensures t == u
  {
    IsRuleExactly(line, t);
    IsRuleExactly(line, u);
  }

  /** Rules for the targets, each at least once, among quiet lines: that is a proper block. */
  lemma RulesMakeBlock(rules: Rules, lines: seq<string>)
    requires lines != [] && IsLines(lines) && !Blank(Written(lines))
    requires forall k :: 0 <= k < |lines| ==> IsQuiet(lines[k]) || IsRuleForSome(lines[k], rules.targets)
    requires forall j :: 0 <= j < |rules.targets| ==> HasRule(lines, rules.targets[j])
    ensures IsBlock(rules, Written(lines))
  {
    SplitLinesJoin(lines);
    forall t ensures t in rules.targets <==> HasRule(lines, t) {
      if t in rules.targets {
        var j :| 0 <= j < |rules.targets| && rules.targets[j] == t;
      }
      if HasRule(lines, t) {
        var k :| 0 <= k < |lines| && IsRule(lines[k], t);
        IsRuleExactly(lines[k], t);
        assert !IsQuiet(lines[k]);
        var j :| 0 <= j < |rules.targets| && IsRule(lines[k], rules.targets[j]);
        OneTarget(lines[k], t, rules.targets[j]);
      }
    }
  }

  // ---------- an instance ----------

  const TWO := Rules("\n# new\n", ".PHONY: ", ["ci", "check"])

  /** A comment, a recipe and a prerequisite, all with colons. */
  function Good(): seq<string> {
    ["# ci: see below", "check:", "\trun: all", "", "ci: check"]
  }

  /** The same with a rule for something else. */
  function Bad(): seq<string> {
    Good() + ["deploy: check"]
  }

  lemma InstanceLines()
    ensures IsLines(Good()) && IsLines(Bad())
  {
    forall k | 0 <= k < |Bad()| ensures Free(Bad()[k], BREAK) {
    }
    forall k | 0 <= k < |Good()| ensures Good()[k] == Bad()[k] {
    }
  }

  lemma InstanceRules()
    ensures IsRule("check:", "check") && IsRule("ci: check", "ci") && IsRule("deploy: check", "deploy")
  {
    assert "check:" == "check" + ":" + "";
    assert "ci: check" == "ci" + ":" + " check";
    assert "deploy: check" == "deploy" + ":" + " check";
  }

  lemma NotBlank(lines: seq<string>)
    requires lines != [] && lines[0] != "" && !IsSpace(lines[0][0])
    ensures !Blank(Written(lines))
  {
    var text := Written(lines);
    assert text[0] == lines[0][0];
  }

  lemma InstanceIsBlock()
    ensures IsBlock(TWO, Written(Good()))
  {
    var lines := Good();
    InstanceLines();
    InstanceRules();
    NotBlank(lines);
    assert IsRule(lines[1], TWO.targets[1]) && IsRule(lines[4], TWO.targets[0]);
    assert IsQuiet(lines[0]) && IsQuiet(lines[2]) && IsQuiet(lines[3]);
    RulesMakeBlock(TWO, lines);
  }

  lemma MarkerOfTwo()
    ensures IsMarker(TWO.marker)
  {
  }

  lemma RuleWritten(lines: seq<string>, k: nat, target: string)
    requires IsLines(lines) && k < |lines| && IsRule(lines[k], target)
    ensures HasRule(SplitLines(Written(lines)), target)
  {
    SplitLinesJoin(lines);
  }

  lemma DeployIsOther()
    ensures "deploy" !in TWO.targets
  {
    assert |"deploy"| != |"ci"| && |"deploy"| != |"check"|;
  }

  lemma BadHasDeploy()
    ensures HasRule(SplitLines(Written(Bad())), "deploy")
  {
    InstanceLines();
    InstanceRules();
    RuleWritten(Bad(), 5, "deploy");
  }

  /** The extra rule is not overlooked for its prerequisite: whatever stands before the marker, the edit is refused. */
  lemma ExtraRuleRefused(base: string, prefix: string, block: string)
    requires block == Written(Bad()) && IsFresh(TWO.marker, prefix, block)
    ensures !IsAccepted(TWO, base, prefix + TWO.marker + block)
  {
    MarkerOfTwo();
    BadHasDeploy();
    DeployIsOther();
    OtherRulesRefused(TWO, base, prefix, block, "deploy");
  }

  /** Without it the block is proper, and an edit that keeps the base is accepted. */
  lemma GoodBlockAccepted(base: string, prefix: string, block: string, was: seq<string>)
    requires block == Written(Good()) && IsFresh(TWO.marker, prefix, block)
    requires HasLines(base, was) && KeepsLines(TWO, was, SplitLines(prefix))
    ensures IsAccepted(TWO, base, prefix + TWO.marker + block)
  {
    MarkerOfTwo();
    InstanceIsBlock();
    BlockDecides(TWO, base, prefix, block, was);
  }
}
