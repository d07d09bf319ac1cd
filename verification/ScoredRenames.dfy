/** What the parsers of git's listing make of a status: which texts are scores, and what follows them. */
module ScoredRenames {
  import opened Sequences
  import opened Wrappers
  import opened Numerals
  import opened Utf8
  import opened NameStatus

  /** A rename or copy with a similarity score, leading zeros included. */
  function Scored(letter: char, zeros: nat, score: nat): string {
    [letter] + (Zeros(zeros) + DecimalText(score))
  }

  predicate Readable(zeros: nat, score: nat) {
    score <= 100 && zeros + |DecimalText(score)| <= 4300
  }

  /** A score takes two paths exactly when it is no more than a hundred and short enough to be converted. */
  lemma ScoreTakesTwo(letter: char, zeros: nat, score: nat)
    requires letter == 'R' || letter == 'C'
    ensures PathCount(Scored(letter, zeros, score)) == if Readable(zeros, score) then 2 else 0
  {
    Cons(letter, Zeros(zeros) + DecimalText(score));
    ReadsBack(zeros, score);
  }

  /** Statuses that take two paths are scored renames and copies, and those that take one are four letters. */
  lemma StatusesExactly(status: string)
    ensures PathCount(status) == 1 <==> status == "A" || status == "D" || status == "M" || status == "T"
    ensures PathCount(status) == 2 ==> exists letter, zeros, score ::
              (letter == 'R' || letter == 'C') && Readable(zeros, score) && status == Scored(letter, zeros, score)
    ensures PathCount(status) <= 2
  {
    if PathCount(status) == 2 {
      var k := DigitsAreText(status[1..]);
      var n: nat := DecimalValue(status[1..]);
      Uncons(status);
      assert status == Scored(status[0], k, n);
      assert Readable(k, n);
    }
  }

  /** One scored rename as git prints it. */
  function Printed(status: Bytes, was: string, now: string): Bytes {
    status + [0] + (Encode(was) + [0]) + (Encode(now) + [0])
  }

  lemma AsciiStatus(letter: char, zeros: nat, score: nat)
    requires letter == 'R' || letter == 'C'
    ensures var status := Scored(letter, zeros, score);
            forall i :: 0 <= i < |status| ==> 0 as char < status[i] < 128 as char
  {
    var status, digits := Scored(letter, zeros, score), Zeros(zeros) + DecimalText(score);
    ReadsBack(zeros, score);
    forall i | 0 <= i < |status| ensures 0 as char < status[i] < 128 as char {
      if i > 0 {
        assert status[i] == digits[i - 1];
      }
    }
  }

  lemma ThreeFields(a: Bytes, b: Bytes, c: Bytes)
    requires 0 !in a && 0 !in b && 0 !in c
    ensures FieldsOf(a + [0] + (b + [0]) + (c + [0])) == Some([a, b, c])
  {
    var fields := [a, b, c];
    assert fields[1..] == [b, c] && [b, c][1..] == [c] && [c][1..] == [];
    assert Terminated([c]) == c + [0];
    assert Terminated([b, c]) == b + [0] + (c + [0]);
    assert Terminated(fields) == a + [0] + (b + [0]) + (c + [0]) by {
      Associate(a + [0], b + [0], c + [0]);
    }
    FieldsOfTerminated(a + [0] + (b + [0]) + (c + [0]), fields);
  }

  lemma TwoPaths(fields: seq<Bytes>, was: string, now: string)
    requires |fields| == 3 && DecodePath(fields[1]) == Some(was) && DecodePath(fields[2]) == Some(now)
    ensures DecodePaths(fields[1..3]) == Some([was, now])
  {
    assert fields[1..3] == [fields[1], fields[2]];
    DecodeTwo(fields[1], fields[2]);
  }

  lemma FirstOfThree(fields: seq<Bytes>, status: string, was: string, now: string)
    requires |fields| == 3 && AsciiText(fields[0]) == Some(status) && PathCount(status) != 1
    requires DecodePath(fields[1]) == Some(was) && DecodePath(fields[2]) == Some(now)
    ensures FirstChange(fields) == if PathCount(status) == 2 then Some(Change(status, [was, now])) else None
  {
    var n := PathCount(status);
    StatusesExactly(status);
    if n == 2 {
      TwoPaths(fields, was, now);
      assert fields[1..1 + n] == fields[1..3];
    }
  }

  lemma OneChange(fields: seq<Bytes>, c: Change)
    requires |fields| == 3 && FirstChange(fields) == Some(c) && |c.paths| == 2
    ensures ParseFields(fields) == Some([c])
  {
    var none := fields[1 + |c.paths|..];
    assert none == [] && ParseFields(none) == Some([]);
    Neutral([c]);
  }

  /** A scored rename of proper paths is read back with both its paths, in order, exactly when its score is readable. */
  lemma RenameIsRead(letter: char, zeros: nat, score: nat, was: string, now: string)
    requires (letter == 'R' || letter == 'C') && ValidPath(was) && ValidPath(now)
    ensures var status := Scored(letter, zeros, score);
            && (forall i :: 0 <= i < |status| ==> status[i] < 128 as char)
            && Parse(Printed(AsciiBytes(status), was, now))
               == if Readable(zeros, score) then Some([Change(status, [was, now])]) else None
  {
    var status := Scored(letter, zeros, score);
    AsciiStatus(letter, zeros, score);
    PathRoundTrip(Encode(was), was);
    PathRoundTrip(Encode(now), now);
    NoNul(status);
    ThreeFields(AsciiBytes(status), Encode(was), Encode(now));
    AsciiRoundTrip(AsciiBytes(status), status);
    ScoreTakesTwo(letter, zeros, score);
    var fields := [AsciiBytes(status), Encode(was), Encode(now)];
    FirstOfThree(fields, status, was, now);
    if Readable(zeros, score) {
      OneChange(fields, Change(status, [was, now]));
    }
  }

  lemma NoNul(status: string)
    requires forall i :: 0 <= i < |status| ==> 0 as char < status[i] < 128 as char
    ensures 0 !in AsciiBytes(status)
  {
  }

  lemma SpelledOut()
    ensures Scored('R', 1, 87) == "R087" && Readable(1, 87) && AsciiBytes("R087") == [82, 48, 56, 55]
  {
    assert DecimalText(8) == "8" && DigitOf(7) == '7';
    assert DecimalText(87) == "8" + "7";
    assert Zeros(1) == "0";
  }

  /** An instance: a rename with 87 percent similarity. */
  lemma EightySeven(was: string, now: string)
    requires ValidPath(was) && ValidPath(now)
    ensures Parse(Printed([82, 48, 56, 55], was, now)) == Some([Change("R087", [was, now])])
  {
    SpelledOut();
    RenameIsRead('R', 1, 87, was, now);
  }
}
