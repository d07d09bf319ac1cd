/** The texts a release policy holds: run identities, digests and revisions, each told by what it is the text of. */
module ReleaseTexts {
  import opened Sequences
  import opened Wrappers
  import opened Numerals
  import opened Utf8
  import opened Framing
  import opened JsonValues
  import opened OciLayout
  import opened RemotePolicy

  lemma FirstOfZeros(k: nat, s: string)
    ensures k > 0 ==> (Zeros(k) + s)[0] == '0'
  {
  }

  /** A run's identity is the text of a positive number. */
  lemma IsRunIdExactly(text: string)
    ensures IsRunId(text) <==> exists n: nat :: n > 0 && text == DecimalText(n)
  {
    if IsRunId(text) {
      var k := DigitsAreText(text);
      var n: nat := DecimalValue(text);
      FirstOfZeros(k, DecimalText(n));
      assert Zeros(0) == "";
      Neutral(DecimalText(n));
      assert text == DecimalText(n);
      assert n == 0 ==> text == "0";
    }
    if n: nat :| n > 0 && text == DecimalText(n) {
      NoLeadingZero(n);
    }
  }

  /** A digest is the label and the text of thirty-two bytes. */
  lemma IsDigestExactly(text: string)
    ensures IsDigest(text) <==> exists b: Bytes :: |b| == 32 && text == "sha256:" + Hex(b)
  {
    if IsDigest(text) {
      var b := HexOnto(Encoded(text));
      TakeDrop(text, 7);
      assert text == "sha256:" + Hex(b);
    }
    if b: Bytes :| |b| == 32 && text == "sha256:" + Hex(b) {
      HexSpells(b);
      TakeAppend("sha256:", Hex(b));
    }
  }

  /** A revision is the text of twenty bytes. */
  lemma IsRevisionExactly(text: string)
    ensures IsRevision(JStr(text)) <==> exists b: Bytes :: |b| == 20 && text == Hex(b)
  {
    if IsRevision(JStr(text)) {
      var b := HexOnto(text);
    }
    if b: Bytes :| |b| == 20 && text == Hex(b) {
      HexSpells(b);
    }
  }

  /** The address of a run tells its identity. */
  lemma RunUrlTells(t: Tables, id: string, other: string)
    ensures RunUrl(t, id) == RunUrl(t, other) <==> id == other
    ensures |RunUrl(t, id)| == |t.repository| + |id| + 33
  {
    var stem := "https://github.com/" + t.repository + "/actions/runs/";
    TakeAppend(stem, id);
    TakeAppend(stem, other);
  }

  /** The three states a policy can say it is in. */
  lemma LifecycleExactly(value: Json, l: Lifecycle)
    ensures LifecycleOf(value) == Some(l) <==>
              || (value == JStr("authorized_pending") && l == AuthorizedPending)
              || (value == JStr("published_pending_verification") && l == PublishedPendingVerification)
              || (value == JStr("passed") && l == Passed)
  {
    LifecycleTexts(AuthorizedPending);
    LifecycleTexts(PublishedPendingVerification);
    LifecycleTexts(Passed);
  }
}
