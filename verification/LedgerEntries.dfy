/** What an exception and a receipt entry have to say, field by field, and what a scan looks at in a file. */
module LedgerEntries {
  import opened Sequences
  import opened Wrappers
  import opened Text
  import opened Utf8
  import opened Paths
  import opened JsonValues
  import opened BoundaryScan
  import Receipts

  predicate Says(fields: map<string, Json>, key: string, text: string) {
    key in fields && fields[key] == JStr(text)
  }

  // ---------- exceptions ----------

  /** The text names one file: relative, going nowhere up, with no wildcard in it; and this is its normal spelling. */
  predicate NamesFile(text: string, path: string) {
    && text != "" && text[0] != '/' && text[|text| - 1] != '/' && ".." !in Split(text, '/')
    && (forall i :: 0 <= i < |text| ==> text[i] != '*' && text[i] != '?' && text[i] != '[' && text[i] != ']')
    && Strict(path).Some? && Parts(path) == Parts(text)
  }

  lemma OneNormal(text: string, path: string)
    requires Lenient(text).Some?
    ensures Lenient(text) == Some(path) <==> Strict(path).Some? && Parts(path) == Parts(text)
  {
    LenientIdempotent(text);
    if Strict(path).Some? && Parts(path) == Parts(text) {
      StrictIsFixedPoint(path);
      LenientIdentifiesSpellings(path, text);
    }
  }

  lemma SafeRelativeExactly(value: Json, path: string)
    ensures SafeRelative(value) == Some(path) <==> value.JStr? && NamesFile(value.text, path)
  {
    if value.JStr? {
      LenientExactly(value.text);
      if Lenient(value.text).Some? {
        OneNormal(value.text, path);
      }
    }
  }

  /** The label and sixty-four characters that read as bytes. */
  predicate IsDigestText(fromHex: string -> bool, digest: string) {
    |digest| == 71 && digest[..7] == "sha256:" && fromHex(digest[7..])
  }

  predicate HasText(fields: map<string, Json>, key: string) {
    key in fields && fields[key].JStr?
  }

  /** An exception excuses a finding exactly when each of its fields is in order and names that finding. */
  predicate Excuses(t: Terms, fields: map<string, Json>, f: Finding, digest: string) {
    && fields.Keys == t.fields
    && HasText(fields, "path") && NamesFile(fields["path"].text, f.path)
    && Says(fields, "rule_id", f.rule) && f.rule in t.rules
    && Says(fields, "digest", digest) && IsDigestText(t.fromHex, digest)
    && HasText(fields, "reason") && |fields["reason"].text| >= 20
    && HasText(fields, "approved_by_role") && fields["approved_by_role"].text in t.roles
  }

  lemma EntryExactly(t: Terms, raw: Json, f: Finding, digest: string)
    ensures Entry(t, raw) == Ok((f, digest)) <==> raw.JObj? && Excuses(t, raw.fields, f, digest)
  {
    if raw.JObj? {
      SafeRelativeExactly(Get(raw.fields, "path"), f.path);
      Labels(digest);
    }
  }

  lemma Labels(digest: string)
    ensures |digest| == 71 ==> (StartsWith(digest, "sha256:") <==> digest[..7] == "sha256:")
  {
  }

  // ---------- files ----------

  /** Git's own entry at the root, and what is below it if it is a directory, is not looked at. */
  lemma SkippedExactly(s: Scanner, path: string)
    ensures Skipped(s, path) <==>
              || (s.git == GitFile && path == ".git")
              || (s.git == Directory && (path == ".git" || exists rest :: path == ".git/" + rest))
  {
    if s.git == Directory {
      var head, tail := Before(path, '/'), From(path, '/');
      if head == ".git" && tail != [] {
        Uncons(tail);
        Associate(".git", "/", tail[1..]);
        assert path == ".git/" + tail[1..];
      }
      if path == ".git" || exists rest :: path == ".git/" + rest {
        var more := path[4..];
        assert path == ".git" + more;
        BeforeAppend(".git", more, '/');
        GitAlone();
      }
    }
  }

  lemma GitAlone()
    ensures Before(".git", '/') == ".git"
  {
    assert ".git"[1..] == "git" && "git"[1..] == "it" && "it"[1..] == "t" && "t"[1..] == "";
    assert Before("t", '/') == "t" && Before("it", '/') == "it" && Before("git", '/') == "git";
  }

  /** A file that is the encoding of a text has the rules of that text; any other has the rule for the undecodable. */
  lemma RulesOfExactly(s: Scanner, content: Bytes, text: string)
    ensures content == Encode(text) ==> RulesOf(s, content) == s.rulesFor(text)
    ensures (forall t: string :: content != Encode(t)) ==> RulesOf(s, content) == {UNDECODABLE}
  {
    DecodeEncode(text);
    if Decode(content).Some? {
      EncodeDecode(content);
    }
  }

  /** A file counts, whether it can be read or not, and with its size if it can; links and what git skips do not. */
  lemma TotalsExactly(s: Scanner, tree: seq<Document>, path: string, content: Bytes)
    requires !Skipped(s, path)
    ensures FilesIn(s, []) == 0 == BytesIn(s, [])
    ensures FilesIn(s, tree + [Document(path, File(content))]) == FilesIn(s, tree) + 1
    ensures BytesIn(s, tree + [Document(path, File(content))]) == BytesIn(s, tree) + |content|
    ensures FilesIn(s, tree + [Document(path, Unreadable)]) == FilesIn(s, tree) + 1
    ensures BytesIn(s, tree + [Document(path, Unreadable)]) == BytesIn(s, tree)
  {
    assert (tree + [Document(path, File(content))])[..|tree|] == tree;
    assert (tree + [Document(path, Unreadable)])[..|tree|] == tree;
  }

  lemma NothingCounted(s: Scanner, tree: seq<Document>, d: Document)
    requires Skipped(s, d.path) || d.node == Symlink || d.node == Irregular
    ensures FilesIn(s, tree + [d]) == FilesIn(s, tree) && BytesIn(s, tree + [d]) == BytesIn(s, tree)
  {
    assert (tree + [d])[..|tree|] == tree;
  }

  /** The exceptions' version: one, however the number is written, and the policy's name. */
  lemma VersionedExactly(fields: map<string, Json>)
    ensures Versioned(fields) <==>
              && "schema_version" in fields
              && (match fields["schema_version"]
                  case JInt(n) => n == 1
                  case JFloat(x) => x == 1.0
                  case JBool(b) => b
                  case _ => false)
              && Says(fields, "policy_version", "p0-v1")
  {
  }

  // ---------- receipts ----------

  /** An entry accounts for a path: it has the fixed fields and a destination, nothing else, and the path is that. */
  ghost predicate Accounts(t: Receipts.Terms, safe: Receipts.PathCheck, entry: Json, path: string) {
    && entry.JObj? && entry.fields.Keys == t.Keys + {"destination"}
    && (forall k :: k in t ==> PyEqual(entry.fields[k], t[k]))
    && exists text :: Says(entry.fields, "destination", text) && safe(text) == Some(path)
  }

  lemma DestinationExactly(t: Receipts.Terms, safe: Receipts.PathCheck, entry: Json, path: string)
    ensures Receipts.Destination(t, safe, entry) == Ok(path) <==> Accounts(t, safe, entry, path)
  {
    if Receipts.Destination(t, safe, entry) == Ok(path) {
      assert Says(entry.fields, "destination", entry.fields["destination"].text);
    }
  }
}
