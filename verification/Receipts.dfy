/** Provenance receipts: every changed file is accounted for by exactly one entry. */
module Receipts {
  import opened Sequences
  import opened Wrappers
  import opened Ordering
  import opened Paths
  import opened JsonValues

  datatype ReceiptError =
    FieldsUnsafe | ClassificationInvalid | DestinationInvalid | DestinationsDuplicated | CoverageIncomplete

  /** The fields an entry must hold besides its destination, with their values. */
  type Terms = map<string, Json>

  /** How a destination is validated: leniently by the older script, strictly by the newer one. */
  type PathCheck = string -> Option<string>

  const DESTINATION := "destination"

  /** The checks on one entry, in order, and the path it accounts for. */
  function Destination(t: Terms, safe: PathCheck, entry: Json): Result<string, ReceiptError> {
    if !entry.JObj? || entry.fields.Keys != t.Keys + {DESTINATION} then Err(FieldsUnsafe)
    else if exists k :: k in t && !PyEqual(entry.fields[k], t[k]) then Err(ClassificationInvalid)
    else
      var value := entry.fields[DESTINATION];
      if !value.JStr? || safe(value.text).None? then Err(DestinationInvalid)
      else Ok(safe(value.text).value)
  }

  type Reading = Json -> Result<string, ReceiptError>

  function ReadingOf(t: Terms, safe: PathCheck): Reading {
    (entry: Json) => Destination(t, safe, entry)
  }

  /** Every entry is in order, and these are the paths they account for. */
  predicate Names(read: Reading, entries: seq<Json>, names: seq<string>) {
    |names| == |entries| && forall i :: 0 <= i < |entries| ==> read(entries[i]) == Ok(names[i])
  }

  /** The entries account for these paths, each for one of its own. */
  ghost predicate Covers(read: Reading, entries: seq<Json>, paths: set<string>) {
    exists names :: Names(read, entries, names) && Distinct(names) && Elements(names) == paths
  }

  /** The destinations of the entries, the second of two equal ones refused. */
  method CollectDestinations(read: Reading, entries: seq<Json>) returns (r: Result<set<string>, ReceiptError>)
    ensures r.Ok? <==> exists paths :: Covers(read, entries, paths)
    ensures r.Ok? ==> Covers(read, entries, r.value) && |r.value| == |entries|
  {
    var destinations: set<string> := {};
    ghost var names: seq<string> := [];
    for i := 0 to |entries|
      invariant Names(read, entries[..i], names) && Distinct(names)
      invariant destinations == Elements(names) && |destinations| == i
    {
      var destination := read(entries[i]);
      if destination.Err? {
        RefusedEntry(read, entries, i);
        return Err(destination.error);
      }
      if destination.value in destinations {
        RepeatedName(read, entries, i, names, destination.value);
        return Err(DestinationsDuplicated);
      }
      TakeStep(entries, i);
      ElementsAppend(names, destination.value);
      names := names + [destination.value];
      destinations := destinations + {destination.value};
    }
    Neutral(entries);
    Covering(read, entries, names);
    return Ok(destinations);
  }

  lemma Covering(read: Reading, entries: seq<Json>, names: seq<string>)
    requires Names(read, entries, names) && Distinct(names)
    ensures Covers(read, entries, Elements(names))
  {
  }

  lemma RefusedEntry(read: Reading, entries: seq<Json>, i: nat)
    requires i < |entries| && read(entries[i]).Err?
    ensures forall paths :: !Covers(read, entries, paths)
  {
  }

  /** The receipt must account for exactly the changed files. */
  method CheckCoverage(t: Terms, safe: PathCheck, entries: seq<Json>, actual: set<string>)
      returns (r: Result<nat, ReceiptError>)
    ensures r.Ok? <==> Covers(ReadingOf(t, safe), entries, actual)
    ensures r.Ok? ==> r.value == |entries| == |actual|
  {
    var read := ReadingOf(t, safe);
    var destinations := CollectDestinations(read, entries);
    if destinations.Err? {
      return Err(destinations.error);
    }
    OneCoverage(read, entries, destinations.value, actual);
    if destinations.value != actual {
      return Err(CoverageIncomplete);
    }
    return Ok(|destinations.value|);
  }

  lemma ElementsAppend(names: seq<string>, next: string)
    requires Distinct(names) && next !in names
    ensures Elements(names + [next]) == Elements(names) + {next} && Distinct(names + [next])
  {
  }

  lemma RepeatedName(read: Reading, entries: seq<Json>, i: nat, names: seq<string>, next: string)
    requires i < |entries| && Names(read, entries[..i], names) && read(entries[i]) == Ok(next) && next in names
    ensures forall paths :: !Covers(read, entries, paths)
  {
    var j :| 0 <= j < i && names[j] == next;
    assert entries[..i][j] == entries[j];
    forall other | Names(read, entries, other) ensures !Distinct(other) {
      assert other[j] == other[i];
    }
  }

  /** Entries account for one set of paths only. */
  lemma OneCoverage(read: Reading, entries: seq<Json>, paths: set<string>, others: set<string>)
    requires Covers(read, entries, paths)
    ensures Covers(read, entries, others) <==> paths == others
  {
    var names :| Names(read, entries, names) && Distinct(names) && Elements(names) == paths;
    if Covers(read, entries, others) {
      var more :| Names(read, entries, more) && Distinct(more) && Elements(more) == others;
      assert forall i :: 0 <= i < |entries| ==> read(entries[i]) == Ok(names[i]) == Ok(more[i]);
      assert names == more;
    }
  }

  // ---------- what coverage means ----------

  /** One entry, and no other, accounts for a path. */
  ghost predicate AccountedOnce(read: Reading, entries: seq<Json>, path: string) {
    exists i :: 0 <= i < |entries| && read(entries[i]) == Ok(path)
                && forall j :: 0 <= j < |entries| && j != i ==> read(entries[j]) != Ok(path)
  }

  /** Coverage is exact: entries are in order, account for changed files only, and every one is accounted for once. */
  lemma CoverageIsOneToOne(read: Reading, entries: seq<Json>, paths: set<string>)
    ensures Covers(read, entries, paths) <==>
              && (forall i :: 0 <= i < |entries| ==> read(entries[i]).Ok? && read(entries[i]).value in paths)
              && (forall p :: p in paths ==> AccountedOnce(read, entries, p))
  {
    if Covers(read, entries, paths) {
      var names :| Names(read, entries, names) && Distinct(names) && Elements(names) == paths;
      forall i | 0 <= i < |entries| ensures read(entries[i]).Ok? && read(entries[i]).value in paths {
        assert names[i] in Elements(names);
      }
      forall p | p in paths ensures AccountedOnce(read, entries, p) {
        assert p in Elements(names);
        var i :| 0 <= i < |names| && names[i] == p;
        forall j | 0 <= j < |entries| && j != i ensures read(entries[j]) != Ok(p) {
          assert names[i] != names[j];
        }
      }
    }
    if (forall i :: 0 <= i < |entries| ==> read(entries[i]).Ok? && read(entries[i]).value in paths)
       && forall p :: p in paths ==> AccountedOnce(read, entries, p) {
      var names := seq(|entries|, i requires 0 <= i < |entries| => read(entries[i]).value);
      forall i, j | 0 <= i < j < |names| ensures names[i] != names[j] {
        assert AccountedOnce(read, entries, names[i]);
      }
      forall p ensures p in Elements(names) <==> p in paths {
        if p in paths {
          assert AccountedOnce(read, entries, p);
          var i :| 0 <= i < |entries| && read(entries[i]) == Ok(p);
          assert names[i] == p;
        }
      }
      assert Names(read, entries, names);
    }
  }

  // ---------- the two scripts ----------

  /** An entry with the normal spelling of its destination, where there is one. */
  function Respelled(entry: Json): Json {
    if entry.JObj? && DESTINATION in entry.fields && entry.fields[DESTINATION].JStr?
       && Lenient(entry.fields[DESTINATION].text).Some? then
      JObj(entry.fields[DESTINATION := JStr(Lenient(entry.fields[DESTINATION].text).value)])
    else entry
  }

  function AllRespelled(entries: seq<Json>): seq<Json> {
    seq(|entries|, i requires 0 <= i < |entries| => Respelled(entries[i]))
  }

  lemma StrictFixesRespelled(value: string)
    ensures Lenient(value).Some? ==> Strict(Lenient(value).value) == Lenient(value)
    ensures Lenient(value).None? ==> Strict(value).None?
  {
    StrictIsFixedPoint(value);
    if Lenient(value).Some? {
      LenientIdempotent(value);
    }
  }

  lemma ReplacedDestination(t: Terms, safe: PathCheck, entry: Json, text: string)
    requires DESTINATION !in t && entry.JObj? && entry.fields.Keys == t.Keys + {DESTINATION}
    ensures var other := JObj(entry.fields[DESTINATION := JStr(text)]);
            var ready := forall k :: k in t ==> PyEqual(entry.fields[k], t[k]);
            Destination(t, safe, other)
            == if !ready then Err(ClassificationInvalid) else if safe(text).None? then Err(DestinationInvalid)
                else Ok(safe(text).value)
  {
    var other := JObj(entry.fields[DESTINATION := JStr(text)]);
    assert other.fields.Keys == entry.fields.Keys;
    assert forall k :: k in t ==> other.fields[k] == entry.fields[k];
  }

  /** The older script reads an entry as the newer one reads its normal spelling. */
  lemma LenientReadsNormalSpelling(t: Terms, entry: Json)
    requires DESTINATION !in t
    ensures Destination(t, Lenient, entry) == Destination(t, Strict, Respelled(entry))
  {
    if entry.JObj? && entry.fields.Keys == t.Keys + {DESTINATION} && entry.fields[DESTINATION].JStr? {
      var text := entry.fields[DESTINATION].text;
      assert entry == JObj(entry.fields[DESTINATION := JStr(text)]);
      ReplacedDestination(t, Lenient, entry, text);
      StrictFixesRespelled(text);
      if Lenient(text).Some? {
        ReplacedDestination(t, Strict, entry, Lenient(text).value);
      } else {
        ReplacedDestination(t, Strict, entry, text);
      }
    }
  }

  /**
   * The older script accepts a receipt exactly when the newer one
   * accepts it with every destination in normal spelling.
   */
  lemma LenientIsStrictUpToSpelling(t: Terms, entries: seq<Json>, paths: set<string>)
    requires DESTINATION !in t
    ensures Covers(ReadingOf(t, Lenient), entries, paths)
        <==> Covers(ReadingOf(t, Strict), AllRespelled(entries), paths)
  {
    var normal := AllRespelled(entries);
    forall i | 0 <= i < |entries| ensures ReadingOf(t, Lenient)(entries[i]) == ReadingOf(t, Strict)(normal[i]) {
      LenientReadsNormalSpelling(t, entries[i]);
    }
    if Covers(ReadingOf(t, Lenient), entries, paths) {
      SameReadings(ReadingOf(t, Lenient), entries, ReadingOf(t, Strict), normal, paths);
    }
    if Covers(ReadingOf(t, Strict), normal, paths) {
      SameReadings(ReadingOf(t, Strict), normal, ReadingOf(t, Lenient), entries, paths);
    }
  }

  lemma SameReadings(read: Reading, entries: seq<Json>, other: Reading, others: seq<Json>, paths: set<string>)
    requires |entries| == |others| && forall i :: 0 <= i < |entries| ==> read(entries[i]) == other(others[i])
    requires Covers(read, entries, paths)
    ensures Covers(other, others, paths)
  {
    var names :| Names(read, entries, names) && Distinct(names) && Elements(names) == paths;
    assert Names(other, others, names);
  }

  /** Whatever the newer script accepts, the older one accepts. */
  lemma StrictAcceptanceCarriesOver(t: Terms, entries: seq<Json>, paths: set<string>)
    requires DESTINATION !in t && Covers(ReadingOf(t, Strict), entries, paths)
    ensures Covers(ReadingOf(t, Lenient), entries, paths)
  {
    var names :| Names(ReadingOf(t, Strict), entries, names) && Distinct(names) && Elements(names) == paths;
    forall i | 0 <= i < |entries| ensures ReadingOf(t, Lenient)(entries[i]) == Ok(names[i]) {
      assert ReadingOf(t, Strict)(entries[i]) == Ok(names[i]);
      StrictIsFixedPoint(entries[i].fields[DESTINATION].text);
    }
    assert Names(ReadingOf(t, Lenient), entries, names);
  }

  /** Two entries the older script accepts never spell one path in two ways. */
  lemma SpellingsCaught(t: Terms, entries: seq<Json>, paths: set<string>, i: nat, j: nat)
    requires Covers(ReadingOf(t, Lenient), entries, paths) && i < j < |entries|
    ensures entries[i].JObj? && entries[j].JObj? && DESTINATION in entries[i].fields && DESTINATION in entries[j].fields
    ensures var v, w := entries[i].fields[DESTINATION], entries[j].fields[DESTINATION];
            v.JStr? && w.JStr? && Parts(v.text) != Parts(w.text)
  {
    var names :| Names(ReadingOf(t, Lenient), entries, names) && Distinct(names) && Elements(names) == paths;
    assert ReadingOf(t, Lenient)(entries[i]) == Ok(names[i]) && ReadingOf(t, Lenient)(entries[j]) == Ok(names[j]);
    assert names[i] != names[j];
    LenientIdentifiesSpellings(entries[i].fields[DESTINATION].text, entries[j].fields[DESTINATION].text);
  }
}
