/** The privacy screen over an evidence summary, which looks at every depth. */
module SummarySafety {
  import opened Sequences
  import opened JsonValues

  /** What a gate refuses: field names, compared in lower case, and texts. */
  datatype Screen = Screen(forbiddenName: string -> bool, privateText: string -> bool)

  /** The recursion over objects and lists; only texts and field names are ever looked at. */
  predicate Safe(s: Screen, value: Json) {
    match value
    case JObj(fields) => forall k :: k in fields.Keys ==> !s.forbiddenName(k) && Safe(s, fields[k])
    case JList(items) => forall i :: 0 <= i < |items| ==> Safe(s, items[i])
    case JStr(text) => !s.privateText(text)
    case _ => true
  }

  datatype Step = Field(name: string) | Item(index: nat)

  predicate Has(value: Json, step: Step) {
    match step
    case Field(name) => value.JObj? && name in value.fields
    case Item(i) => value.JList? && i < |value.items|
  }

  function Child(value: Json, step: Step): (child: Json)
    requires Has(value, step)
  {
    match step
    case Field(name) => value.fields[name]
    case Item(i) => value.items[i]
  }

  /** A path of steps leads from a value to another inside it. */
  predicate Leads(value: Json, path: seq<Step>, to: Json)
    decreases |path|
  {
    if path == [] then value == to else Has(value, path[0]) && Leads(Child(value, path[0]), path[1..], to)
  }

  /** What is wrong with a place: a private text stands there, or a field with a forbidden name. */
  predicate Offends(s: Screen, value: Json) {
    (value.JStr? && s.privateText(value.text)) || (value.JObj? && exists k :: k in value.fields && s.forbiddenName(k))
  }

  ghost predicate OffendsSomewhere(s: Screen, value: Json) {
    exists path, to :: Leads(value, path, to) && Offends(s, to)
  }

  lemma ChildOffends(s: Screen, value: Json, step: Step)
    requires Has(value, step) && OffendsSomewhere(s, Child(value, step))
    ensures OffendsSomewhere(s, value)
  {
    var path, to :| Leads(Child(value, step), path, to) && Offends(s, to);
    Cons(step, path);
    assert Leads(value, [step] + path, to);
  }

  lemma OffenceWithin(s: Screen, value: Json) returns (step: Step)
    requires OffendsSomewhere(s, value) && !Offends(s, value)
    ensures Has(value, step) && OffendsSomewhere(s, Child(value, step))
  {
    var path, to :| Leads(value, path, to) && Offends(s, to);
    step := path[0];
    assert Leads(Child(value, step), path[1..], to);
  }

  /** The screen passes a summary exactly when nothing offends anywhere in it, at whatever depth. */
  lemma {:induction false} SafeExactlyWhenNothingOffends(s: Screen, value: Json)
    ensures Safe(s, value) <==> !OffendsSomewhere(s, value)
    decreases value
  {
    match value {
      case JObj(fields) =>
        forall k | k in fields.Keys ensures Safe(s, fields[k]) <==> !OffendsSomewhere(s, fields[k]) {
          SafeExactlyWhenNothingOffends(s, fields[k]);
        }
      case JList(items) =>
        forall i | 0 <= i < |items| ensures Safe(s, items[i]) <==> !OffendsSomewhere(s, items[i]) {
          SafeExactlyWhenNothingOffends(s, items[i]);
        }
      case _ =>
    }
    if Safe(s, value) && OffendsSomewhere(s, value) {
      SafeNotHere(s, value);
      var step := OffenceWithin(s, value);
      assert false;
    }
    if !Safe(s, value) && !Offends(s, value) {
      var step := UnsafeChild(s, value);
      ChildOffends(s, value, step);
    }
    if Offends(s, value) {
      assert Leads(value, [], value);
    }
  }

  lemma SafeNotHere(s: Screen, value: Json)
    requires Safe(s, value)
    ensures !Offends(s, value)
  {
  }

  lemma UnsafeChild(s: Screen, value: Json) returns (step: Step)
    requires !Safe(s, value) && !Offends(s, value)
    ensures Has(value, step) && !Safe(s, Child(value, step))
  {
    if value.JObj? {
      var k :| k in value.fields.Keys && !Safe(s, value.fields[k]);
      step := Field(k);
    } else {
      var i: nat :| i < |value.items| && !Safe(s, value.items[i]);
      step := Item(i);
    }
  }
}
