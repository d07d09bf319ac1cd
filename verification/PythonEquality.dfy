/** Python's `==` on decoded JSON is equality of values that hold one kind of number. */
module PythonEquality {
  import opened JsonValues

  /** A value without the difference between booleans, integers and floats. */
  datatype Plain =
    | PlainNull
    | PlainNumber(number: real)
    | PlainText(text: string)
    | PlainList(items: seq<Plain>)
    | PlainObject(fields: map<string, Plain>)

  function PlainOf(value: Json): Plain {
    match value
    case JNull => PlainNull
    case JBool(b) => PlainNumber(if b then 1.0 else 0.0)
    case JInt(i) => PlainNumber(i as real)
    case JFloat(r) => PlainNumber(r)
    case JStr(s) => PlainText(s)
    case JList(items) => PlainList(seq(|items|, i requires 0 <= i < |items| => PlainOf(items[i])))
    case JObj(fields) => PlainObject(map k | k in fields :: PlainOf(fields[k]))
  }

  lemma SameItems(s: seq<Json>, t: seq<Json>)
    ensures PlainOf(JList(s)) == PlainOf(JList(t))
            <==> |s| == |t| && forall i :: 0 <= i < |s| ==> PlainOf(s[i]) == PlainOf(t[i])
  {
    var p, q := PlainOf(JList(s)).items, PlainOf(JList(t)).items;
    assert |p| == |s| && |q| == |t|;
    if p == q {
      forall i | 0 <= i < |s| ensures PlainOf(s[i]) == PlainOf(t[i]) {
        assert p[i] == PlainOf(s[i]) && q[i] == PlainOf(t[i]);
      }
    }
    if |s| == |t| && forall i :: 0 <= i < |s| ==> PlainOf(s[i]) == PlainOf(t[i]) {
      assert p == q;
    }
  }

  lemma SameFields(s: map<string, Json>, t: map<string, Json>)
    ensures PlainOf(JObj(s)) == PlainOf(JObj(t))
            <==> s.Keys == t.Keys && forall k :: k in s ==> PlainOf(s[k]) == PlainOf(t[k])
  {
    var p, q := PlainOf(JObj(s)).fields, PlainOf(JObj(t)).fields;
    assert p.Keys == s.Keys && q.Keys == t.Keys;
    if p == q {
      forall k | k in s ensures PlainOf(s[k]) == PlainOf(t[k]) {
        assert p[k] == PlainOf(s[k]) && q[k] == PlainOf(t[k]);
      }
    }
    if s.Keys == t.Keys && forall k :: k in s ==> PlainOf(s[k]) == PlainOf(t[k]) {
      assert p == q;
    }
  }

  /** Two values are equal to Python exactly when they are the same with all numbers of one kind: at every depth. */
  lemma {:induction false} PyEqualExactly(a: Json, b: Json)
    ensures PyEqual(a, b) <==> PlainOf(a) == PlainOf(b)
    decreases b
  {
    match (a, b)
    case (JList(s), JList(t)) =>
      forall i | 0 <= i < |s| && i < |t| ensures PyEqual(s[i], t[i]) <==> PlainOf(s[i]) == PlainOf(t[i]) {
        PyEqualExactly(s[i], t[i]);
      }
      SameItems(s, t);
    case (JObj(s), JObj(t)) =>
      forall k | k in s && k in t ensures PyEqual(s[k], t[k]) <==> PlainOf(s[k]) == PlainOf(t[k]) {
        PyEqualExactly(s[k], t[k]);
      }
      SameFields(s, t);
    case _ =>
  }
}
