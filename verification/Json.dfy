/** Decoded JSON as Python holds it, and the two ways the gates compare it. */
module JsonValues {
  import opened Wrappers

  datatype Json =
    | JNull
    | JBool(flag: bool)
    | JInt(number: int)
    | JFloat(float: real)
    | JStr(text: string)
    | JList(items: seq<Json>)
    | JObj(fields: map<string, Json>)

  /** `value.get(key)`: a missing field reads as null. */
  function Get(fields: map<string, Json>, key: string): Json {
    if key in fields then fields[key] else JNull
  }

  /** The number behind a value; Python counts its booleans among the integers. */
  function Number(value: Json): Option<real> {
    match value
    case JBool(b) => Some(if b then 1.0 else 0.0)
    case JInt(i) => Some(i as real)
    case JFloat(r) => Some(r)
    case _ => None
  }

  /** Python's `==`, which lets `True`, `1` and `1.0` pass for each other at every depth. */
  predicate PyEqual(a: Json, b: Json)
    decreases b
  {
    match (a, b)
    case (JNull, JNull) => true
    case (JStr(s), JStr(t)) => s == t
    case (JList(s), JList(t)) => |s| == |t| && forall i :: 0 <= i < |s| ==> PyEqual(s[i], t[i])
    case (JObj(s), JObj(t)) => s.Keys == t.Keys && forall k :: k in t.Keys ==> PyEqual(s[k], t[k])
    case _ => Number(a).Some? && Number(a) == Number(b)
  }

  predicate SameType(a: Json, b: Json) {
    match (a, b)
    case (JNull, JNull) => true
    case (JBool(_), JBool(_)) => true
    case (JInt(_), JInt(_)) => true
    case (JFloat(_), JFloat(_)) => true
    case (JStr(_), JStr(_)) => true
    case (JList(_), JList(_)) => true
    case (JObj(_), JObj(_)) => true
    case _ => false
  }

  /** The comparison of the evidence gate: types first, then children, then Python's `==`. */
  predicate StrictEqual(actual: Json, expected: Json)
    decreases expected
  {
    if !SameType(actual, expected) then false
    else match expected
      case JObj(t) => actual.fields.Keys == t.Keys && forall k :: k in t.Keys ==> StrictEqual(actual.fields[k], t[k])
      case JList(t) => |actual.items| == |t| && forall i :: 0 <= i < |t| ==> StrictEqual(actual.items[i], t[i])
      case _ => PyEqual(actual, expected)
  }

  /** Strict comparison is identity: no boolean passes for a number at any depth. */
  lemma {:induction false} StrictEqualIsIdentity(actual: Json, expected: Json)
    ensures StrictEqual(actual, expected) <==> actual == expected
    decreases expected
  {
    match (actual, expected)
    case (JList(s), JList(t)) =>
      if |s| == |t| {
        forall i | 0 <= i < |s| ensures StrictEqual(s[i], t[i]) <==> s[i] == t[i] {
          StrictEqualIsIdentity(s[i], t[i]);
        }
        assert StrictEqual(actual, expected) ==> s == t;
      }
    case (JObj(s), JObj(t)) =>
      if s.Keys == t.Keys {
        forall k | k in t.Keys ensures StrictEqual(s[k], t[k]) <==> s[k] == t[k] {
          StrictEqualIsIdentity(s[k], t[k]);
        }
        assert StrictEqual(actual, expected) ==> s == t;
      }
    case _ =>
  }

  /** Python's `==` accepts whatever the strict comparison accepts, and more: here a boolean for a number. */
  lemma {:induction false} StrictIsFiner(actual: Json, expected: Json)
    ensures StrictEqual(actual, expected) ==> PyEqual(actual, expected)
    ensures PyEqual(JList([JBool(true)]), JList([JInt(1)])) && !StrictEqual(JList([JBool(true)]), JList([JInt(1)]))
  {
    StrictEqualIsIdentity(actual, expected);
    PyEqualReflexive(expected);
    assert PyEqual(JBool(true), JInt(1));
    StrictEqualIsIdentity(JList([JBool(true)]), JList([JInt(1)]));
    assert JList([JBool(true)]).items[0] != JList([JInt(1)]).items[0];
  }

  lemma {:induction false} PyEqualReflexive(value: Json)
    ensures PyEqual(value, value)
  {
    match value
    case JList(s) =>
      forall i | 0 <= i < |s| ensures PyEqual(s[i], s[i]) {
        PyEqualReflexive(s[i]);
      }
    case JObj(f) =>
      forall k | k in f.Keys ensures PyEqual(f[k], f[k]) {
        PyEqualReflexive(f[k]);
      }
    case _ =>
  }

  // ---------- building trees through the duplicate-rejecting hook ----------

  /** A JSON text after parsing: objects are still the pairs as written (section 4 of RFC 8259). */
  datatype Parsed =
    | Leaf(value: Json)
    | Sequence(children: seq<Parsed>)
    | Members(pairs: seq<(string, Parsed)>)

  predicate DistinctNames<K(==), T>(pairs: seq<(K, T)>) {
    forall i, j :: 0 <= i < j < |pairs| ==> pairs[i].0 != pairs[j].0
  }

  /** The dictionary that inserting pairs one after the other gives. */
  function ToMap<K, T>(pairs: seq<(K, T)>): map<K, T> {
    if pairs == [] then map[]
    else ToMap(pairs[..|pairs| - 1])[pairs[|pairs| - 1].0 := pairs[|pairs| - 1].1]
  }

  lemma {:induction false} ToMapNames<K, T>(pairs: seq<(K, T)>, name: K)
    ensures name in ToMap(pairs) <==> exists i :: 0 <= i < |pairs| && pairs[i].0 == name
  {
    if pairs != [] {
      var n := |pairs| - 1;
      ToMapNames(pairs[..n], name);
      if name in ToMap(pairs[..n]) {
        var i :| 0 <= i < n && pairs[..n][i].0 == name;
        assert pairs[i].0 == name;
      } else if exists i :: 0 <= i < |pairs| && pairs[i].0 == name {
        var i :| 0 <= i < |pairs| && pairs[i].0 == name;
        assert i < n ==> pairs[..n][i].0 == name;
      }
    }
  }

  /** With distinct names every pair has an entry of its own. */
  lemma {:induction false} ToMapEntries<K, T>(pairs: seq<(K, T)>)
    requires DistinctNames(pairs)
    ensures |ToMap(pairs)| == |pairs|
    ensures forall i :: 0 <= i < |pairs| ==> pairs[i].0 in ToMap(pairs) && ToMap(pairs)[pairs[i].0] == pairs[i].1
  {
    if pairs != [] {
      var n := |pairs| - 1;
      ToMapEntries(pairs[..n]);
      ToMapNames(pairs[..n], pairs[n].0);
      forall i | 0 <= i < n ensures pairs[i].0 in ToMap(pairs) && ToMap(pairs)[pairs[i].0] == pairs[i].1 {
        assert pairs[..n][i] == pairs[i];
      }
    }
  }

  /** The object hook: one entry for every pair, or a refusal when a name repeats. */
  method UniqueObject<T>(pairs: seq<(string, T)>) returns (r: Result<map<string, T>, string>)
    ensures r.Ok? <==> DistinctNames(pairs)
    ensures r.Ok? ==> |r.value| == |pairs|
    ensures r.Ok? ==> forall i :: 0 <= i < |pairs| ==>
                        pairs[i].0 in r.value && r.value[pairs[i].0] == pairs[i].1
    ensures r.Ok? ==> r.value == ToMap(pairs)
  {
    var value: map<string, T> := map[];
    for i := 0 to |pairs|
      invariant DistinctNames(pairs[..i])
      invariant value == ToMap(pairs[..i])
    {
      assert pairs[..i + 1][..i] == pairs[..i];
      ToMapNames(pairs[..i], pairs[i].0);
      if pairs[i].0 in value {
        return Err("P9 evidence summary contains a duplicate field");
      }
      forall j | 0 <= j < i ensures pairs[j].0 != pairs[i].0 {
        assert pairs[..i][j].0 == pairs[j].0;
      }
      value := value[pairs[i].0 := pairs[i].1];
    }
    assert pairs[..|pairs|] == pairs;
    ToMapEntries(pairs);
    return Ok(value);
  }

  /** Every object, at every depth, has distinct names; leaves are scalars. */
  predicate WellFormed(d: Parsed) {
    match d
    case Leaf(v) => !v.JList? && !v.JObj?
    case Sequence(c) => forall i :: 0 <= i < |c| ==> WellFormed(c[i])
    case Members(p) => DistinctNames(p) && forall i :: 0 <= i < |p| ==> WellFormed(p[i].1)
  }

  /** `json.loads` with the hook, which runs on the innermost objects first. */
  function Build(d: Parsed): Json {
    match d
    case Leaf(v) => v
    case Sequence(c) => JList(seq(|c|, i requires 0 <= i < |c| => Build(c[i])))
    case Members(p) => JObj(ToMap(seq(|p|, i requires 0 <= i < |p| => (p[i].0, Build(p[i].1)))))
  }

  /** Two parsed texts that differ at most in the order in which objects list their members. */
  predicate SameUpToOrder(a: Parsed, b: Parsed)
    decreases a
  {
    match (a, b)
    case (Leaf(v), Leaf(w)) => v == w
    case (Sequence(c), Sequence(d)) => |c| == |d| && forall i :: 0 <= i < |c| ==> SameUpToOrder(c[i], d[i])
    case (Members(p), Members(q)) =>
      && |p| == |q|
      && forall i :: 0 <= i < |p| ==> exists j :: 0 <= j < |q| && p[i].0 == q[j].0 && SameUpToOrder(p[i].1, q[j].1)
    case _ => false
  }

  /** With distinct names, two pair lists denote one dictionary exactly when they have the same pairs. */
  lemma SameDictionary<T>(p: seq<(string, T)>, q: seq<(string, T)>)
    requires DistinctNames(p) && DistinctNames(q)
    ensures ToMap(p) == ToMap(q) <==> |p| == |q| && forall x :: x in p ==> x in q
  {
    var m, n := ToMap(p), ToMap(q);
    ToMapEntries(p);
    ToMapEntries(q);
    if m == n {
      forall x | x in p ensures x in q {
        assert x.0 in n;
        ToMapNames(q, x.0);
      }
    } else if |p| == |q| && forall x :: x in p ==> x in q {
      forall k | k in m ensures k in n && m[k] == n[k] {
        ToMapNames(p, k);
        var i :| 0 <= i < |p| && p[i].0 == k;
        assert p[i] in q;
      }
      assert m.Keys <= n.Keys;
      SubsetOfSameSize(m.Keys, n.Keys);
    }
  }

  lemma SubsetOfSameSize<T>(a: set<T>, b: set<T>)
    requires a <= b && |a| == |b|
    ensures a == b
  {
    assert b == a + (b - a);
  }

  /** The pairs of an object once the objects inside it are built. */
  function BuiltPairs(p: seq<(string, Parsed)>): seq<(string, Json)> {
    seq(|p|, i requires 0 <= i < |p| => (p[i].0, Build(p[i].1)))
  }

  lemma SamePairs(p: seq<(string, Parsed)>, q: seq<(string, Parsed)>)
    requires DistinctNames(p) && DistinctNames(q)
    requires forall i, j :: 0 <= i < |p| && 0 <= j < |q| ==>
               (Build(p[i].1) == Build(q[j].1) <==> SameUpToOrder(p[i].1, q[j].1))
    ensures Build(Members(p)) == Build(Members(q)) <==> SameUpToOrder(Members(p), Members(q))
  {
    var x, y := BuiltPairs(p), BuiltPairs(q);
    SameDictionary(x, y);
    assert Build(Members(p)) == JObj(ToMap(x)) && Build(Members(q)) == JObj(ToMap(y));
    forall i | 0 <= i < |p|
      ensures x[i] in y <==> exists j :: 0 <= j < |q| && p[i].0 == q[j].0 && SameUpToOrder(p[i].1, q[j].1)
    {
      MatchingPair(p, q, i);
    }
    AllIn(x, y);
  }

  lemma MatchingPair(p: seq<(string, Parsed)>, q: seq<(string, Parsed)>, i: nat)
    requires i < |p|
    requires forall j :: 0 <= j < |q| ==> (Build(p[i].1) == Build(q[j].1) <==> SameUpToOrder(p[i].1, q[j].1))
    ensures BuiltPairs(p)[i] in BuiltPairs(q)
        <==> exists j :: 0 <= j < |q| && p[i].0 == q[j].0 && SameUpToOrder(p[i].1, q[j].1)
  {
    var x, y := BuiltPairs(p), BuiltPairs(q);
    forall j | 0 <= j < |q| ensures x[i] == y[j] <==> p[i].0 == q[j].0 && SameUpToOrder(p[i].1, q[j].1) {
    }
  }

  lemma AllIn<T>(x: seq<T>, y: seq<T>)
    ensures (forall e :: e in x ==> e in y) <==> forall i :: 0 <= i < |x| ==> x[i] in y
  {
  }

  lemma SameSequences(c: seq<Parsed>, d: seq<Parsed>)
    requires forall i :: 0 <= i < |c| && i < |d| ==> (Build(c[i]) == Build(d[i]) <==> SameUpToOrder(c[i], d[i]))
    ensures Build(Sequence(c)) == Build(Sequence(d)) <==> SameUpToOrder(Sequence(c), Sequence(d))
  {
    var x, y := Build(Sequence(c)).items, Build(Sequence(d)).items;
    assert forall i :: 0 <= i < |c| ==> x[i] == Build(c[i]);
    assert forall i :: 0 <= i < |d| ==> y[i] == Build(d[i]);
    assert x == y <==> |c| == |d| && forall i :: 0 <= i < |c| ==> x[i] == y[i];
  }

  lemma {:induction false} BuildSameUpToOrder(a: Parsed, b: Parsed)
    requires WellFormed(a) && WellFormed(b)
    ensures Build(a) == Build(b) <==> SameUpToOrder(a, b)
    decreases a
  {
    match (a, b)
    case (Sequence(c), Sequence(d)) =>
      forall i | 0 <= i < |c| && i < |d| ensures Build(c[i]) == Build(d[i]) <==> SameUpToOrder(c[i], d[i]) {
        BuildSameUpToOrder(c[i], d[i]);
      }
      SameSequences(c, d);
    case (Members(p), Members(q)) =>
      forall i, j | 0 <= i < |p| && 0 <= j < |q|
        ensures Build(p[i].1) == Build(q[j].1) <==> SameUpToOrder(p[i].1, q[j].1)
      {
        BuildSameUpToOrder(p[i].1, q[j].1);
      }
      SamePairs(p, q);
    case _ =>
  }

  /** Building and strict comparison together forget nothing but the order of object members. */
  lemma BuildForgetsOrderOnly(a: Parsed, b: Parsed)
    requires WellFormed(a) && WellFormed(b)
    ensures StrictEqual(Build(a), Build(b)) <==> SameUpToOrder(a, b)
  {
    StrictEqualIsIdentity(Build(a), Build(b));
    BuildSameUpToOrder(a, b);
  }
}
