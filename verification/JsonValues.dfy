// JSON values: an object is kept in ascending key order, each key once.

module JsonValues {
  import opened Types
  import opened Doubles
  import opened Ordering

  datatype Value =
    | Null
    | Bool(flag: bool)
    | Int(i: int64)
    | Uint(u: uint64)
    | Double(number: Float64)
    | String(s: string)
    | Array(items: seq<Value>)
    | Object(fields: seq<Field>)

  datatype Field = Field(key: string, value: Value)

  // ---- Objects --------------------------------------------------------------------

  // Inserts at the place of the key, or overwrites.
  function SetField(fs: seq<Field>, k: string, v: Value): seq<Field> {
    if fs == [] then [Field(k, v)]
    else if fs[0].key == k then [Field(k, v)] + fs[1..]
    else if StringLess(k, fs[0].key) then [Field(k, v)] + fs
    else [fs[0]] + SetField(fs[1..], k, v)
  }

  function FindField(fs: seq<Field>, k: string): Option<Value> {
    if fs == [] then None
    else if fs[0].key == k then Some(fs[0].value)
    else FindField(fs[1..], k)
  }

  ghost predicate Ascending(fs: seq<Field>) {
    forall i, j :: 0 <= i < j < |fs| ==> StringLess(fs[i].key, fs[j].key)
  }

  // What was set is found, and nothing else changes.
  lemma {:induction false} FindAfterSet(fs: seq<Field>, k: string, v: Value, q: string)
    ensures FindField(SetField(fs, k, v), q) == if q == k then Some(v) else FindField(fs, q)
  {
    if fs != [] && fs[0].key != k && !StringLess(k, fs[0].key) {
      FindAfterSet(fs[1..], k, v, q);
    }
  }

  // Setting adds one field at most and takes every other value from the old object.
  lemma {:induction false} SetFieldOrigin(fs: seq<Field>, k: string, v: Value)
    ensures |SetField(fs, k, v)| <= |fs| + 1
    ensures forall f :: f in SetField(fs, k, v) ==> f in fs || f == Field(k, v)
  {
    if fs != [] && fs[0].key != k && !StringLess(k, fs[0].key) {
      SetFieldOrigin(fs[1..], k, v);
    }
  }

  lemma {:induction false} SetFieldAscends(fs: seq<Field>, k: string, v: Value)
    requires Ascending(fs)
    ensures Ascending(SetField(fs, k, v))
  {
    if fs == [] || fs[0].key == k {
    } else if StringLess(k, fs[0].key) {
      forall j | 0 <= j < |fs|
        ensures StringLess(k, fs[j].key)
      {
        if j > 0 {
          LessIsTransitive(k, fs[0].key, fs[j].key);
        }
      }
    } else {
      LessIsTotal(k, fs[0].key);
      SetFieldAscends(fs[1..], k, v);
      SetFieldOrigin(fs[1..], k, v);
      var rest := SetField(fs[1..], k, v);
      forall j | 0 <= j < |rest|
        ensures StringLess(fs[0].key, rest[j].key)
      {
        assert rest[j] in rest;
      }
    }
  }

  // A key above all others goes to the end.
  lemma {:induction false} SetFieldAtEnd(fs: seq<Field>, k: string, v: Value)
    requires forall f :: f in fs ==> StringLess(f.key, k)
    ensures SetField(fs, k, v) == fs + [Field(k, v)]
  {
    if fs != [] {
      assert fs[0] in fs;
      LessIsAsymmetric(fs[0].key, k);
      SetFieldAtEnd(fs[1..], k, v);
    }
  }

  // ---- Shape ------------------------------------------------------------------------

  // Every object inside is in key order.
  ghost predicate WellFormed(v: Value) {
    match v
    case Array(a) => forall i :: 0 <= i < |a| ==> WellFormed(a[i])
    case Object(fs) => Ascending(fs) && forall i :: 0 <= i < |fs| ==> WellFormed(fs[i].value)
    case _ => true
  }

  // Children are nested at most so many levels deep.
  ghost predicate NestsWithin(v: Value, levels: nat) {
    match v
    case Array(a) => a == [] || (levels > 0 && forall i :: 0 <= i < |a| ==> NestsWithin(a[i], levels - 1))
    case Object(fs) => fs == [] || (levels > 0 && forall i :: 0 <= i < |fs| ==> NestsWithin(fs[i].value, levels - 1))
    case _ => true
  }

  // The number of values, counting the value itself and every value nested in it.
  ghost function Size(v: Value): nat
    decreases v, 0
  {
    match v
    case Array(a) => 1 + ItemsSize(a, 0)
    case Object(fs) => 1 + FieldsSize(fs, 0)
    case _ => 1
  }

  ghost function ItemsSize(a: seq<Value>, i: nat): nat
    requires i <= |a|
    decreases a, |a| - i
  {
    if i == |a| then 0 else Size(a[i]) + ItemsSize(a, i + 1)
  }

  ghost function FieldsSize(fs: seq<Field>, i: nat): nat
    requires i <= |fs|
    decreases fs, |fs| - i
  {
    if i == |fs| then 0 else Size(fs[i].value) + FieldsSize(fs, i + 1)
  }
}
