/** JSON values as the library sees them: an object is its key/value pairs in key order. */
module JsonValues {
  import opened Wrappers

  datatype Json =
    | Null
    | Bool(b: bool)
    | Int(i: int)
    | Float(r: real)
    | Str(s: string)
    | Array(items: seq<Json>)
    | Object(fields: seq<Field>)

  datatype Field = Field(key: string, value: Json)

  /** The value an object stores under `key`, if there is one. */
  function Get(d: Json, key: string): (r: Option<Json>)
    requires d.Object?
    ensures r.Some? ==> r.value < d && Field(key, r.value) in d.fields
    ensures r.None? ==> forall f | f in d.fields :: f.key != key
  {
    GetFrom(d, key, 0)
  }

  function GetFrom(d: Json, key: string, k: nat): (r: Option<Json>)
    requires d.Object? && k <= |d.fields|
    ensures r.Some? ==> r.value < d && Field(key, r.value) in d.fields
    ensures r.None? ==> forall f | f in d.fields[k..] :: f.key != key
    decreases |d.fields| - k
  {
    if k == |d.fields| then None
    else if d.fields[k].key == key then
      assert d.fields[k] < d && d.fields[k] == Field(key, d.fields[k].value);
      Some(d.fields[k].value)
    else GetFrom(d, key, k + 1)
  }

  /** How many values an array or an object holds; scalars hold none. */
  function NumChildren(d: Json): nat {
    match d
    case Array(items) => |items|
    case Object(fields) => |fields|
    case _ => 0
  }

  function Child(d: Json, k: nat): (c: Json)
    requires k < NumChildren(d)
    ensures c < d
  {
    match d
    case Array(items) => items[k]
    case Object(fields) => assert fields[k] < d; fields[k].value
  }

  /** Nesting depth: 0 for scalars and for empty containers. */
  function Height(d: Json): nat
    decreases d, 1
  {
    HeightUpTo(d, NumChildren(d))
  }

  function HeightUpTo(d: Json, k: nat): nat
    requires k <= NumChildren(d)
    decreases d, 0, k
  {
    if k == 0 then 0
    else
      var here := 1 + Height(Child(d, k - 1));
      var before := HeightUpTo(d, k - 1);
      if before < here then here else before
  }

  lemma HeightOfChild(d: Json, k: nat)
    requires k < NumChildren(d)
    ensures Height(Child(d, k)) < Height(d)
  {
    HeightOfChildUpTo(d, k, NumChildren(d));
  }

  lemma HeightOfChildUpTo(d: Json, k: nat, n: nat)
    requires k < n <= NumChildren(d)
    ensures Height(Child(d, k)) < HeightUpTo(d, n)
    decreases n
  {
    if k < n - 1 {
      HeightOfChildUpTo(d, k, n - 1);
    }
  }

  lemma HeightOfField(d: Json, key: string)
    requires d.Object? && Get(d, key).Some?
    ensures Height(Get(d, key).value) < Height(d)
  {
    var v := Get(d, key).value;
    var k :| 0 <= k < |d.fields| && d.fields[k] == Field(key, v);
    HeightOfChild(d, k);
    assert Child(d, k) == v;
  }
}
