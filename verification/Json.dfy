/** JSON documents as `serde_json::Value` holds them. */
module Json {
  import opened Prelude

  datatype Value =
    | Null
    | Bool(b: bool)
    | Number(text: string)            // the number's canonical text
    | Str(s: string)
    | Array(items: seq<Value>)
    | Object(fields: seq<Field>)      // in the map's iteration order

  datatype Field = Field(key: string, value: Value)

  /** Value stored under `key`, as `Map::get` returns it. */
  function Lookup(fields: seq<Field>, key: string): (r: Option<Value>)
    ensures r.None? <==> forall i | 0 <= i < |fields| :: fields[i].key != key
  {
    if fields == [] then None
    else if fields[0].key == key then Some(fields[0].value)
    else Lookup(fields[1..], key)
  }

  /** Insert or overwrite `key`, as `Map::insert` does. */
  function Insert(fields: seq<Field>, key: string, value: Value): (r: seq<Field>)
    ensures Lookup(r, key) == Some(value)
  {
    if fields == [] then [Field(key, value)]
    else if fields[0].key == key then [Field(key, value)] + fields[1..]
    else [fields[0]] + Insert(fields[1..], key, value)
  }

  /** Inserting one key leaves every other key as it was. */
  lemma {:induction false} InsertKeepsOthers(fields: seq<Field>, key: string, value: Value, other: string)
    requires other != key
    ensures Lookup(Insert(fields, key, value), other) == Lookup(fields, other)
  {
    if fields != [] && fields[0].key != key {
      InsertKeepsOthers(fields[1..], key, value, other);
      assert Insert(fields, key, value)[1..] == Insert(fields[1..], key, value);
    }
  }
}
