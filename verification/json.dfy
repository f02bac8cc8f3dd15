/**
 * JavaScript values as they cross the application's untyped boundaries:
 * parsed JSON bodies, `unknown` API responses and the Slate value in the
 * code view. Numbers are integers; object properties keep their order.
 */
module Json {
  import opened Prelude
  import opened Strings

  datatype Json =
    | JUndefined
    | JNull
    | JBool(b: bool)
    | JNum(n: int)
    | JStr(s: string)
    | JArr(items: seq<Json>)
    | JObj(props: seq<Prop>)

  /** One own property of an object. */
  datatype Prop = Prop(key: string, value: Json)

  /** `typeof v === "object" && v !== null` (arrays included). */
  predicate IsObject(v: Json) { v.JArr? || v.JObj? }

  /** JavaScript truthiness (`Boolean(v)`). */
  predicate Truthy(v: Json)
  {
    match v
    case JUndefined => false
    case JNull => false
    case JBool(b) => b
    case JNum(n) => n != 0
    case JStr(s) => s != []
    case _ => true
  }

  /** `String(n)` for an integer. */
  function NumberText(n: int): (r: string)
    ensures r != []
  {
    if n < 0 then "-" + NatToString(-n) else NatToString(n)
  }

  /** A list of strings as JSON values. */
  function Strs(ids: seq<string>): (r: seq<Json>)
    ensures |r| == |ids| && forall k :: 0 <= k < |ids| ==> r[k] == JStr(ids[k])
  {
    seq(|ids|, k requires 0 <= k < |ids| => JStr(ids[k]))
  }

  /** A measure for recursion over nested values. */
  function Size(v: Json): nat
  {
    match v
    case JArr(items) => 1 + SizeItems(items)
    case JObj(props) => 1 + SizeProps(props)
    case _ => 1
  }

  function SizeItems(items: seq<Json>): nat
  {
    if items == [] then 0 else Size(items[0]) + SizeItems(items[1..])
  }

  function SizeProps(props: seq<Prop>): nat
  {
    if props == [] then 0 else Size(props[0].value) + SizeProps(props[1..])
  }

  /** Property lookup `v[key]`: the first property with that key, `undefined` when there is none. */
  function Get(v: Json, key: string): (r: Json)
    ensures r != JUndefined ==> v.JObj? && Size(r) < Size(v)
  {
    if v.JObj? then Lookup(v.props, key) else JUndefined
  }

  function Lookup(props: seq<Prop>, key: string): (r: Json)
    ensures r != JUndefined ==> Size(r) <= SizeProps(props)
    ensures (forall i :: 0 <= i < |props| ==> props[i].key != key) ==> r == JUndefined
  {
    if props == [] then JUndefined
    else if props[0].key == key then props[0].value
    else Lookup(props[1..], key)
  }

  /** A value found by lookup is the value of a property with that key. */
  lemma {:induction false} LookupFound(props: seq<Prop>, key: string)
    requires Lookup(props, key) != JUndefined
    ensures exists i :: 0 <= i < |props| && props[i] == Prop(key, Lookup(props, key))
  {
    if props[0].key != key {
      LookupFound(props[1..], key);
      var i :| 0 <= i < |props[1..]| && props[1..][i] == Prop(key, Lookup(props, key));
      assert props[i + 1] == Prop(key, Lookup(props, key));
    }
  }

  lemma {:induction false} SizeItemsBound(items: seq<Json>, i: nat)
    requires i < |items|
    ensures Size(items[i]) <= SizeItems(items)
  {
    if i > 0 { SizeItemsBound(items[1..], i - 1); }
  }

  /** An object has the key as a property (own key, first occurrence). */
  predicate Has(v: Json, key: string)
  {
    v.JObj? && exists i :: 0 <= i < |v.props| && v.props[i].key == key
  }

  /** Lookup in an object that puts a key first finds that key's value. */
  lemma LookupFirst(props: seq<Prop>, key: string, value: Json)
    requires props != [] && props[0] == Prop(key, value)
    ensures Lookup(props, key) == value
  {
  }
}
