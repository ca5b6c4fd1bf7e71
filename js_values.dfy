/** JavaScript values as the front-end helpers see them: primitives, arrays and plain objects.
    Values have no identity here, so two structurally equal values are the same value. */
module JsValues {
  import opened Common

  /** A JavaScript value. Numbers are exact reals (NaN and infinities are not modelled). */
  datatype Value =
    | Null
    | Undefined
    | Bool(b: bool)
    | Num(n: real)
    | Str(s: string)
    | Arr(items: seq<Value>)
    | Obj(fields: map<string, Value>)

  /** JavaScript truthiness: `!!v`. */
  predicate Truthy(v: Value)
  {
    match v
    case Null => false
    case Undefined => false
    case Bool(b) => b
    case Num(n) => n != 0.0
    case Str(s) => s != ""
    case _ => true
  }

  /** `typeof v === 'object'`, which also holds for null and for arrays. */
  predicate IsObjectType(v: Value) { v.Null? || v.Arr? || v.Obj? }

  /** `v && typeof v === 'object' && !Array.isArray(v)`. */
  predicate IsPlainObject(v: Value)
    ensures IsPlainObject(v) <==> Truthy(v) && IsObjectType(v) && !v.Arr?
  {
    v.Obj?
  }

  /** Property access `v[name]` for the names the models use: only a plain object has them. */
  function Get(v: Value, name: string): (r: Value)
    ensures v.Obj? && name in v.fields ==> r == v.fields[name]
    ensures !(v.Obj? && name in v.fields) ==> r == Undefined
  {
    if v.Obj? && name in v.fields then v.fields[name] else Undefined
  }

  /** The array indices as property names: "0", "1", ... */
  function IndexMap(items: seq<Value>): (r: map<string, Value>)
    ensures forall i :: 0 <= i < |items| ==> NatToString(i) in r && r[NatToString(i)] == items[i]
    ensures forall k :: k in r ==> exists i :: 0 <= i < |items| && k == NatToString(i)
    ensures forall k :: k in r ==> r[k] in items
  {
    NatToStringInjective();
    map i | 0 <= i < |items| :: NatToString(i) := items[i]
  }

  /** Different indices have different names. */
  lemma NatToStringInjective()
    ensures forall i: nat, j: nat :: NatToString(i) == NatToString(j) ==> i == j
  {
    forall i: nat, j: nat | NatToString(i) == NatToString(j)
      ensures i == j
    {
      DigitsValueOfNatToString(i);
      DigitsValueOfNatToString(j);
    }
  }

  /** The own enumerable properties that `for (const key in v) if (v.hasOwnProperty(key))`
      visits: an object's fields, an array's indices, and nothing for a primitive or null. */
  function OwnEntries(v: Value): (r: map<string, Value>)
    ensures forall k :: k in r ==> r[k] < v
    ensures v.Obj? ==> r == v.fields
    ensures !v.Obj? && !v.Arr? ==> r == map[]
  {
    match v
    case Obj(f) => f
    case Arr(items) => IndexMap(items)
    case _ => map[]
  }
}
