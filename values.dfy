/**
 * The JavaScript values the plugin's options are made of, and the two pieces of
 * JavaScript semantics the plugin leans on: truthiness (`if (options.jwt)`) and
 * `Object.assign` (the shallow overlay of the caller's `defaultAuth`).
 */
module JsValues {

  /**
   * A JSON-like JavaScript value. `Undefined` is also what reading a missing
   * property yields. Numbers are integers here (no NaN, no fractions).
   */
  datatype Value =
    | Undefined
    | Null
    | Bool(b: bool)
    | Num(n: int)
    | Str(s: string)
    | Arr(items: seq<Value>)
    | Obj(fields: map<string, Value>)

  /** Property read `o[key]` on an object's own fields: missing keys read as `undefined`. */
  function Get(fields: map<string, Value>, key: string): (v: Value)
    ensures key !in fields ==> v == Undefined
    ensures key in fields ==> v == fields[key]
  {
    if key in fields then fields[key] else Undefined
  }

  /** JavaScript truthiness: `undefined`, `null`, `false`, `0` and `''` are falsy, everything else is truthy. */
  predicate Truthy(v: Value)
  {
    match v
    case Undefined => false
    case Null => false
    case Bool(b) => b
    case Num(n) => n != 0
    case Str(s) => s != ""
    case Arr(_) => true
    case Obj(_) => true
  }

  lemma TruthyExamples()
    ensures !Truthy(Str("")) && Truthy(Str("k"))
    ensures Truthy(Obj(map[])) && Truthy(Arr([]))
    ensures !Truthy(Undefined) && !Truthy(Null) && !Truthy(Num(0)) && !Truthy(Bool(false))
  {
  }

  // ---------------------------------------------------------------------------
  // Object.assign(target, source)

  /**
   * A property name in the canonical decimal spelling of an array index: one or
   * more digits, with no leading zero unless it is `"0"` itself. `""` and `"01"`
   * are not index names.
   */
  predicate IsIndexName(k: string)
  {
    && |k| > 0
    && (forall i :: 0 <= i < |k| ==> '0' <= k[i] <= '9')
    && (k[0] == '0' ==> |k| == 1)
  }

  /** The decimal spelling of an array index, the property name JavaScript gives it. */
  function Decimal(n: nat): (d: string)
    ensures IsIndexName(d)
    ensures n >= 10 ==> |d| >= 2
  {
    if n < 10 then [Digit(n)] else Decimal(n / 10) + [Digit(n % 10)]
  }

  function Digit(n: nat): (c: char)
    requires n < 10
    ensures '0' <= c <= '9'
    ensures c as int - '0' as int == n
  {
    ('0' as int + n) as char
  }

  /** Distinct indices have distinct names. */
  lemma {:induction false} DecimalInjective(a: nat, b: nat)
    requires Decimal(a) == Decimal(b)
    ensures a == b
  {
    if a >= 10 && b >= 10 {
      var da, db := Decimal(a), Decimal(b);
      assert da[..|da| - 1] == Decimal(a / 10);
      assert db[..|db| - 1] == Decimal(b / 10);
      DecimalInjective(a / 10, b / 10);
      assert Digit(a % 10) == da[|da| - 1] == db[|db| - 1] == Digit(b % 10);
    }
  }

  /**
   * Copies `items[from..]` onto `target` under the keys `Decimal(from)`, `Decimal(from + 1)`, ...,
   * in index order: what `Object.assign` does with an array or string source. Each
   * index's name receives that item; every other key keeps its value.
   */
  function AssignIndexed(target: map<string, Value>, items: seq<Value>, from: nat): (r: map<string, Value>)
    requires from <= |items|
    ensures forall i :: from <= i < |items| ==> Decimal(i) in r && r[Decimal(i)] == items[i]
    ensures forall k :: k in r ==> k in target || exists i :: from <= i < |items| && k == Decimal(i)
    ensures forall k :: k in target ==> k in r
    ensures forall k :: k in target && (forall i :: from <= i < |items| ==> k != Decimal(i)) ==> r[k] == target[k]
    ensures forall k :: k in r && k !in target ==> IsIndexName(k)
    ensures forall k :: k in r && !IsIndexName(k) ==> k in target && r[k] == target[k]
    decreases |items| - from
  {
    if from == |items| then target
    else
      assert forall i :: from < i < |items| ==> Decimal(from) != Decimal(i) by {
        forall i | from < i < |items| && Decimal(from) == Decimal(i) ensures false {
          DecimalInjective(from, i);
        }
      }
      AssignIndexed(target[Decimal(from) := items[from]], items, from + 1)
  }

  /** The characters of a string, each as a one-character string value. */
  function Chars(s: string): (vs: seq<Value>)
    ensures |vs| == |s|
    ensures forall i :: 0 <= i < |s| ==> vs[i] == Str([s[i]])
  {
    seq(|s|, i requires 0 <= i < |s| => Str([s[i]]))
  }

  /**
   * `Object.assign(target, source)` seen on the target's fields: the source's own
   * enumerable properties are copied over, replacing equal keys. `null` and
   * `undefined` are skipped, booleans and numbers have no own enumerable
   * properties, arrays and strings contribute their indices.
   */
  function Assign(target: map<string, Value>, source: Value): (r: map<string, Value>)
  {
    match source
    case Obj(fields) => target + fields
    case Arr(items) => AssignIndexed(target, items, 0)
    case Str(s) => AssignIndexed(target, Chars(s), 0)
    case _ => target
  }

  /**
   * What the overlay does to one named (non-index) key: an object source that has
   * the key replaces its value; every other source leaves it as it was.
   */
  lemma AssignNamedKey(target: map<string, Value>, source: Value, key: string)
    requires !IsIndexName(key)
    ensures key in Assign(target, source) <==> key in target || (source.Obj? && key in source.fields)
    ensures source.Obj? && key in source.fields ==> Assign(target, source)[key] == source.fields[key]
    ensures !(source.Obj? && key in source.fields) && key in target ==> Assign(target, source)[key] == target[key]
  {
  }

  /** An object overlay keeps every target key and adds exactly the source's keys, the source winning. */
  lemma AssignObject(target: map<string, Value>, fields: map<string, Value>)
    ensures Assign(target, Obj(fields)).Keys == target.Keys + fields.Keys
    ensures forall k :: k in fields ==> Assign(target, Obj(fields))[k] == fields[k]
    ensures forall k :: k in target && k !in fields ==> Assign(target, Obj(fields))[k] == target[k]
  {
  }
}
