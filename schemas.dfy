/**
 * The configuration schemas of schemas.js, written as data (the Joi schema forms
 * the file uses) together with what Joi decides about a value under them.
 *
 * The Joi rules relied on are its defaults:
 *  - `Joi.string()` accepts only strings, and not the empty string;
 *  - `Joi.object(...)` accepts only objects: not arrays, `null` or primitives;
 *  - `.required()` rejects a missing (undefined) value, and any schema that is
 *    not required accepts `undefined`;
 *  - `Joi.object({...})` with declared keys rejects keys it does not declare;
 *  - `.pattern(re, s)` checks the value of every key matching `re` against `s`.
 */
module Schemas {
  import opened JsValues

  /** The Joi schema forms that schemas.js is built from. */
  datatype Schema =
    | StringSchema                  // Joi.string()
    | KeysSchema(keys: seq<Key>)    // Joi.object({ name: schema, ... })
    | PatternSchema(values: Schema) // Joi.object().pattern(/\w+/, values)

  /** One declared key of a `Joi.object({...})`. */
  datatype Key = Key(name: string, schema: Schema, required: bool)

  /** The schema of the tokens map shared by both bearer-token kinds. */
  const TokensSchema: Schema := PatternSchema(StringSchema)

  const JwtSchema: Schema := KeysSchema([Key("publicKey", StringSchema, true)])
  const Plan3KeySchema: Schema := KeysSchema([Key("tokens", TokensSchema, true)])
  const BearerSchema: Schema := KeysSchema([Key("tokens", TokensSchema, true)])

  /** The strategy kinds that schemas.js exports a schema for. */
  datatype Kind = Jwt | Plan3Key | Bearer

  function SchemaFor(kind: Kind): Schema
  {
    match kind
    case Jwt => JwtSchema
    case Plan3Key => Plan3KeySchema
    case Bearer => BearerSchema
  }

  predicate Declared(keys: seq<Key>, name: string)
  {
    exists i :: 0 <= i < |keys| && keys[i].name == name
  }

  /** Joi's verdict on `v` under `schema`, where `required` says whether `.required()` applies. */
  predicate Accepts(schema: Schema, v: Value, required: bool)
    decreases schema, 1
  {
    if v.Undefined? then !required else Matches(schema, v)
  }

  /** Joi's verdict on a value that is present. */
  predicate Matches(schema: Schema, v: Value)
    requires !v.Undefined?
    decreases schema, 0
  {
    match schema
    case StringSchema => v.Str? && v.s != ""
    case KeysSchema(keys) =>
      && v.Obj?
      && (forall i | 0 <= i < |keys| :: Accepts(keys[i].schema, Get(v.fields, keys[i].name), keys[i].required))
      && (forall k | k in v.fields :: Declared(keys, k))
    case PatternSchema(values) =>
      && v.Obj?
      && (forall k | k in v.fields :: Accepts(values, v.fields[k], false))
  }

  /** Validation of one kind's options, as the options object holds them (they may be absent). */
  predicate Valid(kind: Kind, v: Value)
  {
    Accepts(SchemaFor(kind), v, false)
  }

  // ---------------------------------------------------------------------------
  // What the schemas mean

  predicate NonEmptyString(v: Value)
  {
    v.Str? && v.s != ""
  }

  /** A tokens map as the pattern schema admits it: an object whose values are non-empty strings (or undefined). */
  predicate IsTokenMap(v: Value)
  {
    v.Obj? && forall k | k in v.fields :: v.fields[k].Undefined? || NonEmptyString(v.fields[k])
  }

  /**
   * An object schema with a single declared key: the key's own schema decides its
   * value, and no other key may be present.
   */
  lemma SingleKeyMeaning(key: Key, v: Value)
    requires !v.Undefined?
    ensures Matches(KeysSchema([key]), v) <==>
      v.Obj? && v.fields.Keys <= {key.name} && Accepts(key.schema, Get(v.fields, key.name), key.required)
  {
    var keys := [key];
    assert keys[0] == key;
    assert Declared(keys, key.name);
    if v.Obj? {
      forall k | k in v.fields && Declared(keys, k) ensures k == key.name {
        var i :| 0 <= i < |keys| && keys[i].name == k;
      }
    }
  }

  /**
   * The jwt schema accepts exactly: no options at all, or an object whose only key
   * is `publicKey`, holding a non-empty string.
   */
  lemma JwtSchemaMeaning(v: Value)
    ensures Valid(Jwt, v) <==>
      v.Undefined? ||
      (v.Obj? && v.fields.Keys == {"publicKey"} && NonEmptyString(v.fields["publicKey"]))
  {
    if !v.Undefined? {
      SingleKeyMeaning(Key("publicKey", StringSchema, true), v);
    }
  }

  /**
   * The bearer schema accepts exactly: no options at all, or an object whose only
   * key is `tokens`, holding a token map (the empty map included).
   */
  lemma BearerSchemaMeaning(v: Value)
    ensures Valid(Bearer, v) <==>
      v.Undefined? ||
      (v.Obj? && v.fields.Keys == {"tokens"} && IsTokenMap(v.fields["tokens"]))
  {
    if !v.Undefined? {
      SingleKeyMeaning(Key("tokens", TokensSchema, true), v);
    }
  }

  /** The bearer and plan3Key schemas are the same: a value passes one exactly when it passes the other. */
  lemma BearerPlan3KeyAgree(v: Value)
    ensures Valid(Bearer, v) <==> Valid(Plan3Key, v)
  {
  }

  // ---------------------------------------------------------------------------
  // The configuration cases exercised in test.js

  lemma JwtCases()
    ensures !Valid(Jwt, Str(""))
    ensures !Valid(Jwt, Obj(map[]))
    ensures !Valid(Jwt, Obj(map["publicKey" := Arr([])]))
    ensures !Valid(Jwt, Obj(map["publicKey" := Obj(map[])]))
    ensures !Valid(Jwt, Obj(map["publicKey" := Undefined]))
    ensures Valid(Jwt, Obj(map["publicKey" := Str("some key")]))
  {
    JwtSchemaMeaning(Str(""));
    JwtSchemaMeaning(Obj(map[]));
    JwtSchemaMeaning(Obj(map["publicKey" := Arr([])]));
    JwtSchemaMeaning(Obj(map["publicKey" := Obj(map[])]));
    JwtSchemaMeaning(Obj(map["publicKey" := Undefined]));
    JwtSchemaMeaning(Obj(map["publicKey" := Str("some key")]));
  }

  /**
   * A `nonExpiringIds` key is not declared by the jwt schema, so Joi's default
   * rejects it whatever its value.
   */
  lemma JwtRejectsNonExpiringIds(ids: Value)
    ensures !Valid(Jwt, Obj(map["publicKey" := Str("some key"), "nonExpiringIds" := ids]))
  {
    var m := map["publicKey" := Str("some key"), "nonExpiringIds" := ids];
    assert "nonExpiringIds" in m.Keys;
    JwtSchemaMeaning(Obj(m));
  }

  /** The rejected bearer configurations of test.js; plan3Key agrees by `BearerPlan3KeyAgree`. */
  lemma BearerRejectedCases()
    ensures !Valid(Bearer, Str(""))
    ensures !Valid(Bearer, Obj(map[]))
    ensures !Valid(Bearer, Arr([]))
    ensures !Valid(Bearer, Obj(map["tokens" := Str("user")]))
    ensures !Valid(Bearer, Obj(map["tokens" := Arr([])]))
  {
    BearerSchemaMeaning(Str(""));
    BearerSchemaMeaning(Obj(map[]));
    BearerSchemaMeaning(Arr([]));
    BearerSchemaMeaning(Obj(map["tokens" := Str("user")]));
    BearerSchemaMeaning(Obj(map["tokens" := Arr([])]));
  }

  /** The accepted bearer configurations of test.js, the empty tokens map included. */
  lemma BearerAcceptedCases()
    ensures Valid(Bearer, Obj(map["tokens" := Obj(map[])]))
    ensures Valid(Bearer, Obj(map["tokens" := Obj(map["user" := Str("token")])]))
  {
    var empty := map["tokens" := Obj(map[])];
    assert empty.Keys == {"tokens"};
    BearerSchemaMeaning(Obj(empty));
    var one := map["tokens" := Obj(map["user" := Str("token")])];
    assert one.Keys == {"tokens"};
    BearerSchemaMeaning(Obj(one));
  }

  /** An `additionalCredentials` key is not declared by the bearer schema, so Joi's default rejects it. */
  lemma BearerRejectsAdditionalCredentials(extra: Value)
    ensures !Valid(Bearer, Obj(map["tokens" := Obj(map["user" := Str("token")]), "additionalCredentials" := extra]))
  {
    var m := map["tokens" := Obj(map["user" := Str("token")]), "additionalCredentials" := extra];
    assert "additionalCredentials" in m.Keys;
    BearerSchemaMeaning(Obj(m));
  }
}
