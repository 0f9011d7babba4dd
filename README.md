# hapi-common-auth, modelled in Dafny

hapi-common-auth is a hapi plugin that registers two authentication strategies
from a configuration object:

- `jwt`: RS256/384/512 tokens checked by hapi-auth-jwt2 against a public key. The
  key is configured as bare base64 and turned into a PEM text by `base64toPem`.
- `bearer`: static bearer tokens looked up in a token → newsroom map.

Once every started registration has succeeded, the plugin installs a default auth
policy that lists the configured strategies. Next to the plugin, `schemas.js`
declares Joi schemas for the `jwt`, `bearer` and `plan3Key` option records.

The model has five modules:

- `Pem` (pem.dfy): `base64toPem` as a method with the source's loop. `result`
  and `lines` are updated as in the source. The method is proved equal to a
  specification `PemOf`: the base64 text cut into 64-character lines, each ended
  by a line feed, between the `-----BEGIN PUBLIC KEY-----` and
  `-----END PUBLIC KEY-----` boundaries of RFC 7468 (section 2 for the line
  wrapping, section 13 for the `PUBLIC KEY` label). `Unwrap` reads a PEM text
  back. Lemmas give the line count and line lengths, and the round trip.
- `Schemas` (schemas.dfy): the Joi schema forms used by schemas.js, as a
  datatype. The three exported schemas are constants. `Accepts` is Joi's verdict
  on a JavaScript value. Lemmas characterise each schema and replay the
  configuration cases of test.js that agree with schemas.js.
- `Plugin` (plugin.dfy):
  - the jwt and bearer validate functions;
  - `register` as a method that pushes onto the started-registrations list and
    the default strategy list;
  - `Promise.all` as a first-failure fold;
  - the `Object.assign` overlay of the caller's `defaultAuth`.
- `JsValues` (values.dfy): JavaScript values, truthiness and `Object.assign`.
- `Wrappers` (wrappers.dfy): `Option`.

index.js, as written, never consults schemas.js. `register` starts a strategy
whenever its options are truthy, without validating them. Several cases in
test.js expect configuration errors from `register` (for example
test.js:8-10, `{jwt: ''}`). `register` does no validation that could produce
them: `''` is falsy, so the jwt strategy is simply not started. `register` still
calls `server.auth.default({strategies: []})` there, and any error would come
from the host refusing that policy. The model represents that call only by its
outcome (`defaultStep`). The model follows the code, so schema validation and
registration are modelled separately.

Three cases in test.js also disagree with schemas.js itself:

- test.js:60-67 expects a jwt record with `nonExpiringIds` to be accepted;
- test.js:115-128 expects a bearer record with `additionalCredentials` to be
  accepted;
- test.js:178-191 expects a plan3Key record with `additionalCredentials` to be
  accepted.

Joi's default for `Joi.object({...})` is to reject undeclared keys. So the
schemas as written reject all three records (`Schemas.JwtRejectsNonExpiringIds`,
`Schemas.BearerRejectsAdditionalCredentials`, and for plan3Key
`Schemas.BearerPlan3KeyAgree`). Likewise, index.js has no
`plan3Key` strategy and no `additionalCredentials` merge, and the model has
neither.

## Model

| member | source | states |
|---|---|---|
| `Pem.Base64ToPem` | index.js:25-31 | The loop's result is exactly `PemOf(base64)`. It starts with the `BEGIN PUBLIC KEY` header line and ends with the `END PUBLIC KEY` footer. Empty input gives header directly followed by footer. The loop invariant states that after `lines` iterations, `|result| - lines` characters are consumed, and that this equals min(64·lines, \|base64\|). The loop ends because each iteration consumes at least one character. |
| `Pem.LinesShape` | index.js:26-27 | The body has ceil(\|s\|/64) lines. Every line except the last has exactly 64 characters. The last has \|s\| mod 64 characters, or 64 when that is 0, so there is never an empty trailing line. The lines concatenate back to `s`. |
| `Pem.RoundTrip` | index.js:26-30 | For a newline-free base64 text, removing the header, the footer and every line feed from the PEM text gives back exactly that text. |
| `Pem.PemLineFeeds` | index.js:27-30 | The body of a newline-free input has exactly ceil(\|s\|/64) line feeds. The PEM text ends in the footer's final dash, so no line feed follows the footer. |
| `Pem.StripTerminated` | index.js:27 | Removing the line feeds from the terminated lines gives their concatenation. |
| `Plugin.ValidateJwt` | index.js:47-49 | Every decoded token is accepted, with no error and no credentials of its own. |
| `Plugin.ValidateBearer` | index.js:72-79 | A token is accepted exactly when it is a key of the tokens map. On acceptance the credentials are exactly `{newsroom: tokens[token]}`. Otherwise the verdict is a plain rejection with no credentials. A tokens object with its own `hasOwnProperty` key makes every lookup throw, because the source calls `tokens.hasOwnProperty(token)` as a method. |
| `Plugin.BearerAddToken` | index.js:73 | The lookup is exact. Adding a token to the map changes the verdict for that one token only, unless the key is `hasOwnProperty`, after which every lookup throws. |
| `Plugin.BearerTokensOf` | index.js:73-76 | The tokens that authenticate as a given newsroom are exactly the keys mapped to that newsroom, when the tokens object has no own `hasOwnProperty` key. |
| `Plugin.ValidatedBearerNewsroom` | schemas.js:12-14 | If the bearer schema accepts the options, the newsroom of any accepted token is a non-empty string, or undefined. |
| `Plugin.BearerLookupCase` | test.js:211-213 | With tokens `{token: 'test newsroom'}`, the token `token` yields credentials `{newsroom: 'test newsroom'}`, and `Token` is rejected. With tokens `{hasOwnProperty: 'x'}` the lookup throws. |
| `Plugin.DefaultStrategiesMeaning` | index.js:93-106 | The default strategy list contains `jwt` iff `options.jwt` is truthy, and `bearer` iff `options.bearer` is truthy. Each name appears at most once, and `jwt` comes first. |
| `Plugin.DefaultStrategies` | index.js:93-106 | The strategy names `register` pushes, in order. `Plugin.DefaultStrategiesMeaning` characterises the list. |
| `Plugin.FirstFailureMeaning` | index.js:108-114 | The combined registration fails exactly when some started registration fails. The reported error is the earliest failure in start order. |
| `Plugin.FirstFailure` | index.js:108-114 | `Promise.all` over the started registrations, in start order. `Plugin.FirstFailureMeaning` characterises its result in both directions. |
| `Plugin.Register` | index.js:92-115 | The default policy is installed exactly when every started registration succeeds and the host accepts the `server.auth.default` call. Otherwise the error passed to `next` is the jwt failure if there is one, else the bearer failure, else the host's refusal of the default policy. The installed policy is `{strategies: DefaultStrategies(options)}` overlaid with `options.defaultAuth`. |
| `Plugin.PolicyStrategies` | index.js:110 | The installed policy's `strategies` entry is the caller's own `strategies` when `defaultAuth` is an object that has one, and the derived list otherwise. Every key of an object `defaultAuth` is copied over with the caller's value, and the policy has no other keys. |
| `Plugin.PolicyWithoutOverride` | index.js:94-110 | With no `defaultAuth`, or one that `Object.assign` skips (`undefined`, `null`, a boolean, a number), the installed policy is exactly `{strategies: <derived list>}`. |
| `JsValues.AssignNamedKey` | index.js:110 | For a key that is not the canonical decimal name of an index (`""` and `"01"` included), `Object.assign` takes the source's value when the source is an object that has the key. Otherwise it keeps the target's value, and it never removes the key. |
| `JsValues.AssignObject` | index.js:110 | An object overlay keeps every target key and adds exactly the source's keys. The source wins on shared keys. |
| `JsValues.AssignIndexed` | index.js:110 | Overlaying an array or a string writes `items[i]` under the key `Decimal(i)` for every index `i`. It adds no other key, keeps every target key, and every key that is not the name of a copied index keeps its value. |
| `JsValues.DecimalInjective` | index.js:110 | Two indices with the same decimal name are the same index, so each copied item lands under its own key. |
| `JsValues.TruthyExamples` | index.js:98-103 | `''`, `undefined`, `null`, `0` and `false` are falsy. A non-empty string, `{}` and `[]` are truthy. |
| `JsValues.Truthy` | index.js:98-103 | JavaScript truthiness, as the two `if (options.…)` tests use it. `JsValues.TruthyExamples` and `Plugin.DefaultStrategiesMeaning` state what it decides. |
| `JsValues.Assign` | index.js:110 | `Object.assign(target, source)` on the target's fields. `JsValues.AssignObject`, `JsValues.AssignIndexed` and `JsValues.AssignNamedKey` state what it yields for each kind of source. |
| `Schemas.Accepts` | schemas.js:6-14 | Joi's verdict on a value under one of the schema forms, with `.required()` applied or not. `Schemas.SingleKeyMeaning` characterises it for a one-key object schema. |
| `Schemas.Valid` | schemas.js:5-15 | Validation of one kind's options against the exported schema. `Schemas.JwtSchemaMeaning` and `Schemas.BearerSchemaMeaning` characterise it in both directions, and `Schemas.BearerPlan3KeyAgree` relates the plan3Key schema to the bearer one. |
| `Schemas.SingleKeyMeaning` | schemas.js:6-14 | A `Joi.object` with one declared key accepts a present value exactly when it is an object, has no other keys, and the key's value passes the key's schema, including its `required`. |
| `Schemas.JwtSchemaMeaning` | schemas.js:6-8 | The jwt schema accepts exactly two things: absent options, or an object whose only key is `publicKey`, holding a non-empty string. |
| `Schemas.BearerSchemaMeaning` | schemas.js:12-14 | The bearer schema accepts exactly two things: absent options, or an object whose only key is `tokens`. `tokens` must be an object whose values are non-empty strings or undefined; the empty object is allowed. |
| `Schemas.BearerPlan3KeyAgree` | schemas.js:9-14 | A value passes the bearer schema exactly when it passes the plan3Key schema. |
| `Schemas.JwtCases` | test.js:8-41 | `''`, `{}`, and a `publicKey` that is an array, an object or undefined are rejected. `{publicKey: 'some key'}` is accepted. |
| `Schemas.JwtRejectsNonExpiringIds` | schemas.js:6-8 | A jwt record with an undeclared `nonExpiringIds` key is rejected, whatever its value. |
| `Schemas.BearerRejectedCases` | test.js:76-98 | `''`, `{}`, `[]`, and `tokens` given as a string or as an array are rejected. |
| `Schemas.BearerAcceptedCases` | test.js:99-114 | `{tokens: {}}` and `{tokens: {user: 'token'}}` are accepted. |
| `Schemas.BearerRejectsAdditionalCredentials` | schemas.js:12-14 | A bearer record with an undeclared `additionalCredentials` key is rejected, whatever its value. |

## Left out

- The hapi host is not modelled: `server.register`, `server.auth.strategy`, `server.auth.default`, plugin attributes and package.json. Each strategy registration, and the `server.auth.default` call, is represented only by the outcome the host reports for it (`jwtStep`, `bearerStep`, `defaultStep`). Which policies the host refuses (for example an empty or unknown strategy list) is host logic and is not modelled. A `next` that itself throws, which would make `.catch(next)` call `next` a second time, is not modelled.
- `Register` does not return the strategy records handed to the host: the jwt key, the algorithms list, the `Plan3JWT` token type and the validate functions. The key is the text computed by `Pem.Base64ToPem`. The validate functions are `Plugin.ValidateJwt` and `Plugin.ValidateBearer`.
- JWT signature and expiry checks (hapi-auth-jwt2), and `Authorization: Bearer` header parsing (hapi-auth-bearer-token), are foreign library code.
- Promise concurrency is not modelled. `Promise.all` reports the failure that happens first in time; the model takes the first failure in start order (jwt, then bearer).
- `Pem.Base64ToPem`: JavaScript's `length` and `substr` count UTF-16 code units, while a Dafny `string` counts Unicode scalar values. Line widths and line counts agree for base64 text (all ASCII), but differ for input with characters outside the Basic Multilingual Plane, which the model does not capture.
- `Pem.Base64ToPem` takes a string. `base64toPem` on a non-string `publicKey` (a JavaScript TypeError for `undefined`, an empty body for `{}`) is not modelled.
- `Plugin.ValidateBearer` takes the tokens object's own fields. A `tokens` option that is not an object is not modelled; there the source's `hasOwnProperty` call would throw or consult string indices. Values are never functions, so an own `hasOwnProperty` key always makes the lookup throw (`Throws`).
- `JsValues.Value`: numbers are integers, so NaN is not modelled. A key whose value is `undefined` counts as present for the bearer lookup and for the undeclared-key rule.
- `Schemas.Accepts`: the exact matching rule of the key pattern `/\w+/` is not modelled. The model checks the value rule for every key of a tokens object, which treats every key as matching. Joi's handling of keys that do not match the pattern is not modelled either.
- Joi type conversion (for example parsing a JSON string into an object) and the shape of Joi's error reports are not modelled. `Schemas.Accepts` only gives the accept/reject verdict.
- `plan3Key` registration, the `additionalCredentials` merge and any use of `nonExpiringIds` do not appear in index.js, so the model has none of them.
