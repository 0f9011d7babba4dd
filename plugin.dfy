/**
 * The plugin's registration (index.js): the validate functions handed to the two
 * authentication strategies, and `register`, which starts one registration per
 * configured strategy and, once all of them have succeeded, installs the default
 * authentication policy.
 *
 * The host server is not modelled: each registration step is represented by the
 * outcome the host reports for it.
 */
module Plugin {
  import opened Wrappers
  import opened JsValues
  import Schemas

  // ---------------------------------------------------------------------------
  // Validate functions

  /** The credentials record a successful bearer lookup hands to route handlers. */
  datatype Credentials = Credentials(newsroom: Value)

  /**
   * What a validate function reports through its callback. The error argument is
   * `null` on every path that reaches the callback, so only the verdict and the
   * credentials are kept. `Throws` is a lookup that raises a TypeError before
   * reaching the callback.
   */
  datatype Verdict = Reject | Accept(credentials: Option<Credentials>) | Throws

  /**
   * The jwt strategy's validate function: every token the JWT library has already
   * verified and decoded is accepted, without credentials of its own.
   */
  function ValidateJwt(decoded: Value): (v: Verdict)
    ensures v.Accept? && v.credentials.None?
  {
    Accept(None)
  }

  /**
   * The bearer strategy's validate function: a token is accepted exactly when it is
   * an own key of the configured tokens object, and then the credentials are
   * `{newsroom: tokens[token]}`. The check is the method call
   * `tokens.hasOwnProperty(token)`, so a tokens object with an own `hasOwnProperty`
   * key (a data value, never a function here) makes every lookup throw.
   */
  function ValidateBearer(tokens: map<string, Value>, token: string): (v: Verdict)
    ensures v.Throws? <==> "hasOwnProperty" in tokens
    ensures v.Accept? <==> "hasOwnProperty" !in tokens && token in tokens
    ensures v.Accept? ==> v.credentials == Some(Credentials(tokens[token]))
  {
    if "hasOwnProperty" in tokens then Throws
    else if token in tokens then Accept(Some(Credentials(tokens[token])))
    else Reject
  }

  /**
   * The lookup is exact: adding one token changes the verdict for that token only,
   * so no other spelling (another case, extra spaces) is accepted through it.
   */
  lemma BearerAddToken(tokens: map<string, Value>, added: string, newsroom: Value, token: string)
    ensures ValidateBearer(tokens[added := newsroom], token) ==
      if added == "hasOwnProperty" || "hasOwnProperty" in tokens then Throws
      else if token == added then Accept(Some(Credentials(newsroom)))
      else ValidateBearer(tokens, token)
  {
  }

  /** The tokens that authenticate as a newsroom are exactly the keys mapped to it. */
  lemma BearerTokensOf(tokens: map<string, Value>, newsroom: Value, token: string)
    ensures ValidateBearer(tokens, token) == Accept(Some(Credentials(newsroom))) <==>
      "hasOwnProperty" !in tokens && token in tokens && tokens[token] == newsroom
  {
  }

  /**
   * Under a configuration the bearer schema accepts, an accepted token's newsroom
   * is a non-empty string (or undefined, which the schema lets through).
   */
  lemma ValidatedBearerNewsroom(options: Value, token: string)
    requires options.Obj? && Schemas.Valid(Schemas.Bearer, options)
    ensures options.fields.Keys == {"tokens"} && options.fields["tokens"].Obj?
    ensures var v := ValidateBearer(options.fields["tokens"].fields, token);
      v.Accept? ==> v.credentials.value.newsroom.Undefined? || Schemas.NonEmptyString(v.credentials.value.newsroom)
  {
    Schemas.BearerSchemaMeaning(options);
  }

  /** The bearer lookup of test.js: the configured token authenticates, another spelling does not. */
  lemma BearerLookupCase()
    ensures ValidateBearer(map["token" := Str("test newsroom")], "token") == Accept(Some(Credentials(Str("test newsroom"))))
    ensures ValidateBearer(map["token" := Str("test newsroom")], "Token") == Reject
    ensures ValidateBearer(map["hasOwnProperty" := Str("x")], "hasOwnProperty") == Throws
  {
  }

  // ---------------------------------------------------------------------------
  // register

  /** The outcome the host reports for one strategy registration. */
  datatype Outcome = Registered | Failed(error: string)

  /** What `register` passes to `next`: an error, or nothing after installing the default policy. */
  datatype Completion = Error(error: string) | DefaultInstalled(policy: map<string, Value>)

  /** The names of the strategies `register` starts, in the order it starts them. */
  function DefaultStrategies(options: map<string, Value>): seq<string>
  {
    (if Truthy(Get(options, "jwt")) then ["jwt"] else []) +
    (if Truthy(Get(options, "bearer")) then ["bearer"] else [])
  }

  /**
   * The default strategy list names `jwt` exactly when the jwt options are truthy,
   * `bearer` exactly when the bearer options are truthy, each at most once and
   * `jwt` first.
   */
  lemma DefaultStrategiesMeaning(options: map<string, Value>)
    ensures "jwt" in DefaultStrategies(options) <==> Truthy(Get(options, "jwt"))
    ensures "bearer" in DefaultStrategies(options) <==> Truthy(Get(options, "bearer"))
    ensures forall i :: 0 <= i < |DefaultStrategies(options)| ==> DefaultStrategies(options)[i] in {"jwt", "bearer"}
    ensures forall i, j :: 0 <= i < j < |DefaultStrategies(options)| ==>
      DefaultStrategies(options)[i] == "jwt" && DefaultStrategies(options)[j] == "bearer"
  {
  }

  /** The strategy names as the array value the policy holds. */
  function NamesValue(names: seq<string>): (v: Value)
    ensures v.Arr? && |v.items| == |names|
    ensures forall i :: 0 <= i < |names| ==> v.items[i] == Str(names[i])
  {
    Arr(seq(|names|, i requires 0 <= i < |names| => Str(names[i])))
  }

  /**
   * `Promise.all` over the started registrations, taken in the order they were
   * started: the first failure, or none when every one of them succeeded.
   */
  function FirstFailure(steps: seq<Outcome>): Option<string>
  {
    if steps == [] then None
    else if steps[0].Failed? then Some(steps[0].error)
    else FirstFailure(steps[1..])
  }

  /** No failure is reported exactly when all steps succeed; a reported failure is the earliest one. */
  lemma {:induction false} FirstFailureMeaning(steps: seq<Outcome>)
    ensures FirstFailure(steps).None? <==> forall i :: 0 <= i < |steps| ==> steps[i].Registered?
    ensures FirstFailure(steps).Some? ==>
      exists i :: 0 <= i < |steps| && steps[i] == Failed(FirstFailure(steps).value) &&
        forall j :: 0 <= j < i ==> steps[j].Registered?
  {
    if steps != [] && steps[0].Registered? {
      FirstFailureMeaning(steps[1..]);
      assert forall i :: 1 <= i < |steps| ==> steps[i] == steps[1..][i - 1];
      if FirstFailure(steps).Some? {
        var k :| 0 <= k < |steps[1..]| && steps[1..][k] == Failed(FirstFailure(steps).value) &&
          forall j :: 0 <= j < k ==> steps[1..][j].Registered?;
        assert steps[k + 1] == Failed(FirstFailure(steps).value);
      }
    }
  }

  /**
   * register: starts the jwt registration when `options.jwt` is truthy and the
   * bearer registration when `options.bearer` is truthy, pushing each strategy's
   * name onto the default strategy list; when all started registrations succeed it
   * installs `Object.assign({strategies: list}, options.defaultAuth)` as the default
   * policy, and otherwise reports the first failure and installs nothing.
   * `jwtStep` and `bearerStep` are the outcomes the host reports for the two
   * registrations (ignored for a strategy that is not started); `defaultStep` is
   * the outcome of `server.auth.default` (the host refuses, for instance, an empty
   * or unknown strategy list), reached only when every started registration
   * succeeded, whose error `.catch(next)` passes on.
   */
  method Register(options: map<string, Value>, jwtStep: Outcome, bearerStep: Outcome, defaultStep: Outcome)
    returns (done: Completion)
    ensures done.DefaultInstalled? <==>
      (Truthy(Get(options, "jwt")) ==> jwtStep.Registered?) &&
      (Truthy(Get(options, "bearer")) ==> bearerStep.Registered?) &&
      defaultStep.Registered?
    ensures done.Error? ==>
      done.error ==
        (if Truthy(Get(options, "jwt")) && jwtStep.Failed? then jwtStep.error
         else if Truthy(Get(options, "bearer")) && bearerStep.Failed? then bearerStep.error
         else defaultStep.error)
    ensures done.DefaultInstalled? ==>
      done.policy == Assign(map["strategies" := NamesValue(DefaultStrategies(options))], Get(options, "defaultAuth"))
  {
    var started: seq<Outcome> := [];
    var strategies: seq<string> := [];
    if Truthy(Get(options, "jwt")) {
      started := started + [jwtStep];
      strategies := strategies + ["jwt"];
    }
    if Truthy(Get(options, "bearer")) {
      started := started + [bearerStep];
      strategies := strategies + ["bearer"];
    }
    assert strategies == DefaultStrategies(options);
    FirstFailureMeaning(started);
    match FirstFailure(started)
    case Some(e) =>
      done := Error(e);
    case None =>
      var defaultAuth := map["strategies" := NamesValue(strategies)];
      defaultAuth := Assign(defaultAuth, Get(options, "defaultAuth"));
      if defaultStep.Failed? {
        done := Error(defaultStep.error);
      } else {
        done := DefaultInstalled(defaultAuth);
      }
  }

  /**
   * The installed policy's `strategies` entry: the caller's own `strategies` when
   * `defaultAuth` is an object that has one, the derived list otherwise. Every key
   * of an object `defaultAuth` is carried over with the caller's value.
   */
  lemma PolicyStrategies(options: map<string, Value>)
    ensures var derived := map["strategies" := NamesValue(DefaultStrategies(options))];
      var override := Get(options, "defaultAuth");
      var policy := Assign(derived, override);
      && "strategies" in policy
      && policy["strategies"] ==
        (if override.Obj? && "strategies" in override.fields then override.fields["strategies"]
         else NamesValue(DefaultStrategies(options)))
      && (override.Obj? ==> policy.Keys == {"strategies"} + override.fields.Keys)
      && (override.Obj? ==> forall k :: k in override.fields ==> policy[k] == override.fields[k])
  {
    var derived := map["strategies" := NamesValue(DefaultStrategies(options))];
    var override := Get(options, "defaultAuth");
    assert !('0' <= "strategies"[0] <= '9');
    AssignNamedKey(derived, override, "strategies");
    if override.Obj? {
      AssignObject(derived, override.fields);
    }
  }

  /**
   * With no `defaultAuth`, or one that `Object.assign` skips (`undefined`, `null`,
   * a boolean or a number), the default policy accepts exactly the started strategies.
   */
  lemma PolicyWithoutOverride(options: map<string, Value>)
    requires !Get(options, "defaultAuth").Obj? && !Get(options, "defaultAuth").Arr? && !Get(options, "defaultAuth").Str?
    ensures Assign(map["strategies" := NamesValue(DefaultStrategies(options))], Get(options, "defaultAuth")) ==
      map["strategies" := NamesValue(DefaultStrategies(options))]
  {
  }
}
