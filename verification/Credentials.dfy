/** Output credentials: which Secrets their resolution reads, and which Secret events the
    operator watches for. */
module Credentials {
  import opened Wrappers
  import opened LoggingServiceTypes

  /** The Secrets of one namespace. Metadata is everything but the data. */
  datatype Secret = Secret(data: map<string, string>, metadata: string)

  type Secrets = map<string, Secret>

  datatype AuthValues = AuthValues(token: string, user: string, password: string)

  const EMPTY := AuthValues("", "", "")

  /** An error names the Secret and the key, never the value. */
  datatype ResolveError = CannotRead(name: string) | KeyMissing(name: string, key: string) | Rejected(name: string, key: string)

  // ------------------------------------------------------------------ validators

  datatype Validator = SingleLine | FluentbitValue

  predicate IsSingleLine(value: string) {
    forall i | 0 <= i < |value| :: value[i] != '\r' && value[i] != '\n' && value[i] != '\0'
  }

  predicate HasVariableReference(value: string) {
    exists i | 0 <= i < |value| - 1 :: value[i] == '$' && value[i + 1] == '{'
  }

  predicate Accepts(v: Validator, value: string) {
    IsSingleLine(value) && (v.FluentbitValue? ==> !HasVariableReference(value))
  }

  // ------------------------------------------------------------------ resolution

  /** ResolveSecretKeyValue. */
  function ResolveKey(secrets: Secrets, s: SecretKeySelector): Result<string, ResolveError> {
    if s.name !in secrets then Err(CannotRead(s.name))
    else if s.key !in secrets[s.name].data || secrets[s.name].data[s.key] == "" then Err(KeyMissing(s.name, s.key))
    else Ok(secrets[s.name].data[s.key])
  }

  /** One field of an Auth block; a missing selector resolves to the empty string. */
  function ResolveField(secrets: Secrets, v: Validator, selector: Option<SecretKeySelector>): Result<string, ResolveError> {
    match selector
    case None => Ok("")
    case Some(s) =>
      match ResolveKey(secrets, s)
      case Err(e) => Err(e)
      case Ok(value) => if Accepts(v, value) then Ok(value) else Err(Rejected(s.name, s.key))
  }

  function Fields(auth: Auth): seq<Option<SecretKeySelector>> {
    [auth.token, auth.user, auth.password]
  }

  /** The fields in order; the first error decides. */
  function ResolveFields(secrets: Secrets, v: Validator, fields: seq<Option<SecretKeySelector>>): (r: Result<seq<string>, ResolveError>)
    ensures r.Ok? ==> |r.value| == |fields|
  {
    if fields == [] then Ok([])
    else
      match ResolveFields(secrets, v, fields[..|fields| - 1])
      case Err(e) => Err(e)
      case Ok(values) =>
        match ResolveField(secrets, v, fields[|fields| - 1])
        case Err(e) => Err(e)
        case Ok(value) => Ok(values + [value])
  }

  function ResolveAuth(secrets: Secrets, v: Validator, auth: Auth): Result<AuthValues, ResolveError> {
    match ResolveFields(secrets, v, Fields(auth))
    case Err(e) => Err(e)
    case Ok(values) => Ok(AuthValues(values[0], values[1], values[2]))
  }

  /** An output and the place its credentials go to. */
  datatype OutputAuth = OutputAuth(slot: nat, enabled: bool, auth: Option<Auth>)

  function ResolveOutputs(secrets: Secrets, v: Validator, outputs: seq<OutputAuth>, values: seq<AuthValues>): (r: Result<seq<AuthValues>, ResolveError>)
    requires forall o | o in outputs :: o.slot < |values|
    ensures r.Ok? ==> |r.value| == |values|
  {
    if outputs == [] then Ok(values)
    else
      var o := outputs[|outputs| - 1];
      match ResolveOutputs(secrets, v, outputs[..|outputs| - 1], values)
      case Err(e) => Err(e)
      case Ok(filled) =>
        if !o.enabled || o.auth.None? then Ok(filled)
        else
          match ResolveAuth(secrets, v, o.auth.value)
          case Err(e) => Err(e)
          case Ok(resolved) => Ok(filled[o.slot := resolved])
  }

  method ResolveAuthValues(secrets: Secrets, v: Validator, auth: Auth) returns (r: Result<AuthValues, ResolveError>)
    ensures r == ResolveAuth(secrets, v, auth)
  {
    var fields := Fields(auth);
    var values: seq<string> := [];
    for i := 0 to |fields|
      invariant ResolveFields(secrets, v, fields[..i]) == Ok(values)
    {
      assert fields[..i + 1][..i] == fields[..i];
      var value := "";
      if fields[i].Some? {
        var read := ResolveKey(secrets, fields[i].value);
        if read.Err? {
          FirstErrorDecides(secrets, v, fields, i + 1);
          return Err(read.error);
        }
        if !Accepts(v, read.value) {
          FirstErrorDecides(secrets, v, fields, i + 1);
          return Err(Rejected(fields[i].value.name, fields[i].value.key));
        }
        value := read.value;
      }
      values := values + [value];
    }
    assert fields[..|fields|] == fields;
    r := Ok(AuthValues(values[0], values[1], values[2]));
  }

  lemma {:induction false} FirstErrorDecides(secrets: Secrets, v: Validator, fields: seq<Option<SecretKeySelector>>, n: nat)
    requires n <= |fields| && ResolveFields(secrets, v, fields[..n]).Err?
    ensures ResolveFields(secrets, v, fields) == ResolveFields(secrets, v, fields[..n])
  {
    if n == |fields| {
      assert fields[..n] == fields;
    } else {
      assert fields[..|fields| - 1][..n] == fields[..n];
      FirstErrorDecides(secrets, v, fields[..|fields| - 1], n);
    }
  }

  /** resolveOutputAuth: fills the destinations in place and stops at the first error. */
  method ResolveOutputAuth(secrets: Secrets, v: Validator, outputs: seq<OutputAuth>, values: array<AuthValues>) returns (err: Option<ResolveError>)
    requires forall o | o in outputs :: o.slot < values.Length
    modifies values
    ensures err.None? ==> ResolveOutputs(secrets, v, outputs, old(values[..])) == Ok(values[..])
    ensures err.Some? ==> ResolveOutputs(secrets, v, outputs, old(values[..])) == Err(err.value)
  {
    for i := 0 to |outputs|
      invariant ResolveOutputs(secrets, v, outputs[..i], old(values[..])) == Ok(values[..])
    {
      assert outputs[..i + 1][..i] == outputs[..i];
      var o := outputs[i];
      if o.enabled && o.auth.Some? {
        var r := ResolveAuthValues(secrets, v, o.auth.value);
        if r.Err? {
          FirstOutputErrorDecides(secrets, v, outputs, old(values[..]), i + 1);
          return Some(r.error);
        }
        values[o.slot] := r.value;
      }
    }
    assert outputs[..|outputs|] == outputs;
    err := None;
  }

  lemma {:induction false} FirstOutputErrorDecides(secrets: Secrets, v: Validator, outputs: seq<OutputAuth>, values: seq<AuthValues>, n: nat)
    requires n <= |outputs| && (forall o | o in outputs :: o.slot < |values|)
    requires ResolveOutputs(secrets, v, outputs[..n], values).Err?
    ensures ResolveOutputs(secrets, v, outputs, values) == ResolveOutputs(secrets, v, outputs[..n], values)
  {
    if n == |outputs| {
      assert outputs[..n] == outputs;
    } else {
      assert outputs[..|outputs| - 1][..n] == outputs[..n];
      FirstOutputErrorDecides(secrets, v, outputs[..|outputs| - 1], values, n);
    }
  }

  // ------------------------------------------------------------------ the three handlers

  datatype Handler = FluentdHandler | FluentbitHandler | AggregatorHandler

  function ValidatorOf(h: Handler): Validator {
    if h.FluentdHandler? then SingleLine else FluentbitValue
  }

  function OutputAuths(slot: nat, output: Option<Output>): (r: seq<OutputAuth>)
    ensures forall o | o in r :: o.slot == slot
  {
    if output.Some? then [OutputAuth(slot, output.value.enabled, output.value.auth)] else []
  }

  function FluentbitAuths(output: Option<FluentbitOutput>): (r: seq<OutputAuth>)
    ensures forall o | o in r :: o.slot < 3
  {
    if output.None? then []
    else OutputAuths(0, output.value.loki) + OutputAuths(1, output.value.http) + OutputAuths(2, output.value.otel)
  }

  /** The outputs a handler resolves: Loki, Http, and for Fluent Bit also Otel. */
  function OutputsOf(h: Handler, cr: LoggingService): (r: seq<OutputAuth>)
    ensures forall o | o in r :: o.slot < 3
  {
    match h
    case FluentdHandler =>
      if cr.fluentd.None? || cr.fluentd.value.output.None? then []
      else OutputAuths(0, cr.fluentd.value.output.value.loki) + OutputAuths(1, cr.fluentd.value.output.value.http)
    case FluentbitHandler => if cr.fluentbit.None? then [] else FluentbitAuths(cr.fluentbit.value.output)
    case AggregatorHandler =>
      if cr.fluentbit.None? || cr.fluentbit.value.aggregator.None? then []
      else FluentbitAuths(cr.fluentbit.value.aggregator.value.output)
  }

  function Resolve(h: Handler, cr: LoggingService, secrets: Secrets): Result<seq<AuthValues>, ResolveError> {
    ResolveOutputs(secrets, ValidatorOf(h), OutputsOf(h, cr), [EMPTY, EMPTY, EMPTY])
  }

  /** resolveOutputCredentials of a handler: an error comes with all-empty credentials, even
      if some outputs had been resolved before it. */
  method ResolveOutputCredentials(h: Handler, cr: LoggingService, secrets: Secrets) returns (credentials: seq<AuthValues>, err: Option<ResolveError>)
    ensures err.None? ==> Resolve(h, cr, secrets) == Ok(credentials)
    ensures err.Some? ==> Resolve(h, cr, secrets) == Err(err.value) && credentials == [EMPTY, EMPTY, EMPTY]
  {
    var values := new AuthValues[3](_ => EMPTY);
    assert values[..] == [EMPTY, EMPTY, EMPTY];
    err := ResolveOutputAuth(secrets, ValidatorOf(h), OutputsOf(h, cr), values);
    credentials := if err.Some? then [EMPTY, EMPTY, EMPTY] else values[..];
  }

  // ------------------------------------------------------------------ what lands where

  /** The value is the datum the selector points at, which the validator accepts; without a
      selector it is empty. */
  ghost predicate IsDatum(secrets: Secrets, v: Validator, selector: Option<SecretKeySelector>, value: string) {
    match selector
    case None => value == ""
    case Some(s) =>
      && s.name in secrets && s.key in secrets[s.name].data && value == secrets[s.name].data[s.key]
      && value != "" && Accepts(v, value)
  }

  /** Each of the three values is the datum of its own selector; they are empty for an output that
      is absent, disabled or without an auth block. */
  ghost predicate Holds(secrets: Secrets, v: Validator, output: Option<Output>, values: AuthValues) {
    match output
    case None => values == AuthValues("", "", "")
    case Some(o) =>
      if !o.enabled || o.auth.None? then values == AuthValues("", "", "")
      else
        && IsDatum(secrets, v, o.auth.value.token, values.token)
        && IsDatum(secrets, v, o.auth.value.user, values.user)
        && IsDatum(secrets, v, o.auth.value.password, values.password)
  }

  /** What keeps a field from being resolved. */
  ghost function FieldError(secrets: Secrets, v: Validator, selector: Option<SecretKeySelector>): Option<ResolveError> {
    match selector
    case None => None
    case Some(s) =>
      if s.name !in secrets then Some(CannotRead(s.name))
      else if s.key !in secrets[s.name].data || secrets[s.name].data[s.key] == "" then Some(KeyMissing(s.name, s.key))
      else if !Accepts(v, secrets[s.name].data[s.key]) then Some(Rejected(s.name, s.key))
      else None
  }

  /** An output's first error, token before user before password. */
  ghost function OutputError(secrets: Secrets, v: Validator, output: Option<Output>): Option<ResolveError> {
    if output.None? || !output.value.enabled || output.value.auth.None? then None
    else
      var auth := output.value.auth.value;
      FirstOf(FieldError(secrets, v, auth.token), FirstOf(FieldError(secrets, v, auth.user), FieldError(secrets, v, auth.password)))
  }

  ghost function FirstOf<T>(a: Option<T>, b: Option<T>): Option<T> {
    if a.Some? then a else b
  }

  ghost function ErrorOf<T, E>(r: Result<T, E>): Option<E> {
    if r.Err? then Some(r.error) else None
  }

  lemma FieldIff(secrets: Secrets, v: Validator, selector: Option<SecretKeySelector>)
    ensures ErrorOf(ResolveField(secrets, v, selector)) == FieldError(secrets, v, selector)
    ensures ResolveField(secrets, v, selector).Ok? ==> IsDatum(secrets, v, selector, ResolveField(secrets, v, selector).value)
  {
  }

  /** One more field: its error counts if no earlier one has one. */
  lemma OneField(secrets: Secrets, v: Validator, before: seq<Option<SecretKeySelector>>, field: Option<SecretKeySelector>)
    ensures var was, now := ResolveFields(secrets, v, before), ResolveFields(secrets, v, before + [field]);
            && ErrorOf(now) == FirstOf(ErrorOf(was), FieldError(secrets, v, field))
            && (now.Ok? ==> now.value[..|before|] == was.value && IsDatum(secrets, v, field, now.value[|before|]))
  {
    assert (before + [field])[..|before|] == before;
    FieldIff(secrets, v, field);
  }

  lemma ThreeFields(secrets: Secrets, v: Validator, a: Option<SecretKeySelector>, b: Option<SecretKeySelector>, c: Option<SecretKeySelector>)
    ensures var r := ResolveFields(secrets, v, [a, b, c]);
            && ErrorOf(r) == FirstOf(FieldError(secrets, v, a), FirstOf(FieldError(secrets, v, b), FieldError(secrets, v, c)))
            && (r.Ok? ==> IsDatum(secrets, v, a, r.value[0]) && IsDatum(secrets, v, b, r.value[1]) && IsDatum(secrets, v, c, r.value[2]))
  {
    OneField(secrets, v, [], a);
    OneField(secrets, v, [a], b);
    OneField(secrets, v, [a, b], c);
    assert [] + [a] == [a] && [a] + [b] == [a, b] && [a, b] + [c] == [a, b, c];
    var r := ResolveFields(secrets, v, [a, b, c]);
    if r.Ok? {
      assert r.value[..2][..1] == r.value[..1];
      assert r.value[..2][1] == r.value[1] && r.value[..1][0] == r.value[0];
    }
  }

  lemma AuthHolds(secrets: Secrets, v: Validator, output: Output)
    requires output.enabled && output.auth.Some?
    ensures ErrorOf(ResolveAuth(secrets, v, output.auth.value)) == OutputError(secrets, v, Some(output))
    ensures ResolveAuth(secrets, v, output.auth.value).Ok? ==> Holds(secrets, v, Some(output), ResolveAuth(secrets, v, output.auth.value).value)
  {
    var auth := output.auth.value;
    ThreeFields(secrets, v, auth.token, auth.user, auth.password);
  }

  /** An output fills its own slot and leaves the others; its error counts if no earlier output
      has one. */
  lemma OneOutput(secrets: Secrets, v: Validator, before: seq<OutputAuth>, slot: nat, output: Option<Output>)
    requires (forall o | o in before :: o.slot < slot) && slot < 3
    ensures var was, now := ResolveOutputs(secrets, v, before, [EMPTY, EMPTY, EMPTY]),
                            ResolveOutputs(secrets, v, before + OutputAuths(slot, output), [EMPTY, EMPTY, EMPTY]);
            && ErrorOf(now) == FirstOf(ErrorOf(was), OutputError(secrets, v, output))
            && (now.Ok? ==> Holds(secrets, v, output, now.value[slot]) && forall i | 0 <= i < 3 && i != slot :: now.value[i] == was.value[i])
  {
    var outputs := before + OutputAuths(slot, output);
    if ResolveOutputs(secrets, v, before, [EMPTY, EMPTY, EMPTY]).Ok? {
      UnusedSlot(secrets, v, before, [EMPTY, EMPTY, EMPTY], slot);
    }
    if output.None? {
      assert outputs == before;
    } else {
      assert outputs[..|outputs| - 1] == before;
      if output.value.enabled && output.value.auth.Some? {
        AuthHolds(secrets, v, output.value);
      }
    }
  }

  lemma {:induction false} UnusedSlot(secrets: Secrets, v: Validator, outputs: seq<OutputAuth>, values: seq<AuthValues>, slot: nat)
    requires forall o | o in outputs :: o.slot < slot
    requires slot < |values| && ResolveOutputs(secrets, v, outputs, values).Ok?
    ensures ResolveOutputs(secrets, v, outputs, values).value[slot] == values[slot]
  {
    if outputs != [] {
      UnusedSlot(secrets, v, outputs[..|outputs| - 1], values, slot);
    }
  }

  lemma TwoOutputs(secrets: Secrets, v: Validator, loki: Option<Output>, http: Option<Output>)
    ensures var r := ResolveOutputs(secrets, v, OutputAuths(0, loki) + OutputAuths(1, http), [EMPTY, EMPTY, EMPTY]);
            && ErrorOf(r) == FirstOf(OutputError(secrets, v, loki), OutputError(secrets, v, http))
            && (r.Ok? ==> Holds(secrets, v, loki, r.value[0]) && Holds(secrets, v, http, r.value[1]) && r.value[2] == AuthValues("", "", ""))
  {
    OneOutput(secrets, v, [], 0, loki);
    assert [] + OutputAuths(0, loki) == OutputAuths(0, loki);
    OneOutput(secrets, v, OutputAuths(0, loki), 1, http);
  }

  /** What FluentD gets from Loki's and Http's auth blocks, and the error it gets: the first one,
      Loki before Http. */
  lemma FluentdGetsOwnData(cr: LoggingService, secrets: Secrets)
    ensures var r := Resolve(FluentdHandler, cr, secrets);
            if cr.fluentd.None? || cr.fluentd.value.output.None? then
              r == Ok([AuthValues("", "", ""), AuthValues("", "", ""), AuthValues("", "", "")])
            else
              var o := cr.fluentd.value.output.value;
              && ErrorOf(r) == FirstOf(OutputError(secrets, SingleLine, o.loki), OutputError(secrets, SingleLine, o.http))
              && (r.Ok? ==> Holds(secrets, SingleLine, o.loki, r.value[0]) && Holds(secrets, SingleLine, o.http, r.value[1])
                            && r.value[2] == AuthValues("", "", ""))
  {
    if cr.fluentd.Some? && cr.fluentd.value.output.Some? {
      TwoOutputs(secrets, SingleLine, cr.fluentd.value.output.value.loki, cr.fluentd.value.output.value.http);
    }
  }

  /** Fluent Bit's credentials hold the data of this output, Loki, Http and Otel in this order, or
      the first error in the same order. */
  ghost predicate HoldsAll(secrets: Secrets, output: Option<FluentbitOutput>, r: Result<seq<AuthValues>, ResolveError>) {
    if output.None? then r == Ok([AuthValues("", "", ""), AuthValues("", "", ""), AuthValues("", "", "")])
    else
      var o, v := output.value, FluentbitValue;
      && ErrorOf(r) == FirstOf(OutputError(secrets, v, o.loki), FirstOf(OutputError(secrets, v, o.http), OutputError(secrets, v, o.otel)))
      && (r.Ok? ==> |r.value| == 3 && Holds(secrets, v, o.loki, r.value[0]) && Holds(secrets, v, o.http, r.value[1])
                    && Holds(secrets, v, o.otel, r.value[2]))
  }

  lemma ThreeOutputs(secrets: Secrets, output: Option<FluentbitOutput>)
    ensures HoldsAll(secrets, output, ResolveOutputs(secrets, FluentbitValue, FluentbitAuths(output), [EMPTY, EMPTY, EMPTY]))
  {
    if output.Some? {
      TwoOutputs(secrets, FluentbitValue, output.value.loki, output.value.http);
      OneOutput(secrets, FluentbitValue, OutputAuths(0, output.value.loki) + OutputAuths(1, output.value.http), 2, output.value.otel);
    }
  }

  /** Plain Fluent Bit and the forwarder resolve Fluent Bit's output, the aggregator its own. */
  lemma FluentbitGetsOwnData(cr: LoggingService, secrets: Secrets)
    ensures HoldsAll(secrets, if cr.fluentbit.None? then None else cr.fluentbit.value.output, Resolve(FluentbitHandler, cr, secrets))
    ensures HoldsAll(secrets, if cr.fluentbit.None? || cr.fluentbit.value.aggregator.None? then None else cr.fluentbit.value.aggregator.value.output,
                     Resolve(AggregatorHandler, cr, secrets))
  {
    if cr.fluentbit.Some? {
      ThreeOutputs(secrets, cr.fluentbit.value.output);
      if cr.fluentbit.value.aggregator.Some? {
        ThreeOutputs(secrets, cr.fluentbit.value.aggregator.value.output);
      }
    }
  }

  /** What the validators refuse: carriage return, line feed and NUL, and for Fluent Bit also a
      variable reference, which starts with a dollar sign and a brace. */
  lemma AcceptsIff(v: Validator, value: string)
    ensures Accepts(v, value) <==>
            && '\r' !in value && '\n' !in value && '\0' !in value
            && (v == FluentbitValue ==> forall a, b :: value != a + "${" + b)
  {
    if IsSingleLine(value) {
      if HasVariableReference(value) {
        var i :| 0 <= i < |value| - 1 && value[i] == '$' && value[i + 1] == '{';
        assert value == value[..i] + "${" + value[i + 2..];
      }
      if a, b :| value == a + "${" + b {
        assert value[|a|] == '$' && value[|a| + 1] == '{';
      }
    }
  }

  // ------------------------------------------------------------------ the watch

  predicate SelectorReferences(selector: Option<SecretKeySelector>, secretName: string) {
    selector.Some? && selector.value.name == secretName
  }

  predicate AuthReferencesSecret(auth: Option<Auth>, secretName: string) {
    auth.Some? &&
    (SelectorReferences(auth.value.token, secretName) || SelectorReferences(auth.value.user, secretName)
     || SelectorReferences(auth.value.password, secretName))
  }

  predicate EnabledOutputReferences(output: Option<Output>, secretName: string) {
    output.Some? && output.value.enabled && AuthReferencesSecret(output.value.auth, secretName)
  }

  predicate OutputReferencesSecret(output: Option<FluentbitOutput>, secretName: string) {
    output.Some? &&
    (EnabledOutputReferences(output.value.loki, secretName) || EnabledOutputReferences(output.value.http, secretName)
     || EnabledOutputReferences(output.value.otel, secretName))
  }

  predicate FluentbitReferencesSecret(cr: LoggingService, secretName: string) {
    cr.fluentbit.Some? &&
    (OutputReferencesSecret(cr.fluentbit.value.output, secretName)
     || (cr.fluentbit.value.aggregator.Some? && OutputReferencesSecret(cr.fluentbit.value.aggregator.value.output, secretName)))
  }

  predicate FluentdReferencesSecret(cr: LoggingService, secretName: string) {
    cr.fluentd.Some? && cr.fluentd.value.output.Some? &&
    (EnabledOutputReferences(cr.fluentd.value.output.value.loki, secretName)
     || EnabledOutputReferences(cr.fluentd.value.output.value.http, secretName))
  }

  predicate References(cr: LoggingService, secretName: string) {
    FluentbitReferencesSecret(cr, secretName) || FluentdReferencesSecret(cr, secretName)
  }

  datatype Event =
    | CreateEvent(secret: Secret)
    | UpdateEvent(before: Secret, after: Secret)
    | DeleteEvent(secret: Secret)
    | GenericEvent

  /** credentialSecretChangedPredicate. */
  predicate Passes(e: Event) {
    match e
    case CreateEvent(_) => true
    case DeleteEvent(_) => true
    case UpdateEvent(before, after) => before.data != after.data
    case GenericEvent => false
  }

  /** The names of the resources that reference the Secret, in the order listed, one each. */
  function Referencing(items: seq<LoggingService>, secretName: string): seq<string> {
    if items == [] then []
    else ReferencingOne(items[0], secretName) + Referencing(items[1..], secretName)
  }

  function ReferencingOne(item: LoggingService, secretName: string): seq<string> {
    if References(item, secretName) then [item.name] else []
  }

  lemma {:induction false} ReferencingSplits(a: seq<LoggingService>, b: seq<LoggingService>, secretName: string)
    ensures Referencing(a + b, secretName) == Referencing(a, secretName) + Referencing(b, secretName)
  {
    if a == [] {
      assert a + b == b;
    } else {
      ReferencingSplits(a[1..], b, secretName);
      assert (a + b)[1..] == a[1..] + b;
      Associative(ReferencingOne(a[0], secretName), Referencing(a[1..], secretName), Referencing(b, secretName));
    }
  }

  lemma ReferencingLast(item: LoggingService, secretName: string)
    ensures Referencing([item], secretName) == ReferencingOne(item, secretName)
  {
    assert [item][1..] == [];
  }

  /** mapSecretToLoggingServices, for the resources of the Secret's namespace. */
  method MapSecretToLoggingServices(items: seq<LoggingService>, secretName: string) returns (requests: seq<string>)
    ensures requests == Referencing(items, secretName)
  {
    requests := [];
    for i := 0 to |items|
      invariant requests == Referencing(items[..i], secretName)
    {
      assert items[..i + 1] == items[..i] + [items[i]];
      ReferencingSplits(items[..i], [items[i]], secretName);
      ReferencingLast(items[i], secretName);
      if FluentbitReferencesSecret(items[i], secretName) || FluentdReferencesSecret(items[i], secretName) {
        requests := requests + [items[i].name];
      }
    }
    assert items[..|items|] == items;
  }

  /** A resource is enqueued exactly if it references the Secret. */
  lemma {:induction false} ReferencingIff(items: seq<LoggingService>, secretName: string, name: string)
    ensures name in Referencing(items, secretName)
            <==> exists i | 0 <= i < |items| :: References(items[i], secretName) && items[i].name == name
  {
    if items != [] {
      ReferencingIff(items[1..], secretName, name);
      if exists i | 0 <= i < |items| :: References(items[i], secretName) && items[i].name == name {
        var i :| 0 <= i < |items| && References(items[i], secretName) && items[i].name == name;
        assert i > 0 ==> items[1..][i - 1] == items[i];
      }
      if exists i | 0 <= i < |items[1..]| :: References(items[1..][i], secretName) && items[1..][i].name == name {
        var i :| 0 <= i < |items[1..]| && References(items[1..][i], secretName) && items[1..][i].name == name;
        assert items[i + 1] == items[1..][i];
      }
    }
  }

  // ------------------------------------------------------------------ what resolution reads

  /** The output is resolved, and one of its selectors names the Secret. */
  predicate Reads(o: OutputAuth, secretName: string) {
    o.enabled && AuthReferencesSecret(o.auth, secretName)
  }

  predicate SomeReads(outputs: seq<OutputAuth>, secretName: string) {
    exists i | 0 <= i < |outputs| :: Reads(outputs[i], secretName)
  }

  predicate HandlerReads(h: Handler, cr: LoggingService, secretName: string) {
    SomeReads(OutputsOf(h, cr), secretName)
  }

  lemma ReadsIsReferences(cr: LoggingService, secretName: string)
    ensures HandlerReads(FluentdHandler, cr, secretName) <==> FluentdReferencesSecret(cr, secretName)
    ensures HandlerReads(FluentbitHandler, cr, secretName) || HandlerReads(AggregatorHandler, cr, secretName)
            <==> FluentbitReferencesSecret(cr, secretName)
  {
    if cr.fluentd.Some? && cr.fluentd.value.output.Some? {
      var output := cr.fluentd.value.output.value;
      ConcatReads(OutputAuths(0, output.loki), OutputAuths(1, output.http), secretName);
      SingleReads(0, output.loki, secretName);
      SingleReads(1, output.http, secretName);
    }
    if cr.fluentbit.Some? {
      FluentbitReads(cr.fluentbit.value.output, secretName);
      if cr.fluentbit.value.aggregator.Some? {
        FluentbitReads(cr.fluentbit.value.aggregator.value.output, secretName);
      }
    }
  }

  lemma ConcatReads(a: seq<OutputAuth>, b: seq<OutputAuth>, secretName: string)
    ensures SomeReads(a + b, secretName) <==> SomeReads(a, secretName) || SomeReads(b, secretName)
  {
    if SomeReads(a, secretName) {
      var i :| 0 <= i < |a| && Reads(a[i], secretName);
      assert (a + b)[i] == a[i];
    }
    if SomeReads(b, secretName) {
      var i :| 0 <= i < |b| && Reads(b[i], secretName);
      assert (a + b)[|a| + i] == b[i];
    }
  }

  lemma SingleReads(slot: nat, output: Option<Output>, secretName: string)
    ensures SomeReads(OutputAuths(slot, output), secretName) <==> EnabledOutputReferences(output, secretName)
  {
    if output.Some? {
      assert OutputAuths(slot, output)[0] == OutputAuth(slot, output.value.enabled, output.value.auth);
    }
  }

  lemma FluentbitReads(output: Option<FluentbitOutput>, secretName: string)
    ensures SomeReads(FluentbitAuths(output), secretName) <==> OutputReferencesSecret(output, secretName)
  {
    if output.Some? {
      var loki, http, otel := OutputAuths(0, output.value.loki), OutputAuths(1, output.value.http), OutputAuths(2, output.value.otel);
      ConcatReads(loki, http, secretName);
      ConcatReads(loki + http, otel, secretName);
      SingleReads(0, output.value.loki, secretName);
      SingleReads(1, output.value.http, secretName);
      SingleReads(2, output.value.otel, secretName);
    }
  }

  /** The two stores agree on the data of every Secret but one. */
  ghost predicate AgreeExcept(a: Secrets, b: Secrets, secretName: string) {
    forall n | n != secretName :: (n in a <==> n in b) && (n in a ==> a[n].data == b[n].data)
  }

  lemma FieldDependsOnlyOnName(a: Secrets, b: Secrets, v: Validator, selector: Option<SecretKeySelector>, secretName: string)
    requires AgreeExcept(a, b, secretName) && !SelectorReferences(selector, secretName)
    ensures ResolveField(a, v, selector) == ResolveField(b, v, selector)
  {
  }

  lemma AuthDependsOnlyOnNames(a: Secrets, b: Secrets, v: Validator, auth: Auth, secretName: string)
    requires AgreeExcept(a, b, secretName) && !AuthReferencesSecret(Some(auth), secretName)
    ensures ResolveAuth(a, v, auth) == ResolveAuth(b, v, auth)
  {
    var f := Fields(auth);
    forall i | 0 <= i < 3
      ensures ResolveField(a, v, f[i]) == ResolveField(b, v, f[i])
    {
      FieldDependsOnlyOnName(a, b, v, f[i], secretName);
    }
    FieldsAgree(a, b, v, f);
  }

  lemma {:induction false} FieldsAgree(a: Secrets, b: Secrets, v: Validator, fields: seq<Option<SecretKeySelector>>)
    requires forall i | 0 <= i < |fields| :: ResolveField(a, v, fields[i]) == ResolveField(b, v, fields[i])
    ensures ResolveFields(a, v, fields) == ResolveFields(b, v, fields)
  {
    if fields != [] {
      FieldsAgree(a, b, v, fields[..|fields| - 1]);
    }
  }

  lemma {:induction false} OutputsAgree(a: Secrets, b: Secrets, v: Validator, outputs: seq<OutputAuth>, values: seq<AuthValues>, secretName: string)
    requires forall o | o in outputs :: o.slot < |values|
    requires AgreeExcept(a, b, secretName) && !SomeReads(outputs, secretName)
    ensures ResolveOutputs(a, v, outputs, values) == ResolveOutputs(b, v, outputs, values)
  {
    if outputs != [] {
      var init, o := outputs[..|outputs| - 1], outputs[|outputs| - 1];
      assert forall i | 0 <= i < |init| :: init[i] == outputs[i];
      assert !Reads(o, secretName);
      OutputsAgree(a, b, v, init, values, secretName);
      if o.enabled && o.auth.Some? {
        AuthDependsOnlyOnNames(a, b, v, o.auth.value, secretName);
      }
    }
  }

  /** Watch completeness, as non-interference: a change confined to a Secret that the watch
      does not associate with the resource changes neither the credentials any handler
      resolves nor the error it gets. */
  lemma UnreferencedSecretIsIrrelevant(h: Handler, cr: LoggingService, secretName: string, a: Secrets, b: Secrets)
    requires AgreeExcept(a, b, secretName) && !References(cr, secretName)
    ensures Resolve(h, cr, a) == Resolve(h, cr, b)
  {
    ReadsIsReferences(cr, secretName);
    assert !SomeReads(OutputsOf(h, cr), secretName) by {
      assert !HandlerReads(h, cr, secretName);
    }
    OutputsAgree(a, b, ValidatorOf(h), OutputsOf(h, cr), [EMPTY, EMPTY, EMPTY], secretName);
  }

  /** An update event that the watch drops changes no credential of any resource. */
  lemma DroppedUpdateIsHarmless(h: Handler, cr: LoggingService, secrets: Secrets, name: string, before: Secret, after: Secret)
    requires name in secrets && secrets[name] == before && !Passes(UpdateEvent(before, after))
    ensures Resolve(h, cr, secrets[name := after]) == Resolve(h, cr, secrets)
  {
    var b := secrets[name := after];
    forall v, s: SecretKeySelector
      ensures ResolveField(secrets, v, Some(s)) == ResolveField(b, v, Some(s))
    {
    }
    SameFieldsSameOutputs(secrets, b, ValidatorOf(h), OutputsOf(h, cr), [EMPTY, EMPTY, EMPTY]);
  }

  lemma {:induction false} SameFieldsSameOutputs(a: Secrets, b: Secrets, v: Validator, outputs: seq<OutputAuth>, values: seq<AuthValues>)
    requires forall o | o in outputs :: o.slot < |values|
    requires forall s: SecretKeySelector :: ResolveField(a, v, Some(s)) == ResolveField(b, v, Some(s))
    ensures ResolveOutputs(a, v, outputs, values) == ResolveOutputs(b, v, outputs, values)
  {
    if outputs != [] {
      var o := outputs[|outputs| - 1];
      SameFieldsSameOutputs(a, b, v, outputs[..|outputs| - 1], values);
      if o.enabled && o.auth.Some? {
        forall i | 0 <= i < 3
          ensures ResolveField(a, v, Fields(o.auth.value)[i]) == ResolveField(b, v, Fields(o.auth.value)[i])
        {
          var f := Fields(o.auth.value)[i];
          assert f.None? || f == Some(f.value);
        }
        FieldsAgree(a, b, v, Fields(o.auth.value));
      }
    }
  }

  // ------------------------------------------------------------------ the watch is exact

  function SelectorsOfFields(fields: seq<Option<SecretKeySelector>>): set<SecretKeySelector> {
    set i | 0 <= i < |fields| && fields[i].Some? :: fields[i].value
  }

  function SelectorsOf(outputs: seq<OutputAuth>): set<SecretKeySelector> {
    if outputs == [] then {}
    else
      var o := outputs[|outputs| - 1];
      SelectorsOf(outputs[..|outputs| - 1]) + if o.enabled && o.auth.Some? then SelectorsOfFields(Fields(o.auth.value)) else {}
  }

  ghost predicate Readable(secrets: Secrets, v: Validator, s: SecretKeySelector) {
    ResolveField(secrets, v, Some(s)).Ok?
  }

  lemma {:induction false} FieldsResolveIff(secrets: Secrets, v: Validator, fields: seq<Option<SecretKeySelector>>)
    ensures ResolveFields(secrets, v, fields).Ok? <==> forall s | s in SelectorsOfFields(fields) :: Readable(secrets, v, s)
  {
    if fields != [] {
      var n := |fields| - 1;
      FieldsResolveIff(secrets, v, fields[..n]);
      assert SelectorsOfFields(fields) == SelectorsOfFields(fields[..n]) + if fields[n].Some? then {fields[n].value} else {};
      assert fields[n].Some? ==> ResolveField(secrets, v, fields[n]) == ResolveField(secrets, v, Some(fields[n].value));
    }
  }

  /** Resolution succeeds exactly when every selector of an enabled output can be read. */
  lemma {:induction false} OutputsResolveIff(secrets: Secrets, v: Validator, outputs: seq<OutputAuth>, values: seq<AuthValues>)
    requires forall o | o in outputs :: o.slot < |values|
    ensures ResolveOutputs(secrets, v, outputs, values).Ok? <==> forall s | s in SelectorsOf(outputs) :: Readable(secrets, v, s)
  {
    if outputs != [] {
      var o := outputs[|outputs| - 1];
      OutputsResolveIff(secrets, v, outputs[..|outputs| - 1], values);
      if o.enabled && o.auth.Some? {
        FieldsResolveIff(secrets, v, Fields(o.auth.value));
      }
    }
  }

  lemma {:induction false} ReadsHasSelector(outputs: seq<OutputAuth>, secretName: string) returns (s: SecretKeySelector)
    requires SomeReads(outputs, secretName)
    ensures s in SelectorsOf(outputs) && s.name == secretName
  {
    var n := |outputs| - 1;
    var o := outputs[n];
    if Reads(o, secretName) {
      var f := Fields(o.auth.value);
      assert f[0] == o.auth.value.token && f[1] == o.auth.value.user && f[2] == o.auth.value.password;
      assert exists i :: 0 <= i < 3 && SelectorReferences(f[i], secretName);
      var i :| 0 <= i < 3 && SelectorReferences(f[i], secretName);
      s := f[i].value;
    } else {
      assert SomeReads(outputs[..n], secretName) by {
        var i :| 0 <= i < |outputs| && Reads(outputs[i], secretName);
        assert outputs[..n][i] == outputs[i];
      }
      s := ReadsHasSelector(outputs[..n], secretName);
    }
  }

  /** A store in which every selector can be read. */
  function Filled(selectors: set<SecretKeySelector>): Secrets {
    var names, keys := set s | s in selectors :: s.name, set s | s in selectors :: s.key;
    map n | n in names :: Secret(map k | k in keys :: "x", "")
  }

  lemma FilledIsReadable(selectors: set<SecretKeySelector>, v: Validator, s: SecretKeySelector)
    requires s in selectors
    ensures Readable(Filled(selectors), v, s)
  {
    assert ResolveKey(Filled(selectors), s) == Ok("x");
  }

  lemma RemovalBreaksResolution(v: Validator, outputs: seq<OutputAuth>, values: seq<AuthValues>, secretName: string)
    requires (forall o | o in outputs :: o.slot < |values|) && SomeReads(outputs, secretName)
    ensures var a := Filled(SelectorsOf(outputs));
            ResolveOutputs(a, v, outputs, values) != ResolveOutputs(a - {secretName}, v, outputs, values)
  {
    var s := ReadsHasSelector(outputs, secretName);
    var a := Filled(SelectorsOf(outputs));
    forall x | x in SelectorsOf(outputs)
      ensures Readable(a, v, x)
    {
      FilledIsReadable(SelectorsOf(outputs), v, x);
    }
    OutputsResolveIff(a, v, outputs, values);
    OutputsResolveIff(a - {secretName}, v, outputs, values);
    assert !Readable(a - {secretName}, v, s);
  }

  /** The watch is no wider than it has to be: for every Secret it associates with a
      resource there are two stores that differ in this Secret only and on which some handler
      resolves different credentials. */
  lemma ReferencedSecretMatters(cr: LoggingService, secretName: string)
    requires References(cr, secretName)
    ensures exists h, a, b :: AgreeExcept(a, b, secretName) && Resolve(h, cr, a) != Resolve(h, cr, b)
  {
    ReadsIsReferences(cr, secretName);
    var h := if HandlerReads(FluentdHandler, cr, secretName) then FluentdHandler
             else if HandlerReads(FluentbitHandler, cr, secretName) then FluentbitHandler
             else AggregatorHandler;
    RemovalBreaksResolution(ValidatorOf(h), OutputsOf(h, cr), [EMPTY, EMPTY, EMPTY], secretName);
    var a := Filled(SelectorsOf(OutputsOf(h, cr)));
    assert AgreeExcept(a, a - {secretName}, secretName);
    assert Resolve(h, cr, a) != Resolve(h, cr, a - {secretName});
  }
}
