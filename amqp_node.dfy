/**
 * The clean node (nodes/Amqp/Amqp.node.ts): building `rhea` connection
 * options from the credentials, and the part of `execute` that checks the
 * sink and turns each input item into one sent message and one output item.
 */
module AmqpNode {
  import opened Wrappers
  import opened JsString
  import opened Utilities
  import opened AmqpTypes

  const PemErrorMessage: string := "Invalid PEM format: missing BEGIN/END headers"
  const SinkRequiredMessage: string := "Queue or Topic required!"

  /** The keys of the object literal built before `...extra`. */
  const BaseKeys: set<string> := {"host", "hostname", "port", "username", "password", "transport"}

  /** The keys the TLS branch may set. */
  const TlsKeys: set<string> := {"transport_options", "sasl_init_hostname", "sasl_mechanisms"}

  /** The keys certificate authentication deletes or sets. */
  const CertAuthKeys: set<string> := {"username", "password", "sasl_init_hostname", "sasl_mechanisms"}

  /** The keys of `transport_options`. */
  const SslKeys: set<string> := {"rejectUnauthorized", "ca", "cert", "key", "passphrase", "servername"}

  /** The options the credential test connects with: `{ reconnect: false }`. */
  const CredentialTestExtra: Object := map["reconnect" := Bool(false)]

  // ---------------------------------------------------------------------
  // createConnectOptions
  // ---------------------------------------------------------------------

  /** The object literal before `...extra`: username, password and transport are `undefined` unless non-empty. */
  function BaseOptions(c: Credentials): (o: Object)
    ensures o.Keys == BaseKeys
  {
    map[
      "host" := Str(c.hostname),
      "hostname" := Str(c.hostname),
      "port" := Num(c.port),
      "username" := StrOrUndefined(c.username),
      "password" := StrOrUndefined(c.password),
      "transport" := StrOrUndefined(c.transportType)]
  }

  /** A PEM credential field that is set but has no BEGIN or END marker, so formatting it throws. */
  predicate PemFieldFails(field: Option<string>) {
    Truthy(field) && FormatPrivateKey(field.value).Failure?
  }

  /** `ssl[key]` is the formatted field when the field is a non-empty string, and absent otherwise. */
  predicate HoldsFormatted(ssl: Object, key: string, field: Option<string>) {
    && (key in ssl <==> Truthy(field))
    && (key in ssl ==> FormatPrivateKey(field.value).Success? && ssl[key] == Str(FormatPrivateKey(field.value).value))
  }

  /** `if (field && typeof field === 'string') ssl[key] = formatPrivateKey(field)`. */
  function SetFormatted(ssl: Object, key: string, field: Option<string>): (r: Result<Object, PemError>)
    requires key !in ssl
    ensures r.Failure? <==> PemFieldFails(field)
    ensures r.Success? ==> HoldsFormatted(r.value, key, field)
    ensures r.Success? ==> r.value.Keys <= ssl.Keys + {key}
    ensures r.Success? ==> forall k :: k in ssl ==> k in r.value && r.value[k] == ssl[k]
  {
    if !Truthy(field) then Success(ssl)
    else
      var pem := FormatPrivateKey(field.value);
      if pem.Failure? then Failure(pem.error) else Success(ssl[key := Str(pem.value)])
  }

  /** The first part of `transport_options`: `rejectUnauthorized`, then the formatted ca, cert and key. */
  function SslPemOptions(c: Credentials): (r: Result<Object, PemError>)
    ensures r.Failure? <==> PemFieldFails(c.ca) || PemFieldFails(c.cert) || PemFieldFails(c.key)
    ensures r.Success? ==> r.value.Keys <= {"rejectUnauthorized", "ca", "cert", "key"}
    ensures r.Success? ==> "rejectUnauthorized" in r.value && r.value["rejectUnauthorized"] == Bool(c.rejectUnauthorized.GetOr(true))
    ensures r.Success? ==>
      HoldsFormatted(r.value, "ca", c.ca) && HoldsFormatted(r.value, "cert", c.cert) && HoldsFormatted(r.value, "key", c.key)
  {
    var ssl0 := map["rejectUnauthorized" := Bool(c.rejectUnauthorized.GetOr(true))];
    var ssl1 :- SetFormatted(ssl0, "ca", c.ca);
    var ssl2 :- SetFormatted(ssl1, "cert", c.cert);
    SetFormatted(ssl2, "key", c.key)
  }

  /**
   * The TLS branch's `transport_options` object: `rejectUnauthorized`
   * defaults to true; `ca`, `cert` and `key` are formatted PEM text when set;
   * `servername` falls back to the hostname and is absent when both are empty.
   */
  function SslOptions(c: Credentials): (r: Result<Object, PemError>)
    ensures r.Failure? <==> PemFieldFails(c.ca) || PemFieldFails(c.cert) || PemFieldFails(c.key)
    ensures r.Success? ==> r.value.Keys <= SslKeys
    ensures r.Success? ==> "rejectUnauthorized" in r.value && r.value["rejectUnauthorized"] == Bool(c.rejectUnauthorized.GetOr(true))
    ensures r.Success? ==>
      HoldsFormatted(r.value, "ca", c.ca) && HoldsFormatted(r.value, "cert", c.cert) && HoldsFormatted(r.value, "key", c.key)
    ensures r.Success? ==> ("passphrase" in r.value <==> Truthy(c.passphrase))
    ensures r.Success? && "passphrase" in r.value ==> r.value["passphrase"] == Str(c.passphrase.value)
    ensures r.Success? ==> ("servername" in r.value <==> Truthy(c.servername) || c.hostname != "")
    ensures r.Success? && Truthy(c.servername) ==> r.value["servername"] == Str(c.servername.value)
    ensures r.Success? && !Truthy(c.servername) && c.hostname != "" ==> r.value["servername"] == Str(c.hostname)
  {
    var ssl3 :- SslPemOptions(c);
    var ssl4 := if Truthy(c.passphrase) then ssl3["passphrase" := Str(c.passphrase.value)] else ssl3;
    if Truthy(c.servername) then Success(ssl4["servername" := Str(c.servername.value)])
    else if c.hostname != "" then Success(ssl4["servername" := Str(c.hostname)])
    else Success(ssl4)
  }

  /** A key the TLS branch writes or deletes after `...extra`, so that extra cannot decide it. */
  predicate TlsOwned(c: Credentials, k: string) {
    IsTls(c) && (k == "transport_options" || (CertificateAuth(c) && k in CertAuthKeys))
  }

  /**
   * The TLS branch once `ssl` is built: it becomes `transport_options`, and
   * certificate authentication replaces the username and password login by
   * SASL EXTERNAL on the hostname. Every other key is kept.
   */
  function AddTls(o: Object, c: Credentials, ssl: Object): (r: Object)
    ensures Get(r, "transport_options") == Obj(ssl)
    ensures CertificateAuth(c) ==>
      && "username" !in r && "password" !in r
      && Get(r, "sasl_mechanisms") == Arr([Str("EXTERNAL")])
      && Get(r, "sasl_init_hostname") == Str(c.hostname)
    ensures forall k :: k in o && k != "transport_options" && !(CertificateAuth(c) && k in CertAuthKeys) ==>
      k in r && r[k] == o[k]
    ensures r.Keys <= o.Keys + TlsKeys
    ensures !CertificateAuth(c) ==> r == o["transport_options" := Obj(ssl)]
    ensures CertificateAuth(c) ==>
      r.Keys == o.Keys - {"username", "password"} + TlsKeys
  {
    var withTls := o["transport_options" := Obj(ssl)];
    if CertificateAuth(c) then
      (withTls - {"username", "password"})
        ["sasl_init_hostname" := Str(c.hostname)]
        ["sasl_mechanisms" := Arr([Str("EXTERNAL")])]
    else withTls
  }

  /**
   * The object literal followed by `...extra`: every base field comes from
   * the credentials unless extra has that key, and extra's keys win.
   */
  function MergeExtra(c: Credentials, extra: Object): (o: Object)
    ensures o.Keys == BaseKeys + extra.Keys
    ensures forall k :: k in extra ==> o[k] == extra[k]
    ensures "host" !in extra ==> o["host"] == Str(c.hostname)
    ensures "hostname" !in extra ==> o["hostname"] == Str(c.hostname)
    ensures "port" !in extra ==> o["port"] == Num(c.port)
    ensures "username" !in extra ==> o["username"] == StrOrUndefined(c.username)
    ensures "password" !in extra ==> o["password"] == StrOrUndefined(c.password)
    ensures "transport" !in extra ==> o["transport"] == StrOrUndefined(c.transportType)
  {
    BaseOptions(c) + extra
  }

  /**
   * `createConnectOptions(credentials, extra)`; a throw from formatPrivateKey
   * becomes a Failure, which happens exactly when TLS is chosen and one of
   * the PEM fields is set without its markers.
   */
  function CreateConnectOptions(c: Credentials, extra: Object): (r: Result<Object, PemError>)
    ensures r.Failure? <==> IsTls(c) && (PemFieldFails(c.ca) || PemFieldFails(c.cert) || PemFieldFails(c.key))
    ensures r.Success? && !IsTls(c) ==> r.value == MergeExtra(c, extra)
    ensures r.Success? && IsTls(c) ==>
      SslOptions(c).Success? && r.value == AddTls(MergeExtra(c, extra), c, SslOptions(c).value)
  {
    var connectOptions := MergeExtra(c, extra);
    if IsTls(c) then
      var ssl :- SslOptions(c);
      Success(AddTls(connectOptions, c, ssl))
    else Success(connectOptions)
  }

  /** Keys the TLS branch never writes. */
  lemma UntouchedByTls(c: Credentials)
    ensures !TlsOwned(c, "host") && !TlsOwned(c, "hostname") && !TlsOwned(c, "port") && !TlsOwned(c, "transport")
    ensures !TlsOwned(c, "reconnect") && !TlsOwned(c, "reconnect_limit") && !TlsOwned(c, "container_id")
  {
  }

  /** The base fields: taken from the credentials unless extra or the TLS branch decides them. */
  lemma ConnectOptionsBaseFields(c: Credentials, extra: Object)
    requires CreateConnectOptions(c, extra).Success?
    ensures var o := CreateConnectOptions(c, extra).value;
      && ("host" !in extra ==> Get(o, "host") == Str(c.hostname))
      && ("hostname" !in extra ==> Get(o, "hostname") == Str(c.hostname))
      && ("port" !in extra ==> Get(o, "port") == Num(c.port))
      && ("transport" !in extra ==> Get(o, "transport") == StrOrUndefined(c.transportType))
      && ("username" !in extra && !TlsOwned(c, "username") ==> Get(o, "username") == StrOrUndefined(c.username))
      && ("password" !in extra && !TlsOwned(c, "password") ==> Get(o, "password") == StrOrUndefined(c.password))
  {
    UntouchedByTls(c);
    var m := MergeExtra(c, extra);
    if IsTls(c) {
      assert CreateConnectOptions(c, extra).value == AddTls(m, c, SslOptions(c).value);
    }
  }

  /** Every key of extra reaches the options unchanged, except the keys the TLS branch writes afterwards. */
  lemma ExtraOverrides(c: Credentials, extra: Object, k: string)
    requires CreateConnectOptions(c, extra).Success?
    requires k in extra && !TlsOwned(c, k)
    ensures Get(CreateConnectOptions(c, extra).value, k) == extra[k]
  {
    UntouchedByTls(c);
    var m := MergeExtra(c, extra);
    if IsTls(c) {
      assert CreateConnectOptions(c, extra).value == AddTls(m, c, SslOptions(c).value);
    }
  }

  /**
   * Only TLS adds keys beyond the base fields and extra: `transport_options`,
   * and under certificate authentication SASL EXTERNAL in place of the
   * username and password.
   */
  lemma ConnectOptionsTlsFields(c: Credentials, extra: Object)
    requires CreateConnectOptions(c, extra).Success?
    ensures var o := CreateConnectOptions(c, extra).value;
      && (!IsTls(c) ==> o.Keys == BaseKeys + extra.Keys)
      && o.Keys <= BaseKeys + extra.Keys + TlsKeys
      && (IsTls(c) ==> SslOptions(c).Success? && Get(o, "transport_options") == Obj(SslOptions(c).value))
      && (IsTls(c) && !CertificateAuth(c) ==> o.Keys == BaseKeys + extra.Keys + {"transport_options"})
      && (IsTls(c) && CertificateAuth(c) ==>
        && o.Keys == BaseKeys + extra.Keys - {"username", "password"} + TlsKeys
        && Get(o, "sasl_mechanisms") == Arr([Str("EXTERNAL")])
        && Get(o, "sasl_init_hostname") == Str(c.hostname))
  {
  }

  /** Whether the options can be built depends on the credentials alone, not on extra. */
  lemma FailureIgnoresExtra(c: Credentials, extra1: Object, extra2: Object)
    ensures CreateConnectOptions(c, extra1).Failure? == CreateConnectOptions(c, extra2).Failure?
  {
  }

  /** The credential test connects with `reconnect: false`. */
  lemma CredentialTestDoesNotReconnect(c: Credentials)
    requires CreateConnectOptions(c, CredentialTestExtra).Success?
    ensures Get(CreateConnectOptions(c, CredentialTestExtra).value, "reconnect") == Bool(false)
  {
    UntouchedByTls(c);
    ExtraOverrides(c, CredentialTestExtra, "reconnect");
  }

  /**
   * Under TLS every certificate and key in `transport_options` is canonical
   * PEM: it starts with a BEGIN marker and formatting it again changes nothing.
   */
  lemma TlsPemFieldsAreCanonical(c: Credentials, extra: Object, k: string)
    requires IsTls(c) && CreateConnectOptions(c, extra).Success?
    requires k in {"ca", "cert", "key"}
    requires var tls := Get(CreateConnectOptions(c, extra).value, "transport_options");
      tls.Obj? && k in tls.fields
    ensures var pem := Get(CreateConnectOptions(c, extra).value, "transport_options").fields[k];
      && pem.Str?
      && StartsWith(pem.s, BeginKeyword)
      && FormatPrivateKey(pem.s) == Success(pem.s)
  {
    var ssl := SslOptions(c).value;
    var field := if k == "ca" then c.ca else if k == "cert" then c.cert else c.key;
    assert HoldsFormatted(ssl, k, field);
    var input := field.value;
    var out := FormatPrivateKey(input).value;
    assert ssl[k] == Str(out);
    FormatIdempotent(input);
    var pem := Prepare(input);
    FormatFailsExactlyWithoutMarkers(input);
    var b := FirstMatch(pem, BeginKeyword).value;
    var e := FirstMatch(pem, EndKeyword).value;
    FormatEnds(input, b, e);
  }

  // ---------------------------------------------------------------------
  // execute: the parts around the connection
  // ---------------------------------------------------------------------

  /**
   * The extra options of the sending phase: reconnect defaults to true, the
   * reconnect limit to 50, errors are never fatal, and an empty container id
   * becomes `undefined`.
   */
  function ExecuteExtra(options: NodeOptions): (extra: Object)
    ensures extra.Keys == {"reconnect", "reconnect_limit", "all_errors_non_fatal", "container_id", "id"}
    ensures extra["reconnect"] == Bool(options.reconnect.GetOr(true))
    ensures extra["reconnect_limit"] == Num(options.reconnectLimit.GetOr(50))
    ensures extra["all_errors_non_fatal"] == Bool(true)
    ensures extra["container_id"] == extra["id"] == StrOrUndefined(options.containerId)
  {
    map[
      "reconnect" := Bool(options.reconnect.GetOr(true)),
      "reconnect_limit" := Num(options.reconnectLimit.GetOr(50)),
      "all_errors_non_fatal" := Bool(true),
      "container_id" := StrOrUndefined(options.containerId),
      "id" := StrOrUndefined(options.containerId)]
  }

  /** The sending phase's connection carries the reconnect settings chosen in the node's options. */
  lemma ExecuteOptionsCarryReconnectSettings(c: Credentials, options: NodeOptions)
    requires CreateConnectOptions(c, ExecuteExtra(options)).Success?
    ensures var o := CreateConnectOptions(c, ExecuteExtra(options)).value;
      && Get(o, "reconnect") == Bool(options.reconnect.GetOr(true))
      && Get(o, "reconnect_limit") == Num(options.reconnectLimit.GetOr(50))
      && Get(o, "container_id") == StrOrUndefined(options.containerId)
  {
    var extra := ExecuteExtra(options);
    UntouchedByTls(c);
    ExtraOverrides(c, extra, "reconnect");
    ExtraOverrides(c, extra, "reconnect_limit");
    ExtraOverrides(c, extra, "container_id");
  }

  /** `headerParametersJson`: a non-empty string is parsed (`JSON.parse`, passed in), anything else is used as it is. */
  function HeaderProperties(param: Value, parse: string -> Value): (headers: Value)
    ensures param.Str? && param.s != "" ==> headers == parse(param.s)
    ensures !(param.Str? && param.s != "") ==> headers == param
  {
    if param.Str? && param.s != "" then parse(param.s) else param
  }

  /**
   * The body sent for one item: its `json`, or only its `sendOnlyProperty`
   * field when that option is set; `JSON.stringify` (passed in) is applied
   * unless `dataAsObject` is exactly true.
   */
  function ShapeBody(json: Object, options: NodeOptions, stringify: Value -> Value): (body: Value)
    ensures options.dataAsObject == Some(true) && !Truthy(options.sendOnlyProperty) ==> body == Obj(json)
    ensures options.dataAsObject == Some(true) && Truthy(options.sendOnlyProperty) ==>
      body == Get(json, options.sendOnlyProperty.value)
    ensures options.dataAsObject != Some(true) && !Truthy(options.sendOnlyProperty) ==> body == stringify(Obj(json))
    ensures options.dataAsObject != Some(true) && Truthy(options.sendOnlyProperty) ==>
      body == stringify(Get(json, options.sendOnlyProperty.value))
  {
    var selected := if Truthy(options.sendOnlyProperty) then Get(json, options.sendOnlyProperty.value) else Obj(json);
    if options.dataAsObject != Some(true) then stringify(selected) else selected
  }

  /** The message sent for one item. */
  function MessageFor(item: Item, options: NodeOptions, headers: Value, stringify: Value -> Value): Message {
    Message(headers, ShapeBody(item.json, options, stringify))
  }

  /**
   * The `sendable` handler's loop: one message and one output item per input
   * item, in order, each output carrying the id `send` returned and its index.
   * `send` stands for `sender.send(...)?.id`.
   */
  method SendItems(items: seq<Item>, options: NodeOptions, headers: Value,
                   stringify: Value -> Value, send: Message -> Value)
    returns (out: seq<OutItem>)
    ensures |out| == |items|
    ensures forall i :: 0 <= i < |items| ==>
      out[i] == Sent(send(MessageFor(items[i], options, headers, stringify)), i)
  {
    out := [];
    var i := 0;
    while i < |items|
      invariant 0 <= i <= |items|
      invariant |out| == i
      invariant forall k :: 0 <= k < i ==>
        out[k] == Sent(send(MessageFor(items[k], options, headers, stringify)), k)
    {
      var item := items[i];
      var body := Obj(item.json);
      if Truthy(options.sendOnlyProperty) {
        body := Get(item.json, options.sendOnlyProperty.value);
      }
      if options.dataAsObject != Some(true) {
        body := stringify(body);
      }
      var id := send(Message(headers, body));
      out := out + [Sent(id, i)];
      i := i + 1;
    }
  }

  /** The catch block: under continueOnFail one error item paired with item 0, otherwise the error is thrown on. */
  function Caught(message: string, continueOnFail: bool): (r: Result<seq<OutItem>, NodeError>)
    ensures continueOnFail <==> r.Success?
    ensures r.Success? ==> r.value == [ErrorItem(message, 0)]
    ensures r.Failure? ==> r.error.message == message
  {
    if continueOnFail then Success([ErrorItem(message, 0)]) else Failure(NodeError(message))
  }

  /**
   * `execute` with the sending connection taken as opened and the sender as
   * sendable. The credential test builds its options first, so a PEM field
   * without markers fails before anything else; `testError` is the error
   * message of the test connection, None when it opened. An empty sink is
   * rejected next; otherwise every item is sent, in order.
   */
  method Execute(c: Credentials, testError: Option<string>, sink: string, headerParam: Value,
                 options: NodeOptions, items: seq<Item>, continueOnFail: bool,
                 parse: string -> Value, stringify: Value -> Value, send: Message -> Value)
    returns (r: Result<seq<OutItem>, NodeError>)
    ensures CreateConnectOptions(c, CredentialTestExtra).Failure? ==> r == Caught(PemErrorMessage, continueOnFail)
    ensures CreateConnectOptions(c, CredentialTestExtra).Success? && testError.Some? ==>
      r == Caught(testError.value, continueOnFail)
    ensures CreateConnectOptions(c, CredentialTestExtra).Success? && testError.None? && sink == "" ==>
      r == Caught(SinkRequiredMessage, continueOnFail)
    ensures CreateConnectOptions(c, CredentialTestExtra).Success? && testError.None? && sink != "" ==>
      && r.Success? && |r.value| == |items|
      && forall i :: 0 <= i < |items| ==>
        r.value[i] == Sent(send(MessageFor(items[i], options, HeaderProperties(headerParam, parse), stringify)), i)
  {
    var test := CreateConnectOptions(c, CredentialTestExtra);
    if test.Failure? {
      r := Caught(PemErrorMessage, continueOnFail);
      return;
    }
    if testError.Some? {
      r := Caught(testError.value, continueOnFail);
      return;
    }
    var headers := HeaderProperties(headerParam, parse);
    if sink == "" {
      r := Caught(SinkRequiredMessage, continueOnFail);
      return;
    }
    // The sending phase's options cannot fail once the test's did not.
    FailureIgnoresExtra(c, CredentialTestExtra, ExecuteExtra(options));
    var connectOptions := CreateConnectOptions(c, ExecuteExtra(options));
    assert connectOptions.Success?;
    var out := SendItems(items, options, headers, stringify, send);
    r := Success(out);
  }
}
