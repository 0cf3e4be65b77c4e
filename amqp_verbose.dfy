/**
 * The debugging variant of the node (nodes/Amqp/test.ts): the redaction
 * helpers its log lines use, its own createConnectOptions, which defaults
 * the transport to `tcp`, always sets a servername and formats only the
 * private key, and its execute, whose sink message differs.
 */
module AmqpVerbose {
  import opened Wrappers
  import opened JsString
  import opened Utilities
  import opened AmqpTypes
  import AmqpNode

  const SinkRequiredMessage: string := "Queue/Topic (sink) is required"

  /** How many characters of a PEM's first line the log shows. */
  const FirstLineWidth: nat := 40

  /** The separator between marker lines in a PEM summary. */
  const SummarySeparator: string := " | "

  // ---------------------------------------------------------------------
  // redact, firstLine, trimLines
  // ---------------------------------------------------------------------

  /** `redact(s)`: a non-empty secret is shown as `***`, anything else as `undefined`. */
  function Redact(s: Option<string>): (r: Option<string>)
    ensures r.Some? <==> Truthy(s)
    ensures r.Some? ==> r.value == "***"
  {
    if Truthy(s) then Some("***") else None
  }

  /** What the log shows of a secret depends only on whether it is set, never on its text. */
  lemma RedactHidesSecret(a: Option<string>, b: Option<string>)
    requires Truthy(a) == Truthy(b)
    ensures Redact(a) == Redact(b)
  {
  }

  /**
   * `firstLine(pem)`: at most the first 40 characters of the text before
   * the first LF; `undefined` for an absent or empty PEM.
   */
  function FirstLine(pem: Option<string>): (r: Option<string>)
    ensures r.Some? <==> Truthy(pem)
    ensures r.Some? ==> |r.value| <= FirstLineWidth && '\n' !in r.value && StartsWith(pem.value, r.value)
    ensures r.Some? && |r.value| < FirstLineWidth ==> |r.value| == |pem.value| || pem.value[|r.value|] == '\n'
  {
    if Truthy(pem) then
      var line := Split(pem.value, '\n')[0];
      Some(Slice(line, 0, FirstLineWidth))
    else None
  }

  /** A line the PEM summary keeps: one starting with `-----BEGIN` or `-----END`. */
  predicate IsMarkerLine(l: string) {
    StartsWith(l, "-----BEGIN") || StartsWith(l, "-----END")
  }

  /** `lines.filter(l => l.startsWith('-----BEGIN') || l.startsWith('-----END'))`. */
  function MarkerLines(lines: seq<string>): (r: seq<string>)
    ensures |r| <= |lines|
    ensures forall l :: l in r ==> l in lines && IsMarkerLine(l)
    ensures forall l :: l in lines && IsMarkerLine(l) ==> l in r
  {
    if lines == [] then []
    else if IsMarkerLine(lines[0]) then [lines[0]] + MarkerLines(lines[1..])
    else MarkerLines(lines[1..])
  }

  /** The filter keeps the order of the lines: filtering a concatenation filters each part. */
  lemma {:induction false} MarkerLinesAppend(a: seq<string>, b: seq<string>)
    ensures MarkerLines(a + b) == MarkerLines(a) + MarkerLines(b)
  {
    if a == [] {
      assert a + b == b;
    } else {
      assert (a + b)[0] == a[0] && (a + b)[1..] == a[1..] + b;
      MarkerLinesAppend(a[1..], b);
    }
  }

  /** `trimLines(pem)`: the PEM's marker lines, in order, joined with ` | `. */
  function TrimLines(pem: Option<string>): (r: Option<string>)
    ensures r.Some? <==> Truthy(pem)
  {
    if Truthy(pem) then Some(Join(MarkerLines(Split(pem.value, '\n')), SummarySeparator)) else None
  }

  /** For text made of LF-separated lines, the summary is exactly the marker lines among them. */
  lemma TrimLinesOfLines(lines: seq<string>)
    requires |lines| >= 1 && Join(lines, "\n") != []
    requires forall i :: 0 <= i < |lines| ==> '\n' !in lines[i]
    ensures TrimLines(Some(Join(lines, "\n"))) == Some(Join(MarkerLines(lines), SummarySeparator))
  {
    SplitJoin(lines, '\n');
  }

  // ---------------------------------------------------------------------
  // createConnectOptions (debugging variant)
  // ---------------------------------------------------------------------

  /** `(credentials.transportType as 'tcp' | 'tls') || 'tcp'`. */
  function Transport(c: Credentials): (v: Value)
    ensures v.Str? && (v.s == "tcp" || Truthy(c.transportType))
    ensures Truthy(c.transportType) ==> v == Str(c.transportType.value)
  {
    Str(if Truthy(c.transportType) then c.transportType.value else "tcp")
  }

  /** The object literal and `...extra`: as in the clean node, except that the transport is never `undefined`. */
  function MergeExtra(c: Credentials, extra: Object): (o: Object)
    ensures o.Keys == AmqpNode.BaseKeys + extra.Keys
    ensures forall k :: k in extra ==> o[k] == extra[k]
    ensures "transport" !in extra ==> o["transport"] == Transport(c)
    ensures forall k :: k in AmqpNode.BaseKeys && k != "transport" && k !in extra ==>
      o[k] == AmqpNode.BaseOptions(c)[k]
  {
    AmqpNode.BaseOptions(c)["transport" := Transport(c)] + extra
  }

  /** `if (field && typeof field === 'string') sslOptions[key] = field`: the text is passed on raw. */
  function SetRaw(ssl: Object, key: string, field: Option<string>): (r: Object)
    ensures r.Keys == ssl.Keys + (if Truthy(field) then {key} else {})
    ensures Truthy(field) ==> r[key] == Str(field.value)
    ensures forall k :: k in ssl && k != key ==> r[k] == ssl[k]
  {
    if Truthy(field) then ssl[key := Str(field.value)] else ssl
  }

  /**
   * The debugging variant's `sslOptions`: the servername is always set, to the
   * hostname when no servername is given; `ca` and `cert` are passed on as
   * they are and only `key` goes through formatPrivateKey.
   */
  function SslOptions(c: Credentials): (r: Result<Object, PemError>)
    ensures r.Failure? <==> AmqpNode.PemFieldFails(c.key)
    ensures r.Success? ==> r.value.Keys <= AmqpNode.SslKeys
    ensures r.Success? ==> Get(r.value, "rejectUnauthorized") == Bool(c.rejectUnauthorized.GetOr(true))
    ensures r.Success? ==>
      Get(r.value, "servername") == Str(if Truthy(c.servername) then c.servername.value else c.hostname)
    ensures r.Success? ==> ("ca" in r.value <==> Truthy(c.ca)) && ("cert" in r.value <==> Truthy(c.cert))
    ensures r.Success? && Truthy(c.ca) ==> r.value["ca"] == Str(c.ca.value)
    ensures r.Success? && Truthy(c.cert) ==> r.value["cert"] == Str(c.cert.value)
    ensures r.Success? ==> AmqpNode.HoldsFormatted(r.value, "key", c.key)
    ensures r.Success? ==> ("passphrase" in r.value <==> Truthy(c.passphrase))
    ensures r.Success? && "passphrase" in r.value ==> r.value["passphrase"] == Str(c.passphrase.value)
  {
    var ssl0 := map[
      "rejectUnauthorized" := Bool(c.rejectUnauthorized.GetOr(true)),
      "servername" := Str(if Truthy(c.servername) then c.servername.value else c.hostname)];
    var ssl1 := SetRaw(ssl0, "ca", c.ca);
    var ssl2 := SetRaw(ssl1, "cert", c.cert);
    var ssl3 :- AmqpNode.SetFormatted(ssl2, "key", c.key);
    if Truthy(c.passphrase) then Success(ssl3["passphrase" := Str(c.passphrase.value)]) else Success(ssl3)
  }

  /**
   * `createConnectOptions(credentials, extra)` of the debugging variant; it
   * fails exactly when TLS is chosen and the key is set without markers.
   * The TLS branch then works as in the clean node.
   */
  function CreateConnectOptions(c: Credentials, extra: Object): (r: Result<Object, PemError>)
    ensures r.Failure? <==> IsTls(c) && AmqpNode.PemFieldFails(c.key)
    ensures r.Success? && !IsTls(c) ==> r.value == MergeExtra(c, extra)
    ensures r.Success? && IsTls(c) ==>
      SslOptions(c).Success? && r.value == AmqpNode.AddTls(MergeExtra(c, extra), c, SslOptions(c).value)
  {
    var base := MergeExtra(c, extra);
    if IsTls(c) then
      var ssl :- SslOptions(c);
      Success(AmqpNode.AddTls(base, c, ssl))
    else Success(base)
  }

  /** Unless extra sets it, the transport is always a string: the chosen one, or `tcp`. */
  lemma TransportDefaultsToTcp(c: Credentials, extra: Object)
    requires CreateConnectOptions(c, extra).Success? && "transport" !in extra
    ensures Get(CreateConnectOptions(c, extra).value, "transport") == Transport(c)
  {
    var m := MergeExtra(c, extra);
    AmqpNode.UntouchedByTls(c);
    if IsTls(c) {
      assert CreateConnectOptions(c, extra).value == AmqpNode.AddTls(m, c, SslOptions(c).value);
    }
  }

  /** Without TLS and with a transport type set, both variants build the same options. */
  lemma SameAsCleanWithoutTls(c: Credentials, extra: Object)
    requires !IsTls(c) && Truthy(c.transportType)
    ensures CreateConnectOptions(c, extra) == AmqpNode.CreateConnectOptions(c, extra)
  {
    assert AmqpNode.BaseOptions(c)["transport" := Transport(c)] == AmqpNode.BaseOptions(c);
  }

  /** Without TLS and without a transport type, the variants differ only in `transport`. */
  lemma CleanLeavesTransportUndefined(c: Credentials, extra: Object)
    requires !IsTls(c) && !Truthy(c.transportType) && "transport" !in extra
    ensures AmqpNode.CreateConnectOptions(c, extra).Success?
    ensures CreateConnectOptions(c, extra)
      == Success(AmqpNode.CreateConnectOptions(c, extra).value["transport" := Str("tcp")])
  {
    var clean := AmqpNode.MergeExtra(c, extra)["transport" := Str("tcp")];
    var verbose := MergeExtra(c, extra);
    assert Transport(c) == Str("tcp");
    assert verbose.Keys == clean.Keys;
    forall k | k in verbose
      ensures verbose[k] == clean[k]
    {
      if k != "transport" && k !in extra {
        assert verbose[k] == AmqpNode.BaseOptions(c)[k];
      }
    }
    assert verbose == clean;
  }

  /** Whatever this variant rejects, the clean node rejects too: it formats a superset of the fields. */
  lemma CleanRejectsWhateverVerboseRejects(c: Credentials, extra1: Object, extra2: Object)
    requires CreateConnectOptions(c, extra1).Failure?
    ensures AmqpNode.CreateConnectOptions(c, extra2).Failure?
  {
  }

  /**
   * Under TLS this variant always sends a servername; the clean node sends the
   * same one, except when neither a servername nor a hostname is given: then
   * the clean node leaves it out and this variant sends the empty string.
   */
  lemma ServernameAlwaysSet(c: Credentials, extra: Object)
    requires IsTls(c)
    requires CreateConnectOptions(c, extra).Success? && AmqpNode.CreateConnectOptions(c, extra).Success?
    ensures var v := Get(CreateConnectOptions(c, extra).value, "transport_options");
      var k := Get(AmqpNode.CreateConnectOptions(c, extra).value, "transport_options");
      && v.Obj? && k.Obj? && "servername" in v.fields
      && ("servername" in k.fields <==> Truthy(c.servername) || c.hostname != "")
      && ("servername" in k.fields ==> k.fields["servername"] == v.fields["servername"])
      && ("servername" !in k.fields ==> v.fields["servername"] == Str(""))
  {
    var ssl := SslOptions(c).value;
    var clean := AmqpNode.SslOptions(c).value;
    assert Get(CreateConnectOptions(c, extra).value, "transport_options") == Obj(ssl);
    assert Get(AmqpNode.CreateConnectOptions(c, extra).value, "transport_options") == Obj(clean);
  }

  /**
   * Under TLS a CA or certificate without markers is rejected by the clean
   * node, while this variant, given a usable key, passes both on as given.
   */
  lemma CleanRejectsRawCertificates(c: Credentials, extra: Object)
    requires IsTls(c) && !AmqpNode.PemFieldFails(c.key)
    requires AmqpNode.PemFieldFails(c.ca) || AmqpNode.PemFieldFails(c.cert)
    ensures AmqpNode.CreateConnectOptions(c, extra).Failure?
    ensures CreateConnectOptions(c, extra).Success?
    ensures var tls := Get(CreateConnectOptions(c, extra).value, "transport_options");
      && tls.Obj?
      && (Truthy(c.ca) ==> Get(tls.fields, "ca") == Str(c.ca.value))
      && (Truthy(c.cert) ==> Get(tls.fields, "cert") == Str(c.cert.value))
  {
    TlsFields(c, extra);
  }

  /** A CA certificate without markers: the clean node rejects it, this variant passes it on raw. */
  lemma RawCaOnlyRejectedByClean()
    ensures var c := Credentials("broker", 5671, None, None, Some("tls"), Some("x"), None, None, None, None, None, None);
      && AmqpNode.CreateConnectOptions(c, map[]).Failure?
      && CreateConnectOptions(c, map[]).Success?
  {
    var input := "x";
    assert NormalizeLineBreaks(input) == input;
    assert LeadingSpace(input) == 0 && TrailingSpace(input) == 0;
    assert Prepare(input) == input;
    assert FirstMatch(input, BeginKeyword) == None;
    FormatFailsExactlyWithoutMarkers(input);
  }

  /** Under TLS the key in `transport_options` is canonical PEM, and the CA and certificate are the text as given. */
  lemma TlsFields(c: Credentials, extra: Object)
    requires IsTls(c) && CreateConnectOptions(c, extra).Success?
    ensures var tls := Get(CreateConnectOptions(c, extra).value, "transport_options");
      && tls.Obj?
      && (Truthy(c.ca) ==> Get(tls.fields, "ca") == Str(c.ca.value))
      && (Truthy(c.cert) ==> Get(tls.fields, "cert") == Str(c.cert.value))
      && (Truthy(c.key) ==>
        && Get(tls.fields, "key").Str?
        && FormatPrivateKey(Get(tls.fields, "key").s) == Success(Get(tls.fields, "key").s))
  {
    var ssl := SslOptions(c).value;
    assert Get(CreateConnectOptions(c, extra).value, "transport_options") == Obj(ssl);
    if Truthy(c.key) {
      assert AmqpNode.HoldsFormatted(ssl, "key", c.key);
      FormatIdempotent(c.key.value);
    }
  }

  // ---------------------------------------------------------------------
  // execute (debugging variant)
  // ---------------------------------------------------------------------

  /**
   * `execute` of the debugging variant, with the sending connection taken
   * as opened and the sender as sendable; `testError` is the error message
   * of the credential test's connection, None when it opened. It differs
   * from the clean node in the sink message and in building its options
   * with this variant's createConnectOptions.
   */
  method Execute(c: Credentials, testError: Option<string>, sink: string, headerParam: Value,
                 options: NodeOptions, items: seq<Item>, continueOnFail: bool,
                 parse: string -> Value, stringify: Value -> Value, send: Message -> Value)
    returns (r: Result<seq<OutItem>, NodeError>)
    ensures CreateConnectOptions(c, AmqpNode.CredentialTestExtra).Failure? ==>
      r == AmqpNode.Caught(AmqpNode.PemErrorMessage, continueOnFail)
    ensures CreateConnectOptions(c, AmqpNode.CredentialTestExtra).Success? && testError.Some? ==>
      r == AmqpNode.Caught(testError.value, continueOnFail)
    ensures CreateConnectOptions(c, AmqpNode.CredentialTestExtra).Success? && testError.None? && sink == "" ==>
      r == AmqpNode.Caught(SinkRequiredMessage, continueOnFail)
    ensures CreateConnectOptions(c, AmqpNode.CredentialTestExtra).Success? && testError.None? && sink != "" ==>
      && r.Success? && |r.value| == |items|
      && forall i :: 0 <= i < |items| ==>
        r.value[i] == Sent(send(AmqpNode.MessageFor(items[i], options, AmqpNode.HeaderProperties(headerParam, parse), stringify)), i)
  {
    var test := CreateConnectOptions(c, AmqpNode.CredentialTestExtra);
    if test.Failure? {
      r := AmqpNode.Caught(AmqpNode.PemErrorMessage, continueOnFail);
      return;
    }
    if testError.Some? {
      r := AmqpNode.Caught(testError.value, continueOnFail);
      return;
    }
    if sink == "" {
      r := AmqpNode.Caught(SinkRequiredMessage, continueOnFail);
      return;
    }
    var headers := AmqpNode.HeaderProperties(headerParam, parse);
    var connectOptions := CreateConnectOptions(c, AmqpNode.ExecuteExtra(options));
    assert connectOptions.Success?;
    var out := AmqpNode.SendItems(items, options, headers, stringify, send);
    r := Success(out);
  }
}
