/**
 * The values the node passes around: JavaScript values and plain objects,
 * the AMQP credential record, the node's options collection, input and
 * output items, and the message handed to the sender.
 */
module AmqpTypes {
  import opened Wrappers

  /** A JavaScript value as the node sees one. Objects are key/value maps; key order is not kept. */
  datatype Value =
    | Undefined
    | Bool(b: bool)
    | Num(n: int)
    | Str(s: string)
    | Arr(elems: seq<Value>)
    | Obj(fields: map<string, Value>)

  /** A plain object such as `rhea`'s ConnectionOptions or an item's `json`. */
  type Object = map<string, Value>

  /** Reading a property: a missing key reads as `undefined`. */
  function Get(o: Object, key: string): (v: Value)
    ensures key !in o ==> v == Undefined
  {
    if key in o then o[key] else Undefined
  }

  /** JavaScript truthiness of an optional string field: present and not empty. */
  predicate Truthy(s: Option<string>) {
    s.Some? && s.value != ""
  }

  /** `field ? field : undefined` for an optional string. */
  function StrOrUndefined(s: Option<string>): (v: Value)
    ensures v.Str? <==> Truthy(s)
    ensures v.Str? ==> v.s == s.value
  {
    if Truthy(s) then Str(s.value) else Undefined
  }

  /**
   * The credential record (AmqpCredential). `hostname` and `port` are
   * required; every other field may be absent (None is `undefined`).
   */
  datatype Credentials = Credentials(
    hostname: string,
    port: int,
    username: Option<string>,
    password: Option<string>,
    transportType: Option<string>,
    ca: Option<string>,
    cert: Option<string>,
    key: Option<string>,
    passphrase: Option<string>,
    certificateAuth: Option<bool>,
    rejectUnauthorized: Option<bool>,
    servername: Option<string>)

  /** `credentials.transportType === 'tls'`. */
  predicate IsTls(c: Credentials) {
    c.transportType == Some("tls")
  }

  /** `credentials.certificateAuth` is truthy. */
  predicate CertificateAuth(c: Credentials) {
    c.certificateAuth == Some(true)
  }

  /** The node's `options` collection; every entry may be absent. */
  datatype NodeOptions = NodeOptions(
    containerId: Option<string>,
    dataAsObject: Option<bool>,
    reconnect: Option<bool>,
    reconnectLimit: Option<int>,
    sendOnlyProperty: Option<string>)

  /** One input item; only its `json` is used. */
  datatype Item = Item(json: Object)

  /** What is handed to `sender.send`. */
  datatype Message = Message(applicationProperties: Value, body: Value)

  /**
   * One output item: `{ json: { id }, pairedItems: { item } }` for a sent
   * message, `{ json: { error }, pairedItems: { item: 0 } }` under continueOnFail.
   */
  datatype OutItem =
    | Sent(id: Value, pairedItem: nat)
    | ErrorItem(message: string, pairedItem: nat)

  /** An error thrown by `execute`, with its message. */
  datatype NodeError = NodeError(message: string)
}
