# AMQP sender node for n8n: a Dafny model

This project models the core of an n8n community node that sends each input
item as one AMQP 1.0 message through the `rhea` client. It has three parts.

- **PEM formatting.** `formatPrivateKey` turns pasted certificate or key text
  into canonical PEM. It normalises line breaks and trims the text. It then
  finds the first `-----BEGIN …-----` and `-----END …-----` markers, deletes
  all whitespace between them and re-wraps the payload at 64 columns.
  Non-empty input without markers throws; empty input gives `''`.
- **Connection options.** `createConnectOptions` maps the credential record
  onto `rhea` connection options. The caller's extra options override the
  base fields. Under TLS it builds `transport_options` with the formatted PEM
  fields. Under TLS with certificate authentication it replaces the username
  and password login with SASL EXTERNAL; without TLS `certificateAuth` has
  no effect.
- **`execute`.** A credential test first builds the options with
  `{ reconnect: false }`. Then the sink is checked. Then one message is sent
  per item, in order, and one output item is returned per message. An error
  becomes one error item when "continue on fail" is set; otherwise it is
  thrown.

The repository holds two versions of the node:
- a clean one, `nodes/Amqp/Amqp.node.ts`, modelled in module `AmqpNode`;
- a debugging one, `nodes/Amqp/test.ts`, modelled in module `AmqpVerbose`.

The model captures four ways in which the debugging version differs:
- its transport defaults to `tcp`;
- it always sets a servername;
- it passes the CA and certificate on raw and formats only the key;
- its sink message differs, and it checks the sink before it parses the header JSON.

Lemmas in `AmqpVerbose` state the first three differences against the
clean node's functions:
- `CleanLeavesTransportUndefined` for the transport;
- `ServernameAlwaysSet` for the servername;
- `CleanRejectsWhateverVerboseRejects`, `CleanRejectsRawCertificates` and
  `RawCaOnlyRejectedByClean` for the certificates.

For the fourth, the model holds the two messages as `SinkRequiredMessage` constants, and each `Execute` places the sink check where its source does. Because parsing is total in the model, the effect of the different order is not visible (see "## Left out"). The per-item loop at test.ts:322-336 is the same
computation as the clean node's loop at Amqp.node.ts:268-295. Both are
`AmqpNode.SendItems`.

Modules:

- `Wrappers`: `Option` for `undefined`/`null`, and `Result` for an operation
  that may throw.
- `JsString`: the JavaScript string operations the code calls, on
  `seq<char>`:
  - `replace(/\r\n?/g, '\n')`, `trim()` and `replace(/[\s\r\n]+/g, '')`;
  - `indexOf`, `slice` with its negative and clamped indexes;
  - `split` on one character, `join` and `startsWith`.
- `Utilities`:
  - `formatPrivateKey`;
  - the regex `-----BEGIN [^-]+-----`, as a leftmost-match search;
  - the global match of `.{1,64}`.
- `AmqpTypes`:
  - JavaScript values, where a plain object is a `map<string, Value>`,
    spread is map union with the right side winning, and `delete` is map
    subtraction;
  - the credential record (`nodes/Amqp/types.ts`);
  - the node's options, and input and output items.
- `AmqpNode`: the clean node.
- `AmqpVerbose`: the debugging node, and its `redact`, `firstLine` and
  `trimLines` helpers.

How the pieces fit:

- `execute` is a `method`. Its loop is the method `AmqpNode.SendItems`,
  proved against the function `AmqpNode.MessageFor` with a loop invariant.
- Everything the node computes without mutation is a function. Each
  function is paired with lemmas stating what the source promises about it:
  - `formatPrivateKey` is idempotent;
  - it fails exactly when a marker is missing;
  - its output is the leftmost markers around the 64-column payload;
  - extra options override the base fields;
  - the connection options carry canonical PEM under TLS.

Two behaviours of the source are stated as they are:
- A PEM whose END marker comes before its BEGIN marker formats to an empty
  body (`Utilities.EndBeforeBeginGivesEmptyBody`).
- The clean node rejects a CA or certificate without markers that the
  debugging node passes on (`AmqpVerbose.CleanRejectsRawCertificates`, with
  `AmqpVerbose.RawCaOnlyRejectedByClean` as a concrete instance).

## Model

| member | source | states |
|---|---|---|
| JsString.NormalizeLineBreaks | Desktop/custom_n8n_AMQP-main/custom_n8n_AMQP-main/src/utils/utilities.ts:9 | after `replace(/\r\n?/g, '\n')` no CR is left and the text is no longer than before; its content is fixed by NormalizeLineBreaksIdentity, NormalizeCrLf and NormalizeLoneCr |
| JsString.NormalizeLineBreaksIdentity | Desktop/custom_n8n_AMQP-main/custom_n8n_AMQP-main/src/utils/utilities.ts:9 | text without CR is left unchanged |
| JsString.NormalizeCrLf | Desktop/custom_n8n_AMQP-main/custom_n8n_AMQP-main/src/utils/utilities.ts:9 | after a CR-free prefix, a CRLF pair becomes one LF and the text on both sides is kept |
| JsString.NormalizeLoneCr | Desktop/custom_n8n_AMQP-main/custom_n8n_AMQP-main/src/utils/utilities.ts:9 | after a CR-free prefix, a CR not followed by LF becomes one LF and the text on both sides is kept |
| JsString.NormalizeLineBreaksIdempotent | Desktop/custom_n8n_AMQP-main/custom_n8n_AMQP-main/src/utils/utilities.ts:9 | normalising twice gives what normalising once gives |
| JsString.Trim | Desktop/custom_n8n_AMQP-main/custom_n8n_AMQP-main/src/utils/utilities.ts:9 | the input splits into leading whitespace, the result and trailing whitespace, and the result neither starts nor ends with whitespace |
| JsString.TrimDropsFinalLineFeed | Desktop/custom_n8n_AMQP-main/custom_n8n_AMQP-main/src/utils/utilities.ts:9 | trimming text with non-space ends plus one LF removes exactly that LF |
| JsString.StripSpace | Desktop/custom_n8n_AMQP-main/custom_n8n_AMQP-main/src/utils/utilities.ts:25 | the result of `replace(/[\s\r\n]+/g, '')` holds no whitespace |
| JsString.StripSpaceKeepsOthers | Desktop/custom_n8n_AMQP-main/custom_n8n_AMQP-main/src/utils/utilities.ts:25 | every non-whitespace character occurs as often in the result as in the input |
| JsString.IndexOf | Desktop/custom_n8n_AMQP-main/custom_n8n_AMQP-main/src/utils/utilities.ts:23-24 | `indexOf` is -1 or an occurrence, with no occurrence before it |
| JsString.Slice | Desktop/custom_n8n_AMQP-main/custom_n8n_AMQP-main/src/utils/utilities.ts:25 | `slice` is the ordinary subsequence for in-range ordered indexes, runs to the end of the text when the end index is past it, and is empty when the start is not before the end |
| JsString.Split | Desktop/custom_n8n_AMQP-main/custom_n8n_AMQP-main/nodes/Amqp/test.ts:22 | `split` gives at least one part, no part holds the separator, and the first part is the text up to the first separator |
| JsString.Join | Desktop/custom_n8n_AMQP-main/custom_n8n_AMQP-main/src/utils/utilities.ts:28 | `Array.prototype.join`; its result is stated by JoinSplit and SplitJoin |
| JsString.JoinSplit | Desktop/custom_n8n_AMQP-main/custom_n8n_AMQP-main/nodes/Amqp/test.ts:25-28 | joining the parts of a split with the separator gives the text back |
| JsString.SplitJoin | Desktop/custom_n8n_AMQP-main/custom_n8n_AMQP-main/nodes/Amqp/test.ts:25-28 | splitting lines joined by a separator they do not hold gives the lines back |
| Utilities.MatchAt | Desktop/custom_n8n_AMQP-main/custom_n8n_AMQP-main/src/utils/utilities.ts:12-13 | a match of `keyword[^-]+-----` at a position spans a marker: keyword, a non-empty label without hyphens, five hyphens |
| Utilities.MarkerMatchesAt | Desktop/custom_n8n_AMQP-main/custom_n8n_AMQP-main/src/utils/utilities.ts:12-13 | wherever a marker starts, the regex matches exactly that marker there, whatever follows |
| Utilities.FirstMatch | Desktop/custom_n8n_AMQP-main/custom_n8n_AMQP-main/src/utils/utilities.ts:12-13 | `match` returns a marker with no match before it, and null exactly when no position matches |
| Utilities.FirstMatchIs | Desktop/custom_n8n_AMQP-main/custom_n8n_AMQP-main/src/utils/utilities.ts:12-13 | a match with none before it is the one `match` returns |
| Utilities.IndexOfIs | Desktop/custom_n8n_AMQP-main/custom_n8n_AMQP-main/src/utils/utilities.ts:23-24 | an occurrence with none before it is what `indexOf` returns |
| Utilities.IndexOfFirstMatch | Desktop/custom_n8n_AMQP-main/custom_n8n_AMQP-main/src/utils/utilities.ts:19-24 | `pem.indexOf(begin)` finds the matched marker at the position the regex matched it |
| Utilities.DotMatches | Desktop/custom_n8n_AMQP-main/custom_n8n_AMQP-main/src/utils/utilities.ts:28 | `body.match(/.{1,64}/g)` as a list: every match is 1 to 64 characters with no line terminator; on whitespace-free text it equals the 64-column chunking (DotMatchesAreChunks) |
| Utilities.WrapBody | Desktop/custom_n8n_AMQP-main/custom_n8n_AMQP-main/src/utils/utilities.ts:28 | `?.join('\n') ?? ''` on the matches; its result is stated by WrapBodyIsJoin |
| Utilities.Assemble | Desktop/custom_n8n_AMQP-main/custom_n8n_AMQP-main/src/utils/utilities.ts:19-30 | the indexOf, slice, strip, wrap and template steps; its result is stated by AssembleFromIndexes and AssembleLayout |
| Utilities.WrapBodyIsJoin | Desktop/custom_n8n_AMQP-main/custom_n8n_AMQP-main/src/utils/utilities.ts:28 | `match(/.{1,64}/g)?.join('\n') ?? ''` is the LF-join of the global matches |
| Utilities.DotMatchesAreChunks | Desktop/custom_n8n_AMQP-main/custom_n8n_AMQP-main/src/utils/utilities.ts:28 | on whitespace-free text the global `.{1,64}` matches are the consecutive 64-character pieces |
| Utilities.ChunksWellWrapped | Desktop/custom_n8n_AMQP-main/custom_n8n_AMQP-main/src/utils/utilities.ts:27-28 | the pieces are 64 characters long except the last, which has 1 to 64, and they concatenate back to the payload |
| Utilities.StripJoinedLines | Desktop/custom_n8n_AMQP-main/custom_n8n_AMQP-main/src/utils/utilities.ts:25 | deleting whitespace from LF-joined whitespace-free lines gives their concatenation |
| Utilities.Prepare | Desktop/custom_n8n_AMQP-main/custom_n8n_AMQP-main/src/utils/utilities.ts:9 | the text the markers are searched in holds no CR |
| Utilities.FormatPrivateKey | Desktop/custom_n8n_AMQP-main/custom_n8n_AMQP-main/src/utils/utilities.ts:5-6 | an empty input gives the empty string |
| Utilities.FormatFailsExactlyWithoutMarkers | Desktop/custom_n8n_AMQP-main/custom_n8n_AMQP-main/src/utils/utilities.ts:12-17 | it throws if and only if the input is non-empty and the normalised, trimmed text lacks a BEGIN or an END marker |
| Utilities.AssembleFromIndexes | Desktop/custom_n8n_AMQP-main/custom_n8n_AMQP-main/src/utils/utilities.ts:23-30 | once `indexOf` finds both markers where they matched, the output is the canonical layout of the text between them |
| Utilities.AssembleLayout | Desktop/custom_n8n_AMQP-main/custom_n8n_AMQP-main/src/utils/utilities.ts:19-30 | the output is the BEGIN marker, the stripped text between the markers in 64-column lines, and the END marker, each followed by one LF |
| Utilities.FormatLayout | Desktop/custom_n8n_AMQP-main/custom_n8n_AMQP-main/src/utils/utilities.ts:5-30 | a successful result is the leftmost BEGIN and END markers around the whitespace-free payload between them, wrapped at 64 columns |
| Utilities.CanonicalBody | Desktop/custom_n8n_AMQP-main/custom_n8n_AMQP-main/src/utils/utilities.ts:27-28 | the body lines are well wrapped and hold exactly the payload |
| Utilities.CanonicalEnds | Desktop/custom_n8n_AMQP-main/custom_n8n_AMQP-main/src/utils/utilities.ts:30 | the output layout starts with the BEGIN keyword and ends with five hyphens and one LF |
| Utilities.FormatEnds | Desktop/custom_n8n_AMQP-main/custom_n8n_AMQP-main/src/utils/utilities.ts:30 | whenever both markers are found the result starts with `-----BEGIN ` and ends with `-----` and one LF |
| Utilities.EmptyBody | Desktop/custom_n8n_AMQP-main/custom_n8n_AMQP-main/src/utils/utilities.ts:25-30 | an empty payload gives the two marker lines separated by one empty line |
| Utilities.EndBeforeBeginGivesEmptyBody | Desktop/custom_n8n_AMQP-main/custom_n8n_AMQP-main/src/utils/utilities.ts:23-25 | when the END marker starts before the BEGIN marker ends, `slice` yields nothing and the body is empty |
| Utilities.PrepareCanonical | Desktop/custom_n8n_AMQP-main/custom_n8n_AMQP-main/src/utils/utilities.ts:9 | normalising and trimming a formatted PEM removes only its final LF |
| Utilities.BeginOfCanonical | Desktop/custom_n8n_AMQP-main/custom_n8n_AMQP-main/src/utils/utilities.ts:12 | in a formatted PEM the leftmost BEGIN match is its first line |
| Utilities.EndOfCanonical | Desktop/custom_n8n_AMQP-main/custom_n8n_AMQP-main/src/utils/utilities.ts:13 | in a formatted PEM the leftmost END match is its last line |
| Utilities.PayloadOfCanonical | Desktop/custom_n8n_AMQP-main/custom_n8n_AMQP-main/src/utils/utilities.ts:23-25 | the stripped text between the markers of a formatted PEM is its payload |
| Utilities.FormatCanonicalIsFixedPoint | Desktop/custom_n8n_AMQP-main/custom_n8n_AMQP-main/src/utils/utilities.ts:5-30 | formatting canonical PEM text returns it unchanged |
| Utilities.FormatIdempotent | Desktop/custom_n8n_AMQP-main/custom_n8n_AMQP-main/src/utils/utilities.ts:5-30 | formatting a successful result again gives the same result |
| AmqpTypes.StrOrUndefined | Desktop/custom-node/nodes/Amqp/Amqp.node.ts:24-26 | `field ? field : undefined` is a string exactly when the field is non-empty, and then the field itself |
| AmqpNode.BaseOptions | Desktop/custom-node/nodes/Amqp/Amqp.node.ts:20-26 | the object literal has exactly host, hostname, port, username, password and transport |
| AmqpNode.MergeExtra | Desktop/custom-node/nodes/Amqp/Amqp.node.ts:20-28 | after `...extra` the keys are the base keys and extra's, extra's values win, and each base field not in extra comes from the credentials |
| AmqpNode.SetFormatted | Desktop/custom-node/nodes/Amqp/Amqp.node.ts:35-45 | a set PEM field is stored formatted and an unset one is left absent; it fails exactly when formatting throws; other keys are kept |
| AmqpNode.SslPemOptions | Desktop/custom-node/nodes/Amqp/Amqp.node.ts:31-45 | `rejectUnauthorized` defaults to true; ca, cert and key are present exactly when set, and formatted; it fails exactly when a set PEM field has no markers |
| AmqpNode.SslOptions | Desktop/custom-node/nodes/Amqp/Amqp.node.ts:31-55 | `rejectUnauthorized` defaults to true; ca, cert and key are present exactly when set, and formatted; passphrase is present exactly when set; servername is the servername, else the hostname, else absent; it fails exactly when a set PEM field has no markers |
| AmqpNode.AddTls | Desktop/custom-node/nodes/Amqp/Amqp.node.ts:57-64 | `transport_options` is the ssl object; without certificate authentication nothing else changes; with it, username and password are removed and SASL EXTERNAL on the hostname is set, and the keys are exactly the others plus the three TLS keys |
| AmqpNode.CreateConnectOptions | Desktop/custom-node/nodes/Amqp/Amqp.node.ts:19-68 | it fails exactly when TLS is chosen and a set ca, cert or key has no markers; otherwise the merged options, with the TLS branch applied under TLS |
| AmqpNode.FailureIgnoresExtra | Desktop/custom-node/nodes/Amqp/Amqp.node.ts:19-68 | whether the options can be built does not depend on extra, so the sending phase cannot fail where the credential test did not |
| AmqpNode.ConnectOptionsBaseFields | Desktop/custom-node/nodes/Amqp/Amqp.node.ts:20-28 | host, hostname, port, transport, username and password come from the credentials unless extra or certificate authentication decides them |
| AmqpNode.ExtraOverrides | Desktop/custom-node/nodes/Amqp/Amqp.node.ts:27 | every key of extra reaches the options unchanged, except those the TLS branch writes afterwards |
| AmqpNode.ConnectOptionsTlsFields | Desktop/custom-node/nodes/Amqp/Amqp.node.ts:30-65 | without TLS the keys are the base keys and extra's; TLS without certificate authentication adds only `transport_options`; with certificate authentication username and password are deleted and `transport_options` and the two SASL keys added |
| AmqpNode.TlsPemFieldsAreCanonical | Desktop/custom-node/nodes/Amqp/Amqp.node.ts:35-45 | every ca, cert and key in `transport_options` starts with a BEGIN marker and is left unchanged by formatting it again |
| AmqpNode.CredentialTestDoesNotReconnect | Desktop/custom-node/nodes/Amqp/Amqp.node.ts:73 | the credential test connects with `reconnect: false` |
| AmqpNode.ExecuteExtra | Desktop/custom-node/nodes/Amqp/Amqp.node.ts:219-222 | reconnect defaults to true and the reconnect limit to 50, errors are non-fatal, and an empty container id becomes `undefined` for both `container_id` and `id` |
| AmqpNode.ExecuteOptionsCarryReconnectSettings | Desktop/custom-node/nodes/Amqp/Amqp.node.ts:235-241 | the sending phase's options carry the reconnect, reconnect limit and container id chosen in the node's options |
| AmqpNode.HeaderProperties | Desktop/custom-node/nodes/Amqp/Amqp.node.ts:224-229 | a non-empty string gives what JSON parsing returns for it; any other value is used as it is |
| AmqpNode.ShapeBody | Desktop/custom-node/nodes/Amqp/Amqp.node.ts:275-284 | the selected value is the item's json, or only its `sendOnlyProperty` field when that is set; it is sent as it is when `dataAsObject` is true and stringified otherwise |
| AmqpNode.MessageFor | Desktop/custom-node/nodes/Amqp/Amqp.node.ts:286-289 | the `{ application_properties, body }` literal; its body is stated by ShapeBody, and SendItems sends exactly this message for each item |
| AmqpNode.SendItems | Desktop/custom-node/nodes/Amqp/Amqp.node.ts:268-295 | one output per input item, in order: output i carries the id returned for item i's message and is paired with item i |
| AmqpNode.Caught | Desktop/custom-node/nodes/Amqp/Amqp.node.ts:299-304 | under continueOnFail one error item with the message paired with item 0; otherwise the error is thrown with the same message |
| AmqpNode.Execute | Desktop/custom-node/nodes/Amqp/Amqp.node.ts:199-304 | a PEM field without markers fails first, then a failed credential test, then an empty sink ("Queue or Topic required!"); otherwise every item is sent in order |
| AmqpVerbose.Redact | Desktop/custom_n8n_AMQP-main/custom_n8n_AMQP-main/nodes/Amqp/test.ts:20 | a non-empty secret is shown as `***`, anything else as `undefined` |
| AmqpVerbose.RedactHidesSecret | Desktop/custom_n8n_AMQP-main/custom_n8n_AMQP-main/nodes/Amqp/test.ts:20 | what is logged depends only on whether the secret is set, not on its text |
| AmqpVerbose.FirstLine | Desktop/custom_n8n_AMQP-main/custom_n8n_AMQP-main/nodes/Amqp/test.ts:21-22 | a prefix of the PEM of at most 40 characters without LF, stopping early only at an LF or the end; `undefined` for an empty PEM |
| AmqpVerbose.MarkerLines | Desktop/custom_n8n_AMQP-main/custom_n8n_AMQP-main/nodes/Amqp/test.ts:26-27 | keeps exactly the lines starting with `-----BEGIN` or `-----END` |
| AmqpVerbose.MarkerLinesAppend | Desktop/custom_n8n_AMQP-main/custom_n8n_AMQP-main/nodes/Amqp/test.ts:26-27 | the filter keeps the lines' order |
| AmqpVerbose.TrimLines | Desktop/custom_n8n_AMQP-main/custom_n8n_AMQP-main/nodes/Amqp/test.ts:23-29 | a summary exists exactly when the PEM is non-empty |
| AmqpVerbose.TrimLinesOfLines | Desktop/custom_n8n_AMQP-main/custom_n8n_AMQP-main/nodes/Amqp/test.ts:23-29 | for LF-separated lines the summary is the marker lines among them, in order, joined by ` \| ` |
| AmqpVerbose.Transport | Desktop/custom_n8n_AMQP-main/custom_n8n_AMQP-main/nodes/Amqp/test.ts:42 | the transport is the chosen type when set, else `tcp` |
| AmqpVerbose.MergeExtra | Desktop/custom_n8n_AMQP-main/custom_n8n_AMQP-main/nodes/Amqp/test.ts:36-44 | as in the clean node, except that the transport is never `undefined` |
| AmqpVerbose.SetRaw | Desktop/custom_n8n_AMQP-main/custom_n8n_AMQP-main/nodes/Amqp/test.ts:52-57 | a set ca or cert is stored as given and other keys are kept |
| AmqpVerbose.SslOptions | Desktop/custom_n8n_AMQP-main/custom_n8n_AMQP-main/nodes/Amqp/test.ts:46-64 | servername is always set, to the servername or else the hostname; ca and cert are raw; only key is formatted; it fails exactly when a set key has no markers |
| AmqpVerbose.CreateConnectOptions | Desktop/custom_n8n_AMQP-main/custom_n8n_AMQP-main/nodes/Amqp/test.ts:35-75 | it fails exactly when TLS is chosen and the key has no markers; the TLS branch is the clean node's |
| AmqpVerbose.TransportDefaultsToTcp | Desktop/custom_n8n_AMQP-main/custom_n8n_AMQP-main/nodes/Amqp/test.ts:42 | unless extra sets it, the built options' transport is the chosen type or `tcp` |
| AmqpVerbose.SameAsCleanWithoutTls | Desktop/custom_n8n_AMQP-main/custom_n8n_AMQP-main/nodes/Amqp/test.ts:36-44 | without TLS and with a transport type, both variants build the same options |
| AmqpVerbose.CleanLeavesTransportUndefined | Desktop/custom_n8n_AMQP-main/custom_n8n_AMQP-main/nodes/Amqp/test.ts:42 | without TLS and a transport type, the variants differ only in `transport`, which is `tcp` here |
| AmqpVerbose.CleanRejectsWhateverVerboseRejects | Desktop/custom_n8n_AMQP-main/custom_n8n_AMQP-main/nodes/Amqp/test.ts:52-60 | credentials this variant rejects are rejected by the clean node as well |
| AmqpVerbose.ServernameAlwaysSet | Desktop/custom_n8n_AMQP-main/custom_n8n_AMQP-main/nodes/Amqp/test.ts:47-50 | under TLS this variant always sends a servername; the clean node sends the same one when a servername or hostname is given, and otherwise none where this variant sends `""` |
| AmqpVerbose.CleanRejectsRawCertificates | Desktop/custom_n8n_AMQP-main/custom_n8n_AMQP-main/nodes/Amqp/test.ts:52-60 | under TLS, with a usable key, a CA or certificate without markers is rejected by the clean node and passed on as given by this variant |
| AmqpVerbose.RawCaOnlyRejectedByClean | Desktop/custom_n8n_AMQP-main/custom_n8n_AMQP-main/nodes/Amqp/test.ts:52-54 | the CA `"x"` on one TLS credential record is rejected by the clean node and accepted here; the general fact is CleanRejectsRawCertificates |
| AmqpVerbose.TlsFields | Desktop/custom_n8n_AMQP-main/custom_n8n_AMQP-main/nodes/Amqp/test.ts:52-60 | under TLS the ca and cert are the text as given and the key is canonical PEM |
| AmqpVerbose.Execute | Desktop/custom_n8n_AMQP-main/custom_n8n_AMQP-main/nodes/Amqp/test.ts:255-349 | a key without markers fails first, then a failed credential test, then an empty sink ("Queue/Topic (sink) is required"); otherwise every item is sent in order |

## Left out

- The AMQP connections are not modelled. This covers opening, closing and the sender, the credential test's connection attempt and its events, and the `disconnected` handler with its reconnect counter. These are events of an external library. The credential test's outcome is the parameter `testError`. The sending phase is taken to reach `sendable`.
- `sender.send`, `JSON.parse` and `JSON.stringify` are function parameters. A send with state, such as rising delivery ids, is not captured.
- AmqpNode.Execute: `JSON.parse` throwing on malformed header JSON is not modelled, because parsing is a total function parameter.
- AmqpVerbose.Execute: `JSON.parse` throwing on malformed header JSON is not modelled, for the same reason.
- AmqpNode.Execute and AmqpVerbose.Execute: the clean node parses the header JSON before it checks the sink, and the debugging node checks the sink first. With malformed header JSON and an empty sink, the clean node throws the parse error and the debugging node the sink error. The model does not show this, because parsing cannot fail in it.
- Logging is not modelled: `log`, `console.log`, `attachRheaLogs` and the options preview of test.ts:77-97. None of it changes a result. The helpers the preview uses are modelled.
- JsString.IsSpace lists the ASCII whitespace, NBSP, the line and paragraph separators and the BOM. It leaves out the other Unicode space separators that JavaScript's `\s` and `trim` also match.
- Utilities.DotMatches, Utilities.FormatPrivateKey and AmqpVerbose.FirstLine count lengths in Unicode code points (`char`), while JavaScript's `.{1,64}` without the `u` flag and `slice(0, 40)` count UTF-16 code units. Text with characters outside the Basic Multilingual Plane is therefore wrapped at 64 and cut at 40 at different places than in the code.
- Object key order is not kept, because objects are maps.
- Numbers are unbounded integers. No port or limit arithmetic happens in the core.
- The `typeof … === 'string'` checks are implied by the credential record's types. A PEM field of another type cannot be expressed.
- The credential description files (`credentials/Amqp.credentials.ts`) and the node's UI description are not modelled. They are declarations for the editor.
- The second call of `createConnectOptions` in `execute` is checked to succeed, but the options it builds are only passed to the connection.
