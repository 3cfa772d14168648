# OPP provenance passport: exporter, explorer routes, util and version bumper in Dafny

This project models the request handlers and helpers of the OPP
("open provenance passport") tooling that look at a gateway's receipt
bundle. A bundle is a JSON object whose `chain` (or `hops`) lists
receipts. Each receipt names its predecessor through
`prev_receipt_hash`.

- **Exporter API** (`services/exporter_api/main.py`):
  - `/graph` turns the chain into nodes and positional edges.
  - `/validate` computes the bundle's content id, checks the hash links
    of the chain, picks a JWKS key by `kid`, and tries two Ed25519
    message variants. The first variant is `cid|trace|ts`; the second is
    the bare cid.
  - `/policy` collects policy engines, decisions and breaches from the
    receipts' `normalized` sections.
- **Utilities** (`packages/opp_py/opp/util.py`):
  - `b64u` is unpadded base64url.
  - `canonical` is compact JSON with sorted keys, UTF-8 encoded.
  - `cid_of` is `sha256:` plus the hex digest of the canonical bytes.
- **Merkle reference** (`_manual_merkle` in the util test): the
  reference algorithm the Merkle tests compare against.
- **Explorer routes**: the Next.js `/api/graph` and `/api/validate`
  routes, which do the same as the exporter's handlers in JavaScript.
  Their results differ from the Python handlers; the lemmas that say
  where are listed in the table.
- **Version bumper** (`scripts/bump_version.py`): reads, bumps and
  rewrites the `version = "X.Y.Z"` line of a `pyproject.toml` text.

## Modelling conventions

- **JSON values** are a `Json` datatype with integer numbers. An object
  is a sequence of members.
- **Python exceptions** inside a handler become `Result.Raised`; FastAPI
  answers those with a 500.
- **JavaScript reads** go through `Js.JsVal`, which adds `undefined`.
  Truthiness, `||`, property access, `?.` and `===` follow JavaScript.
- **Foreign code** becomes parameters:
  - SHA-256 is a function from bytes to a 32-byte digest.
  - Ed25519 verification is a predicate over the key, the message and the
    signature.
  - Python's `str()` of a list or dict timestamp is `reprOf`.
  - The explorer's WebCrypto hex digest is `sha256Json`.
- **Fetched data** is passed in already fetched: the gateway bundle, the
  lower-cased response headers, and the JWKS document.

## Model

| member | source | states |
|---|---|---|
| Base64Url.B64u | packages/opp_py/opp/util.py:10-11 | `b64u` emits only URL-safe alphabet characters, exactly ceil(4n/3) of them for n bytes |
| Base64Url.B64uNoPadding | packages/opp_py/tests/test_merkle_and_util.py:44-47 | no encoding contains '=' |
| Base64Url.B64uRoundTrip | services/exporter_api/main.py:17-20 | `b64u_decode(b64u(b)) == b` for every byte string |
| Base64Url.RepadEncoding | services/exporter_api/main.py:19 | re-padding by `-len % 4` restores exactly the padding `b64u` stripped |
| Base64Url.B64uDecode | services/exporter_api/main.py:17-20 | `b64u_decode`: the model's validating decoder rejects a stripped input of length 1 mod 4 (Python's lenient decoder can accept one, such as `QUJD=`; see Left out); `B64uRoundTrip` gives its inverse |
| Base64Url.DecodeEncodePadded | services/exporter_api/main.py:20 | the standard padded decoder inverts the padded encoder |
| Base64Url.EncodePaddedShape | packages/opp_py/opp/util.py:11 | the padded encoding is data characters followed by `PadCount` '=', and `rstrip("=")` removes exactly those |
| Base64Url.Strip | services/exporter_api/main.py:18 | `strip()` gives a slice of the input that neither starts nor ends with Python whitespace, and only whitespace lies before and after it |
| Bytes.Hex | services/exporter_api/main.py:13-15 | `hexdigest()` gives two lower-case hex digits per byte |
| Bytes.UnhexHex | services/exporter_api/main.py:13-15 | the hex text determines the digest (decoding it gives the bytes back) |
| Bytes.DigestId | packages/opp_py/opp/util.py:16-17 | a content id is 71 characters: `sha256:` and 64 lower-case hex digits of the digest |
| Bytes.DigestIdInjective | packages/opp_py/opp/util.py:16-17 | different digests give different content ids |
| Canonical.SortMembers | services/exporter_api/main.py:10-11 | `sort_keys=True` reorders an object's members without losing or adding any |
| Canonical.SortMembersSorted | services/exporter_api/main.py:10-11 | the members come out in key order |
| Canonical.NormalizeSortsEverywhere | packages/opp_py/opp/util.py:13-14 | keys are sorted at every nesting level |
| Canonical.StrictlySortedUnique | packages/opp_py/opp/util.py:13-14 | two strictly key-sorted member lists with the same members are equal, so the sorted order is unique |
| Canonical.CanonicalIgnoresKeyOrder | packages/opp_py/tests/test_merkle_and_util.py:35-38 | two objects that differ only in key order (at any depth) have the same canonical bytes |
| Canonical.CidOf | packages/opp_py/opp/util.py:16-17 | `cid_of` is `sha256:` plus 64 lower-case hex digits |
| Canonical.EscapeLiteral | services/exporter_api/main.py:11 | with `ensure_ascii=False`, a string with nothing to escape is written as itself |
| CanonicalReader.ReadWrite | packages/opp_py/opp/util.py:13-14 | the compact text of any value reads back as that value, whatever follows it |
| CanonicalReader.WriteInjective | packages/opp_py/opp/util.py:13-14 | the compact writer is injective |
| Canonical.CanonicalBytes | packages/opp_py/opp/util.py:13-14 | `canonical_bytes`: the bytes are the UTF-8 encoding of the canonical text, and decode back to it |
| CanonicalReader.CanonicalBytesEqualIff | packages/opp_py/opp/util.py:13-14 | two values have the same canonical bytes exactly when their key-sorted forms are equal |
| CanonicalReader.CidDistinct | packages/opp_py/tests/test_merkle_and_util.py:40-41 | values with different sorted forms get different cids, given a SHA-256 without a collision on their canonical bytes |
| Utf8.DecodeEncode | packages/opp_py/opp/util.py:14 | the UTF-8 encoding of a string decodes back to the string |
| Utf8.EncodeInjective | packages/opp_py/opp/util.py:14 | different strings have different UTF-8 encodings |
| Utf8.EncodeAppend | packages/opp_py/opp/util.py:14 | the encoding of a concatenation is the concatenation of the encodings |
| Decimal.DigitsValueOfNatToString | services/exporter_api/main.py:11 | the decimal text of a number reads back as the number |
| Decimal.IntToString | services/exporter_api/main.py:11 | a number's text starts with '-' exactly when the number is negative |
| Merkle.Leaves | packages/opp_py/tests/test_merkle_and_util.py:16 | leaf `i` is the SHA-256 digest of chunk `i` |
| Merkle.NextLayer | packages/opp_py/tests/test_merkle_and_util.py:18-22 | a round halves the layer (rounding up); parent `k` hashes children `2k` and `2k+1`, and the last child of an odd layer is paired with itself |
| Merkle.Round | packages/opp_py/tests/test_merkle_and_util.py:18-23 | the inner `for` loop computes exactly `NextLayer` |
| Merkle.ManualMerkle | packages/opp_py/tests/test_merkle_and_util.py:11-24 | the imperative `_manual_merkle` returns the reference root |
| Merkle.ReferenceRoot | packages/opp_py/tests/test_merkle_and_util.py:11-24 | every root is `sha256:` plus 64 lower-case hex digits (length 71) |
| Merkle.SingleChunkRoot | packages/opp_py/tests/test_merkle_and_util.py:16-17 | one chunk: the root is that chunk's digest |
| Merkle.TwoChunkRoot | packages/opp_py/tests/test_merkle_and_util.py:18-23 | two chunks: the root hashes the two leaves' concatenation |
| Merkle.TwoChunkOrder | packages/opp_py/tests/test_merkle_and_util.py:20-22 | the pair order matters: swapping two chunks with different digests changes the root, unless SHA-256 collides on the two concatenations |
| Merkle.ThreeChunkRoot | packages/opp_py/tests/test_merkle_and_util.py:27-32 | three chunks: the third leaf is paired with itself |
| Merkle.EmptyMerkleRoot | packages/opp_py/tests/test_merkle_and_util.py:7-8 | the root the library gives for no chunks is a well-formed id: `sha256:` and 64 lower-case hex digits |
| Merkle.EmptySentinelsDiffer | packages/opp_py/tests/test_merkle_and_util.py:15 | the reference's empty sentinel `sha256(b"\x00")` differs from the library's, unless SHA-256 collides on those two inputs |
| Json.Lookup | services/exporter_api/main.py:42 | `dict.get` finds a value exactly when the key is present |
| Json.Iterate | services/exporter_api/main.py:43 | iterating a list gives its items; when iteration succeeds it is empty exactly on a falsy value; null, numbers and booleans raise |
| ExporterApi.ChainOf | services/exporter_api/main.py:42 | `bundle.get("chain") or bundle.get("hops", [])`: a truthy chain wins, otherwise `hops` or `[]`; only a dict bundle gets that far |
| ExporterApi.EmptyChainUsesHops | services/exporter_api/main.py:42 | an empty `chain` list falls back on `hops` |
| ExporterApi.Nodes | services/exporter_api/main.py:43 | one node per receipt with its `receipt_hash` and `ts`; it fails unless every receipt is a dict |
| ExporterApi.Edges | services/exporter_api/main.py:44 | edge `i` joins receipt `i` to receipt `i+1`; there are one fewer edges than receipts |
| ExporterApi.Graph | services/exporter_api/main.py:37-45 | the handler answers exactly when the chain iterates and holds only dicts |
| ExporterApi.GraphShape | services/exporter_api/main.py:45 | `count` is the number of nodes, which is the number of receipts, and the edge count is one less |
| ExporterApi.GraphNodesAndEdges | services/exporter_api/main.py:43-44 | node `i` carries receipt `i`'s hash and ts, and edge `i` runs from node `i` to node `i+1` |
| ExporterApi.ChainOk | services/exporter_api/main.py:62 | a chain of at most one receipt is intact; a non-list chain passes only when it has at most one element |
| ExporterApi.LinksFromSpec | services/exporter_api/main.py:62 | the `all(...)` is true iff every receipt names its predecessor's hash, and it raises iff a missing key or non-dict is reached before any mismatch |
| ExporterApi.ChainOkIffLinked | services/exporter_api/main.py:62 | `chain_ok` is true exactly when every adjacent pair is linked |
| ExporterApi.MissingPrevRaises | services/exporter_api/main.py:62 | a receipt without `prev_receipt_hash` after an intact prefix makes the handler fail |
| ExporterApi.HeaderCid | services/exporter_api/main.py:58 | `x-odin-response-cid` is used when present and non-empty, otherwise `x-odin-bundle-cid` |
| ExporterApi.CidMatch | services/exporter_api/main.py:59 | `cid_match` holds exactly when the chosen header equals the local cid |
| ExporterApi.ResponseCidTakesPrecedence | services/exporter_api/main.py:58-59 | a differing response-cid header is a mismatch whatever the bundle-cid header says |
| ExporterApi.NoCidHeaderNoMatch | services/exporter_api/main.py:59 | with neither header there is no match |
| ExporterApi.KidOf | services/exporter_api/main.py:65 | the `x-odin-kid` header wins over the `kid` parameter |
| ExporterApi.JwksKeys | services/exporter_api/main.py:68 | a JWKS without `keys` gives no keys; a non-dict JWKS fails |
| ExporterApi.FirstMatchingKeySpec | services/exporter_api/main.py:67-70 | the loop picks the first key whose `kid` matches (any first key when no kid is given), and none exactly when no key matches |
| ExporterApi.SelectKey | services/exporter_api/main.py:67-70 | the imperative key loop agrees with `FirstMatchingKey` |
| ExporterApi.VerifySignature | services/exporter_api/main.py:22-29 | a signature only verifies under a dict JWK that has `x` |
| ExporterApi.VerifySignatureOfEncoded | services/exporter_api/main.py:22-29 | for a JWK and signature made by `b64u`, the check is Ed25519 verification of the original bytes |
| ExporterApi.VerifySignatureDecoded | services/exporter_api/main.py:22-29 | a JWK `{"x": x}` whose `x` decodes to 32 bytes and a signature text that decodes verify exactly when Ed25519 accepts the decoded bytes |
| ExporterApi.Timestamp | services/exporter_api/main.py:77 | a truthy bundle `ts` is taken; otherwise `None` for a falsy chain; otherwise the last receipt's `ts` (or `None` when it has none), and this fails exactly when the chain is not a list whose last element is a dict |
| ExporterApi.Message | services/exporter_api/main.py:76-80 | the `cid\|trace\|ts` message exists exactly when `ts` is truthy; the other variant is the UTF-8 bytes of the cid |
| ExporterApi.FirstVerified | services/exporter_api/main.py:75-82 | `cid\|trace\|ts` is reported when it verifies, else `cid` when that verifies, else no variant; `sig_ok` iff a variant is reported |
| ExporterApi.TryVariants | services/exporter_api/main.py:75-82 | the imperative variant loop fails only when the ts cannot be read, and otherwise agrees with `FirstVerified` |
| ExporterApi.Validate | services/exporter_api/main.py:47-83 | when it answers and the conditions under which it fails; `ok = cid_match and chain_ok and sig_ok`; `bundle_cid` is `cid_of(bundle)`; the signature is tried only with a signature header and a key |
| ExporterPolicy.PolicyChain | services/exporter_api/main.py:100 | `chain or hops or []` fails only on a bundle that is not a dict; a truthy `chain` wins, then a truthy `hops`, and otherwise the result is `[]` |
| ExporterPolicy.EngineOf | services/exporter_api/main.py:108 | `engine` when truthy, else `policy_engine` |
| ExporterPolicy.LowerChar | services/exporter_api/main.py:116 | A-Z move to a-z, and other characters except the Kelvin sign are unchanged |
| ExporterPolicy.Lower | services/exporter_api/main.py:116 | `.lower()` keeps the length and lowers character by character |
| ExporterPolicy.AllClassifiableIff | services/exporter_api/main.py:113-118 | the decision loop completes exactly when every dict decision has a string outcome |
| ExporterPolicy.DictsOfKeepsDicts | services/exporter_api/main.py:113-115 | the kept decisions are exactly the list's dict elements |
| ExporterPolicy.Receipt | services/exporter_api/main.py:105-118 | a receipt or `normalized` that is not a dict raises; a policy that is not a dict contributes no engine and no decisions; otherwise the receipt contributes the policy's engine and exactly the dict entries of its decision list, and raises exactly when a dict decision's outcome is not a string |
| ExporterPolicy.Gather | services/exporter_api/main.py:104 | the loop over receipts succeeds iff every receipt does, and keeps their results in order |
| ExporterPolicy.GatherPrefixFails | services/exporter_api/main.py:104 | once a receipt fails the whole handler fails |
| ExporterPolicy.Candidates | services/exporter_api/main.py:109 | only truthy engines are candidates |
| ExporterPolicy.DedupDistinct | services/exporter_api/main.py:109-110 | the engine list has no two equal entries |
| EngineOrder.DedupFirstSeen | services/exporter_api/main.py:108-110 | engines keep first-seen order: each is the candidate at a strictly later position than the one before, and a candidate is skipped only when an engine listed earlier equals it |
| ExporterPolicy.DedupCovers | services/exporter_api/main.py:109-110 | every candidate engine is in the list or equal to one in it, and the list holds only candidates |
| ExporterPolicy.BreachesAreBreaches | services/exporter_api/main.py:116-118 | the breaches are exactly the decisions whose outcome is non-empty and not allow, pass or ok (case-insensitive) |
| ExporterPolicy.KeepDecision | services/exporter_api/main.py:114-118 | one decision: it fails iff the outcome is not a string; a dict is appended to the decisions, and to the breaches when it is one |
| ExporterPolicy.ScanDecisions | services/exporter_api/main.py:113-118 | the inner loop appends exactly the dict decisions and keeps breaches equal to the breaching decisions |
| ExporterPolicy.ScanReceipt | services/exporter_api/main.py:105-118 | one receipt: it adds its engine if new and appends its decisions |
| ExporterPolicy.Policy | services/exporter_api/main.py:96-119 | when the handler answers; engines are the distinct truthy engines in first-seen order; decisions are all dict decisions; breaches are exactly the breaching ones; `breach_count` is their number |
| ExporterPolicy.GatherStep | services/exporter_api/main.py:104-118 | one more receipt adds its engine if new and appends its decisions |
| ExporterPolicy.BreachesSnoc | services/exporter_api/main.py:117-118 | appending a decision appends it to the breaches exactly when it is one |
| Js.Or | apps/explorer/app/api/graph/route.ts:12 | `a \|\| b` is `a` when truthy, else `b` |
| Js.Prop | apps/explorer/app/api/graph/route.ts:13 | `x.p` throws exactly on null and undefined; on an object it is the member, or `undefined` when absent |
| Js.OptProp | apps/explorer/app/api/graph/route.ts:13 | `x?.p` is `undefined` on null and undefined, and `x.p` otherwise |
| ExplorerGraph.Status | apps/explorer/app/api/graph/route.ts:6-17 | only a graph reply is a 200 |
| ExplorerGraph.Chain | apps/explorer/app/api/graph/route.ts:12 | `bundle.chain \|\| bundle.hops \|\| []` throws only on a null body; a truthy `chain` wins, then a truthy `hops`, and otherwise the result is `[]` |
| ExplorerGraph.ChainItems | apps/explorer/app/api/graph/route.ts:13 | `.map` works only on an array chain |
| ExplorerGraph.NodeOf | apps/explorer/app/api/graph/route.ts:13 | a node carries `receipt_hash`, `ts` and `normalized?.step`; it throws exactly on a null receipt |
| ExplorerGraph.Nodes | apps/explorer/app/api/graph/route.ts:13 | one node per element, in order; a null element throws |
| ExplorerGraph.Edges | apps/explorer/app/api/graph/route.ts:14 | edge `i` runs from element `i` to element `i+1`; one fewer edges than elements |
| ExplorerGraph.Get | apps/explorer/app/api/graph/route.ts:3-19 | 400 iff the trace is missing or empty, 502 iff the gateway status is outside 200-299, and otherwise a graph whose nodes and edges are those built from the fetched chain and whose `count` is its node count |
| ExplorerGraph.GraphOfBody | apps/explorer/app/api/graph/route.ts:12-15 | a 2xx JSON body gives a graph exactly when the chain is an array without nulls; edge `i` joins node `i` to node `i+1` |
| ExplorerGraph.PropAsPython | apps/explorer/app/api/graph/route.ts:13 | on an object, JavaScript's `h.p` and Python's `h.get(p)` agree, with `undefined` for `None` |
| ExplorerGraph.AgreesWithExporter | apps/explorer/app/api/graph/route.ts:12-15 | on a non-empty `chain` list of dicts the route and the exporter's `/graph` give the same ids, timestamps and edges |
| ExplorerGraph.EmptyChainDiffers | apps/explorer/app/api/graph/route.ts:12 | an empty `chain` is truthy in JavaScript, so the route shows no receipts where the exporter falls back on `hops` |
| ExplorerValidate.Status | apps/explorer/app/api/validate/route.ts:6-25 | only a verdict reply is a 200 |
| ExplorerValidate.LinksFromSpec | apps/explorer/app/api/validate/route.ts:15 | `every` is true iff every element `===`-links to its predecessor, and it throws iff a null is reached before any mismatch |
| ExplorerValidate.ChainOk | apps/explorer/app/api/validate/route.ts:15 | only an array chain has `every`; a chain of at most one element passes |
| ExplorerValidate.ChainOkSpec | apps/explorer/app/api/validate/route.ts:15 | on an array, the check is true iff every element is linked, and throws iff a null comes before any mismatch |
| ExplorerValidate.Get | apps/explorer/app/api/validate/route.ts:3-26 | 400 and 502 as in the graph route; `ok` equals `chain_ok`; `cid_match` is always true and `sig_ok` always false; `bundle_cid` is `sha256:` plus the local digest |
| ExplorerValidate.VerdictOfBody | apps/explorer/app/api/validate/route.ts:11-22 | a 2xx JSON body gets a verdict exactly when the chain is an array and no null is reached before a mismatch |
| ExplorerValidate.MissingHashesPass | apps/explorer/app/api/validate/route.ts:15 | receipts without hash fields pass (`undefined === undefined`), where the exporter raises |
| ExplorerValidate.ObjectHashesNeverMatch | apps/explorer/app/api/validate/route.ts:15 | object-valued hashes never match under `===` |
| ExplorerValidate.LinkedAgrees | apps/explorer/app/api/validate/route.ts:15 | on string hashes, `===` and Python's `==` agree |
| ExplorerValidate.AgreesWithExporter | apps/explorer/app/api/validate/route.ts:15 | on receipts with string hashes, the route's chain check equals the exporter's `chain_ok` |
| BumpVersion.Split | scripts/bump_version.py:17 | splitting gives at least one piece, and no piece holds the separator |
| BumpVersion.JoinSplit | scripts/bump_version.py:23 | joining the lines again gives the text back |
| BumpVersion.SplitJoin | scripts/bump_version.py:23 | splitting joined separator-free pieces gives the pieces |
| BumpVersion.Format | scripts/bump_version.py:35 | `f"{major}.{minor}.{patch}"` is a well-formed version that parses back to the triple |
| BumpVersion.Bump | scripts/bump_version.py:25-35 | an unknown part fails; otherwise the result is `X.Y.Z`, strictly greater, and increments the named part and resets the lower parts to zero |
| BumpVersion.MatchEnd | scripts/bump_version.py:17 | a match starts at the line's start with `version = "`, then digits-dot-digits-dot-digits, then `"` |
| BumpVersion.FirstVersion | scripts/bump_version.py:17 | the result is `X.Y.Z` and is the version of a matching line with no matching line before it; there is none exactly when no line matches |
| BumpVersion.ReadVersion | scripts/bump_version.py:16-20 | the version read is `X.Y.Z` and comes from the first matching line; it fails exactly when no line matches |
| BumpVersion.RewriteLines | scripts/bump_version.py:23 | every line is rewritten on its own and the line count is kept |
| BumpVersion.WrittenLine | scripts/bump_version.py:17 | a line written with a version reads back as that version |
| BumpVersion.WriteVersion | scripts/bump_version.py:22-23 | `write_version`: a text without a version line is left unchanged; `ReadWrite` proves that a written version reads back |
| BumpVersion.FirstVersionRewritten | scripts/bump_version.py:23 | after a rewrite, the first version line holds the new version |
| BumpVersion.ReadWrite | scripts/bump_version.py:16-23 | writing any `X.Y.Z` into a text with a version line and reading back gives that version |
| BumpVersion.TrailingNewlineBreaksFile | scripts/bump_version.py:47 | `set 1.2.3\n` passes the check as written but not the intended one, and the file it writes has no readable version |
| BumpVersion.SetAcceptsAsWritten | scripts/bump_version.py:47 | the check as written accepts every version the intended check does, and the only extra strings it accepts end in a newline |
| BumpVersion.Run | scripts/bump_version.py:37-55 | usage, missing-version, `set`-usage, unknown-part and non-semantic exits, each exactly when its condition holds; unchanged iff `set` gives the current version; a written text reads back as the new version, which is the `set` argument or a strictly greater bump of exactly the named part |

## Findings

| source | as written | input that shows it | evidently intended | confidence | as-written member | corrected member |
|---|---|---|---|---|---|---|
| scripts/bump_version.py:47 | `re.match(r'^[0-9]+\.[0-9]+\.[0-9]+$', v)` also accepts `X.Y.Z` followed by one newline, because `$` matches before a final newline | `bump_version.py set "1.2.3\n"` on a file holding `version = "0.1.0"` | accept exactly `X.Y.Z` (`re.fullmatch`), so that the written file still has a readable version | not executed | BumpVersion.TrailingNewlineBreaksFile | BumpVersion.ReadWrite |

`BumpVersion.SetAcceptsAsWritten` is the check as written.
`BumpVersion.SetAccepts` is the corrected check, and `BumpVersion.Run`
uses it. `BumpVersion.ReadWrite` proves that, with the corrected check,
every written version reads back.

## Code and documentation disagree

Where the repository's description and its code differ, the model
follows the code:

- The `cid|trace|ts` message takes the bundle-level `ts` before the last
  receipt's `ts`.
- Only the first key that matches the `kid` is tried, not every key.
- The explorer's `chain || hops || []` keeps an empty `chain` array,
  because arrays are truthy in JavaScript.

## Left out

- Network I/O is not modelled. The bundle, the response headers (already
  lower-cased) and the JWKS document are inputs; so are the `gateway`
  default and URL building.
- Fetch failures are not modelled for the Python handlers.
  `ExporterApi.Graph`, `ExporterApi.Validate` and `ExporterPolicy.Policy`
  take the bundle and the JWKS as parsed JSON, so they have no path for
  these failures:
  - an HTTP error from `raise_for_status` in `fetch_json`;
  - a body that is not JSON;
  - a failed JWKS fetch in `/validate`, which fails the handler even
    without a signature header.
- The explorer routes do take the fetch outcome. A rejected fetch or a
  body that is not JSON is the 500 reply `Failed`, and a status outside
  200-299 is the 502 reply `GatewayFailed`.
- SHA-256 and Ed25519 are parameters, not implementations. Key decoding
  errors in `from_public_bytes` fold into the verifier returning false.
- JSON numbers are integers. Floats, and the exact exception classes and
  500 messages, are not modelled.
- Objects are member sequences that are assumed to have distinct keys,
  as `json.loads` and `JSON.parse` produce them. Parsing itself is not
  modelled.
- `/passport`, `/healthz`, `utcnow`, the FastAPI app object and every
  file outside the named core are not part of this model. That includes
  `opp.graph`, `opp.merkle`, the decorators, the UI and the examples.
- `sha256Json` in the validate route is a parameter. Its
  `JSON.stringify` replacer array keeps only top-level key names at
  every depth; that is not modelled.
- Python's `str()` of a list or dict timestamp is the `reprOf`
  parameter.
- File reads and writes of `pyproject.toml`, the printed messages and the
  process exit are left out. `BumpVersion.Run` takes the text and
  returns the outcome.
- `BumpVersion.Run` uses the corrected `set` check (see Findings).
- Base64Url.B64uDecode: models `urlsafe_b64decode` as a validating
  decoder. It accepts only URL-safe alphabet characters, with '=' only
  as final padding. Python's non-validating decoder differs on inputs
  `b64u` never produces:
  - it decodes '+' and '/' as 62 and 63;
  - it discards other non-alphabet characters;
  - it skips a '=' at position 0 or 1 of a group;
  - it stops at the first padding that completes a group (`QQ==QUJD`
    gives `A`);
  - it raises on non-ASCII text.

  So `Base64Url.B64uDecode`'s rejection of a stripped length of 1 mod 4 holds of the model only:
  Python pads `QUJD=` to `QUJD====` and returns `ABC`. The handlers call
  the decoder only inside `verify_signature`, where every exception
  becomes `False`. These differences can therefore change only whether
  a malformed key or signature verifies; they never change whether the
  handler answers. `Base64Url.B64uRoundTrip` covers every encoded input.
- ExporterPolicy.LowerChar: only A-Z and the Kelvin sign are lowered.
  No other character lowers to a letter of "allow", "pass" or "ok", so
  breach classification is exact; the lowered text itself is not.
- BumpVersion.Bump: requires `X.Y.Z` digits, as `read_version`
  guarantees. What `int()` also accepts (signs, spaces, underscores) is
  not modelled.
- BumpVersion.WriteVersion: the `re.sub` replacement is taken literally.
  Backslash escapes in a `set` argument are not modelled, and the
  corrected check excludes them anyway.
- Js.Prop: models property names that no built-in prototype defines,
  which covers every name the routes read.
- The `ensure_ascii=False` writer escapes only `"`, `\` and control
  characters. Surrogate code points are outside Dafny's `char` and are
  not modelled.
