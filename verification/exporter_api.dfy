/** The exporter service's `/graph` and `/validate` handlers over an
    already-fetched receipt bundle: chain selection, the graph of receipts,
    the chain-link check, the content-id match, key selection and the
    two-variant signature check. */
module ExporterApi {
  import opened Wrappers
  import opened Bytes
  import opened Decimal
  import opened Json
  import opened Canonical
  import Utf8
  import Base64Url

  // ---------------------------------------------------------------------
  // Chain selection

  /** `bundle.get("chain") or bundle.get("hops", [])`. */
  function ChainOf(bundle: Json): (r: Result<Json>)
    ensures r.Ok? <==> bundle.Obj?
    ensures bundle.Obj? && Truthy(Field(bundle.members, "chain")) ==> r == Ok(Field(bundle.members, "chain"))
    ensures bundle.Obj? && !Truthy(Field(bundle.members, "chain")) && !HasKey(bundle.members, "hops") ==> r == Ok(Arr([]))
    ensures bundle.Obj? && !Truthy(Field(bundle.members, "chain")) && HasKey(bundle.members, "hops") ==>
      r == Ok(Field(bundle.members, "hops"))
  {
    match bundle
    case Obj(_) => Ok(Or(Get(bundle, "chain").value, GetOr(bundle, "hops", Arr([])).value))
    case _ => Raised
  }

  /** A present but empty chain falls back on the hops. */
  lemma EmptyChainUsesHops(ms: seq<Member>, hops: Json)
    requires DistinctKeys(ms) && |ms| == 2
    requires ms[0] == Member("chain", Arr([])) && ms[1] == Member("hops", hops)
    ensures ChainOf(Obj(ms)) == Ok(hops)
  {
    LookupAt(ms, 1);
    assert Field(ms, "chain") == Arr([]);
  }

  // ---------------------------------------------------------------------
  // /graph

  datatype Node = Node(id: Json, ts: Json)
  datatype Edge = Edge(from: Json, to: Json)
  datatype GraphResponse = GraphResponse(traceId: string, nodes: seq<Node>, edges: seq<Edge>, count: nat)

  predicate AllDicts(xs: seq<Json>) {
    forall i :: 0 <= i < |xs| ==> xs[i].Obj?
  }

  /** `{"id": r.get("receipt_hash"), "ts": r.get("ts")}` for each receipt;
      `r.get` fails on anything but a dict. */
  function Nodes(xs: seq<Json>): (r: Result<seq<Node>>)
    ensures r.Ok? <==> AllDicts(xs)
    ensures r.Ok? ==> |r.value| == |xs|
    ensures r.Ok? ==> forall i :: 0 <= i < |xs| ==>
      r.value[i] == Node(Field(xs[i].members, "receipt_hash"), Field(xs[i].members, "ts"))
  {
    if xs == [] then Ok([])
    else if !xs[0].Obj? then Raised
    else
      var n := Node(Get(xs[0], "receipt_hash").value, Get(xs[0], "ts").value);
      assert AllDicts(xs) <==> AllDicts(xs[1..]) by {
        assert forall i :: 1 <= i < |xs| ==> xs[i] == xs[1..][i - 1];
      }
      match Nodes(xs[1..])
      case Raised => Raised
      case Ok(rest) => Ok([n] + rest)
  }

  /** Edge `i` joins receipt `i` to receipt `i+1`, by position. */
  function Edges(xs: seq<Json>): (r: seq<Edge>)
    requires AllDicts(xs)
    ensures |r| == if |xs| == 0 then 0 else |xs| - 1
    ensures forall i :: 0 <= i < |r| ==>
      r[i] == Edge(Field(xs[i].members, "receipt_hash"), Field(xs[i + 1].members, "receipt_hash"))
  {
    if |xs| <= 1 then []
    else [Edge(Field(xs[0].members, "receipt_hash"), Field(xs[1].members, "receipt_hash"))] + Edges(xs[1..])
  }

  /** The receipts `for r in chain` visits. */
  function ChainItems(bundle: Json): Result<seq<Json>> {
    var chain :- ChainOf(bundle);
    Iterate(chain)
  }

  /** `graph(trace_id)`; it fails unless every visited receipt is a dict. */
  function Graph(traceId: string, bundle: Json): (r: Result<GraphResponse>)
    ensures r.Ok? <==> ChainItems(bundle).Ok? && AllDicts(ChainItems(bundle).value)
  {
    var xs :- ChainItems(bundle);
    var nodes :- Nodes(xs);
    Ok(GraphResponse(traceId, nodes, Edges(xs), |nodes|))
  }

  /** One node per receipt in order, `len(chain) - 1` positional edges
      (none for an empty chain), each edge from node `i` to node `i+1`, the
      trace id echoed and `count == len(nodes)`. */
  lemma GraphShape(traceId: string, bundle: Json)
    requires Graph(traceId, bundle).Ok?
    ensures var g, xs := Graph(traceId, bundle).value, ChainItems(bundle).value;
      && g.traceId == traceId
      && |g.nodes| == |xs|
      && g.count == |g.nodes|
      && |g.edges| == (if |xs| == 0 then 0 else |xs| - 1)
  {
  }

  lemma GraphNodesAndEdges(traceId: string, bundle: Json, i: nat)
    requires Graph(traceId, bundle).Ok?
    ensures i < |ChainItems(bundle).value| ==>
      Graph(traceId, bundle).value.nodes[i] ==
        Node(Field(ChainItems(bundle).value[i].members, "receipt_hash"), Field(ChainItems(bundle).value[i].members, "ts"))
    ensures i + 1 < |ChainItems(bundle).value| ==>
      Graph(traceId, bundle).value.edges[i] ==
        Edge(Graph(traceId, bundle).value.nodes[i].id, Graph(traceId, bundle).value.nodes[i + 1].id)
  {
  }

  // ---------------------------------------------------------------------
  // Chain-link check

  /** Receipt `i` names receipt `i-1` as its predecessor. */
  predicate Linked(xs: seq<Json>, i: nat)
    requires 1 <= i < |xs|
  {
    && Subscript(xs[i], "prev_receipt_hash").Ok?
    && Subscript(xs[i - 1], "receipt_hash").Ok?
    && PyEq(Subscript(xs[i], "prev_receipt_hash").value, Subscript(xs[i - 1], "receipt_hash").value)
  }

  /** Both subscripts of the comparison at `i` succeed. */
  predicate Comparable(xs: seq<Json>, i: nat)
    requires 1 <= i < |xs|
  {
    Subscript(xs[i], "prev_receipt_hash").Ok? && Subscript(xs[i - 1], "receipt_hash").Ok?
  }

  /** `all(...)` from position `i` of a list chain: stops at the first
      comparison that is false, and fails at a subscript that fails before it. */
  function LinksFrom(xs: seq<Json>, i: nat): Result<bool>
    requires 1 <= i
    decreases |xs| - i
  {
    if i >= |xs| then Ok(true)
    else
      var prev :- Subscript(xs[i], "prev_receipt_hash");
      var hash :- Subscript(xs[i - 1], "receipt_hash");
      if PyEq(prev, hash) then LinksFrom(xs, i + 1) else Ok(false)
  }

  /** True exactly when every later receipt is linked; a failure exactly
      when a comparison that cannot be made is reached before any mismatch. */
  lemma {:induction false} LinksFromSpec(xs: seq<Json>, i: nat)
    requires 1 <= i
    ensures LinksFrom(xs, i) == Ok(true) <==> forall j :: i <= j < |xs| ==> Linked(xs, j)
    ensures LinksFrom(xs, i).Raised? <==>
      exists j :: i <= j < |xs| && !Comparable(xs, j) && forall k :: i <= k < j ==> Linked(xs, k)
    decreases |xs| - i
  {
    if i < |xs| {
      LinksFromSpec(xs, i + 1);
      if !Comparable(xs, i) {
        assert !Linked(xs, i);
      } else if Linked(xs, i) {
        if LinksFrom(xs, i + 1).Raised? {
          var j :| i + 1 <= j < |xs| && !Comparable(xs, j) && forall k :: i + 1 <= k < j ==> Linked(xs, k);
          assert forall k :: i <= k < j ==> Linked(xs, k);
        }
      }
    }
  }

  /** `chain_ok`: position 0 is never compared; `len` fails on a value
      without a length, and indexing a dict or a str by position fails
      before any key is compared. */
  function ChainOk(chain: Json): (r: Result<bool>)
    ensures chain.Arr? && |chain.items| <= 1 ==> r == Ok(true)
    ensures !chain.Arr? ==> (r.Ok? <==> (chain.Obj? && |chain.members| <= 1) || (chain.Str? && |chain.s| <= 1))
  {
    match chain
    case Arr(xs) => LinksFrom(xs, 1)
    case Obj(ms) => if |ms| <= 1 then Ok(true) else Raised
    case Str(s) => if |s| <= 1 then Ok(true) else Raised
    case _ => Raised
  }

  /** A missing `prev_receipt_hash` reached before any mismatch raises
      instead of giving false. */
  lemma MissingPrevRaises(xs: seq<Json>, i: nat)
    requires 1 <= i < |xs|
    requires forall k :: 1 <= k < i ==> Linked(xs, k)
    requires xs[i].Obj? && !HasKey(xs[i].members, "prev_receipt_hash")
    ensures ChainOk(Arr(xs)).Raised?
  {
    LinksFromSpec(xs, 1);
    assert !Comparable(xs, i);
  }

  /** `chain_ok` on a list: true iff every receipt after the first names
      its predecessor's hash. */
  lemma ChainOkIffLinked(xs: seq<Json>)
    ensures ChainOk(Arr(xs)) == Ok(true) <==> forall i :: 1 <= i < |xs| ==> Linked(xs, i)
  {
    LinksFromSpec(xs, 1);
  }

  // ---------------------------------------------------------------------
  // Headers, content id and key id

  /** `hdrs.get(name)` used as a condition: an empty value counts as absent. */
  function HeaderValue(hdrs: map<string, string>, name: string): (v: Option<string>)
    ensures v.Some? <==> name in hdrs && hdrs[name] != ""
    ensures v.Some? ==> v.value == hdrs[name]
  {
    if name in hdrs && hdrs[name] != "" then Some(hdrs[name]) else None
  }

  const ResponseCid := "x-odin-response-cid"
  const BundleCid := "x-odin-bundle-cid"

  /** `hdrs.get("x-odin-response-cid") or hdrs.get("x-odin-bundle-cid")`. */
  function HeaderCid(hdrs: map<string, string>): (c: Option<string>)
    ensures HeaderValue(hdrs, ResponseCid).Some? ==> c == HeaderValue(hdrs, ResponseCid)
    ensures HeaderValue(hdrs, ResponseCid).None? ==> c == HeaderValue(hdrs, BundleCid)
  {
    match HeaderValue(hdrs, ResponseCid)
    case Some(v) => Some(v)
    case None => HeaderValue(hdrs, BundleCid)
  }

  /** `cid_match`: false with no cid header, else equality with the local cid. */
  function CidMatch(hdrs: map<string, string>, localCid: string): (m: bool)
    ensures m <==> HeaderCid(hdrs) == Some(localCid)
  {
    match HeaderCid(hdrs)
    case Some(h) => h == localCid
    case None => false
  }

  /** The response cid takes precedence: a bundle cid that matches does not
      help when a different response cid is present. */
  lemma ResponseCidTakesPrecedence(hdrs: map<string, string>, localCid: string)
    requires ResponseCid in hdrs && hdrs[ResponseCid] != "" && hdrs[ResponseCid] != localCid
    ensures !CidMatch(hdrs, localCid)
  {
  }

  /** With neither header the cids never match. */
  lemma NoCidHeaderNoMatch(hdrs: map<string, string>, localCid: string)
    requires ResponseCid !in hdrs && BundleCid !in hdrs
    ensures !CidMatch(hdrs, localCid)
  {
  }

  /** `hdrs.get("x-odin-kid") or kid`: the header overrides the query parameter. */
  function KidOf(hdrs: map<string, string>, kidParam: Option<string>): (k: Option<string>)
    ensures HeaderValue(hdrs, "x-odin-kid").Some? ==> k == HeaderValue(hdrs, "x-odin-kid")
    ensures HeaderValue(hdrs, "x-odin-kid").None? ==> k == kidParam
  {
    match HeaderValue(hdrs, "x-odin-kid")
    case Some(v) => Some(v)
    case None => kidParam
  }

  // ---------------------------------------------------------------------
  // Key selection

  /** A kid was given (`not kid_hdr` is false). */
  predicate KidGiven(kid: Option<string>) {
    kid.Some? && kid.value != ""
  }

  /** The loop's condition `not kid_hdr or k.get("kid") == kid_hdr`, on a key
      for which it does not fail. */
  predicate KeyMatches(k: Json, kid: Option<string>) {
    !KidGiven(kid) || (k.Obj? && Field(k.members, "kid") == Str(kid.value))
  }

  /** `jwks.get("keys", [])`, as the loop iterates it. */
  function JwksKeys(jwks: Json): (r: Result<seq<Json>>)
    ensures jwks.Obj? && !HasKey(jwks.members, "keys") ==> r == Ok([])
    ensures !jwks.Obj? ==> r.Raised?
  {
    var keys :- GetOr(jwks, "keys", Arr([]));
    Iterate(keys)
  }

  /** The first key whose kid matches, the first key when no kid is given,
      none when no key matches; a non-dict key met while a kid is given fails. */
  function FirstMatchingKey(keys: seq<Json>, kid: Option<string>): (r: Result<Option<Json>>)
    ensures !KidGiven(kid) ==> r == (if keys == [] then Ok(None) else Ok(Some(keys[0])))
  {
    if keys == [] then Ok(None)
    else if !KidGiven(kid) then Ok(Some(keys[0]))
    else if !keys[0].Obj? then Raised
    else if KeyMatches(keys[0], kid) then Ok(Some(keys[0]))
    else FirstMatchingKey(keys[1..], kid)
  }

  /** No key is selected exactly when every key is a dict whose kid does
      not match; otherwise the selected key is the first that matches. */
  lemma {:induction false} FirstMatchingKeySpec(keys: seq<Json>, kid: Option<string>, i: nat)
    ensures FirstMatchingKey(keys, kid) == Ok(None) <==>
      forall j :: 0 <= j < |keys| ==> keys[j].Obj? && !KeyMatches(keys[j], kid)
    ensures (&& i < |keys| && KeyMatches(keys[i], kid)
             && (forall j :: 0 <= j < i ==> keys[j].Obj? && !KeyMatches(keys[j], kid)))
            ==> FirstMatchingKey(keys, kid) == Ok(Some(keys[i]))
  {
    if keys != [] && KidGiven(kid) && keys[0].Obj? && !KeyMatches(keys[0], kid) {
      FirstMatchingKeySpec(keys[1..], kid, if i == 0 then 0 else i - 1);
      assert forall j :: 1 <= j < |keys| ==> keys[j] == keys[1..][j - 1];
    }
  }

  /** The key loop with its `break`. */
  method SelectKey(keys: seq<Json>, kid: Option<string>) returns (r: Result<Option<Json>>)
    ensures r == FirstMatchingKey(keys, kid)
  {
    var jwk: Option<Json> := None;
    var i := 0;
    while i < |keys|
      invariant 0 <= i <= |keys|
      invariant FirstMatchingKey(keys, kid) == FirstMatchingKey(keys[i..], kid)
    {
      var k := keys[i];
      if !KidGiven(kid) {
        jwk := Some(k);
        break;
      }
      if !k.Obj? {
        return Raised;
      }
      if Field(k.members, "kid") == Str(kid.value) {
        jwk := Some(k);
        break;
      }
      assert keys[i..][1..] == keys[i + 1..];
      i := i + 1;
    }
    r := Ok(jwk);
  }

  // ---------------------------------------------------------------------
  // Signature check

  /** Ed25519 verification (RFC 8032) is foreign code: public key, message,
      signature. */
  type Ed25519Verify = (seq<byte>, seq<byte>, seq<byte>) -> bool

  /** `verify_signature(jwk, message, sig)`: any failure along the way (no
      `x`, `x` not a string, bad base64url, a key that is not 32 bytes, a
      rejected signature) gives false. */
  function VerifySignature(jwk: Json, msg: seq<byte>, sig: string, ed25519: Ed25519Verify): (ok: bool)
    ensures ok ==> jwk.Obj? && HasKey(jwk.members, "x")
  {
    match Subscript(jwk, "x")
    case Ok(Str(x)) =>
      (match Base64Url.B64uDecode(x)
       case Some(pub) =>
         |pub| == 32 &&
         (match Base64Url.B64uDecode(sig) case Some(s) => ed25519(pub, msg, s) case None => false)
       case None => false)
    case _ => false
  }

  /** A key published as `{"x": b64u(pub)}` and a signature sent as
      `b64u(sig)` verify exactly when Ed25519 accepts the raw bytes. */
  lemma VerifySignatureOfEncoded(pub: seq<byte>, sigBytes: seq<byte>, msg: seq<byte>, ed25519: Ed25519Verify)
    requires |pub| == 32
    ensures VerifySignature(Obj([Member("x", Str(Base64Url.B64u(pub)))]), msg, Base64Url.B64u(sigBytes), ed25519)
            == ed25519(pub, msg, sigBytes)
  {
    Base64Url.B64uRoundTrip(pub);
    Base64Url.B64uRoundTrip(sigBytes);
    VerifySignatureDecoded(Base64Url.B64u(pub), Base64Url.B64u(sigBytes), pub, sigBytes, msg, ed25519);
  }

  /** A key `{"x": x}` and a signature text that decode to `pub` and `sigBytes`. */
  lemma VerifySignatureDecoded(x: string, sig: string, pub: seq<byte>, sigBytes: seq<byte>, msg: seq<byte>,
                               ed25519: Ed25519Verify)
    requires |pub| == 32
    requires Base64Url.B64uDecode(x) == Some(pub) && Base64Url.B64uDecode(sig) == Some(sigBytes)
    ensures VerifySignature(Obj([Member("x", Str(x))]), msg, sig, ed25519) == ed25519(pub, msg, sigBytes)
  {
    assert Subscript(Obj([Member("x", Str(x))]), "x") == Ok(Str(x));
  }

  /** Python's `str(ts)` inside the f-string. The text of a list or dict
      (its repr) is given as a parameter. */
  function PyStr(j: Json, reprOf: Json -> string): string {
    match j
    case Null => "None"
    case Bool(b) => if b then "True" else "False"
    case Num(n) => IntToString(n)
    case Str(s) => s
    case _ => reprOf(j)
  }

  /** `bundle.get("ts") or (chain[-1].get("ts") if chain else None)`. */
  function Timestamp(bundle: seq<Member>, chain: Json): (r: Result<Json>)
    ensures Truthy(Field(bundle, "ts")) ==> r == Ok(Field(bundle, "ts"))
    ensures !Truthy(Field(bundle, "ts")) && !Truthy(chain) ==> r == Ok(Null)
    ensures !Truthy(Field(bundle, "ts")) && Truthy(chain) ==>
      (r.Ok? <==> chain.Arr? && chain.items[|chain.items| - 1].Obj?)
    ensures !Truthy(Field(bundle, "ts")) && Truthy(chain) && chain.Arr? && chain.items[|chain.items| - 1].Obj? ==>
      r == Ok(Field(chain.items[|chain.items| - 1].members, "ts"))
  {
    var ts := Field(bundle, "ts");
    if Truthy(ts) then Ok(ts)
    else if !Truthy(chain) then Ok(Null)
    else if chain.Arr? then Get(chain.items[|chain.items| - 1], "ts")
    else Raised
  }

  const TsVariant := "cid|trace|ts"
  const CidVariant := "cid"

  /** The message signed under a variant: `f"{cid}|{trace}|{ts}"` (only for a
      truthy ts) or the cid alone, UTF-8 encoded. */
  function Message(variant: string, localCid: string, traceId: string, ts: Json, reprOf: Json -> string): (m: Option<seq<byte>>)
    ensures variant == TsVariant ==> (m.Some? <==> Truthy(ts))
    ensures variant != TsVariant ==> m == Some(Utf8.Encode(localCid))
  {
    if variant == TsVariant then
      if Truthy(ts) then Some(Utf8.Encode(localCid + "|" + traceId + "|" + PyStr(ts, reprOf))) else None
    else Some(Utf8.Encode(localCid))
  }

  datatype SigOutcome = SigOutcome(sigOk: bool, variant: Option<string>)

  /** Which variant verifies first, trying the ts variant before the cid one. */
  function FirstVerified(jwk: Json, sig: string, localCid: string, traceId: string, ts: Json,
                         ed25519: Ed25519Verify, reprOf: Json -> string): (o: SigOutcome)
    ensures o.sigOk <==> o.variant.Some?
    ensures o.variant == Some(TsVariant) <==>
      Truthy(ts) && VerifySignature(jwk, Message(TsVariant, localCid, traceId, ts, reprOf).value, sig, ed25519)
    ensures o.variant == Some(CidVariant) <==>
      !(Truthy(ts) && VerifySignature(jwk, Message(TsVariant, localCid, traceId, ts, reprOf).value, sig, ed25519))
      && VerifySignature(jwk, Utf8.Encode(localCid), sig, ed25519)
    ensures o.sigOk ==> VerifySignature(jwk, Message(o.variant.value, localCid, traceId, ts, reprOf).value, sig, ed25519)
    ensures !o.sigOk <==>
      (!Truthy(ts) || !VerifySignature(jwk, Message(TsVariant, localCid, traceId, ts, reprOf).value, sig, ed25519))
      && !VerifySignature(jwk, Utf8.Encode(localCid), sig, ed25519)
  {
    var m1 := Message(TsVariant, localCid, traceId, ts, reprOf);
    if m1.Some? && VerifySignature(jwk, m1.value, sig, ed25519) then SigOutcome(true, Some(TsVariant))
    else if VerifySignature(jwk, Utf8.Encode(localCid), sig, ed25519) then SigOutcome(true, Some(CidVariant))
    else SigOutcome(false, None)
  }

  /** The variant loop: `ts` is worked out on the first variant (which can
      fail), and the first variant that verifies stops the loop. */
  method TryVariants(jwk: Json, sig: string, localCid: string, traceId: string, bundle: seq<Member>, chain: Json,
                     ed25519: Ed25519Verify, reprOf: Json -> string) returns (r: Result<SigOutcome>)
    ensures r.Ok? <==> Timestamp(bundle, chain).Ok?
    ensures r.Ok? ==> r.value == FirstVerified(jwk, sig, localCid, traceId, Timestamp(bundle, chain).value, ed25519, reprOf)
  {
    var variants := [TsVariant, CidVariant];
    var sigOk := false;
    var variant: Option<string> := None;
    var ts: Json := Null;
    var i := 0;
    while i < |variants|
      invariant 0 <= i <= 2
      invariant i >= 1 ==> Timestamp(bundle, chain) == Ok(ts)
      invariant !sigOk && variant == None
      invariant i >= 1 ==> !(Truthy(ts) && VerifySignature(jwk, Message(TsVariant, localCid, traceId, ts, reprOf).value, sig, ed25519))
      invariant i >= 2 ==> !VerifySignature(jwk, Utf8.Encode(localCid), sig, ed25519)
    {
      var v := variants[i];
      var msg: Option<seq<byte>>;
      if v == TsVariant {
        var t := Timestamp(bundle, chain);
        if t.Raised? {
          return Raised;
        }
        ts := t.value;
      }
      msg := Message(v, localCid, traceId, ts, reprOf);
      if msg.Some? && VerifySignature(jwk, msg.value, sig, ed25519) {
        sigOk := true;
        variant := Some(v);
        break;
      }
      i := i + 1;
    }
    r := Ok(SigOutcome(sigOk, variant));
  }

  // ---------------------------------------------------------------------
  // /validate

  datatype Verdict = Verdict(
    ok: bool, chainOk: bool, cidMatch: bool, sigOk: bool,
    sigVariant: Option<string>, bundleCid: string, kid: Option<string>)

  /** The signature check runs only with a signature header and a truthy
      selected key. */
  predicate SigAttempted(hdrs: map<string, string>, jwk: Option<Json>) {
    HeaderValue(hdrs, "x-odin-signature").Some? && jwk.Some? && Truthy(jwk.value)
  }

  /** `validate(trace_id)`. The handler fails when the bundle is not a dict,
      when the chain check fails, when the key set or the key loop fails, or
      when the ts of an attempted signature check cannot be read. */
  method Validate(traceId: string, bundle: Json, hdrs: map<string, string>, kidParam: Option<string>, jwks: Json,
                  sha256: Sha256, ed25519: Ed25519Verify, reprOf: Json -> string) returns (r: Result<Verdict>)
    ensures r.Ok? <==>
      && bundle.Obj?
      && ChainOk(ChainOf(bundle).value).Ok?
      && JwksKeys(jwks).Ok?
      && FirstMatchingKey(JwksKeys(jwks).value, KidOf(hdrs, kidParam)).Ok?
      && (SigAttempted(hdrs, FirstMatchingKey(JwksKeys(jwks).value, KidOf(hdrs, kidParam)).value) ==>
            Timestamp(bundle.members, ChainOf(bundle).value).Ok?)
    ensures r.Ok? ==> r.value.ok == (r.value.cidMatch && r.value.chainOk && r.value.sigOk)
    ensures r.Ok? ==> r.value.bundleCid == CidOf(bundle, sha256)
    ensures r.Ok? ==> r.value.cidMatch == CidMatch(hdrs, CidOf(bundle, sha256))
    ensures r.Ok? ==> ChainOk(ChainOf(bundle).value) == Ok(r.value.chainOk)
    ensures r.Ok? ==> r.value.kid == KidOf(hdrs, kidParam)
    ensures r.Ok? ==> (r.value.sigVariant.None? <==> !r.value.sigOk)
    ensures r.Ok? ==>
      var jwk := FirstMatchingKey(JwksKeys(jwks).value, KidOf(hdrs, kidParam)).value;
      if SigAttempted(hdrs, jwk) then
        SigOutcome(r.value.sigOk, r.value.sigVariant) ==
          FirstVerified(jwk.value, HeaderValue(hdrs, "x-odin-signature").value, CidOf(bundle, sha256), traceId,
                        Timestamp(bundle.members, ChainOf(bundle).value).value, ed25519, reprOf)
      else !r.value.sigOk
  {
    var localCid := CidOf(bundle, sha256);
    var cidMatch := CidMatch(hdrs, localCid);
    var chain :- ChainOf(bundle);
    var chainOk :- ChainOk(chain);
    var sig := HeaderValue(hdrs, "x-odin-signature");
    var kid := KidOf(hdrs, kidParam);
    var keys :- JwksKeys(jwks);
    var jwk :- SelectKey(keys, kid);
    var sigOk := false;
    var variant: Option<string> := None;
    if sig.Some? && jwk.Some? && Truthy(jwk.value) {
      var outcome :- TryVariants(jwk.value, sig.value, localCid, traceId, bundle.members, chain, ed25519, reprOf);
      sigOk, variant := outcome.sigOk, outcome.variant;
    }
    r := Ok(Verdict(cidMatch && chainOk && sigOk, chainOk, cidMatch, sigOk, variant, localCid, kid));
  }
}
