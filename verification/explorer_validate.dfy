/** The explorer's `/api/validate` route: a continuity check over the
    fetched bundle's chain, a locally computed bundle content id, and fixed
    `cid_match` and `sig_ok` flags. */
module ExplorerValidate {
  import opened Wrappers
  import opened Json
  import Js
  import ExplorerGraph
  import ExporterApi

  /** The route's replies; `Failed` is the 500 reply of the `catch` block. */
  datatype Reply =
    | MissingTrace
    | GatewayFailed(gatewayStatus: int)
    | Failed
    | ValidateBody(ok: bool, chainOk: bool, cidMatch: bool, sigOk: bool, bundleCid: string)

  function Status(r: Reply): (s: int)
    ensures r.ValidateBody? <==> s == 200
  {
    match r
    case MissingTrace => 400
    case GatewayFailed(_) => 502
    case Failed => 500
    case ValidateBody(_, _, _, _, _) => 200
  }

  /** Receipt `i` names receipt `i-1` under `===`. */
  predicate Linked(xs: seq<Json>, i: nat)
    requires 1 <= i < |xs|
  {
    && !xs[i].Null? && !xs[i - 1].Null?
    && Js.StrictEq(Js.Prop(Js.Val(xs[i]), "prev_receipt_hash").value, Js.Prop(Js.Val(xs[i - 1]), "receipt_hash").value)
  }

  /** Neither property read of the comparison at `i` throws. */
  predicate Comparable(xs: seq<Json>, i: nat)
    requires 1 <= i < |xs|
  {
    !xs[i].Null? && !xs[i - 1].Null?
  }

  /** The `every` callback from position `i` on: it stops at the first
      `false`, and a property read of `null` throws. */
  function LinksFrom(xs: seq<Json>, i: nat): Result<bool>
    requires 1 <= i
    decreases |xs| - i
  {
    if i >= |xs| then Ok(true)
    else
      match Js.Prop(Js.Val(xs[i]), "prev_receipt_hash")
      case Raised => Raised
      case Ok(prev) =>
        match Js.Prop(Js.Val(xs[i - 1]), "receipt_hash")
        case Raised => Raised
        case Ok(hash) => if Js.StrictEq(prev, hash) then LinksFrom(xs, i + 1) else Ok(false)
  }

  lemma {:induction false} LinksFromSpec(xs: seq<Json>, i: nat)
    requires 1 <= i
    ensures LinksFrom(xs, i) == Ok(true) <==> forall j :: i <= j < |xs| ==> Linked(xs, j)
    ensures LinksFrom(xs, i).Raised? <==>
      exists j :: i <= j < |xs| && !Comparable(xs, j) && forall k :: i <= k < j ==> Linked(xs, k)
    decreases |xs| - i
  {
    if i < |xs| {
      LinksFromSpec(xs, i + 1);
      if !Comparable(xs, i) {
        assert !Linked(xs, i);
      } else if Linked(xs, i) {
        if LinksFrom(xs, i + 1).Raised? {
          var j :| i + 1 <= j < |xs| && !Comparable(xs, j) && forall k :: i + 1 <= k < j ==> Linked(xs, k);
          assert forall k :: i <= k < j ==> Linked(xs, k);
        }
      }
    }
  }

  /** `chain.every((h, i) => i === 0 || h.prev_receipt_hash ===
      chain[i-1].receipt_hash)`; `every` exists on arrays only. */
  function ChainOk(chain: Js.JsVal): (r: Result<bool>)
    ensures !(chain.Val? && chain.v.Arr?) ==> r.Raised?
    ensures chain.Val? && chain.v.Arr? && |chain.v.items| <= 1 ==> r == Ok(true)
  {
    match chain
    case Val(Arr(xs)) => LinksFrom(xs, 1)
    case _ => Raised
  }

  /** On an array: true iff every element after the first is linked to the
      one before it; a throw iff a `null` is reached before any mismatch. */
  lemma ChainOkSpec(xs: seq<Json>)
    ensures ChainOk(Js.Val(Arr(xs))) == Ok(true) <==> forall i :: 1 <= i < |xs| ==> Linked(xs, i)
    ensures ChainOk(Js.Val(Arr(xs))).Raised? <==>
      exists j :: 1 <= j < |xs| && !Comparable(xs, j) && forall k :: 1 <= k < j ==> Linked(xs, k)
  {
    LinksFromSpec(xs, 1);
  }

  /** The `GET` handler, given the `trace` query parameter, the outcome of
      the fetch, and `sha256Json` (a WebCrypto digest, hex-encoded). */
  function Get(trace: Option<string>, fetched: Js.Fetched, sha256Json: Json -> string): (r: Reply)
    ensures r.MissingTrace? <==> trace.None? || trace.value == ""
    ensures r.GatewayFailed? <==> !r.MissingTrace? && fetched.Response? && !Js.StatusOk(fetched.status)
    ensures r.GatewayFailed? ==> r.gatewayStatus == fetched.status
    ensures r.ValidateBody? ==>
      && fetched.Response? && fetched.body.Some?
      && ExplorerGraph.Chain(fetched.body.value).Ok?
      && ChainOk(ExplorerGraph.Chain(fetched.body.value).value) == Ok(r.chainOk)
      && r.ok == r.chainOk
      && r.cidMatch
      && !r.sigOk
      && r.bundleCid == "sha256:" + sha256Json(fetched.body.value)
  {
    if trace.None? || trace.value == "" then MissingTrace
    else
      match fetched
      case NetworkError => Failed
      case Response(status, body) =>
        if !Js.StatusOk(status) then GatewayFailed(status)
        else if body.None? then Failed
        else
          match ExplorerGraph.Chain(body.value)
          case Raised => Failed
          case Ok(chain) =>
            var localCid := "sha256:" + sha256Json(body.value);
            match ChainOk(chain)
            case Raised => Failed
            case Ok(chainOk) => ValidateBody(chainOk, chainOk, true, false, localCid)
  }

  /** A parsed body from a gateway that answered 200-299 gives a verdict
      exactly when its chain is an array with no `null` reached before a
      mismatch; the verdict's `bundle_cid` starts with `sha256:`. */
  lemma VerdictOfBody(trace: string, status: int, bundle: Json, sha256Json: Json -> string)
    requires trace != "" && Js.StatusOk(status)
    ensures var r := Get(Some(trace), Js.Response(status, Some(bundle)), sha256Json);
      r.ValidateBody? <==> ExplorerGraph.ChainItems(bundle).Ok? && LinksFrom(ExplorerGraph.ChainItems(bundle).value, 1).Ok?
    ensures var r := Get(Some(trace), Js.Response(status, Some(bundle)), sha256Json);
      r.ValidateBody? ==> |r.bundleCid| >= 7 && r.bundleCid[..7] == "sha256:"
  {
  }

  /** Where the route and the exporter's `chain_ok` differ: receipts that
      carry no hashes at all pass here, since `undefined === undefined`,
      while the exporter raises on the missing `prev_receipt_hash`. */
  lemma MissingHashesPass()
    ensures ChainOk(Js.Val(Arr([Obj([]), Obj([])]))) == Ok(true)
    ensures ExporterApi.ChainOk(Arr([Obj([]), Obj([])])).Raised?
  {
    ExporterApi.MissingPrevRaises([Obj([]), Obj([])], 1);
  }

  /** And hashes that are objects never match here, where Python compares
      them by value. */
  lemma ObjectHashesNeverMatch(xs: seq<Json>, i: nat)
    requires 1 <= i < |xs| && xs[i].Obj? && xs[i - 1].Obj?
    requires Field(xs[i].members, "prev_receipt_hash").Obj?
    ensures !Linked(xs, i)
  {
  }

  /** A receipt whose hash fields are both present as strings. */
  predicate StringHashes(x: Json) {
    && x.Obj?
    && Field(x.members, "prev_receipt_hash").Str?
    && Field(x.members, "receipt_hash").Str?
  }

  lemma LinkedAgrees(xs: seq<Json>, i: nat)
    requires 1 <= i < |xs| && StringHashes(xs[i]) && StringHashes(xs[i - 1])
    ensures Comparable(xs, i) && ExporterApi.Comparable(xs, i)
    ensures Linked(xs, i) <==> ExporterApi.Linked(xs, i)
  {
    var prev := Field(xs[i].members, "prev_receipt_hash");
    var hash := Field(xs[i - 1].members, "receipt_hash");
    PyEqStr(prev, hash.s);
  }

  lemma {:induction false} LinksFromAgrees(xs: seq<Json>, i: nat)
    requires 1 <= i
    requires forall k :: 0 <= k < |xs| ==> StringHashes(xs[k])
    ensures ExporterApi.LinksFrom(xs, i).Ok?
    ensures LinksFrom(xs, i) == ExporterApi.LinksFrom(xs, i)
    decreases |xs| - i
  {
    if i < |xs| {
      LinkedAgrees(xs, i);
      LinksFromAgrees(xs, i + 1);
    }
  }

  /** On chains whose receipts carry their hashes as strings, the route's
      check and the exporter's `chain_ok` agree. */
  lemma AgreesWithExporter(xs: seq<Json>)
    requires forall i :: 0 <= i < |xs| ==> StringHashes(xs[i])
    ensures ExporterApi.ChainOk(Arr(xs)).Ok?
    ensures ChainOk(Js.Val(Arr(xs))) == ExporterApi.ChainOk(Arr(xs))
  {
    LinksFromAgrees(xs, 1);
  }
}
