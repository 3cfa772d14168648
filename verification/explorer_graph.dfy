/** The explorer's `/api/graph` route: the receipts of the fetched bundle
    become nodes, and neighbouring receipts are joined by positional edges. */
module ExplorerGraph {
  import opened Wrappers
  import opened Json
  import Js
  import ExporterApi

  datatype Node = Node(id: Js.JsVal, ts: Js.JsVal, step: Js.JsVal)
  datatype Edge = Edge(from: Js.JsVal, to: Js.JsVal)

  /** The route's replies. `Failed` is the 500 reply of the `catch` block;
      its message is not modelled. */
  datatype Reply =
    | MissingTrace
    | GatewayFailed(gatewayStatus: int)
    | Failed
    | GraphBody(traceId: string, nodes: seq<Node>, edges: seq<Edge>, count: nat)

  function Status(r: Reply): (s: int)
    ensures r.GraphBody? <==> s == 200
  {
    match r
    case MissingTrace => 400
    case GatewayFailed(_) => 502
    case Failed => 500
    case GraphBody(_, _, _, _) => 200
  }

  /** `bundle.chain || bundle.hops || []`: only a `null` body throws, and the
      result is never falsy. */
  function Chain(bundle: Json): (r: Result<Js.JsVal>)
    ensures r.Raised? <==> bundle.Null?
    ensures r.Ok? ==> Js.Truthy(r.value)
    ensures r.Ok? && Js.Truthy(Js.Prop(Js.Val(bundle), "chain").value) ==>
      r.value == Js.Prop(Js.Val(bundle), "chain").value
    ensures r.Ok? && !Js.Truthy(Js.Prop(Js.Val(bundle), "chain").value) && Js.Truthy(Js.Prop(Js.Val(bundle), "hops").value) ==>
      r.value == Js.Prop(Js.Val(bundle), "hops").value
    ensures r.Ok? && !Js.Truthy(Js.Prop(Js.Val(bundle), "chain").value) && !Js.Truthy(Js.Prop(Js.Val(bundle), "hops").value) ==>
      r.value == Js.Val(Arr([]))
  {
    match Js.Prop(Js.Val(bundle), "chain")
    case Raised => Raised
    case Ok(chain) => Ok(Js.Or(Js.Or(chain, Js.Prop(Js.Val(bundle), "hops").value), Js.Val(Arr([]))))
  }

  /** The chain's elements; `.map` exists on arrays only. */
  function ChainItems(bundle: Json): (r: Result<seq<Json>>)
    ensures r.Ok? <==> Chain(bundle).Ok? && Chain(bundle).value.Val? && Chain(bundle).value.v.Arr?
  {
    match Chain(bundle)
    case Ok(Val(Arr(xs))) => Ok(xs)
    case _ => Raised
  }

  /** `{ id: h.receipt_hash, ts: h.ts, step: h.normalized?.step }`. */
  function NodeOf(h: Json): (r: Result<Node>)
    ensures r.Raised? <==> h.Null?
    ensures r.Ok? ==>
      && Ok(r.value.id) == Js.Prop(Js.Val(h), "receipt_hash")
      && Ok(r.value.ts) == Js.Prop(Js.Val(h), "ts")
      && r.value.step == Js.OptProp(Js.Prop(Js.Val(h), "normalized").value, "step")
  {
    if h.Null? then Raised
    else
      var hv := Js.Val(h);
      Ok(Node(Js.Prop(hv, "receipt_hash").value, Js.Prop(hv, "ts").value,
              Js.OptProp(Js.Prop(hv, "normalized").value, "step")))
  }

  predicate NoNulls(xs: seq<Json>) {
    forall i :: 0 <= i < |xs| ==> !xs[i].Null?
  }

  /** `chain.map(...)`: one node per element, in order; a `null` element
      throws. */
  function Nodes(xs: seq<Json>): (r: Result<seq<Node>>)
    ensures r.Ok? <==> NoNulls(xs)
    ensures r.Ok? ==> |r.value| == |xs| && forall i :: 0 <= i < |xs| ==> Ok(r.value[i]) == NodeOf(xs[i])
  {
    if xs == [] then Ok([])
    else
      match NodeOf(xs[0])
      case Raised => Raised
      case Ok(n) =>
        assert NoNulls(xs) <==> NoNulls(xs[1..]) by {
          assert forall i :: 1 <= i < |xs| ==> xs[i] == xs[1..][i - 1];
        }
        match Nodes(xs[1..])
        case Raised => Raised
        case Ok(rest) => Ok([n] + rest)
  }

  /** `chain.slice(1).map((h, i) => ({ from: chain[i].receipt_hash, to:
      h.receipt_hash }))`. */
  function Edges(xs: seq<Json>): (r: seq<Edge>)
    requires NoNulls(xs)
    ensures |r| == if xs == [] then 0 else |xs| - 1
    ensures forall i :: 0 <= i < |r| ==>
      Ok(r[i].from) == Js.Prop(Js.Val(xs[i]), "receipt_hash") && Ok(r[i].to) == Js.Prop(Js.Val(xs[i + 1]), "receipt_hash")
  {
    if |xs| <= 1 then []
    else
      [Edge(Js.Prop(Js.Val(xs[0]), "receipt_hash").value, Js.Prop(Js.Val(xs[1]), "receipt_hash").value)]
      + Edges(xs[1..])
  }

  /** The `GET` handler, given the `trace` query parameter and the outcome
      of the fetch. An absent or empty trace is a 400, a gateway status
      outside 200-299 a 502, and anything that throws a 500. */
  function Get(trace: Option<string>, fetched: Js.Fetched): (r: Reply)
    ensures r.MissingTrace? <==> trace.None? || trace.value == ""
    ensures r.GatewayFailed? <==> !r.MissingTrace? && fetched.Response? && !Js.StatusOk(fetched.status)
    ensures r.GatewayFailed? ==> r.gatewayStatus == fetched.status
    ensures r.GraphBody? ==>
      && trace == Some(r.traceId)
      && r.count == |r.nodes|
      && fetched.Response? && fetched.body.Some?
      && ChainItems(fetched.body.value).Ok?
      && |r.nodes| == |ChainItems(fetched.body.value).value|
      && |r.edges| == (if r.nodes == [] then 0 else |r.nodes| - 1)
      && Nodes(ChainItems(fetched.body.value).value) == Ok(r.nodes)
      && r.edges == Edges(ChainItems(fetched.body.value).value)
  {
    if trace.None? || trace.value == "" then MissingTrace
    else
      match fetched
      case NetworkError => Failed
      case Response(status, body) =>
        if !Js.StatusOk(status) then GatewayFailed(status)
        else if body.None? then Failed
        else
          match ChainItems(body.value)
          case Raised => Failed
          case Ok(xs) =>
            match Nodes(xs)
            case Raised => Failed
            case Ok(nodes) => GraphBody(trace.value, nodes, Edges(xs), |nodes|)
  }

  /** A body that parsed, from a gateway that answered 200-299, gives a
      graph exactly when the chain is an array without `null` elements; and
      then edge `i` runs from node `i` to node `i+1`. */
  lemma GraphOfBody(trace: string, status: int, bundle: Json)
    requires trace != "" && Js.StatusOk(status)
    ensures var r := Get(Some(trace), Js.Response(status, Some(bundle)));
      r.GraphBody? <==> ChainItems(bundle).Ok? && NoNulls(ChainItems(bundle).value)
    ensures var r := Get(Some(trace), Js.Response(status, Some(bundle)));
      r.GraphBody? ==> forall i :: 0 <= i < |r.edges| ==>
        r.edges[i].from == r.nodes[i].id && r.edges[i].to == r.nodes[i + 1].id
  {
  }

  /** How a value the route reads shows up next to the Python handler's:
      Python's `.get` gives `None` where JavaScript reads `undefined`. */
  function AsPython(x: Js.JsVal): Json {
    if x.Undefined? then Null else x.v
  }

  lemma PropAsPython(ms: seq<Member>, k: string)
    ensures Js.Prop(Js.Val(Obj(ms)), k).Ok?
    ensures AsPython(Js.Prop(Js.Val(Obj(ms)), k).value) == Field(ms, k)
  {
  }

  /** On a bundle whose `chain` is a non-empty list of receipts, the route
      and the exporter's `/graph` handler list the same receipts in the same
      order, with the same ids and timestamps and the same edges. */
  lemma {:induction false} AgreesWithExporter(trace: string, ms: seq<Member>, xs: seq<Json>)
    requires trace != ""
    requires Field(ms, "chain") == Arr(xs) && xs != [] && ExporterApi.AllDicts(xs)
    ensures ExporterApi.Graph(trace, Obj(ms)).Ok?
    ensures var py := ExporterApi.Graph(trace, Obj(ms)).value;
      var js := Get(Some(trace), Js.Response(200, Some(Obj(ms))));
      && js.GraphBody?
      && js.count == py.count
      && |js.nodes| == |py.nodes| == |xs|
      && (forall i :: 0 <= i < |xs| ==>
            AsPython(js.nodes[i].id) == py.nodes[i].id && AsPython(js.nodes[i].ts) == py.nodes[i].ts)
      && |js.edges| == |py.edges|
      && (forall i :: 0 <= i < |js.edges| ==>
            AsPython(js.edges[i].from) == py.edges[i].from && AsPython(js.edges[i].to) == py.edges[i].to)
  {
    assert HasKey(ms, "chain");
    assert Js.Prop(Js.Val(Obj(ms)), "chain") == Ok(Js.Val(Arr(xs)));
    assert ChainItems(Obj(ms)) == Ok(xs);
    assert ExporterApi.ChainItems(Obj(ms)) == Ok(xs);
    assert NoNulls(xs);
    var py := ExporterApi.Graph(trace, Obj(ms)).value;
    var js := Get(Some(trace), Js.Response(200, Some(Obj(ms))));
    var nodes := Nodes(xs).value;
    assert js.nodes == nodes && js.edges == Edges(xs);
    assert py.nodes == ExporterApi.Nodes(xs).value && py.edges == ExporterApi.Edges(xs);
    forall i | 0 <= i < |xs|
      ensures AsPython(js.nodes[i].id) == py.nodes[i].id && AsPython(js.nodes[i].ts) == py.nodes[i].ts
    {
      PropAsPython(xs[i].members, "receipt_hash");
      PropAsPython(xs[i].members, "ts");
      assert Ok(nodes[i]) == NodeOf(xs[i]);
    }
    forall i | 0 <= i < |js.edges|
      ensures AsPython(js.edges[i].from) == py.edges[i].from && AsPython(js.edges[i].to) == py.edges[i].to
    {
      PropAsPython(xs[i].members, "receipt_hash");
      PropAsPython(xs[i + 1].members, "receipt_hash");
    }
  }

  /** Where the two differ: an empty `chain` list is truthy in JavaScript,
      so the route shows no receipts where the Python handler falls back on
      `hops`. */
  lemma EmptyChainDiffers(trace: string, h: Json)
    requires trace != "" && h.Obj?
    ensures var bundle := Obj([Member("chain", Arr([])), Member("hops", Arr([h]))]);
      && Get(Some(trace), Js.Response(200, Some(bundle))) == GraphBody(trace, [], [], 0)
      && ExporterApi.Graph(trace, bundle).Ok?
      && |ExporterApi.Graph(trace, bundle).value.nodes| == 1
  {
    var ms := [Member("chain", Arr([])), Member("hops", Arr([h]))];
    LookupAt(ms, 0);
    LookupAt(ms, 1);
    assert ExporterApi.ChainItems(Obj(ms)) == Ok([h]);
  }
}
