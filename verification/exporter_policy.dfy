/** The exporter service's `/policy` handler: walks the receipts of a
    bundle and collects the policy engines (without duplicates, in
    first-seen order), every decision that is a dict, and the decisions
    whose outcome is a breach. */
module ExporterPolicy {
  import opened Wrappers
  import opened Json

  /** `bundle.get("chain") or bundle.get("hops") or []`. */
  function PolicyChain(bundle: Json): (r: Result<Json>)
    ensures r.Ok? <==> bundle.Obj?
    ensures r.Ok? ==> Truthy(r.value) || r.value == Arr([])
    ensures r.Ok? && Truthy(Field(bundle.members, "chain")) ==> r.value == Field(bundle.members, "chain")
    ensures r.Ok? && !Truthy(Field(bundle.members, "chain")) && Truthy(Field(bundle.members, "hops")) ==>
      r.value == Field(bundle.members, "hops")
    ensures r.Ok? && !Truthy(Field(bundle.members, "chain")) && !Truthy(Field(bundle.members, "hops")) ==>
      r.value == Arr([])
  {
    match bundle
    case Obj(ms) => Ok(Or(Or(Field(ms, "chain"), Field(ms, "hops")), Arr([])))
    case _ => Raised
  }

  // ---------------------------------------------------------------------
  // One receipt

  /** `r.get("normalized", {})` on a receipt that is a dict. */
  function Normalized(r: seq<Member>): Json {
    GetOr(Obj(r), "normalized", Obj([])).value
  }

  /** `norm.get("policy") or {}`. */
  function PolicyOf(norm: seq<Member>): Json {
    Or(Field(norm, "policy"), Obj([]))
  }

  /** `policy.get("engine") or policy.get("policy_engine")`. */
  function EngineOf(policy: seq<Member>): (e: Json)
    ensures Truthy(Field(policy, "engine")) ==> e == Field(policy, "engine")
    ensures !Truthy(Field(policy, "engine")) ==> e == Field(policy, "policy_engine")
  {
    Or(Field(policy, "engine"), Field(policy, "policy_engine"))
  }

  /** `policy.get("decisions") or norm.get("policy_decisions")`. */
  function DecisionsOf(policy: seq<Member>, norm: seq<Member>): Json {
    Or(Field(policy, "decisions"), Field(norm, "policy_decisions"))
  }

  /** What `isinstance(decs, list)` lets the inner loop visit. */
  function DecisionItems(policy: seq<Member>, norm: seq<Member>): seq<Json> {
    var decs := DecisionsOf(policy, norm);
    if decs.Arr? then decs.items else []
  }

  /** `d.get("outcome") or d.get("result") or d.get("decision") or ""`. */
  function OutcomeOf(d: seq<Member>): Json {
    Or(Or(Or(Field(d, "outcome"), Field(d, "result")), Field(d, "decision")), Str(""))
  }

  /** `.lower()` as far as the comparison with "allow", "pass" and "ok" can
      tell: A-Z and the Kelvin sign (U+212A) are the only characters whose
      lower case is one of those letters. */
  function LowerChar(c: char): (l: char)
    ensures 'A' <= c <= 'Z' ==> l as int == c as int + 32
    ensures !('A' <= c <= 'Z') && c as int != 0x212A ==> l == c
  {
    if 'A' <= c <= 'Z' then (c as int + 32) as char
    else if c as int == 0x212A then 'k'
    else c
  }

  function Lower(s: string): (l: string)
    ensures |l| == |s|
    ensures forall i :: 0 <= i < |s| ==> l[i] == LowerChar(s[i])
  {
    if s == [] then [] else [LowerChar(s[0])] + Lower(s[1..])
  }

  /** A non-empty outcome that is not allow, pass or ok in any letter case. */
  predicate IsBreachOutcome(s: string) {
    s != "" && Lower(s) != "allow" && Lower(s) != "pass" && Lower(s) != "ok"
  }

  /** `.lower()` fails on an outcome that is not a string. */
  predicate Classifiable(d: Json) {
    d.Obj? ==> OutcomeOf(d.members).Str?
  }

  /** Every element of a decision list can be classified, checked from the
      front as the loop does. */
  predicate AllClassifiable(items: seq<Json>) {
    items == [] || (Classifiable(items[0]) && AllClassifiable(items[1..]))
  }

  lemma {:induction false} AllClassifiableIff(items: seq<Json>)
    ensures AllClassifiable(items) <==> forall k :: 0 <= k < |items| ==> Classifiable(items[k])
  {
    if items != [] {
      AllClassifiableIff(items[1..]);
      assert forall k :: 1 <= k < |items| ==> items[1..][k - 1] == items[k];
    }
  }

  lemma {:induction false} AllClassifiableSnoc(items: seq<Json>, j: nat)
    requires j < |items| && AllClassifiable(items[..j])
    ensures AllClassifiable(items[..j + 1]) <==> Classifiable(items[j])
  {
    AllClassifiableIff(items[..j]);
    AllClassifiableIff(items[..j + 1]);
    assert forall k :: 0 <= k < j ==> items[..j + 1][k] == items[..j][k];
  }

  predicate IsBreach(d: Json) {
    d.Obj? && OutcomeOf(d.members).Str? && IsBreachOutcome(OutcomeOf(d.members).s)
  }

  /** The dict elements of a list, in order. */
  function DictsOf(items: seq<Json>): seq<Json>
  {
    if items == [] then []
    else
      var init := items[..|items| - 1];
      var last := items[|items| - 1];
      assert items == init + [last];
      DictsOf(init) + (if last.Obj? then [last] else [])
  }

  /** The decisions kept are exactly the list's dicts. */
  lemma {:induction false} DictsOfKeepsDicts(items: seq<Json>)
    ensures forall x :: x in DictsOf(items) <==> x in items && x.Obj?
    ensures |DictsOf(items)| <= |items|
  {
    if items != [] {
      var init := items[..|items| - 1];
      assert items == init + [items[|items| - 1]];
      DictsOfKeepsDicts(init);
    }
  }

  /** What one receipt contributes: its engine (falsy when none) and its
      dict decisions. */
  datatype Info = Info(engine: Json, decisions: seq<Json>)

  /** What one receipt's outcome means: a receipt or `normalized` that is
      not a dict raises; a policy that is not a dict contributes nothing;
      otherwise the receipt contributes the policy's engine and its dict
      decisions, and raises exactly when a dict decision's outcome is not a
      string. */
  predicate ReceiptOutcome(r: Json, res: Result<Info>) {
    if !r.Obj? || !Normalized(r.members).Obj? then res.Raised?
    else
      var norm := Normalized(r.members).members;
      if !PolicyOf(norm).Obj? then res == Ok(Info(Null, []))
      else
        var policy := PolicyOf(norm).members;
        && (res.Ok? <==> AllClassifiable(DecisionItems(policy, norm)))
        && (res.Ok? ==> res.value == Info(EngineOf(policy), DictsOf(DecisionItems(policy, norm))))
  }

  /** The body of the outer loop for one receipt. It fails when the receipt
      or its `normalized` is not a dict, or a dict decision's outcome is not
      a string; a policy that is not a dict contributes nothing. */
  function Receipt(r: Json): (res: Result<Info>)
    ensures res.Ok? ==> forall x :: x in res.value.decisions ==> x.Obj?
    ensures ReceiptOutcome(r, res)
  {
    if !r.Obj? then Raised
    else
      var norm := Normalized(r.members);
      if !norm.Obj? then Raised
      else
        var policy := PolicyOf(norm.members);
        if !policy.Obj? then Ok(Info(Null, []))
        else
          var items := DecisionItems(policy.members, norm.members);
          if AllClassifiable(items) then
            DictsOfKeepsDicts(items);
            Ok(Info(EngineOf(policy.members), DictsOf(items)))
          else Raised
  }

  /** The receipts' contributions in order; any failing receipt fails all. */
  function Gather(xs: seq<Json>): (r: Result<seq<Info>>)
    ensures r.Ok? <==> forall i :: 0 <= i < |xs| ==> Receipt(xs[i]).Ok?
    ensures r.Ok? ==> |r.value| == |xs| && forall i :: 0 <= i < |xs| ==> r.value[i] == Receipt(xs[i]).value
  {
    if xs == [] then Ok([])
    else
      var init := xs[..|xs| - 1];
      assert forall i :: 0 <= i < |init| ==> init[i] == xs[i];
      var infos :- Gather(init);
      var info :- Receipt(xs[|xs| - 1]);
      Ok(infos + [info])
  }

  /** The truthy engines, in receipt order. */
  function Candidates(infos: seq<Info>): (c: seq<Json>)
    ensures forall i :: 0 <= i < |c| ==> Truthy(c[i])
  {
    if infos == [] then []
    else
      var last := infos[|infos| - 1];
      Candidates(infos[..|infos| - 1]) + (if Truthy(last.engine) then [last.engine] else [])
  }

  /** `x in l`: some element compares equal to `x`. */
  predicate InList(x: Json, l: seq<Json>) {
    exists i :: 0 <= i < |l| && PyEq(l[i], x)
  }

  /** Append-if-absent, element by element. */
  function Dedup(xs: seq<Json>): (d: seq<Json>)
    ensures |d| <= |xs|
  {
    if xs == [] then []
    else
      var d := Dedup(xs[..|xs| - 1]);
      var x := xs[|xs| - 1];
      if InList(x, d) then d else d + [x]
  }

  /** All dict decisions, receipt by receipt. */
  function AllDecisions(infos: seq<Info>): seq<Json> {
    if infos == [] then []
    else AllDecisions(infos[..|infos| - 1]) + infos[|infos| - 1].decisions
  }

  /** The decisions that are breaches, in order. */
  function Breaches(ds: seq<Json>): seq<Json>
  {
    if ds == [] then []
    else
      var last := ds[|ds| - 1];
      Breaches(ds[..|ds| - 1]) + (if IsBreach(last) then [last] else [])
  }

  datatype PolicyResponse = PolicyResponse(
    traceId: string, engines: seq<Json>, decisions: seq<Json>, breaches: seq<Json>, breachCount: nat)

  /** The receipts of the policy chain, as `for r in chain` visits them. */
  function PolicyItems(bundle: Json): Result<seq<Json>> {
    var chain :- PolicyChain(bundle);
    Iterate(chain)
  }

  /** The engine list after one receipt: its engine is appended when it is
      truthy and not already in the list. */
  function AddEngine(engines: seq<Json>, eng: Json): seq<Json> {
    if Truthy(eng) && !InList(eng, engines) then engines + [eng] else engines
  }

  /** The inner loop's body for one decision: a dict is kept as a decision,
      and kept as a breach too when its outcome is one; a dict whose outcome
      is not a string makes `.lower()` fail. */
  method KeepDecision(d: Json, decisions0: seq<Json>, breaches0: seq<Json>)
    returns (ok: bool, decisions: seq<Json>, breaches: seq<Json>)
    requires breaches0 == Breaches(decisions0)
    ensures ok <==> Classifiable(d)
    ensures ok ==> decisions == decisions0 + (if d.Obj? then [d] else []) && breaches == Breaches(decisions)
  {
    decisions, breaches := decisions0, breaches0;
    if d.Obj? {
      decisions := decisions + [d];
      var outcome := OutcomeOf(d.members);
      if !outcome.Str? {
        return false, decisions, breaches;
      }
      if IsBreachOutcome(outcome.s) {
        breaches := breaches + [d];
      }
      BreachesSnoc(decisions0, d);
    }
    ok := true;
  }

  /** The inner loop over one receipt's decision list. */
  method ScanDecisions(items: seq<Json>, decisions0: seq<Json>, breaches0: seq<Json>)
    returns (ok: bool, decisions: seq<Json>, breaches: seq<Json>)
    requires breaches0 == Breaches(decisions0)
    ensures ok <==> AllClassifiable(items)
    ensures ok ==> decisions == decisions0 + DictsOf(items) && breaches == Breaches(decisions)
  {
    decisions, breaches := decisions0, breaches0;
    var j := 0;
    while j < |items|
      invariant 0 <= j <= |items|
      invariant AllClassifiable(items[..j])
      invariant decisions == decisions0 + DictsOf(items[..j])
      invariant breaches == Breaches(decisions)
    {
      ok, decisions, breaches := KeepDecision(items[j], decisions, breaches);
      AllClassifiableSnoc(items, j);
      if !ok {
        AllClassifiablePrefix(items, j + 1);
        return;
      }
      DictsOfSnoc(items, j);
      j := j + 1;
    }
    assert items[..|items|] == items;
    ok := true;
  }

  /** The outer loop's body for one receipt. */
  method ScanReceipt(rec: Json, engines0: seq<Json>, decisions0: seq<Json>, breaches0: seq<Json>)
    returns (ok: bool, engines: seq<Json>, decisions: seq<Json>, breaches: seq<Json>)
    requires breaches0 == Breaches(decisions0)
    ensures ok <==> Receipt(rec).Ok?
    ensures ok ==>
      && engines == AddEngine(engines0, Receipt(rec).value.engine)
      && decisions == decisions0 + Receipt(rec).value.decisions
      && breaches == Breaches(decisions)
  {
    engines, decisions, breaches := engines0, decisions0, breaches0;
    if !rec.Obj? {
      return false, engines, decisions, breaches;
    }
    var norm := Normalized(rec.members);
    if !norm.Obj? {
      return false, engines, decisions, breaches;
    }
    var policy := PolicyOf(norm.members);
    if policy.Obj? {
      var eng := EngineOf(policy.members);
      if Truthy(eng) && !InList(eng, engines) {
        engines := engines + [eng];
      }
      var decs := DecisionsOf(policy.members, norm.members);
      var items := if decs.Arr? then decs.items else [];
      ok, decisions, breaches := ScanDecisions(items, decisions, breaches);
    } else {
      assert decisions == decisions0 + [];
      ok := true;
    }
  }

  /** `policy(trace_id)`: the outer loop over the receipts. */
  method Policy(traceId: string, bundle: Json) returns (r: Result<PolicyResponse>)
    ensures r.Ok? <==> PolicyItems(bundle).Ok? && Gather(PolicyItems(bundle).value).Ok?
    ensures r.Ok? ==>
      var infos := Gather(PolicyItems(bundle).value).value;
      && r.value.traceId == traceId
      && r.value.engines == Dedup(Candidates(infos))
      && r.value.decisions == AllDecisions(infos)
      && r.value.breaches == Breaches(AllDecisions(infos))
      && r.value.breachCount == |r.value.breaches|
    ensures r.Ok? ==>
      && (forall i, j :: 0 <= i < j < |r.value.engines| ==> !PyEq(r.value.engines[i], r.value.engines[j]))
      && (forall e :: e in r.value.engines ==> Truthy(e))
      && (forall x :: x in r.value.breaches <==> x in r.value.decisions && IsBreach(x))
  {
    var xs :- PolicyItems(bundle);
    var decisions: seq<Json> := [];
    var breaches: seq<Json> := [];
    var engines: seq<Json> := [];
    var i := 0;
    while i < |xs|
      invariant 0 <= i <= |xs|
      invariant Gather(xs[..i]).Ok?
      invariant engines == Dedup(Candidates(Gather(xs[..i]).value))
      invariant decisions == AllDecisions(Gather(xs[..i]).value)
      invariant breaches == Breaches(decisions)
    {
      var prior := Gather(xs[..i]).value;
      var ok;
      ok, engines, decisions, breaches := ScanReceipt(xs[i], engines, decisions, breaches);
      assert xs[..i + 1][..i] == xs[..i] && xs[..i + 1][i] == xs[i];
      if !ok {
        GatherPrefixFails(xs, i + 1);
        return Raised;
      }
      var info := Receipt(xs[i]).value;
      assert Gather(xs[..i + 1]) == Ok(prior + [info]);
      GatherStep(prior, info);
      i := i + 1;
    }
    assert xs[..|xs|] == xs;
    DedupDistinct(Candidates(Gather(xs).value));
    DedupCovers(Candidates(Gather(xs).value));
    BreachesAreBreaches(decisions);
    r := Ok(PolicyResponse(traceId, engines, decisions, breaches, |breaches|));
  }

  lemma DictsOfSnoc(items: seq<Json>, j: nat)
    requires j < |items|
    ensures DictsOf(items[..j + 1]) == DictsOf(items[..j]) + (if items[j].Obj? then [items[j]] else [])
  {
    assert items[..j + 1][..j] == items[..j];
  }

  lemma BreachesSnoc(ds: seq<Json>, d: Json)
    ensures Breaches(ds + [d]) == Breaches(ds) + (if IsBreach(d) then [d] else [])
  {
    assert (ds + [d])[..|ds|] == ds;
  }

  lemma {:induction false} AllClassifiablePrefix(items: seq<Json>, n: nat)
    requires n <= |items| && !AllClassifiable(items[..n])
    ensures !AllClassifiable(items)
  {
    AllClassifiableIff(items[..n]);
    AllClassifiableIff(items);
    var k :| 0 <= k < n && !Classifiable(items[..n][k]);
    assert items[..n][k] == items[k];
  }

  lemma GatherStep(prior: seq<Info>, info: Info)
    ensures Dedup(Candidates(prior + [info])) == AddEngine(Dedup(Candidates(prior)), info.engine)
    ensures AllDecisions(prior + [info]) == AllDecisions(prior) + info.decisions
  {
    assert (prior + [info])[..|prior|] == prior;
    var c := Candidates(prior);
    if Truthy(info.engine) {
      assert Candidates(prior + [info]) == c + [info.engine];
      assert (c + [info.engine])[..|c|] == c;
    } else {
      assert Candidates(prior + [info]) == c;
    }
  }

  lemma GatherPrefixFails(xs: seq<Json>, n: nat)
    requires n <= |xs| && !Gather(xs[..n]).Ok?
    ensures !Gather(xs).Ok?
  {
    var j :| 0 <= j < n && !Receipt(xs[..n][j]).Ok?;
    assert xs[..n][j] == xs[j];
  }

  // ---------------------------------------------------------------------
  // What the response promises

  /** No engine is listed twice (under Python `==`). */
  lemma {:induction false} DedupDistinct(xs: seq<Json>)
    ensures forall i, j :: 0 <= i < j < |Dedup(xs)| ==> !PyEq(Dedup(xs)[i], Dedup(xs)[j])
  {
    if xs != [] {
      var init := xs[..|xs| - 1];
      var x := xs[|xs| - 1];
      DedupDistinct(init);
      var d := Dedup(init);
      if !InList(x, d) {
        assert Dedup(xs) == d + [x];
        forall i, j | 0 <= i < j < |d + [x]|
          ensures !PyEq((d + [x])[i], (d + [x])[j])
        {
          if j == |d| {
            assert (d + [x])[i] == d[i];
          } else {
            assert (d + [x])[i] == d[i] && (d + [x])[j] == d[j];
          }
        }
      }
    }
  }

  /** Every candidate is listed, itself or as an equal engine seen
      earlier, and every listed engine is a candidate. */
  lemma {:induction false} DedupCovers(xs: seq<Json>)
    ensures forall i :: 0 <= i < |xs| ==> xs[i] in Dedup(xs) || InList(xs[i], Dedup(xs))
    ensures forall y :: y in Dedup(xs) ==> y in xs
  {
    if xs != [] {
      var init := xs[..|xs| - 1];
      var x := xs[|xs| - 1];
      DedupCovers(init);
      var d := Dedup(init);
      forall i | 0 <= i < |xs|
        ensures xs[i] in Dedup(xs) || InList(xs[i], Dedup(xs))
      {
        if i < |init| {
          assert xs[i] == init[i];
          if !(xs[i] in d) {
            var k :| 0 <= k < |d| && PyEq(d[k], xs[i]);
            assert Dedup(xs)[k] == d[k];
          }
        } else if !InList(x, d) {
          assert Dedup(xs)[|d|] == x;
        }
      }
    }
  }

  /** The breaches are exactly the decisions that are breaches, in order. */
  lemma {:induction false} BreachesAreBreaches(ds: seq<Json>)
    ensures forall x :: x in Breaches(ds) <==> x in ds && IsBreach(x)
  {
    if ds != [] {
      var init := ds[..|ds| - 1];
      assert ds == init + [ds[|ds| - 1]];
      BreachesAreBreaches(init);
    }
  }
}
