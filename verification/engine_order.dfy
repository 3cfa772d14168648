/** The order of the engine list in the exporter's `/policy` response: the
    engines appear in the order in which they are first seen. */
module EngineOrder {
  import opened Json
  import opened ExporterPolicy

  /** The positions in `xs` of the entries `Dedup` keeps, in order. */
  function KeptAt(xs: seq<Json>): seq<nat> {
    if xs == [] then []
    else
      var init := xs[..|xs| - 1];
      if InList(xs[|xs| - 1], Dedup(init)) then KeptAt(init) else KeptAt(init) + [|xs| - 1]
  }

  /** `d` lists the entries of `xs` at the increasing positions `ix`, and
      every position left out holds a value equal to an entry listed from
      an earlier position. */
  predicate FirstSeen(xs: seq<Json>, ix: seq<nat>, d: seq<Json>) {
    && |ix| == |d|
    && (forall k :: 0 <= k < |ix| ==> ix[k] < |xs| && d[k] == xs[ix[k]])
    && (forall k, l :: 0 <= k < l < |ix| ==> ix[k] < ix[l])
    && (forall q :: 0 <= q < |xs| && q !in ix ==> exists k :: 0 <= k < |ix| && ix[k] < q && PyEq(d[k], xs[q]))
  }

  /** First-seen order: the engines are the candidates at strictly
      increasing positions, and a candidate is left out only when an
      engine listed at an earlier position equals it. */
  lemma {:induction false} DedupFirstSeen(xs: seq<Json>)
    ensures |KeptAt(xs)| == |Dedup(xs)|
    ensures forall k :: 0 <= k < |KeptAt(xs)| ==> KeptAt(xs)[k] < |xs| && Dedup(xs)[k] == xs[KeptAt(xs)[k]]
    ensures forall k, l :: 0 <= k < l < |KeptAt(xs)| ==> KeptAt(xs)[k] < KeptAt(xs)[l]
    ensures forall q :: 0 <= q < |xs| && q !in KeptAt(xs) ==>
      exists k :: 0 <= k < |KeptAt(xs)| && KeptAt(xs)[k] < q && PyEq(Dedup(xs)[k], xs[q])
  {
    KeptFirstSeen(xs);
  }

  lemma {:induction false} KeptFirstSeen(xs: seq<Json>)
    ensures FirstSeen(xs, KeptAt(xs), Dedup(xs))
  {
    if xs != [] {
      var init := xs[..|xs| - 1];
      KeptFirstSeen(init);
      FirstSeenStep(xs, KeptAt(init), Dedup(init));
    }
  }

  /** One more candidate: it is kept exactly when no listed engine equals it. */
  lemma FirstSeenStep(xs: seq<Json>, ix: seq<nat>, d: seq<Json>)
    requires xs != [] && FirstSeen(xs[..|xs| - 1], ix, d)
    ensures var x := xs[|xs| - 1];
      FirstSeen(xs, if InList(x, d) then ix else ix + [|xs| - 1], if InList(x, d) then d else d + [x])
  {
    if InList(xs[|xs| - 1], d) {
      FirstSeenSkip(xs, ix, d);
    } else {
      FirstSeenKeep(xs, ix, d);
    }
  }

  lemma FirstSeenSkip(xs: seq<Json>, ix: seq<nat>, d: seq<Json>)
    requires xs != [] && FirstSeen(xs[..|xs| - 1], ix, d) && InList(xs[|xs| - 1], d)
    ensures FirstSeen(xs, ix, d)
  {
    var m :| 0 <= m < |d| && PyEq(d[m], xs[|xs| - 1]);
    SkipListed(xs, ix, d);
    SkipCovered(xs, ix, d, m);
  }

  lemma SkipListed(xs: seq<Json>, ix: seq<nat>, d: seq<Json>)
    requires xs != [] && |ix| == |d|
    requires forall k :: 0 <= k < |ix| ==> ix[k] < |xs| - 1 && d[k] == xs[..|xs| - 1][ix[k]]
    ensures forall k :: 0 <= k < |ix| ==> ix[k] < |xs| - 1 && d[k] == xs[ix[k]]
  {
  }

  lemma SkipCovered(xs: seq<Json>, ix: seq<nat>, d: seq<Json>, m: nat)
    requires xs != [] && |ix| == |d| && m < |ix| && ix[m] < |xs| - 1 && PyEq(d[m], xs[|xs| - 1])
    requires forall q :: 0 <= q < |xs| - 1 && q !in ix ==>
      exists k :: 0 <= k < |ix| && ix[k] < q && PyEq(d[k], xs[..|xs| - 1][q])
    ensures forall q :: 0 <= q < |xs| && q !in ix ==>
      exists k :: 0 <= k < |ix| && ix[k] < q && PyEq(d[k], xs[q])
  {
    var n := |xs| - 1;
    forall q | 0 <= q < |xs| && q !in ix
      ensures exists k :: 0 <= k < |ix| && ix[k] < q && PyEq(d[k], xs[q])
    {
      if q < n {
        var k :| 0 <= k < |ix| && ix[k] < q && PyEq(d[k], xs[..n][q]);
        assert xs[..n][q] == xs[q];
      } else {
        assert ix[m] < q && PyEq(d[m], xs[q]);
      }
    }
  }

  lemma FirstSeenKeep(xs: seq<Json>, ix: seq<nat>, d: seq<Json>)
    requires xs != [] && FirstSeen(xs[..|xs| - 1], ix, d)
    ensures FirstSeen(xs, ix + [|xs| - 1], d + [xs[|xs| - 1]])
  {
    var ix2, d2 := ix + [|xs| - 1], d + [xs[|xs| - 1]];
    KeepListed(xs, ix, d, ix2, d2);
    KeepCovered(xs, ix, d, ix2, d2);
    assert forall k, l :: 0 <= k < l < |ix2| ==> ix2[k] < ix2[l];
  }

  lemma KeepListed(xs: seq<Json>, ix: seq<nat>, d: seq<Json>, ix2: seq<nat>, d2: seq<Json>)
    requires xs != [] && |ix| == |d|
    requires ix2 == ix + [|xs| - 1] && d2 == d + [xs[|xs| - 1]]
    requires forall k :: 0 <= k < |ix| ==> ix[k] < |xs| - 1 && d[k] == xs[..|xs| - 1][ix[k]]
    ensures forall k :: 0 <= k < |ix2| ==> ix2[k] < |xs| && d2[k] == xs[ix2[k]]
  {
  }

  lemma KeepCovered(xs: seq<Json>, ix: seq<nat>, d: seq<Json>, ix2: seq<nat>, d2: seq<Json>)
    requires xs != [] && |ix| == |d|
    requires ix2 == ix + [|xs| - 1] && d2 == d + [xs[|xs| - 1]]
    requires forall q :: 0 <= q < |xs| - 1 && q !in ix ==>
      exists k :: 0 <= k < |ix| && ix[k] < q && PyEq(d[k], xs[..|xs| - 1][q])
    ensures forall q :: 0 <= q < |xs| && q !in ix2 ==>
      exists k :: 0 <= k < |ix2| && ix2[k] < q && PyEq(d2[k], xs[q])
  {
    var n := |xs| - 1;
    forall q | 0 <= q < |xs| && q !in ix2
      ensures exists k :: 0 <= k < |ix2| && ix2[k] < q && PyEq(d2[k], xs[q])
    {
      assert q < n && q !in ix;
      var k :| 0 <= k < |ix| && ix[k] < q && PyEq(d[k], xs[..n][q]);
      assert ix2[k] == ix[k] && d2[k] == d[k] && xs[..n][q] == xs[q];
    }
  }
}
