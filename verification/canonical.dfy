/** Canonical JSON and content ids (`canonical` and `cid_of`):
    `json.dumps(obj, sort_keys=True, separators=(",", ":"), ensure_ascii=False)`
    encoded as UTF-8, and `"sha256:"` followed by the hex digest of those bytes.
    The writer is split in two: `Normalize` sorts the keys of every object
    (what `sort_keys=True` does) and `Write` prints a value compactly in the
    order it is given. */
module Canonical {
  import opened Wrappers
  import opened Bytes
  import opened Decimal
  import opened Json
  import Utf8

  // ---------------------------------------------------------------------
  // Key order: Python compares strings code point by code point.

  predicate KeyLess(a: string, b: string) {
    if a == [] then b != []
    else if b == [] then false
    else if a[0] == b[0] then KeyLess(a[1..], b[1..])
    else a[0] < b[0]
  }

  lemma {:induction false} KeyLessIrreflexive(a: string)
    ensures !KeyLess(a, a)
  {
    if a != [] {
      KeyLessIrreflexive(a[1..]);
    }
  }

  lemma {:induction false} KeyLessTransitive(a: string, b: string, c: string)
    requires KeyLess(a, b) && KeyLess(b, c)
    ensures KeyLess(a, c)
  {
    if a != [] && b != [] && c != [] && a[0] == b[0] && b[0] == c[0] {
      KeyLessTransitive(a[1..], b[1..], c[1..]);
    }
  }

  lemma {:induction false} KeyLessTotal(a: string, b: string)
    ensures a == b || KeyLess(a, b) || KeyLess(b, a)
  {
    if a != [] && b != [] && a[0] == b[0] {
      KeyLessTotal(a[1..], b[1..]);
      if a[1..] == b[1..] {
        assert a == [a[0]] + a[1..] && b == [b[0]] + b[1..];
      }
    }
  }

  lemma KeyLessAsymmetric(a: string, b: string)
    requires KeyLess(a, b)
    ensures !KeyLess(b, a)
  {
    if KeyLess(b, a) {
      KeyLessTransitive(a, b, a);
      KeyLessIrreflexive(a);
    }
  }

  /** "Not less" is transitive. */
  lemma NotLessTransitive(a: string, b: string, c: string)
    requires !KeyLess(b, a) && !KeyLess(c, b)
    ensures !KeyLess(c, a)
  {
    if KeyLess(c, a) {
      KeyLessTotal(a, b);
      if a == b {
      } else if KeyLess(a, b) {
        KeyLessTransitive(c, a, b);
      }
    }
  }

  // ---------------------------------------------------------------------
  // Sorting the members of one object by key (insertion sort, stable).

  predicate Sorted(ms: seq<Member>) {
    forall i, j :: 0 <= i < j < |ms| ==> !KeyLess(ms[j].key, ms[i].key)
  }

  predicate StrictlySorted(ms: seq<Member>) {
    forall i, j :: 0 <= i < j < |ms| ==> KeyLess(ms[i].key, ms[j].key)
  }

  function Insert(m: Member, ms: seq<Member>): (r: seq<Member>)
    ensures multiset(r) == multiset(ms) + multiset{m}
    ensures forall x :: x in r <==> x == m || x in ms
  {
    if ms == [] then [m]
    else if KeyLess(ms[0].key, m.key) then
      assert ms == [ms[0]] + ms[1..];
      [ms[0]] + Insert(m, ms[1..])
    else [m] + ms
  }

  function SortMembers(ms: seq<Member>): (r: seq<Member>)
    ensures multiset(r) == multiset(ms)
    ensures forall x :: x in r <==> x in ms
  {
    if ms == [] then []
    else
      assert ms == [ms[0]] + ms[1..];
      Insert(ms[0], SortMembers(ms[1..]))
  }

  lemma {:induction false} InsertSorted(m: Member, ms: seq<Member>)
    requires Sorted(ms)
    ensures Sorted(Insert(m, ms))
  {
    var r := Insert(m, ms);
    if ms == [] {
    } else if KeyLess(ms[0].key, m.key) {
      InsertSorted(m, ms[1..]);
      var tail := Insert(m, ms[1..]);
      assert r == [ms[0]] + tail;
      forall j | 0 < j < |r|
        ensures !KeyLess(r[j].key, ms[0].key)
      {
        assert r[j] == tail[j - 1];
        assert tail[j - 1] in tail;
        if r[j] == m {
          KeyLessAsymmetric(ms[0].key, m.key);
        } else {
          var k :| 1 <= k < |ms| && ms[k] == r[j];
        }
      }
    } else {
      forall i, j | 0 <= i < j < |r|
        ensures !KeyLess(r[j].key, r[i].key)
      {
        if i == 0 {
          assert r[j] == ms[j - 1];
          if j > 1 {
            NotLessTransitive(m.key, ms[0].key, ms[j - 1].key);
          }
        } else {
          assert r[i] == ms[i - 1] && r[j] == ms[j - 1];
        }
      }
    }
  }

  /** The members come out ordered by key. */
  lemma {:induction false} SortMembersSorted(ms: seq<Member>)
    ensures Sorted(SortMembers(ms))
  {
    if ms != [] {
      SortMembersSorted(ms[1..]);
      InsertSorted(ms[0], SortMembers(ms[1..]));
    }
  }

  lemma {:induction false} InsertDistinct(m: Member, ms: seq<Member>)
    requires DistinctKeys(ms)
    requires forall x :: x in ms ==> x.key != m.key
    ensures DistinctKeys(Insert(m, ms))
  {
    if ms != [] && KeyLess(ms[0].key, m.key) {
      InsertDistinct(m, ms[1..]);
      var tail := Insert(m, ms[1..]);
      forall j | 0 <= j < |tail|
        ensures tail[j].key != ms[0].key
      {
        assert tail[j] in tail;
        if tail[j] != m {
          var k :| 1 <= k < |ms| && ms[k] == tail[j];
        }
      }
    }
  }

  lemma {:induction false} SortMembersDistinct(ms: seq<Member>)
    requires DistinctKeys(ms)
    ensures DistinctKeys(SortMembers(ms))
  {
    if ms != [] {
      SortMembersDistinct(ms[1..]);
      forall x | x in SortMembers(ms[1..])
        ensures x.key != ms[0].key
      {
        var k :| 1 <= k < |ms| && ms[k] == x;
      }
      InsertDistinct(ms[0], SortMembers(ms[1..]));
    }
  }

  lemma SortedDistinctIsStrict(ms: seq<Member>)
    requires Sorted(ms) && DistinctKeys(ms)
    ensures StrictlySorted(ms)
  {
    forall i, j | 0 <= i < j < |ms|
      ensures KeyLess(ms[i].key, ms[j].key)
    {
      KeyLessTotal(ms[i].key, ms[j].key);
    }
  }

  /** Two strictly ordered member lists holding the same members are equal. */
  lemma {:induction false} StrictlySortedUnique(a: seq<Member>, b: seq<Member>)
    requires StrictlySorted(a) && StrictlySorted(b)
    requires forall x :: x in a <==> x in b
    ensures a == b
  {
    if a == [] {
      assert forall i :: 0 <= i < |b| ==> b[i] in b;
    } else {
      assert b != [] by {
        assert a[0] in a;
      }
      assert a[0] in b;
      assert b[0] in a;
      var i :| 0 <= i < |a| && a[i] == b[0];
      var j :| 0 <= j < |b| && b[j] == a[0];
      if i > 0 {
        if j > 0 {
          KeyLessAsymmetric(b[0].key, b[j].key);
        } else {
          KeyLessIrreflexive(a[0].key);
        }
      }
      assert a[0] == b[0];
      forall x
        ensures x in a[1..] <==> x in b[1..]
      {
        if x in a[1..] {
          var k :| 1 <= k < |a| && a[k] == x;
          KeyLessIrreflexive(a[0].key);
          assert x in b;
          if x == b[0] {
            assert false;
          }
        }
        if x in b[1..] {
          var k :| 1 <= k < |b| && b[k] == x;
          KeyLessIrreflexive(b[0].key);
          assert x in a;
          if x == a[0] {
            assert false;
          }
        }
      }
      StrictlySortedUnique(a[1..], b[1..]);
      assert a == [a[0]] + a[1..] && b == [b[0]] + b[1..];
    }
  }

  // ---------------------------------------------------------------------
  // sort_keys=True: every object, at every depth, ordered by key.

  function Normalize(j: Json): Json
  {
    match j
    case Arr(xs) => Arr(NormalizeItems(xs))
    case Obj(ms) => Obj(SortMembers(NormalizeMembers(ms)))
    case _ => j
  }

  function NormalizeItems(xs: seq<Json>): (r: seq<Json>)
    ensures |r| == |xs|
    ensures forall i :: 0 <= i < |xs| ==> r[i] == Normalize(xs[i])
  {
    if xs == [] then [] else [Normalize(xs[0])] + NormalizeItems(xs[1..])
  }

  function NormalizeMembers(ms: seq<Member>): (r: seq<Member>)
    ensures |r| == |ms|
    ensures forall i :: 0 <= i < |ms| ==> r[i] == Member(ms[i].key, Normalize(ms[i].value))
  {
    if ms == [] then [] else [Member(ms[0].key, Normalize(ms[0].value))] + NormalizeMembers(ms[1..])
  }

  /** Every object inside the value has its keys in order. */
  predicate KeysSortedEverywhere(j: Json) {
    match j
    case Arr(xs) => forall i :: 0 <= i < |xs| ==> KeysSortedEverywhere(xs[i])
    case Obj(ms) => Sorted(ms) && forall i :: 0 <= i < |ms| ==> KeysSortedEverywhere(ms[i].value)
    case _ => true
  }

  /** `sort_keys=True` sorts the keys at every nesting level. */
  lemma {:induction false} NormalizeSortsEverywhere(j: Json)
    ensures KeysSortedEverywhere(Normalize(j))
  {
    match j
    case Arr(xs) =>
      forall i | 0 <= i < |xs|
        ensures KeysSortedEverywhere(Normalize(xs[i]))
      {
        NormalizeSortsEverywhere(xs[i]);
      }
    case Obj(ms) =>
      var nm := NormalizeMembers(ms);
      var sorted := SortMembers(nm);
      SortMembersSorted(nm);
      forall i | 0 <= i < |sorted|
        ensures KeysSortedEverywhere(sorted[i].value)
      {
        assert sorted[i] in nm;
        var k :| 0 <= k < |nm| && nm[k] == sorted[i];
        NormalizeSortsEverywhere(ms[k].value);
      }
    case _ =>
  }

  // ---------------------------------------------------------------------
  // The compact writer (separators "," and ":", no whitespace).

  const Backspace: char := 8 as char
  const FormFeed: char := 12 as char

  /** How `json.dumps(..., ensure_ascii=False)` writes one character of a
      string: quote, backslash and the control characters are escaped, every
      other character, non-ASCII included, is kept as it is. */
  function EscapeChar(c: char): string
  {
    if c == '"' then "\\\""
    else if c == '\\' then "\\\\"
    else if c == '\n' then "\\n"
    else if c == '\r' then "\\r"
    else if c == '\t' then "\\t"
    else if c == Backspace then "\\b"
    else if c == FormFeed then "\\f"
    else if c as int < 0x20 then "\\u00" + [HexDigit(c as int / 16), HexDigit(c as int % 16)]
    else [c]
  }

  predicate NeedsEscape(c: char) {
    c == '"' || c == '\\' || c as int < 0x20
  }

  function Escape(s: string): string
  {
    if s == [] then [] else EscapeChar(s[0]) + Escape(s[1..])
  }

  function Quote(s: string): string
  {
    "\"" + Escape(s) + "\""
  }

  /** Characters that need no escape, non-ASCII ones included, are written literally. */
  lemma {:induction false} EscapeLiteral(s: string)
    requires forall i :: 0 <= i < |s| ==> !NeedsEscape(s[i])
    ensures Escape(s) == s
  {
    if s != [] {
      EscapeLiteral(s[1..]);
      assert EscapeChar(s[0]) == [s[0]];
      assert s == [s[0]] + s[1..];
    }
  }

  function Write(j: Json): string
  {
    match j
    case Null => "null"
    case Bool(b) => if b then "true" else "false"
    case Num(n) => IntToString(n)
    case Str(s) => Quote(s)
    case Arr(xs) => "[" + WriteItems(xs) + "]"
    case Obj(ms) => "{" + WriteMembers(ms) + "}"
  }

  function WriteItems(xs: seq<Json>): string
  {
    if xs == [] then ""
    else if |xs| == 1 then Write(xs[0])
    else Write(xs[0]) + "," + WriteItems(xs[1..])
  }

  function WriteMembers(ms: seq<Member>): string
  {
    if ms == [] then ""
    else if |ms| == 1 then Quote(ms[0].key) + ":" + Write(ms[0].value)
    else Quote(ms[0].key) + ":" + Write(ms[0].value) + "," + WriteMembers(ms[1..])
  }

  // ---------------------------------------------------------------------
  // canonical and cid_of

  /** `canonical(obj)`: the UTF-8 bytes of the sorted, compact JSON text. */
  function CanonicalBytes(j: Json): (b: seq<byte>)
    ensures Utf8.Decode(b) == Some(Write(Normalize(j)))
  {
    Utf8.DecodeEncode(Write(Normalize(j)));
    Utf8.Encode(Write(Normalize(j)))
  }

  /** `cid_of(obj)`: "sha256:" and 64 lowercase hex digits, 71 characters. */
  function CidOf(j: Json, sha256: Sha256): (cid: string)
    ensures |cid| == 71
    ensures cid[..7] == DigestPrefix
    ensures IsLowerHex(cid[7..])
  {
    DigestId(sha256(CanonicalBytes(j)))
  }

  // ---------------------------------------------------------------------
  // Key-order independence

  /** Equality of two parsed values as Python dicts and lists: objects have
      distinct keys and the same key/value pairs, in any order, at every level. */
  predicate SameValue(a: Json, b: Json) {
    match a
    case Arr(xs) =>
      b.Arr? && |xs| == |b.items| && forall i :: 0 <= i < |xs| ==> SameValue(xs[i], b.items[i])
    case Obj(ms) =>
      b.Obj? && DistinctKeys(ms) && DistinctKeys(b.members) &&
      Covers(ms, b.members) && CoveredBy(ms, b.members)
    case _ => a == b
  }

  /** Each member of `ms` has a member of `ns` with its key and the same value. */
  predicate Covers(ms: seq<Member>, ns: seq<Member>) {
    forall i :: 0 <= i < |ms| ==> exists k :: 0 <= k < |ns| && Matches(ms[i], ns[k])
  }

  /** Each member of `ns` has a member of `ms` with its key and the same value. */
  predicate CoveredBy(ms: seq<Member>, ns: seq<Member>) {
    forall k :: 0 <= k < |ns| ==> exists i :: 0 <= i < |ms| && Matches(ms[i], ns[k])
  }

  predicate Matches(m: Member, n: Member) {
    m.key == n.key && SameValue(m.value, n.value)
  }

  lemma NormalizeMembersDistinct(ms: seq<Member>)
    requires DistinctKeys(ms)
    ensures DistinctKeys(NormalizeMembers(ms))
  {
  }

  /** Values equal as dicts, whatever the insertion order of their keys, have
      the same normal form, hence the same canonical bytes and content id. */
  lemma {:induction false} SameValueSameNormalForm(a: Json, b: Json)
    requires SameValue(a, b)
    ensures Normalize(a) == Normalize(b)
  {
    match a
    case Arr(xs) =>
      forall i | 0 <= i < |xs|
        ensures Normalize(xs[i]) == Normalize(b.items[i])
      {
        SameValueSameNormalForm(xs[i], b.items[i]);
      }
      assert NormalizeItems(xs) == NormalizeItems(b.items);
    case Obj(ms) =>
      NormalizedCovered(ms, b.members);
      NormalizedCovering(ms, b.members);
      SortedNormalFormsEqual(ms, b.members);
    case _ =>
  }

  lemma {:induction false} NormalizedCovered(ms: seq<Member>, ns: seq<Member>)
    requires Covers(ms, ns)
    ensures forall x :: x in NormalizeMembers(ms) ==> x in NormalizeMembers(ns)
    decreases ms, 0
  {
    var nm1, nm2 := NormalizeMembers(ms), NormalizeMembers(ns);
    forall x | x in nm1
      ensures x in nm2
    {
      var i :| 0 <= i < |nm1| && nm1[i] == x;
      var k :| 0 <= k < |ns| && Matches(ms[i], ns[k]);
      SameValueSameNormalForm(ms[i].value, ns[k].value);
      assert nm2[k] == x;
    }
  }

  lemma {:induction false} NormalizedCovering(ms: seq<Member>, ns: seq<Member>)
    requires CoveredBy(ms, ns)
    ensures forall x :: x in NormalizeMembers(ns) ==> x in NormalizeMembers(ms)
    decreases ms, 0
  {
    var nm1, nm2 := NormalizeMembers(ms), NormalizeMembers(ns);
    forall x | x in nm2
      ensures x in nm1
    {
      var k :| 0 <= k < |nm2| && nm2[k] == x;
      var i :| 0 <= i < |ms| && Matches(ms[i], ns[k]);
      SameValueSameNormalForm(ms[i].value, ns[k].value);
      assert nm1[i] == x;
    }
  }

  lemma SortedNormalFormsEqual(ms: seq<Member>, ns: seq<Member>)
    requires DistinctKeys(ms) && DistinctKeys(ns)
    requires forall x :: x in NormalizeMembers(ms) <==> x in NormalizeMembers(ns)
    ensures SortMembers(NormalizeMembers(ms)) == SortMembers(NormalizeMembers(ns))
  {
    var nm1, nm2 := NormalizeMembers(ms), NormalizeMembers(ns);
    var s1, s2 := SortMembers(nm1), SortMembers(nm2);
    NormalizeMembersDistinct(ms);
    NormalizeMembersDistinct(ns);
    SortMembersSorted(nm1);
    SortMembersSorted(nm2);
    SortMembersDistinct(nm1);
    SortMembersDistinct(nm2);
    SortedDistinctIsStrict(s1);
    SortedDistinctIsStrict(s2);
    StrictlySortedUnique(s1, s2);
  }

  lemma CanonicalIgnoresKeyOrder(a: Json, b: Json)
    requires SameValue(a, b)
    ensures CanonicalBytes(a) == CanonicalBytes(b)
  {
    SameValueSameNormalForm(a, b);
  }
}
