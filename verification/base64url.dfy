/** Unpadded base64url (section 5 of RFC 4648): `b64u` encodes and strips
    the padding, `b64u_decode` strips whitespace, re-pads to a multiple of
    four and decodes. */
module Base64Url {
  import opened Wrappers
  import opened Bytes

  /** The URL-safe alphabet: A-Z, a-z, 0-9, '-' and '_'. */
  predicate IsAlphabet(c: char) {
    ('A' <= c <= 'Z') || ('a' <= c <= 'z') || ('0' <= c <= '9') || c == '-' || c == '_'
  }

  function SextetValue(c: char): (d: nat)
    requires IsAlphabet(c)
    ensures d < 64
  {
    if 'A' <= c <= 'Z' then c as int - 'A' as int
    else if 'a' <= c <= 'z' then c as int - 'a' as int + 26
    else if '0' <= c <= '9' then c as int - '0' as int + 52
    else if c == '-' then 62
    else 63
  }

  /** The character for a six-bit value; the two are inverse. */
  function SextetChar(d: nat): (c: char)
    requires d < 64
    ensures IsAlphabet(c) && SextetValue(c) == d
  {
    if d < 26 then (d + 'A' as int) as char
    else if d < 52 then (d - 26 + 'a' as int) as char
    else if d < 62 then (d - 52 + '0' as int) as char
    else if d == 62 then '-'
    else '_'
  }

  /** The four characters for a final group of one byte, padded. */
  function GroupOfOne(x: byte): (g: string)
    ensures |g| == 4 && g[2] == '=' && g[3] == '='
  {
    [SextetChar(x / 4), SextetChar((x % 4) * 16)] + "=="
  }

  /** The four characters for a final group of two bytes, padded. */
  function GroupOfTwo(x: byte, y: byte): (g: string)
    ensures |g| == 4 && g[3] == '='
  {
    [SextetChar(x / 4), SextetChar((x % 4) * 16 + y / 16), SextetChar((y % 16) * 4)] + "="
  }

  /** The four characters for a full group of three bytes. */
  function GroupOfThree(x: byte, y: byte, z: byte): (g: string)
    ensures |g| == 4 && forall i :: 0 <= i < 4 ==> IsAlphabet(g[i])
  {
    [SextetChar(x / 4), SextetChar((x % 4) * 16 + y / 16), SextetChar((y % 16) * 4 + z / 64), SextetChar(z % 64)]
  }

  /** Standard padded encoding, three bytes to four characters, with one
      or two '=' after a final group of two or one byte. */
  function EncodePadded(b: seq<byte>): (s: string)
    ensures |s| % 4 == 0
    ensures |b| == 0 <==> |s| == 0
    decreases |b|
  {
    if |b| == 0 then ""
    else if |b| == 1 then GroupOfOne(b[0])
    else if |b| == 2 then GroupOfTwo(b[0], b[1])
    else GroupOfThree(b[0], b[1], b[2]) + EncodePadded(b[3..])
  }

  /** `s.rstrip(...)`: the longest prefix of `s` after which every character is dropped. */
  function TrimEnd(s: string, drop: char -> bool): (r: string)
    ensures |r| <= |s| && r == s[..|r|]
    ensures r == [] || !drop(r[|r| - 1])
    ensures forall i :: |r| <= i < |s| ==> drop(s[i])
  {
    if s != [] && drop(s[|s| - 1]) then TrimEnd(s[..|s| - 1], drop) else s
  }

  /** `s.lstrip(...)`: the longest suffix of `s` before which every character is dropped. */
  function TrimStart(s: string, drop: char -> bool): (r: string)
    ensures |r| <= |s| && r == s[|s| - |r|..]
    ensures r == [] || !drop(r[0])
    ensures forall i :: 0 <= i < |s| - |r| ==> drop(s[i])
  {
    if s != [] && drop(s[0]) then
      var r := TrimStart(s[1..], drop);
      assert s[1..][|s| - 1 - |r|..] == s[|s| - |r|..];
      assert forall i :: 1 <= i < |s| - |r| ==> s[i] == s[1..][i - 1];
      r
    else s
  }

  /** Characters Python's `str.strip()` removes (`str.isspace`). */
  predicate IsPySpace(c: char) {
    var n := c as int;
    (0x09 <= n <= 0x0D) || (0x1C <= n <= 0x20) || n == 0x85 || n == 0xA0 || n == 0x1680
    || (0x2000 <= n <= 0x200A) || n == 0x2028 || n == 0x2029 || n == 0x202F || n == 0x205F
    || n == 0x3000
  }

  predicate AllPySpace(s: string) {
    forall k :: 0 <= k < |s| ==> IsPySpace(s[k])
  }

  /** `r` is the slice `s[i..i + |r|]`, and everything around it is whitespace. */
  predicate Trimmed(s: string, r: string, i: int) {
    0 <= i <= |s| - |r| && r == s[i..i + |r|] && AllPySpace(s[..i]) && AllPySpace(s[i + |r|..])
  }

  /** `s.strip()`: `s` without its leading and trailing whitespace. */
  function Strip(s: string): (r: string)
    ensures r == [] || (!IsPySpace(r[0]) && !IsPySpace(r[|r| - 1]))
    ensures exists i :: Trimmed(s, r, i)
  {
    var t := TrimEnd(s, IsPySpace);
    var r := TrimStart(t, IsPySpace);
    TrimmedBothEnds(s, t, r);
    r
  }

  /** Trimming the end of `s` to `t`, then the start of `t` to `r`. */
  lemma TrimmedBothEnds(s: string, t: string, r: string)
    requires |t| <= |s| && t == s[..|t|] && forall k :: |t| <= k < |s| ==> IsPySpace(s[k])
    requires |r| <= |t| && r == t[|t| - |r|..] && forall k :: 0 <= k < |t| - |r| ==> IsPySpace(t[k])
    ensures Trimmed(s, r, |t| - |r|)
  {
    var i := |t| - |r|;
    assert r == s[i..i + |r|];
    assert s[..i] == t[..i];
  }

  /** `b64u(b)`: the padded encoding with its trailing '=' removed. */
  function B64u(b: seq<byte>): (s: string)
    ensures forall i :: 0 <= i < |s| ==> IsAlphabet(s[i])
    ensures |s| == (4 * |b| + 2) / 3
  {
    EncodePaddedShape(b);
    TrimEnd(EncodePadded(b), c => c == '=')
  }

  /** Number of '=' the padded encoding of `n` bytes ends with. */
  function PadCount(n: nat): nat {
    (3 - n % 3) % 3
  }

  lemma {:induction false} EncodePaddedLength(b: seq<byte>)
    ensures |EncodePadded(b)| == 4 * ((|b| + 2) / 3)
    decreases |b|
  {
    if |b| >= 3 {
      EncodePaddedLength(b[3..]);
      assert |EncodePadded(b)| == 4 + |EncodePadded(b[3..])|;
      assert (|b| + 2) / 3 == (|b[3..]| + 2) / 3 + 1;
    }
  }

  lemma PaddedLength(n: nat)
    ensures 4 * ((n + 2) / 3) - PadCount(n) == (4 * n + 2) / 3
  {
    var q, r := n / 3, n % 3;
    assert n == 3 * q + r;
    assert (n + 2) / 3 == q + (r + 2) / 3;
    assert (4 * n + 2) / 3 == 4 * q + (4 * r + 2) / 3;
  }

  /** Data characters first, then `PadCount` '=' characters. */
  lemma {:induction false} EncodePaddedChars(b: seq<byte>)
    ensures forall i :: 0 <= i < |EncodePadded(b)| - PadCount(|b|) ==> IsAlphabet(EncodePadded(b)[i])
    ensures forall i :: |EncodePadded(b)| - PadCount(|b|) <= i < |EncodePadded(b)| ==> EncodePadded(b)[i] == '='
    decreases |b|
  {
    var s := EncodePadded(b);
    if |b| >= 3 {
      var g, r := GroupOfThree(b[0], b[1], b[2]), EncodePadded(b[3..]);
      EncodePaddedChars(b[3..]);
      assert s == g + r;
      assert PadCount(|b|) == PadCount(|b[3..]|);
      assert forall i :: 4 <= i < |s| ==> s[i] == r[i - 4];
    }
  }

  lemma EncodePaddedShape(b: seq<byte>)
    ensures |EncodePadded(b)| - PadCount(|b|) == (4 * |b| + 2) / 3
    ensures forall i :: 0 <= i < |EncodePadded(b)| - PadCount(|b|) ==> IsAlphabet(EncodePadded(b)[i])
    ensures TrimEnd(EncodePadded(b), c => c == '=') == EncodePadded(b)[..|EncodePadded(b)| - PadCount(|b|)]
  {
    var s := EncodePadded(b);
    var k := |s| - PadCount(|b|);
    EncodePaddedLength(b);
    PaddedLength(|b|);
    EncodePaddedChars(b);
    assert forall i :: 0 <= i < k ==> IsAlphabet(s[i]);
    assert k > 0 ==> IsAlphabet(s[k - 1]);
    TrimEndUnique(s, (c: char) => c == '=', k);
  }

  /** The characterisation in `TrimEnd`'s contract has only one solution. */
  lemma {:induction false} TrimEndUnique(s: string, drop: char -> bool, k: nat)
    requires k <= |s|
    requires k == 0 || !drop(s[k - 1])
    requires forall i :: k <= i < |s| ==> drop(s[i])
    ensures TrimEnd(s, drop) == s[..k]
  {
    if k == |s| {
      assert s[..k] == s;
    } else {
      var init := s[..|s| - 1];
      TrimEndUnique(init, drop, k);
      assert init[..k] == s[..k];
    }
  }

  /** Decoding of one group of four characters; the last group may end in padding. */
  function DecodeGroup(q: string, last: bool): (r: Option<seq<byte>>)
    requires |q| == 4
    ensures r.Some? ==> 1 <= |r.value| <= 3
  {
    if IsAlphabet(q[0]) && IsAlphabet(q[1]) then
      var a, b := SextetValue(q[0]), SextetValue(q[1]);
      var b0 := a * 4 + b / 16;
      if IsAlphabet(q[2]) && IsAlphabet(q[3]) then
        var c, d := SextetValue(q[2]), SextetValue(q[3]);
        Some([b0, (b % 16) * 16 + c / 4, (c % 4) * 64 + d])
      else if last && IsAlphabet(q[2]) && q[3] == '=' then
        var c := SextetValue(q[2]);
        Some([b0, (b % 16) * 16 + c / 4])
      else if last && q[2] == '=' && q[3] == '=' then
        Some([b0])
      else None
    else None
  }

  /** `base64.urlsafe_b64decode` on a string whose length is a multiple of four. */
  function DecodePadded(s: string): (r: Option<seq<byte>>)
    requires |s| % 4 == 0
    decreases |s|
  {
    if s == [] then Some([])
    else
      match DecodeGroup(s[..4], |s| == 4)
      case None => None
      case Some(g) =>
        match DecodePadded(s[4..])
        case None => None
        case Some(rest) => Some(g + rest)
  }

  /** `n` padding characters. */
  function PadSigns(n: nat): (s: string)
    ensures |s| == n && forall i :: 0 <= i < n ==> s[i] == '='
  {
    seq(n, _ => '=')
  }

  /** Python's `-n % 4`: the number of '=' that brings `n` up to a multiple of four. */
  function PadNeeded(n: nat): (k: nat)
    ensures k < 4 && (n + k) % 4 == 0
  {
    (-(n as int)) % 4
  }

  /** `b64u_decode(s)`: strip whitespace, pad with `-len % 4` '=' and decode. */
  function B64uDecode(s: string): (r: Option<seq<byte>>)
    ensures |Strip(s)| % 4 == 1 ==> r.None?
  {
    var t := Strip(s);
    var padded := t + PadSigns(PadNeeded(|t|));
    assert |padded| == |t| + PadNeeded(|t|);
    PaddedOneMod4Rejected(t);
    DecodePadded(padded)
  }

  /** A length of one more than a multiple of four is padded with three '=', which no group allows. */
  lemma PaddedOneMod4Rejected(t: string)
    ensures |t| % 4 == 1 ==> DecodePadded(t + PadSigns(PadNeeded(|t|))) == None
  {
    if |t| % 4 == 1 {
      var padded := t + PadSigns(PadNeeded(|t|));
      assert PadNeeded(|t|) == 3;
      assert padded[|padded| - 3..] == "===";
      DecodeNeverThreePad(padded);
    }
  }

  /** A final group with three '=' is rejected (one data character too many). */
  lemma {:induction false} DecodeNeverThreePad(s: string)
    requires |s| % 4 == 0 && |s| >= 4
    requires s[|s| - 3..] == "==="
    ensures DecodePadded(s) == None
    decreases |s|
  {
    if |s| > 4 {
      assert s[4..][|s[4..]| - 3..] == s[|s| - 3..];
      DecodeNeverThreePad(s[4..]);
    } else {
      assert s[..4] == s;
    }
  }

  lemma GroupRoundTrip(b0: byte, b1: byte, b2: byte)
    ensures (b0 / 4) * 4 + ((b0 % 4) * 16 + b1 / 16) / 16 == b0
    ensures (((b0 % 4) * 16 + b1 / 16) % 16) * 16 + ((b1 % 16) * 4 + b2 / 64) / 4 == b1
    ensures (((b1 % 16) * 4 + b2 / 64) % 4) * 64 + b2 % 64 == b2
  {
  }

  lemma FirstGroupOfMore(b: seq<byte>)
    requires |b| >= 3
    ensures EncodePadded(b)[..4] == GroupOfThree(b[0], b[1], b[2])
    ensures EncodePadded(b)[4..] == EncodePadded(b[3..])
  {
    assert EncodePadded(b) == GroupOfThree(b[0], b[1], b[2]) + EncodePadded(b[3..]);
  }

  lemma DecodeThreeBytes(b0: byte, b1: byte, b2: byte, last: bool)
    ensures DecodeGroup(GroupOfThree(b0, b1, b2), last) == Some([b0, b1, b2])
  {
    GroupRoundTrip(b0, b1, b2);
  }

  lemma DecodeTwoBytes(b0: byte, b1: byte)
    ensures DecodeGroup(GroupOfTwo(b0, b1), true) == Some([b0, b1])
  {
    GroupRoundTrip(b0, b1, 0);
  }

  lemma DecodeOneByte(b0: byte)
    ensures DecodeGroup(GroupOfOne(b0), true) == Some([b0])
  {
    GroupRoundTrip(b0, 0, 0);
  }

  /** A text of one final group decodes to what that group decodes to. */
  lemma DecodeOneGroup(s: string, g: seq<byte>)
    requires |s| == 4 && DecodeGroup(s, true) == Some(g)
    ensures DecodePadded(s) == Some(g)
  {
    assert s[..4] == s && s[4..] == [];
    assert g + [] == g;
  }

  /** A group that is not the last, followed by a text that decodes. */
  lemma DecodeFirstGroup(s: string, g: seq<byte>, rest: seq<byte>)
    requires |s| % 4 == 0 && |s| > 4
    requires DecodeGroup(s[..4], false) == Some(g) && DecodePadded(s[4..]) == Some(rest)
    ensures DecodePadded(s) == Some(g + rest)
  {
  }

  lemma DecodeEncodeOne(b: seq<byte>)
    requires |b| == 1
    ensures DecodePadded(EncodePadded(b)) == Some(b)
  {
    var s := EncodePadded(b);
    assert s == GroupOfOne(b[0]);
    DecodeOneByte(b[0]);
    DecodeOneGroup(s, [b[0]]);
    assert b == [b[0]];
  }

  lemma DecodeEncodeTwo(b: seq<byte>)
    requires |b| == 2
    ensures DecodePadded(EncodePadded(b)) == Some(b)
  {
    var s := EncodePadded(b);
    assert s == GroupOfTwo(b[0], b[1]);
    DecodeTwoBytes(b[0], b[1]);
    DecodeOneGroup(s, [b[0], b[1]]);
    assert b == [b[0], b[1]];
  }

  lemma DecodeEncodeThree(b: seq<byte>)
    requires |b| == 3
    ensures DecodePadded(EncodePadded(b)) == Some(b)
  {
    var s := EncodePadded(b);
    assert s == GroupOfThree(b[0], b[1], b[2]) by {
      assert b[3..] == [];
    }
    DecodeThreeBytes(b[0], b[1], b[2], true);
    DecodeOneGroup(s, [b[0], b[1], b[2]]);
    assert b == [b[0], b[1], b[2]];
  }

  lemma {:induction false} DecodeEncodePadded(b: seq<byte>)
    ensures DecodePadded(EncodePadded(b)) == Some(b)
    decreases |b|
  {
    if |b| == 1 {
      DecodeEncodeOne(b);
    } else if |b| == 2 {
      DecodeEncodeTwo(b);
    } else if |b| == 3 {
      DecodeEncodeThree(b);
    } else if |b| > 3 {
      DecodeEncodePadded(b[3..]);
      DecodeEncodeMore(b);
    }
  }

  lemma TakeThree(b: seq<byte>)
    requires |b| >= 3
    ensures b[..3] == [b[0], b[1], b[2]]
  {
  }

  /** A full group of three bytes, then the encoding of the rest. */
  lemma DecodeEncodeMore(b: seq<byte>)
    requires |b| > 3 && DecodePadded(EncodePadded(b[3..])) == Some(b[3..])
    ensures DecodePadded(EncodePadded(b)) == Some(b)
  {
    var s := EncodePadded(b);
    FirstGroupOfMore(b);
    DecodeThreeBytes(b[0], b[1], b[2], false);
    TakeThree(b);
    DecodeFirstGroup(s, b[..3], b[3..]);
    assert b[..3] + b[3..] == b;
  }

  lemma DecodeUnstripped(u: string)
    requires Strip(u) == u && |u| % 4 != 1
    ensures B64uDecode(u) == DecodePadded(u + PadSigns(PadNeeded(|u|)))
  {
  }

  lemma PadNeededBelowGroup(q: int, p: int)
    requires 0 <= p < 3 && p <= 4 * q
    ensures PadNeeded(4 * q - p) == p
    ensures (4 * q - p) % 4 != 1
  {
    assert -(4 * q - p) == p + 4 * (-q);
  }

  /** Stripping fewer than three trailing '=' from a padded text and
      re-padding by `PadNeeded` gives the text back. */
  lemma Repad(s: string, u: string, p: nat)
    requires |s| % 4 == 0 && p < 3 && p <= |s| && u == s[..|s| - p]
    requires forall i :: |s| - p <= i < |s| ==> s[i] == '='
    ensures u + PadSigns(PadNeeded(|u|)) == s
    ensures |u| % 4 != 1
  {
    PadNeededBelowGroup(|s| / 4, p);
    assert forall i :: 0 <= i < |s| ==> (u + PadSigns(p))[i] == s[i];
  }

  lemma RepadEncoding(b: seq<byte>)
    ensures B64u(b) + PadSigns(PadNeeded(|B64u(b)|)) == EncodePadded(b)
    ensures |B64u(b)| % 4 != 1
  {
    var s := EncodePadded(b);
    var p := PadCount(|b|);
    EncodePaddedShape(b);
    EncodePaddedChars(b);
    Repad(s, B64u(b), p);
  }

  /** `b64u_decode(b64u(b)) == b`: re-padding restores what `b64u` stripped. */
  lemma B64uRoundTrip(b: seq<byte>)
    ensures B64uDecode(B64u(b)) == Some(b)
  {
    var u := B64u(b);
    StripNoSpace(u);
    RepadEncoding(b);
    DecodeUnstripped(u);
    DecodeEncodePadded(b);
  }

  lemma StripNoSpace(s: string)
    requires forall i :: 0 <= i < |s| ==> IsAlphabet(s[i])
    ensures Strip(s) == s
  {
    TrimEndUnique(s, IsPySpace, |s|);
    assert s[..|s|] == s;
    assert |s| > 0 ==> !IsPySpace(s[0]);
  }

  /** `b64u` output never contains '='. */
  lemma B64uNoPadding(b: seq<byte>)
    ensures '=' !in B64u(b)
  {
    var u := B64u(b);
    assert forall i :: 0 <= i < |u| ==> u[i] != '=';
  }
}
