/** A reader for the compact text `Canonical.Write` produces. Reading back
    what was written gives the value, so two values with the same text are
    equal: canonical bytes identify a value up to the order of its keys. */
module CanonicalReader {
  import opened Wrappers
  import opened Bytes
  import opened Decimal
  import opened Json
  import opened Canonical
  import Utf8

  /** Length of the run of ASCII digits at the front of `s`. */
  function DigitRun(s: string): (n: nat)
    ensures n <= |s|
    ensures AllDigits(s[..n])
    ensures n < |s| ==> !IsDigit(s[n])
  {
    if s == [] || !IsDigit(s[0]) then 0
    else
      var n := 1 + DigitRun(s[1..]);
      assert s[..n] == [s[0]] + s[1..][..n - 1];
      n
  }

  function ReadNat(s: string): (r: Option<(nat, string)>)
    ensures r.Some? ==> |r.value.1| < |s|
  {
    var n := DigitRun(s);
    if n == 0 then None else Some((DigitsValue(s[..n]), s[n..]))
  }

  function ReadHex4(s: string): (r: Option<char>)
    requires |s| >= 4
  {
    if IsLowerHexDigit(s[0]) && IsLowerHexDigit(s[1]) && IsLowerHexDigit(s[2]) && IsLowerHexDigit(s[3]) then
      var n := HexValue(s[0]) * 4096 + HexValue(s[1]) * 256 + HexValue(s[2]) * 16 + HexValue(s[3]);
      if n < 0xD800 then Some(n as char) else None
    else None
  }

  /** The body of a string literal, up to and without its closing quote. */
  function ReadString(s: string): (r: Option<(string, string)>)
    ensures r.Some? ==> |r.value.1| < |s|
  {
    if s == [] then None
    else if s[0] == '"' then Some(([], s[1..]))
    else if s[0] == '\\' then
      if |s| < 2 then None
      else
        var c: Option<(char, nat)> :=
          if s[1] == '"' then Some(('"', 2))
          else if s[1] == '\\' then Some(('\\', 2))
          else if s[1] == 'n' then Some(('\n', 2))
          else if s[1] == 'r' then Some(('\r', 2))
          else if s[1] == 't' then Some(('\t', 2))
          else if s[1] == 'b' then Some((Backspace, 2))
          else if s[1] == 'f' then Some((FormFeed, 2))
          else if s[1] == 'u' && |s| >= 6 then
            (match ReadHex4(s[2..6]) case Some(ch) => Some((ch, 6)) case None => None)
          else None;
        match c
        case None => None
        case Some((ch, k)) =>
          match ReadString(s[k..])
          case None => None
          case Some((t, rest)) => Some(([ch] + t, rest))
    else
      match ReadString(s[1..])
      case None => None
      case Some((t, rest)) => Some(([s[0]] + t, rest))
  }

  function ReadValue(s: string): (r: Option<(Json, string)>)
    ensures r.Some? ==> |r.value.1| < |s|
    decreases |s|, 0
  {
    if s == [] then None
    else if s[0] == 'n' then
      if |s| >= 4 && s[..4] == "null" then Some((Null, s[4..])) else None
    else if s[0] == 't' then
      if |s| >= 4 && s[..4] == "true" then Some((Bool(true), s[4..])) else None
    else if s[0] == 'f' then
      if |s| >= 5 && s[..5] == "false" then Some((Bool(false), s[5..])) else None
    else if s[0] == '"' then
      match ReadString(s[1..])
      case None => None
      case Some((t, rest)) => Some((Str(t), rest))
    else if s[0] == '[' then ReadArray(s[1..])
    else if s[0] == '{' then ReadObject(s[1..])
    else if s[0] == '-' then
      match ReadNat(s[1..])
      case None => None
      case Some((n, rest)) => Some((Num(0 - n as int), rest))
    else
      match ReadNat(s)
      case None => None
      case Some((n, rest)) => Some((Num(n), rest))
  }

  function ReadArray(s: string): (r: Option<(Json, string)>)
    ensures r.Some? ==> |r.value.1| < |s|
    decreases |s|, 2
  {
    if s != [] && s[0] == ']' then Some((Arr([]), s[1..]))
    else
      match ReadItems(s)
      case None => None
      case Some((xs, rest)) => Some((Arr(xs), rest))
  }

  /** One or more values separated by commas, then the closing bracket. */
  function ReadItems(s: string): (r: Option<(seq<Json>, string)>)
    ensures r.Some? ==> |r.value.1| < |s|
    decreases |s|, 1
  {
    match ReadValue(s)
    case None => None
    case Some((v, rest)) =>
      if rest != [] && rest[0] == ']' then Some(([v], rest[1..]))
      else if rest != [] && rest[0] == ',' then
        match ReadItems(rest[1..])
        case None => None
        case Some((vs, rest2)) => Some(([v] + vs, rest2))
      else None
  }

  function ReadObject(s: string): (r: Option<(Json, string)>)
    ensures r.Some? ==> |r.value.1| < |s|
    decreases |s|, 2
  {
    if s != [] && s[0] == '}' then Some((Obj([]), s[1..]))
    else
      match ReadMembers(s)
      case None => None
      case Some((ms, rest)) => Some((Obj(ms), rest))
  }

  /** One or more `"key":value` pairs separated by commas, then the closing brace. */
  function ReadMembers(s: string): (r: Option<(seq<Member>, string)>)
    ensures r.Some? ==> |r.value.1| < |s|
    decreases |s|, 1
  {
    if s == [] || s[0] != '"' then None
    else
      match ReadString(s[1..])
      case None => None
      case Some((k, rest)) =>
        if rest == [] || rest[0] != ':' then None
        else
          match ReadValue(rest[1..])
          case None => None
          case Some((v, rest2)) =>
            if rest2 != [] && rest2[0] == '}' then Some(([Member(k, v)], rest2[1..]))
            else if rest2 != [] && rest2[0] == ',' then
              match ReadMembers(rest2[1..])
              case None => None
              case Some((ms, rest3)) => Some(([Member(k, v)] + ms, rest3))
            else None
  }

  // ---------------------------------------------------------------------
  // Round trip

  /** What may follow a written value inside the text. */
  predicate Delimited(rest: string) {
    rest == [] || rest[0] == ',' || rest[0] == ']' || rest[0] == '}'
  }

  lemma {:induction false} DigitRunOf(d: string, rest: string)
    requires AllDigits(d)
    requires rest == [] || !IsDigit(rest[0])
    ensures DigitRun(d + rest) == |d|
  {
    if d != [] {
      assert (d + rest)[1..] == d[1..] + rest;
      DigitRunOf(d[1..], rest);
    } else {
      assert d + rest == rest;
    }
  }

  lemma ReadNatOf(n: nat, rest: string)
    requires Delimited(rest)
    ensures ReadNat(NatToString(n) + rest) == Some((n, rest))
  {
    var d := NatToString(n);
    DigitRunOf(d, rest);
    assert (d + rest)[..|d|] == d;
    assert (d + rest)[|d|..] == rest;
    DigitsValueOfNatToString(n);
  }

  lemma ReadEscapedChar(c: char, rest: string)
    ensures ReadString(EscapeChar(c) + rest) ==
      match ReadString(rest) case None => None case Some((t, r)) => Some(([c] + t, r))
  {
    var s := EscapeChar(c) + rest;
    if c == '"' || c == '\\' || c == '\n' || c == '\r' || c == '\t' || c == Backspace || c == FormFeed {
      assert s[2..] == rest;
    } else if c as int < 0x20 {
      var h1, h2 := HexDigit(c as int / 16), HexDigit(c as int % 16);
      assert s[2..6] == ['0', '0', h1, h2];
      assert s[6..] == rest;
      assert HexValue(h1) == c as int / 16 && HexValue(h2) == c as int % 16;
    } else {
      assert s[1..] == rest;
    }
  }

  lemma {:induction false} ReadQuoted(t: string, rest: string)
    ensures ReadString(Escape(t) + "\"" + rest) == Some((t, rest))
  {
    if t == [] {
      assert Escape(t) + "\"" + rest == "\"" + rest;
    } else {
      assert Escape(t) + "\"" + rest == EscapeChar(t[0]) + (Escape(t[1..]) + "\"" + rest);
      ReadEscapedChar(t[0], Escape(t[1..]) + "\"" + rest);
      ReadQuoted(t[1..], rest);
      assert [t[0]] + t[1..] == t;
    }
  }

  lemma WriteStartsValue(v: Json)
    ensures Write(v) != []
    ensures Write(v)[0] != ']' && Write(v)[0] != '}'
  {
    match v
    case Num(n) =>
      if n < 0 {
      } else {
        assert IsDigit(NatToString(n)[0]);
      }
    case _ =>
  }

  lemma WriteMembersStart(ms: seq<Member>)
    requires ms != []
    ensures WriteMembers(ms) != [] && WriteMembers(ms)[0] == '"'
  {
  }

  /** Reading the written text of any value gives the value back. */
  lemma {:induction false} ReadWrite(v: Json, rest: string)
    requires Delimited(rest)
    ensures ReadValue(Write(v) + rest) == Some((v, rest))
    decreases v, 2
  {
    match v
    case Null =>
      var s := Write(v) + rest;
      assert s[..4] == "null" && s[4..] == rest;
    case Bool(b) =>
      var s := Write(v) + rest;
      if b {
        assert s[..4] == "true" && s[4..] == rest;
      } else {
        assert s[..5] == "false" && s[5..] == rest;
      }
    case Num(n) => ReadWriteNum(n, rest);
    case Str(t) => ReadWriteStr(t, rest);
    case Arr(xs) => ReadWriteArr(xs, rest);
    case Obj(ms) => ReadWriteObj(ms, rest);
  }

  lemma ReadWriteNum(n: int, rest: string)
    requires Delimited(rest)
    ensures ReadValue(Write(Num(n)) + rest) == Some((Num(n), rest))
  {
    var s := Write(Num(n)) + rest;
    if n < 0 {
      assert s[0] == '-';
      assert s[1..] == NatToString(-n) + rest;
      ReadNatOf(-n, rest);
    } else {
      assert IsDigit(s[0]);
      assert s == NatToString(n) + rest;
      ReadNatOf(n, rest);
    }
  }

  lemma ReadWriteStr(t: string, rest: string)
    ensures ReadValue(Write(Str(t)) + rest) == Some((Str(t), rest))
  {
    var s := Write(Str(t)) + rest;
    assert s[0] == '"';
    assert s[1..] == Escape(t) + "\"" + rest;
    ReadQuoted(t, rest);
  }

  lemma ReadValueBracket(inner: string)
    ensures ReadValue("[" + inner) == ReadArray(inner)
    ensures ReadValue("{" + inner) == ReadObject(inner)
  {
    assert ("[" + inner)[1..] == inner;
    assert ("{" + inner)[1..] == inner;
  }

  lemma ReadArrayOfItems(s: string, xs: seq<Json>, rest: string)
    requires s != [] && s[0] != ']' && ReadItems(s) == Some((xs, rest))
    ensures ReadArray(s) == Some((Arr(xs), rest))
  {
  }

  lemma ReadObjectOfMembers(s: string, ms: seq<Member>, rest: string)
    requires s != [] && s[0] == '"' && ReadMembers(s) == Some((ms, rest))
    ensures ReadObject(s) == Some((Obj(ms), rest))
  {
  }

  /** One step of `ReadItems`, once the first value has been read. */
  lemma ReadItemsStep(s: string, v: Json, after: string)
    requires ReadValue(s) == Some((v, after))
    requires after != [] && (after[0] == ']' || after[0] == ',')
    ensures ReadItems(s) ==
      if after[0] == ']' then Some(([v], after[1..]))
      else match ReadItems(after[1..])
        case None => None
        case Some((vs, rest)) => Some(([v] + vs, rest))
  {
  }

  /** One step of `ReadMembers`, once the key and the value have been read. */
  lemma ReadMembersStep(s: string, k: string, colonText: string, v: Json, after: string)
    requires s != [] && s[0] == '"' && ReadString(s[1..]) == Some((k, colonText))
    requires colonText != [] && colonText[0] == ':' && ReadValue(colonText[1..]) == Some((v, after))
    requires after != [] && (after[0] == '}' || after[0] == ',')
    ensures ReadMembers(s) ==
      if after[0] == '}' then Some(([Member(k, v)], after[1..]))
      else match ReadMembers(after[1..])
        case None => None
        case Some((ms, rest)) => Some(([Member(k, v)] + ms, rest))
  {
  }

  lemma {:induction false} ReadWriteArr(xs: seq<Json>, rest: string)
    requires Delimited(rest)
    ensures ReadValue(Write(Arr(xs)) + rest) == Some((Arr(xs), rest))
    decreases xs, 2
  {
    var inner := WriteItems(xs) + "]" + rest;
    assert Write(Arr(xs)) + rest == "[" + inner;
    ReadValueBracket(inner);
    if xs == [] {
      assert inner[0] == ']' && inner[1..] == rest;
    } else {
      assert inner[0] != ']' by {
        WriteStartsValue(xs[0]);
        assert inner[0] == Write(xs[0])[0];
      }
      ReadWriteItems(xs, rest);
      ReadArrayOfItems(inner, xs, rest);
    }
  }

  lemma {:induction false} ReadWriteObj(ms: seq<Member>, rest: string)
    requires Delimited(rest)
    ensures ReadValue(Write(Obj(ms)) + rest) == Some((Obj(ms), rest))
    decreases ms, 2
  {
    var inner := WriteMembers(ms) + "}" + rest;
    assert ReadObject(inner) == Some((Obj(ms), rest)) by {
      if ms == [] {
        ReadEmptyObject(ms, rest);
      } else {
        ReadWriteNonEmptyObject(ms, rest);
      }
    }
    assert Write(Obj(ms)) + rest == "{" + inner;
    ReadValueBracket(inner);
  }

  lemma {:induction false} ReadWriteNonEmptyObject(ms: seq<Member>, rest: string)
    requires ms != []
    ensures ReadObject(WriteMembers(ms) + "}" + rest) == Some((Obj(ms), rest))
    decreases ms, 1
  {
    var inner := WriteMembers(ms) + "}" + rest;
    WriteMembersStart(ms);
    assert inner[0] == WriteMembers(ms)[0];
    ReadWriteMembers(ms, rest);
    ReadObjectOfMembers(inner, ms, rest);
  }

  lemma ReadEmptyObject(ms: seq<Member>, rest: string)
    requires ms == []
    ensures ReadObject(WriteMembers(ms) + "}" + rest) == Some((Obj(ms), rest))
  {
    var inner := WriteMembers(ms) + "}" + rest;
    assert inner[0] == '}' && inner[1..] == rest;
  }

  lemma {:induction false} ReadWriteItems(xs: seq<Json>, rest: string)
    requires xs != []
    ensures ReadItems(WriteItems(xs) + "]" + rest) == Some((xs, rest))
    decreases xs, 1
  {
    if |xs| == 1 {
      ReadWriteLastItem(xs, rest);
    } else {
      var tail := WriteItems(xs[1..]) + "]" + rest;
      assert WriteItems(xs) + "]" + rest == Write(xs[0]) + ("," + tail) by {
        assert WriteItems(xs) == Write(xs[0]) + "," + WriteItems(xs[1..]);
      }
      ReadWriteItems(xs[1..], rest);
      ReadItemThenMore(xs, tail, rest);
    }
  }

  lemma {:induction false} ReadWriteLastItem(xs: seq<Json>, rest: string)
    requires |xs| == 1
    ensures ReadItems(WriteItems(xs) + "]" + rest) == Some((xs, rest))
    decreases xs, 0
  {
    var after := "]" + rest;
    var s := Write(xs[0]) + after;
    assert WriteItems(xs) + "]" + rest == s;
    assert ReadValue(s) == Some((xs[0], after)) by {
      ReadWrite(xs[0], after);
    }
    ReadItemsStep(s, xs[0], after);
    assert after[1..] == rest;
    assert [xs[0]] == xs;
  }

  /** The first item read, the rest of the list reads as before. */
  lemma {:induction false} ReadItemThenMore(xs: seq<Json>, tail: string, rest: string)
    requires |xs| >= 2 && ReadItems(tail) == Some((xs[1..], rest))
    ensures ReadItems(Write(xs[0]) + ("," + tail)) == Some((xs, rest))
    decreases xs, 0
  {
    var after := "," + tail;
    var s := Write(xs[0]) + after;
    assert ReadValue(s) == Some((xs[0], after)) by {
      ReadWrite(xs[0], after);
    }
    ReadItemsStep(s, xs[0], after);
    assert after[1..] == tail;
    assert [xs[0]] + xs[1..] == xs;
  }

  lemma QuoteThen(k: string, t: string)
    ensures Quote(k) + t != [] && (Quote(k) + t)[0] == '"'
    ensures (Quote(k) + t)[1..] == Escape(k) + "\"" + t
  {
    assert Quote(k) + t == "\"" + (Escape(k) + "\"" + t);
  }

  /** Reading one written `"key":value` pair followed by a brace or a comma. */
  lemma {:induction false} ReadOneMember(k: string, v: Json, after: string)
    requires after != [] && (after[0] == '}' || after[0] == ',')
    ensures ReadMembers(Quote(k) + ":" + Write(v) + after) ==
      if after[0] == '}' then Some(([Member(k, v)], after[1..]))
      else match ReadMembers(after[1..])
        case None => None
        case Some((ms, rest)) => Some(([Member(k, v)] + ms, rest))
    decreases v, 3
  {
    var valueText := Write(v) + after;
    var colonText := ":" + valueText;
    var s := Quote(k) + colonText;
    assert Quote(k) + ":" + Write(v) + after == s;
    assert s != [] && s[0] == '"' && ReadString(s[1..]) == Some((k, colonText)) by {
      QuoteThen(k, colonText);
      ReadQuoted(k, colonText);
    }
    assert colonText[0] == ':' && colonText[1..] == valueText;
    assert ReadValue(valueText) == Some((v, after)) by {
      ReadWrite(v, after);
    }
    ReadMembersStep(s, k, colonText, v, after);
  }

  lemma {:induction false} ReadWriteLastMember(m: Member, rest: string)
    ensures ReadMembers(WriteMembers([m]) + "}" + rest) == Some(([m], rest))
    decreases m, 0
  {
    var head := Quote(m.key) + ":" + Write(m.value);
    var after := "}" + rest;
    assert WriteMembers([m]) == head;
    assert head + "}" + rest == head + after;
    ReadOneMember(m.key, m.value, after);
    assert after[1..] == rest;
  }

  lemma {:induction false} ReadWriteMembers(ms: seq<Member>, rest: string)
    requires ms != []
    ensures ReadMembers(WriteMembers(ms) + "}" + rest) == Some((ms, rest))
    decreases ms, 0
  {
    var m := ms[0];
    if |ms| == 1 {
      assert [m] == ms;
      ReadWriteLastMember(m, rest);
    } else {
      var head := Quote(m.key) + ":" + Write(m.value);
      var tail := WriteMembers(ms[1..]) + "}" + rest;
      var after := "," + tail;
      assert WriteMembers(ms) + "}" + rest == head + after by {
        assert WriteMembers(ms) == head + "," + WriteMembers(ms[1..]);
      }
      assert ReadMembers(tail) == Some((ms[1..], rest)) by {
        ReadWriteMembers(ms[1..], rest);
      }
      assert ReadMembers(head + after) == Some(([m] + ms[1..], rest)) by {
        ReadOneMember(m.key, m.value, after);
        assert after[0] == ',' && after[1..] == tail;
      }
      assert [m] + ms[1..] == ms;
    }
  }

  /** The compact writer is injective. */
  lemma WriteInjective(a: Json, b: Json)
    ensures Write(a) == Write(b) ==> a == b
  {
    ReadWrite(a, []);
    ReadWrite(b, []);
    assert Write(a) + [] == Write(a) && Write(b) + [] == Write(b);
  }

  /** Two values have the same canonical bytes exactly when they have the
      same normal form: the bytes ignore key order and nothing else. */
  lemma CanonicalBytesEqualIff(a: Json, b: Json)
    ensures CanonicalBytes(a) == CanonicalBytes(b) <==> Normalize(a) == Normalize(b)
  {
    Utf8.EncodeInjective(Write(Normalize(a)), Write(Normalize(b)));
    WriteInjective(Normalize(a), Normalize(b));
  }

  /** Values with different normal forms get different content ids unless
      SHA-256 collides on their canonical bytes. */
  lemma CidDistinct(a: Json, b: Json, sha256: Sha256)
    requires Normalize(a) != Normalize(b)
    requires NoCollision(sha256, CanonicalBytes(a), CanonicalBytes(b))
    ensures CidOf(a, sha256) != CidOf(b, sha256)
  {
    CanonicalBytesEqualIff(a, b);
    DigestIdInjective(sha256(CanonicalBytes(a)), sha256(CanonicalBytes(b)));
  }
}
