/** The version bumper for the Python package: read the `version = "X.Y.Z"`
    line of `pyproject.toml`, bump one of the three numbers or set an
    explicit version, and write the line back. */
module BumpVersion {
  import opened Wrappers
  import opened Decimal

  // ---------------------------------------------------------------------
  // str.split and str.join on one separator character

  /** `s.split(c)`: the pieces between separators, always at least one. */
  function Split(s: string, c: char): (r: seq<string>)
    ensures |r| >= 1
    ensures forall i :: 0 <= i < |r| ==> c !in r[i]
  {
    if s == [] then [[]]
    else
      var rest := Split(s[1..], c);
      if s[0] == c then [[]] + rest else [[s[0]] + rest[0]] + rest[1..]
  }

  /** `c.join(ls)`. */
  function Join(ls: seq<string>, c: char): string
    requires |ls| >= 1
  {
    if |ls| == 1 then ls[0] else ls[0] + [c] + Join(ls[1..], c)
  }

  /** Joining the pieces gives the text back. */
  lemma {:induction false} JoinSplit(s: string, c: char)
    ensures Join(Split(s, c), c) == s
  {
    if s != [] {
      JoinSplit(s[1..], c);
      var rest := Split(s[1..], c);
      if s[0] != c && |rest| > 1 {
        assert ([[s[0]] + rest[0]] + rest[1..])[1..] == rest[1..];
      }
    }
  }

  lemma {:induction false} SplitNoSeparator(a: string, c: char)
    requires c !in a
    ensures Split(a, c) == [a]
  {
    if a != [] {
      SplitNoSeparator(a[1..], c);
      assert [a[0]] + a[1..] == a;
    }
  }

  lemma {:induction false} SplitAtSeparator(a: string, b: string, c: char)
    requires c !in a
    ensures Split(a + [c] + b, c) == [a] + Split(b, c)
  {
    var s := a + [c] + b;
    if a == [] {
      assert s[1..] == b;
    } else {
      assert s[1..] == a[1..] + [c] + b;
      SplitAtSeparator(a[1..], b, c);
      assert [a[0]] + a[1..] == a;
    }
  }

  /** Splitting joined pieces that hold no separator gives the pieces back. */
  lemma {:induction false} SplitJoin(ls: seq<string>, c: char)
    requires |ls| >= 1
    requires forall i :: 0 <= i < |ls| ==> c !in ls[i]
    ensures Split(Join(ls, c), c) == ls
  {
    if |ls| == 1 {
      SplitNoSeparator(ls[0], c);
    } else {
      SplitJoin(ls[1..], c);
      SplitAtSeparator(ls[0], Join(ls[1..], c), c);
      assert [ls[0]] + ls[1..] == ls;
    }
  }

  /** When every piece is digits, every character is a digit or the
      separator. */
  lemma {:induction false} DigitPieces(s: string, c: char)
    requires forall i :: 0 <= i < |Split(s, c)| ==> AllDigits(Split(s, c)[i])
    ensures forall i :: 0 <= i < |s| ==> s[i] == c || IsDigit(s[i])
  {
    if s != [] {
      var rest := Split(s[1..], c);
      if s[0] != c {
        var first := [s[0]] + rest[0];
        assert Split(s, c)[0] == first;
        assert IsDigit(first[0]);
        assert forall k :: 0 <= k < |rest[0]| ==> rest[0][k] == first[k + 1];
        assert forall i :: 1 <= i < |rest| ==> rest[i] == Split(s, c)[i];
      } else {
        assert forall i :: 0 <= i < |rest| ==> rest[i] == Split(s, c)[i + 1];
      }
      DigitPieces(s[1..], c);
      assert forall i :: 1 <= i < |s| ==> s[i] == s[1..][i - 1];
    }
  }

  // ---------------------------------------------------------------------
  // Versions

  /** `X.Y.Z` with each part a non-empty run of ASCII digits: what
      `[0-9]+\.[0-9]+\.[0-9]+` matches in full. */
  predicate IsSemVer(v: string) {
    var ps := Split(v, '.');
    |ps| == 3 && forall i :: 0 <= i < 3 ==> ps[i] != [] && AllDigits(ps[i])
  }

  lemma SemVerChars(v: string)
    requires IsSemVer(v)
    ensures forall i :: 0 <= i < |v| ==> v[i] == '.' || IsDigit(v[i])
  {
    DigitPieces(v, '.');
  }

  datatype SemVer = SemVer(major: nat, minor: nat, patch: nat)

  /** `map(int, ver.split('.'))` on a version. */
  function Parse(v: string): SemVer
    requires IsSemVer(v)
  {
    var ps := Split(v, '.');
    SemVer(DigitsValue(ps[0]), DigitsValue(ps[1]), DigitsValue(ps[2]))
  }

  /** `f"{major}.{minor}.{patch}"`: a version that parses back to the
      numbers it was made from. */
  function Format(s: SemVer): (v: string)
    ensures IsSemVer(v) && Parse(v) == s
  {
    var ps := [NatToString(s.major), NatToString(s.minor), NatToString(s.patch)];
    assert forall i :: 0 <= i < 3 ==> '.' !in ps[i];
    SplitJoin(ps, '.');
    DigitsValueOfNatToString(s.major);
    DigitsValueOfNatToString(s.minor);
    DigitsValueOfNatToString(s.patch);
    Join(ps, '.')
  }

  /** (major, minor, patch) in lexicographic order. */
  predicate Less(a: SemVer, b: SemVer) {
    || a.major < b.major
    || (a.major == b.major && a.minor < b.minor)
    || (a.major == b.major && a.minor == b.minor && a.patch < b.patch)
  }

  /** `bump(ver, part)`. The version comes from `read_version`, so it is
      `X.Y.Z`. */
  /** `w` is `v` with `part` incremented and every lower part reset to zero. */
  predicate BumpedBy(part: string, v: SemVer, w: SemVer) {
    && (part == "patch" ==> w == v.(patch := v.patch + 1))
    && (part == "minor" ==> w == SemVer(v.major, v.minor + 1, 0))
    && (part == "major" ==> w == SemVer(v.major + 1, 0, 0))
  }

  method Bump(ver: string, part: string) returns (r: Result<string>)
    requires IsSemVer(ver)
    ensures r.Ok? <==> part == "patch" || part == "minor" || part == "major"
    ensures r.Ok? ==> IsSemVer(r.value) && Less(Parse(ver), Parse(r.value))
    ensures r.Ok? ==> BumpedBy(part, Parse(ver), Parse(r.value))
  {
    var ps := Split(ver, '.');
    var major, minor, patch := DigitsValue(ps[0]), DigitsValue(ps[1]), DigitsValue(ps[2]);
    if part == "patch" {
      patch := patch + 1;
    } else if part == "minor" {
      minor := minor + 1;
      patch := 0;
    } else if part == "major" {
      major := major + 1;
      minor := 0;
      patch := 0;
    } else {
      return Raised;
    }
    r := Ok(Format(SemVer(major, minor, patch)));
  }

  // ---------------------------------------------------------------------
  // The version line

  /** The start of the line `read_version` looks for. */
  const VersionPrefix: string := "version = \""

  predicate IsVersionChar(c: char) {
    c == '.' || IsDigit(c)
  }

  /** The length of the leading run of digits and dots. */
  function VersionRun(s: string): (n: nat)
    ensures n <= |s|
    ensures forall i :: 0 <= i < n ==> IsVersionChar(s[i])
    ensures n < |s| ==> !IsVersionChar(s[n])
  {
    if s == [] || !IsVersionChar(s[0]) then 0 else 1 + VersionRun(s[1..])
  }

  lemma {:induction false} VersionRunOf(v: string, rest: string)
    requires forall i :: 0 <= i < |v| ==> IsVersionChar(v[i])
    requires rest != [] && !IsVersionChar(rest[0])
    ensures VersionRun(v + rest) == |v|
  {
    if v != [] {
      assert (v + rest)[1..] == v[1..] + rest;
      VersionRunOf(v[1..], rest);
    }
  }

  /** Where the match of `^version = "([0-9]+\.[0-9]+\.[0-9]+)"` on this line
      ends, if the line starts with one. The pattern cannot match a newline,
      so with `re.MULTILINE` a match lies within one line and starts at its
      beginning; the group, made of digits and dots and followed by `"`, is
      the whole run of digits and dots after the prefix. */
  function MatchEnd(l: string): (e: Option<nat>)
    ensures e.Some? ==> |VersionPrefix| < e.value <= |l| && l[e.value - 1] == '"'
    ensures e.Some? ==> l[..|VersionPrefix|] == VersionPrefix
    ensures e.Some? ==> IsSemVer(l[|VersionPrefix|..e.value - 1])
  {
    var k := |VersionPrefix|;
    if |l| < k || l[..k] != VersionPrefix then None
    else
      var n := k + VersionRun(l[k..]);
      if IsSemVer(l[k..n]) && n < |l| && l[n] == '"' then Some(n + 1) else None
  }

  /** The version the line names, if it is a version line. */
  function LineVersion(l: string): (r: Option<string>)
    ensures r.Some? ==> IsSemVer(r.value)
  {
    match MatchEnd(l)
    case None => None
    case Some(e) => Some(l[|VersionPrefix|..e - 1])
  }

  predicate NoVersionLine(ls: seq<string>) {
    forall i :: 0 <= i < |ls| ==> LineVersion(ls[i]).None?
  }

  /** Line `j` is the first version line, and its version is `v`. */
  predicate FirstVersionAt(ls: seq<string>, j: int, v: string) {
    0 <= j < |ls| && NoVersionLine(ls[..j]) && LineVersion(ls[j]) == Some(v)
  }

  /** A first version line of `ls[1..]` is one of `ls` when `ls[0]` is not a version line. */
  lemma FirstVersionAtTail(ls: seq<string>, j: int, v: string)
    requires ls != [] && LineVersion(ls[0]).None? && FirstVersionAt(ls[1..], j, v)
    ensures FirstVersionAt(ls, j + 1, v)
  {
    assert ls[..j + 1] == [ls[0]] + ls[1..][..j];
  }

  /** The first version line's version. */
  function FirstVersion(ls: seq<string>): (r: Option<string>)
    ensures r.Some? ==> IsSemVer(r.value)
    ensures r.None? <==> NoVersionLine(ls)
    ensures r.Some? ==> exists j :: FirstVersionAt(ls, j, r.value)
  {
    if ls == [] then None
    else if LineVersion(ls[0]).Some? then
      assert FirstVersionAt(ls, 0, LineVersion(ls[0]).value);
      LineVersion(ls[0])
    else
      assert forall i :: 1 <= i < |ls| ==> ls[i] == ls[1..][i - 1];
      var r := FirstVersion(ls[1..]);
      if r.Some? then
        var j :| FirstVersionAt(ls[1..], j, r.value);
        FirstVersionAtTail(ls, j, r.value);
        r
      else r
  }

  /** `read_version(text)`: the version on the first line that starts with
      `version = "X.Y.Z"`; `SystemExit` when there is none. */
  function ReadVersion(text: string): (r: Result<string>)
    ensures r.Ok? ==> IsSemVer(r.value)
    ensures r.Raised? <==> NoVersionLine(Split(text, '\n'))
    ensures r.Ok? ==> exists j :: FirstVersionAt(Split(text, '\n'), j, r.value)
  {
    var ls := Split(text, '\n');
    if FirstVersion(ls).Some? then Ok(FirstVersion(ls).value) else Raised
  }

  /** One line under `re.sub`: the matched part becomes `version = "<new>"`,
      the rest of the line is kept. */
  function RewriteLine(l: string, next: string): string {
    match MatchEnd(l)
    case None => l
    case Some(e) => VersionPrefix + next + "\"" + l[e..]
  }

  function RewriteLines(ls: seq<string>, next: string): (r: seq<string>)
    ensures |r| == |ls|
    ensures forall i :: 0 <= i < |ls| ==> r[i] == RewriteLine(ls[i], next)
  {
    if ls == [] then [] else [RewriteLine(ls[0], next)] + RewriteLines(ls[1..], next)
  }

  /** `write_version(text, new)`: every version line is rewritten, every
      other line is kept. */
  function WriteVersion(text: string, next: string): (r: string)
    ensures NoVersionLine(Split(text, '\n')) ==> r == text
  {
    var ls := Split(text, '\n');
    JoinSplit(text, '\n');
    assert NoVersionLine(ls) ==> RewriteLines(ls, next) == ls;
    Join(RewriteLines(ls, next), '\n')
  }

  /** A line written with a version names that version. */
  lemma WrittenLine(v: string, rest: string)
    requires IsSemVer(v)
    ensures MatchEnd(VersionPrefix + v + "\"" + rest) == Some(|VersionPrefix| + |v| + 1)
    ensures LineVersion(VersionPrefix + v + "\"" + rest) == Some(v)
  {
    var l := VersionPrefix + v + "\"" + rest;
    var k := |VersionPrefix|;
    assert l[..k] == VersionPrefix;
    assert l[k..] == v + ("\"" + rest);
    SemVerChars(v);
    VersionRunOf(v, "\"" + rest);
    assert l[k..k + |v|] == v;
  }

  lemma {:induction false} FirstVersionRewritten(ls: seq<string>, v: string)
    requires IsSemVer(v) && FirstVersion(ls).Some?
    ensures FirstVersion(RewriteLines(ls, v)) == Some(v)
  {
    var out := RewriteLines(ls, v);
    match MatchEnd(ls[0])
    case Some(e) =>
      WrittenLine(v, ls[0][e..]);
    case None =>
      assert out[1..] == RewriteLines(ls[1..], v);
      FirstVersionRewritten(ls[1..], v);
  }

  /** Reading back what was written gives the new version. */
  lemma ReadWrite(text: string, v: string)
    requires IsSemVer(v) && ReadVersion(text).Ok?
    ensures ReadVersion(WriteVersion(text, v)) == Ok(v)
  {
    var ls := Split(text, '\n');
    var out := RewriteLines(ls, v);
    SemVerChars(v);
    assert '\n' !in v;
    forall i | 0 <= i < |out|
      ensures '\n' !in out[i]
    {
      match MatchEnd(ls[i])
      case None =>
      case Some(e) =>
        assert '\n' !in ls[i][e..] by {
          assert forall k :: 0 <= k < |ls[i][e..]| ==> ls[i][e..][k] == ls[i][e + k];
        }
        assert out[i] == VersionPrefix + v + "\"" + ls[i][e..];
    }
    SplitJoin(out, '\n');
    FirstVersionRewritten(ls, v);
  }

  // ---------------------------------------------------------------------
  // main

  /** `re.match(r'^[0-9]+\.[0-9]+\.[0-9]+$', v)` as written: `$` also
      matches just before a newline that ends the string. */
  predicate SetAcceptsAsWritten(v: string)
    ensures SetAccepts(v) ==> SetAcceptsAsWritten(v)
    ensures SetAcceptsAsWritten(v) && !SetAccepts(v) ==> '\n' in v && v[|v| - 1] == '\n'
  {
    IsSemVer(v) || (|v| >= 1 && v[|v| - 1] == '\n' && IsSemVer(v[..|v| - 1]))
  }

  /** The check the `set` command evidently means: exactly `X.Y.Z`. */
  predicate SetAccepts(v: string) {
    IsSemVer(v)
  }

  lemma ExampleVersions()
    ensures IsSemVer("1.2.3") && IsSemVer("0.1.0")
  {
    assert Format(SemVer(1, 2, 3)) == "1.2.3";
    assert Format(SemVer(0, 1, 0)) == "0.1.0";
  }

  /** The file before: one version line. */
  lemma ReadExample()
    ensures ReadVersion("version = \"0.1.0\"") == Ok("0.1.0")
  {
    var text := "version = \"0.1.0\"";
    ExampleVersions();
    assert text == VersionPrefix + "0.1.0" + "\"" + [];
    WrittenLine("0.1.0", []);
    SplitNoSeparator(text, '\n');
  }

  /** Rewriting a version line keeps what follows the closing quote. */
  lemma RewriteWritten(v: string, rest: string, next: string)
    requires IsSemVer(v)
    ensures RewriteLine(VersionPrefix + v + "\"" + rest, next) == VersionPrefix + next + "\"" + rest
  {
    var l := VersionPrefix + v + "\"" + rest;
    WrittenLine(v, rest);
    assert l[|VersionPrefix| + |v| + 1..] == rest;
  }

  /** Writing into a text that is one version line. */
  lemma WriteSingleLine(v: string, next: string)
    requires IsSemVer(v)
    ensures WriteVersion(VersionPrefix + v + "\"", next) == VersionPrefix + next + "\""
  {
    var text := VersionPrefix + v + "\"";
    SemVerChars(v);
    assert '\n' !in text;
    SplitNoSeparator(text, '\n');
    assert text == VersionPrefix + v + "\"" + [];
    RewriteWritten(v, [], next);
    assert RewriteLines([text], next) == [VersionPrefix + next + "\"" + []];
  }

  /** The file after: the newline splits the version line in two. */
  lemma WriteExample()
    ensures WriteVersion("version = \"0.1.0\"", "1.2.3\n") == VersionPrefix + "1.2.3" + ['\n'] + "\""
  {
    ExampleVersions();
    WriteSingleLine("0.1.0", "1.2.3\n");
    assert "version = \"0.1.0\"" == VersionPrefix + "0.1.0" + "\"";
    assert VersionPrefix + "1.2.3\n" + "\"" == VersionPrefix + "1.2.3" + ['\n'] + "\"";
  }

  lemma BrokenExample()
    ensures ReadVersion(VersionPrefix + "1.2.3" + ['\n'] + "\"").Raised?
  {
    var first := VersionPrefix + "1.2.3";
    SplitAtSeparator(first, "\"", '\n');
    SplitNoSeparator("\"", '\n');
    assert first[|VersionPrefix|..] == "1.2.3";
    assert VersionRun("1.2.3") == 5;
    assert MatchEnd(first).None?;
    assert MatchEnd("\"").None?;
  }

  /** A version with a trailing newline passes the check as written, and
      writing it leaves a file whose version can no longer be read. */
  lemma TrailingNewlineBreaksFile()
    ensures SetAcceptsAsWritten("1.2.3\n") && !SetAccepts("1.2.3\n")
    ensures ReadVersion("version = \"0.1.0\"") == Ok("0.1.0")
    ensures ReadVersion(WriteVersion("version = \"0.1.0\"", "1.2.3\n")).Raised?
  {
    ExampleVersions();
    assert "1.2.3\n"[..5] == "1.2.3";
    SemVerNoNewline("1.2.3\n");
    ReadExample();
    WriteExample();
    BrokenExample();
  }

  lemma SemVerNoNewline(v: string)
    requires '\n' in v
    ensures !IsSemVer(v)
  {
    if IsSemVer(v) {
      SemVerChars(v);
    }
  }

  /** Why `main` stops. */
  datatype Exit = Usage | NoVersion | SetUsage | NotSemantic | UnknownPart

  /** What `main` does: it exits with a message, reports the version
      unchanged, or writes the new text (the file write is left to the
      caller). */
  datatype Outcome = Exited(reason: Exit) | Unchanged | Written(from: string, to: string, text: string)

  /** `main(argv)` over the file's text, with the corrected `set` check. */
  method Run(argv: seq<string>, text: string) returns (o: Outcome)
    ensures |argv| < 2 <==> o == Exited(Usage)
    ensures o == Exited(NoVersion) <==> |argv| >= 2 && ReadVersion(text).Raised?
    ensures o == Exited(SetUsage) <==> |argv| >= 2 && ReadVersion(text).Ok? && argv[1] == "set" && |argv| != 3
    ensures o == Exited(UnknownPart) <==>
      |argv| >= 2 && ReadVersion(text).Ok? && argv[1] !in ["set", "patch", "minor", "major"]
    ensures o == Exited(NotSemantic) <==>
      |argv| == 3 && ReadVersion(text).Ok? && argv[1] == "set" && !SetAccepts(argv[2])
    ensures o.Unchanged? <==>
      |argv| == 3 && ReadVersion(text).Ok? && argv[1] == "set" && argv[2] == ReadVersion(text).value
    ensures o.Written? ==>
      && ReadVersion(text) == Ok(o.from)
      && o.to != o.from
      && o.text == WriteVersion(text, o.to)
      && ReadVersion(o.text) == Ok(o.to)
    ensures o.Written? ==> |argv| >= 2 && (argv[1] == "set" ==> |argv| == 3 && o.to == argv[2])
    ensures o.Written? && argv[1] != "set" ==> Less(Parse(o.from), Parse(o.to))
    ensures o.Written? && argv[1] != "set" ==> BumpedBy(argv[1], Parse(o.from), Parse(o.to))
  {
    if |argv| < 2 {
      return Exited(Usage);
    }
    var mode := argv[1];
    var current := ReadVersion(text);
    if current.Raised? {
      return Exited(NoVersion);
    }
    var newVersion: string;
    if mode == "set" {
      if |argv| != 3 {
        return Exited(SetUsage);
      }
      newVersion := argv[2];
      if !SetAccepts(newVersion) {
        return Exited(NotSemantic);
      }
    } else {
      var bumped := Bump(current.value, mode);
      if bumped.Raised? {
        return Exited(UnknownPart);
      }
      newVersion := bumped.value;
      assert newVersion != current.value;
    }
    if newVersion == current.value {
      return Unchanged;
    }
    ReadWrite(text, newVersion);
    o := Written(current.value, newVersion, WriteVersion(text, newVersion));
  }
}
