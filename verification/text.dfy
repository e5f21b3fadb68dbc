/** String primitives the server uses from JavaScript: `split` and `join` on a
    one-character separator, a global one-character `replace`, `startsWith`
    and the blank-line test `line.trim() !== ""`. Strings are `seq<char>`. */
module Text {

  /** Index of the first occurrence of `c` in `s`. */
  function IndexOf(s: string, c: char): (i: nat)
    requires c in s
    ensures i < |s| && s[i] == c
    ensures c !in s[..i]
  {
    if s[0] == c then 0
    else
      var j := IndexOf(s[1..], c);
      assert s[..j + 1] == [s[0]] + s[1..][..j];
      j + 1
  }

  /** The first occurrence is the only position before which `c` is absent. */
  lemma IndexOfUnique(s: string, c: char, i: nat)
    requires i < |s| && s[i] == c && c !in s[..i]
    ensures IndexOf(s, c) == i
  {
    var k := IndexOf(s, c);
    assert forall j :: 0 <= j < i ==> s[..i][j] == s[j];
    assert forall j :: 0 <= j < k ==> s[..k][j] == s[j];
  }

  /** `parts.join(sep)`: the parts with one `sep` between neighbours. The
      text starts with the first part. */
  function Join(parts: seq<string>, sep: char): (s: string)
    ensures |parts| == 0 ==> s == ""
    ensures |parts| >= 1 ==> StartsWith(s, parts[0])
  {
    if |parts| == 0 then ""
    else if |parts| == 1 then parts[0]
    else parts[0] + [sep] + Join(parts[1..], sep)
  }

  /** With separator-free parts, the joined text holds `sep` exactly when
      there are two parts or more. */
  lemma JoinHasSeparator(parts: seq<string>, sep: char)
    requires forall k :: 0 <= k < |parts| ==> sep !in parts[k]
    ensures sep in Join(parts, sep) <==> |parts| > 1
  {
    if |parts| > 1 {
      var s := Join(parts, sep);
      assert s == parts[0] + [sep] + Join(parts[1..], sep);
      assert s[|parts[0]|] == sep;
    }
  }

  /** Joining three parts, as a template literal `${a};${b};${c}` does. */
  lemma Join3(a: string, b: string, c: string, sep: char)
    ensures Join([a, b, c], sep) == a + [sep] + b + [sep] + c
  {
    assert [a, b, c][1..] == [b, c];
    assert [b, c][1..] == [c];
    assert Join([b, c], sep) == b + [sep] + c;
    assert a + [sep] + (b + [sep] + c) == a + [sep] + b + [sep] + c;
  }

  /** `s.split(sep)`: the maximal separator-free pieces of `s`, in order.
      Like JavaScript it never returns an empty list (`"".split(sep)` is
      `[""]`), and joining the pieces again gives back `s`. */
  function Split(s: string, sep: char): (parts: seq<string>)
    ensures |parts| >= 1
    ensures forall k :: 0 <= k < |parts| ==> sep !in parts[k]
    ensures forall k, j :: 0 <= k < |parts| && 0 <= j < |parts[k]| ==> parts[k][j] in s
    ensures Join(parts, sep) == s
    decreases |s|
  {
    if sep !in s then [s]
    else
      var i := IndexOf(s, sep);
      var rest := Split(s[i + 1..], sep);
      var parts := [s[..i]] + rest;
      assert parts[1..] == rest;
      assert s == s[..i] + [sep] + s[i + 1..];
      assert forall k, j :: 1 <= k < |parts| && 0 <= j < |parts[k]| ==> parts[k][j] in s[i + 1..];
      parts
  }

  /** Splitting undoes joining when no part contains the separator. */
  lemma {:induction false} SplitJoin(parts: seq<string>, sep: char)
    requires |parts| >= 1
    requires forall k :: 0 <= k < |parts| ==> sep !in parts[k]
    ensures Split(Join(parts, sep), sep) == parts
    decreases |parts|
  {
    if |parts| > 1 {
      var p0 := parts[0];
      var rest := Join(parts[1..], sep);
      var s := p0 + [sep] + rest;
      assert Join(parts, sep) == s;
      assert s[..|p0|] == p0;
      assert s[|p0|] == sep;
      IndexOfUnique(s, sep, |p0|);
      assert s[|p0| + 1..] == rest;
      SplitJoin(parts[1..], sep);
      assert Split(s, sep) == [p0] + Split(rest, sep);
      assert parts == [p0] + parts[1..];
    }
  }

  /** A separator at the end adds one empty piece after the existing ones. */
  lemma {:induction false} SplitAppendSep(s: string, sep: char)
    ensures Split(s + [sep], sep) == Split(s, sep) + [""]
    decreases |s|
  {
    if sep !in s {
      SplitAppendSepLast(s, sep);
    } else {
      var t := s + [sep];
      var i := IndexOf(s, sep);
      assert t[..i] == s[..i];
      IndexOfUnique(t, sep, i);
      assert t[i + 1..] == s[i + 1..] + [sep];
      SplitAppendSep(s[i + 1..], sep);
      SplitFirst(t, sep);
      SplitFirst(s, sep);
    }
  }

  /** One step of `Split`: the piece before the first separator, then the
      pieces of the rest. */
  lemma SplitFirst(s: string, sep: char)
    requires sep in s
    ensures Split(s, sep) == [s[..IndexOf(s, sep)]] + Split(s[IndexOf(s, sep) + 1..], sep)
  {
  }

  lemma SplitAppendSepLast(s: string, sep: char)
    requires sep !in s
    ensures Split(s + [sep], sep) == [s, ""]
  {
    var t := s + [sep];
    assert t[..|s|] == s;
    IndexOfUnique(t, sep, |s|);
    assert t[|s| + 1..] == "";
    assert Split("", sep) == [""];
    assert Split(t, sep) == [s] + Split("", sep);
  }

  /** `s.replace(/from/g, to)` for a single character `from`. */
  function ReplaceAll(s: string, from: char, to: char): (r: string)
    ensures |r| == |s|
    ensures forall i :: 0 <= i < |s| ==> r[i] == (if s[i] == from then to else s[i])
    ensures from != to ==> from !in r
  {
    seq(|s|, i requires 0 <= i < |s| => if s[i] == from then to else s[i])
  }

  /** `s.startsWith(prefix)`. */
  predicate StartsWith(s: string, prefix: string)
  {
    |prefix| <= |s| && s[..|prefix|] == prefix
  }

  /** The characters `String.prototype.trim` removes: ECMAScript WhiteSpace
      (tab, vertical tab, form feed, space, no-break space, byte order mark
      and the other Unicode space separators) and LineTerminator. */
  predicate IsTrimmable(c: char)
  {
    || c == '\t' || c == '\n' || c == '\U{000B}' || c == '\U{000C}' || c == '\r' || c == ' '
    || c == '\U{00A0}' || c == '\U{1680}' || ('\U{2000}' <= c <= '\U{200A}')
    || c == '\U{2028}' || c == '\U{2029}' || c == '\U{202F}' || c == '\U{205F}'
    || c == '\U{3000}' || c == '\U{FEFF}'
  }

  /** `line.trim() === ""`: nothing but trimmable characters. */
  predicate IsBlank(line: string)
  {
    forall i :: 0 <= i < |line| ==> IsTrimmable(line[i])
  }

  /** `s.trimStart()`: drops the leading trimmable characters. */
  function TrimStart(s: string): (r: string)
    ensures |r| <= |s| && r == s[|s| - |r|..]
    ensures forall i :: 0 <= i < |s| - |r| ==> IsTrimmable(s[i])
    ensures r == [] || !IsTrimmable(r[0])
  {
    if |s| > 0 && IsTrimmable(s[0]) then TrimStart(s[1..]) else s
  }

  /** `s.trimEnd()`: drops the trailing trimmable characters. */
  function TrimEnd(s: string): (r: string)
    ensures |r| <= |s| && r == s[..|r|]
    ensures forall i :: |r| <= i < |s| ==> IsTrimmable(s[i])
    ensures r == [] || !IsTrimmable(r[|r| - 1])
  {
    if |s| > 0 && IsTrimmable(s[|s| - 1]) then TrimEnd(s[..|s| - 1]) else s
  }

  /** `s.trim()`. */
  function Trim(s: string): string
  {
    TrimEnd(TrimStart(s))
  }

  /** The loader's test `line.trim() !== ""` is the negation of `IsBlank`. */
  lemma BlankIsTrimEmpty(line: string)
    ensures IsBlank(line) <==> Trim(line) == ""
  {
    if IsBlank(line) {
      BlankTrimsToEmpty(line);
    }
    if Trim(line) == "" {
      EmptyTrimIsBlank(line);
    }
  }

  lemma BlankTrimsToEmpty(line: string)
    requires IsBlank(line)
    ensures TrimStart(line) == ""
  {
  }

  lemma EmptyTrimIsBlank(line: string)
    requires Trim(line) == ""
    ensures IsBlank(line)
  {
    var t := TrimStart(line);
    assert forall j :: 0 <= j < |t| ==> IsTrimmable(t[j]);
    assert forall i :: |line| - |t| <= i < |line| ==> line[i] == t[i - (|line| - |t|)];
  }
}
