/** Text helpers with the semantics of the .NET and JavaScript string methods used by the model. */
module Strings {

  /** .NET Char.IsWhiteSpace: the Unicode separators plus the control characters U+0009..U+000D and U+0085. */
  predicate IsWhiteSpace(c: char) {
    c == ' ' || ('\t' <= c <= '\r') || c == '\U{0085}' || c == '\U{00A0}' || c == '\U{1680}'
    || ('\U{2000}' <= c <= '\U{200A}') || c == '\U{2028}' || c == '\U{2029}' || c == '\U{202F}'
    || c == '\U{205F}' || c == '\U{3000}'
  }

  /** string.IsNullOrWhiteSpace, with null modelled as the empty string. */
  predicate IsBlank(s: string) {
    forall i :: 0 <= i < |s| ==> IsWhiteSpace(s[i])
  }

  /** The string neither starts nor ends with white space. */
  predicate Trimmed(s: string) {
    |s| == 0 || (!IsWhiteSpace(s[0]) && !IsWhiteSpace(s[|s| - 1]))
  }

  /** The number of white-space characters string.TrimStart() drops. */
  function LeadingSpace(s: string): (n: nat)
    ensures n <= |s|
    ensures forall i :: 0 <= i < n ==> IsWhiteSpace(s[i])
    ensures n == |s| || !IsWhiteSpace(s[n])
  {
    if |s| > 0 && IsWhiteSpace(s[0]) then 1 + LeadingSpace(s[1..]) else 0
  }

  /** The length string.TrimEnd() keeps. */
  function KeptByTrimEnd(s: string): (n: nat)
    ensures n <= |s|
    ensures forall i :: n <= i < |s| ==> IsWhiteSpace(s[i])
    ensures n == 0 || !IsWhiteSpace(s[n - 1])
  {
    if |s| > 0 && IsWhiteSpace(s[|s| - 1]) then KeptByTrimEnd(s[..|s| - 1]) else |s|
  }

  /** string.Trim(): drops the white space at both ends, and nothing else. */
  function Trim(s: string): (r: string)
    ensures Trimmed(r)
    ensures exists a, b :: 0 <= a <= b <= |s| && r == s[a..b]
    ensures Trimmed(s) ==> r == s
  {
    var a := LeadingSpace(s);
    if a == |s| then s[a..a]
    else
      var b := KeptByTrimEnd(s);
      assert a < b;
      s[a..b]
  }

  /** String.Split with a set of separator characters: empty pieces are kept, so there is one piece more than separators. */
  function Split(s: string, seps: set<char>): (parts: seq<string>)
    ensures |parts| >= 1
    ensures forall k, i :: 0 <= k < |parts| && 0 <= i < |parts[k]| ==> parts[k][i] !in seps
    decreases |s|
  {
    if |s| == 0 then [""]
    else if s[0] in seps then [""] + Split(s[1..], seps)
    else
      var rest := Split(s[1..], seps);
      [[s[0]] + rest[0]] + rest[1..]
  }

  /** The number of separator characters in s. */
  function CountOf(s: string, seps: set<char>): nat {
    if |s| == 0 then 0 else (if s[0] in seps then 1 else 0) + CountOf(s[1..], seps)
  }

  /** Concatenation of all pieces, in order (Aggregate("", (x, y) => x + y)). */
  function Concat(parts: seq<string>): string {
    if |parts| == 0 then "" else parts[0] + Concat(parts[1..])
  }

  /** There is exactly one piece more than there are separators. */
  lemma {:induction false} SplitCount(s: string, seps: set<char>)
    ensures |Split(s, seps)| == CountOf(s, seps) + 1
    decreases |s|
  {
    if |s| > 0 { SplitCount(s[1..], seps); }
  }

  /** String.Join with a one-character separator. */
  function Join(parts: seq<string>, sep: char): string {
    if |parts| == 0 then "" else if |parts| == 1 then parts[0] else parts[0] + [sep] + Join(parts[1..], sep)
  }

  /** Joining the pieces of a split on one character with that character gives the text back. */
  lemma {:induction false} SplitJoin(s: string, sep: char)
    ensures Join(Split(s, {sep}), sep) == s
    decreases |s|
  {
    if |s| > 0 {
      SplitJoin(s[1..], sep);
      var rest := Split(s[1..], {sep});
      var parts := Split(s, {sep});
      if s[0] == sep {
        assert parts == [""] + rest;
        assert parts[1..] == rest;
      } else {
        assert parts == [[s[0]] + rest[0]] + rest[1..];
        if |rest| > 1 {
          assert parts[1..] == rest[1..];
        }
      }
      assert s == [s[0]] + s[1..];
    }
  }

  /** A text without separators is its own single piece. */
  lemma {:induction false} SplitNoSeparator(s: string, seps: set<char>)
    requires forall i :: 0 <= i < |s| ==> s[i] !in seps
    ensures Split(s, seps) == [s]
    decreases |s|
  {
    if |s| > 0 {
      SplitNoSeparator(s[1..], seps);
      assert s == [s[0]] + s[1..];
    }
  }

  /** JavaScript `split(sep).pop()` / `.slice(-1)[0]`: the text after the last separator. */
  function LastPiece(s: string, sep: char): (r: string)
    ensures sep !in r
    ensures |r| <= |s| && r == s[|s| - |r|..]
    ensures |r| < |s| ==> s[|s| - |r| - 1] == sep
    ensures sep !in s ==> r == s
  {
    if |s| == 0 then ""
    else if s[|s| - 1] == sep then ""
    else
      var init := s[..|s| - 1];
      var r := LastPiece(init, sep) + [s[|s| - 1]];
      assert s == init + [s[|s| - 1]];
      r
  }

  /** The piece after the last separator of `init + [sep] + last` is `last`, when `last` holds no separator. */
  lemma LastPieceAfter(init: string, sep: char, last: string)
    requires sep !in last
    ensures LastPiece(init + [sep] + last, sep) == last
  {
    var s := init + [sep] + last;
    var r := LastPiece(s, sep);
    assert s[|init|] == sep;
    if |r| == |last| {
      assert s[|s| - |last|..] == last;
    } else {
      assert false;
    }
  }

  /** String.prototype.startsWith. */
  predicate StartsWith(s: string, prefix: string) {
    |prefix| <= |s| && s[..|prefix|] == prefix
  }

  /** ASCII part of String.prototype.toLowerCase / ToLowerInvariant. */
  function LowerChar(c: char): char {
    if 'A' <= c <= 'Z' then (c as int + 32) as char else c
  }

  function ToLower(s: string): (r: string)
    ensures |r| == |s|
    ensures forall i :: 0 <= i < |s| ==> r[i] == LowerChar(s[i])
  {
    if |s| == 0 then "" else [LowerChar(s[0])] + ToLower(s[1..])
  }
}
