/**
 * Character and string helpers standing in for the handful of QString
 * operations the launcher relies on: digit tests, case-insensitive suffix
 * tests, `contains`, `replace`, `split` and `join`.
 */
module Strings {
  import opened Wrappers

  predicate IsDigit(c: char) {
    '0' <= c <= '9'
  }

  predicate AllDigits(s: string) {
    forall i :: 0 <= i < |s| ==> IsDigit(s[i])
  }

  /** ASCII case folding. For the lower-case suffixes the launcher tests
      (".deh", ".bex") no other character folds onto them, so this agrees
      with a full Unicode case-insensitive comparison. */
  function FoldCase(c: char): char {
    if 'A' <= c <= 'Z' then (c as int + 32) as char else c
  }

  function FoldCaseString(s: string): (r: string)
    ensures |r| == |s|
    ensures forall i :: 0 <= i < |s| ==> r[i] == FoldCase(s[i])
  {
    seq(|s|, i requires 0 <= i < |s| => FoldCase(s[i]))
  }

  /** `s.endsWith(suffix, Qt::CaseInsensitive)`. */
  predicate EndsWithIgnoreCase(s: string, suffix: string) {
    |s| >= |suffix| && FoldCaseString(s[|s| - |suffix|..]) == FoldCaseString(suffix)
  }

  /** Every character `from` replaced by `to`, everything else kept. */
  function ReplaceChar(s: string, from: char, to: char): (r: string)
    ensures |r| == |s|
    ensures from != to ==> from !in r
    ensures forall i :: 0 <= i < |s| && s[i] != from ==> r[i] == s[i]
  {
    seq(|s|, i requires 0 <= i < |s| => if s[i] == from then to else s[i])
  }

  /** The concatenation of all tokens with no separator (`join("")`). Its
      length is zero exactly when every token is empty. */
  function Concat(ts: seq<string>): (r: string)
    ensures |r| == 0 <==> forall i :: 0 <= i < |ts| ==> ts[i] == ""
  {
    if |ts| == 0 then "" else ts[0] + Concat(ts[1..])
  }

  /** Position of the last occurrence of `c` in `s`. */
  function LastIndexOf(s: string, c: char): (r: Option<nat>)
    ensures r.None? <==> c !in s
    ensures r.Some? ==> r.value < |s| && s[r.value] == c && c !in s[r.value + 1..]
  {
    if |s| == 0 then None
    else if s[|s| - 1] == c then Some(|s| - 1)
    else
      assert s == s[..|s| - 1] + [s[|s| - 1]];
      LastIndexOf(s[..|s| - 1], c)
  }

  /** `split(sep)` keeping empty parts: "a//b/" gives ["a", "", "b", ""]
      and "" gives [""]. */
  function Split(s: string, sep: char): (parts: seq<string>)
    ensures |parts| >= 1
    ensures forall i :: 0 <= i < |parts| ==> sep !in parts[i]
    decreases |s|
  {
    match LastIndexOf(s, sep)
    case None => [s]
    case Some(k) => Split(s[..k], sep) + [s[k + 1..]]
  }

  /** `join(sep)`: the parts with one separator between neighbours. */
  function Join(parts: seq<string>, sep: char): string
    decreases |parts|
  {
    if |parts| == 0 then ""
    else if |parts| == 1 then parts[0]
    else Join(parts[..|parts| - 1], sep) + [sep] + parts[|parts| - 1]
  }

  /** Joining the parts of a split gives back the original string. */
  lemma {:induction false} JoinSplit(s: string, sep: char)
    ensures Join(Split(s, sep), sep) == s
    decreases |s|
  {
    match LastIndexOf(s, sep)
    case None =>
    case Some(k) =>
      var front := Split(s[..k], sep);
      JoinSplit(s[..k], sep);
      var parts := front + [s[k + 1..]];
      assert parts[..|parts| - 1] == front;
      assert s == s[..k] + [sep] + s[k + 1..];
  }

  /** Splitting and dropping the last part keeps exactly what precedes the
      last separator. */
  lemma SplitDropLast(s: string, sep: char)
    ensures var parts := Split(s, sep);
            Join(parts[..|parts| - 1], sep) ==
              (match LastIndexOf(s, sep) case None => "" case Some(k) => s[..k])
  {
    var parts := Split(s, sep);
    match LastIndexOf(s, sep)
    case None =>
    case Some(k) =>
      assert parts[..|parts| - 1] == Split(s[..k], sep);
      JoinSplit(s[..k], sep);
  }
}
