/**
 * The few java.lang.String (and java.util.List) operations the chat client and
 * server rely on, with Java's exact edge cases: `trim` strips every char up to
 * U+0020 at both ends, `indexOf` answers -1 when absent, and `split` on a
 * one-char separator drops trailing empty strings but returns the input itself
 * when the separator does not occur.
 */
module JavaStrings {

  /** The test `String.trim` applies at both ends: code point at most U+0020. */
  predicate IsTrimmable(c: char) {
    c <= ' '
  }

  /** Number of trimmable chars at the front of `s`. */
  function LeadingBlanks(s: string): (n: nat)
    ensures n <= |s|
    ensures forall k :: 0 <= k < n ==> IsTrimmable(s[k])
    ensures n < |s| ==> !IsTrimmable(s[n])
  {
    if |s| > 0 && IsTrimmable(s[0]) then 1 + LeadingBlanks(s[1..]) else 0
  }

  /** Number of trimmable chars at the back of `s`. */
  function TrailingBlanks(s: string): (n: nat)
    ensures n <= |s|
    ensures forall k :: |s| - n <= k < |s| ==> IsTrimmable(s[k])
    ensures n < |s| ==> !IsTrimmable(s[|s| - 1 - n])
  {
    if |s| > 0 && IsTrimmable(s[|s| - 1]) then 1 + TrailingBlanks(s[..|s| - 1]) else 0
  }

  /** `String.trim`. */
  function Trim(s: string): (r: string)
    ensures |r| <= |s|
    ensures r == [] || (!IsTrimmable(r[0]) && !IsTrimmable(r[|r| - 1]))
    ensures (s == [] || (!IsTrimmable(s[0]) && !IsTrimmable(s[|s| - 1]))) ==> r == s
  {
    var st := LeadingBlanks(s);
    var rest := s[st..];
    var len := |s| - TrailingBlanks(rest);
    assert st < |s| ==> rest[0] == s[st];
    assert st < |s| ==> len > st;
    s[st..len]
  }

  /** `trim` returns a slice of its input, and everything it cut off on either side is trimmable. */
  lemma TrimIsInfix(s: string)
    ensures exists a, b :: 0 <= a <= b <= |s| && Trim(s) == s[a..b]
                          && (forall k :: 0 <= k < a ==> IsTrimmable(s[k]))
                          && (forall k :: b <= k < |s| ==> IsTrimmable(s[k]))
  {
    var st := LeadingBlanks(s);
    var rest := s[st..];
    var len := |s| - TrailingBlanks(rest);
    assert Trim(s) == s[st..len];
    assert forall k :: len <= k < |s| ==> s[k] == rest[k - st];
  }

  /** `trim` gives the empty string exactly when every char is trimmable. */
  lemma TrimBlankIff(s: string)
    ensures Trim(s) == [] <==> forall k :: 0 <= k < |s| ==> IsTrimmable(s[k])
  {
    var st := LeadingBlanks(s);
    if st < |s| {
      assert !IsTrimmable(s[st]);
    }
  }

  /** `trim` only removes chars: every char it keeps comes from `s`. */
  lemma TrimKeepsChars(s: string)
    ensures forall c :: c in Trim(s) ==> c in s
  {
    var st := LeadingBlanks(s);
    var len := |s| - TrailingBlanks(s[st..]);
    assert Trim(s) == s[st..len];
  }

  /** `s.trim().isEmpty()`. */
  predicate IsBlank(s: string) {
    Trim(s) == []
  }

  /** `String.indexOf(char)` and `List.indexOf(Object)`: the first position of `x`, or -1. */
  function IndexOf<T(==)>(s: seq<T>, x: T): (k: int)
    ensures -1 <= k < |s|
    ensures k == -1 <==> x !in s
    ensures 0 <= k ==> s[k] == x && x !in s[..k]
  {
    if |s| == 0 then -1
    else if s[0] == x then 0
    else
      var k := IndexOf(s[1..], x);
      assert s[1..][..if k < 0 then 0 else k] == s[1..1 + if k < 0 then 0 else k];
      if k == -1 then -1 else k + 1
  }

  /** Every piece between separators, empty ones included: k separators give k + 1 pieces. */
  function SplitAll(s: string, sep: char): (parts: seq<string>)
    ensures |parts| >= 1
    ensures forall i :: 0 <= i < |parts| ==> sep !in parts[i]
    decreases |s|
  {
    var k := IndexOf(s, sep);
    if k == -1 then [s] else [s[..k]] + SplitAll(s[k + 1..], sep)
  }

  /** The pieces glued back together with the separator between them. */
  function JoinWith(parts: seq<string>, sep: char): string
  {
    if |parts| == 0 then []
    else if |parts| == 1 then parts[0]
    else parts[0] + [sep] + JoinWith(parts[1..], sep)
  }

  /** Splitting loses nothing: the pieces join back to the input. */
  lemma {:induction false} JoinSplitAll(s: string, sep: char)
    ensures JoinWith(SplitAll(s, sep), sep) == s
    decreases |s|
  {
    var k := IndexOf(s, sep);
    if k != -1 {
      var rest := SplitAll(s[k + 1..], sep);
      JoinSplitAll(s[k + 1..], sep);
      JoinCons(s[..k], rest, sep);
      CutAt(s, k);
    }
  }

  lemma JoinCons(p: string, rest: seq<string>, sep: char)
    requires |rest| >= 1
    ensures JoinWith([p] + rest, sep) == p + [sep] + JoinWith(rest, sep)
  {
    assert ([p] + rest)[1..] == rest;
  }

  lemma CutAt<T>(s: seq<T>, k: int)
    requires 0 <= k < |s|
    ensures s == s[..k] + [s[k]] + s[k + 1..]
  {
  }

  /** Separator-free pieces survive a join followed by a split. */
  lemma {:induction false} SplitAllJoin(parts: seq<string>, sep: char)
    requires |parts| >= 1
    requires forall i :: 0 <= i < |parts| ==> sep !in parts[i]
    ensures SplitAll(JoinWith(parts, sep), sep) == parts
  {
    if |parts| > 1 {
      var p := parts[0];
      var tail := JoinWith(parts[1..], sep);
      JoinCons(p, parts[1..], sep);
      assert parts == [p] + parts[1..];
      FirstSeparator(p, tail, sep);
      SplitAllJoin(parts[1..], sep);
    }
  }

  /** In `p + [sep] + tail` with `sep` absent from `p`, the first separator is the one after `p`. */
  lemma FirstSeparator(p: string, tail: string, sep: char)
    requires sep !in p
    ensures var s := p + [sep] + tail;
      && IndexOf(s, sep) == |p| && s[..|p|] == p && s[|p| + 1..] == tail
  {
    var s := p + [sep] + tail;
    assert s[|p|] == sep;
    assert s[..|p|] == p;
  }

  /** The empty strings at the end of `split`'s piece list, removed one by one. */
  function DropTrailingEmpty(parts: seq<string>): (r: seq<string>)
    ensures |r| <= |parts| && r == parts[..|r|]
    ensures r == [] || r[|r| - 1] != []
    ensures forall i :: |r| <= i < |parts| ==> parts[i] == []
  {
    if |parts| > 0 && parts[|parts| - 1] == [] then DropTrailingEmpty(parts[..|parts| - 1]) else parts
  }

  /** `String.split(sep)` for a separator that is not a regular-expression metacharacter. */
  function JavaSplit(s: string, sep: char): (parts: seq<string>)
    ensures forall i :: 0 <= i < |parts| ==> sep !in parts[i]
  {
    if sep !in s then [s] else DropTrailingEmpty(SplitAll(s, sep))
  }
}
