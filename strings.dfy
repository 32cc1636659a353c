/**
 * The JavaScript string primitives the importer relies on, restricted to
 * ASCII case mapping: the `\s` character class (which is also the set that
 * `String.prototype.trim` removes), `\d`, `\b`, global run replacement
 * (`replace(/X+/g, c)`), `indexOf`, `includes`, `split` on one character
 * and `join`.
 */
module Strings {

  /** JavaScript `\s`: WhiteSpace and LineTerminator code points. */
  predicate IsSpace(c: char)
  {
    c == ' ' || c == '\t' || c == '\n' || c == '\r' || c == '\U{0B}' || c == '\U{0C}'
    || c == '\U{A0}' || c == '\U{1680}' || ('\U{2000}' <= c <= '\U{200A}')
    || c == '\U{2028}' || c == '\U{2029}' || c == '\U{202F}' || c == '\U{205F}'
    || c == '\U{3000}' || c == '\U{FEFF}'
  }

  /** JavaScript `\d` (ASCII digits only). */
  predicate IsDigit(c: char) { '0' <= c <= '9' }
  predicate IsAsciiLetter(c: char) { 'a' <= c <= 'z' || 'A' <= c <= 'Z' }
  /** `[a-z0-9]` */
  predicate IsLowerAlnum(c: char) { 'a' <= c <= 'z' || IsDigit(c) }
  /** JavaScript `\w`, whose boundaries define `\b`. */
  predicate IsWordChar(c: char) { IsAsciiLetter(c) || IsDigit(c) || c == '_' }
  predicate NotSpace(c: char) { !IsSpace(c) }

  function LowerChar(c: char): char { if 'A' <= c <= 'Z' then (c as int + 32) as char else c }
  function UpperChar(c: char): char { if 'a' <= c <= 'z' then (c as int - 32) as char else c }

  /** `toLowerCase` over ASCII. */
  function Lower(s: string): (r: string)
    ensures |r| == |s|
  {
    seq(|s|, i requires 0 <= i < |s| => LowerChar(s[i]))
  }

  /** `toUpperCase` over ASCII. */
  function Upper(s: string): (r: string)
    ensures |r| == |s|
  {
    seq(|s|, i requires 0 <= i < |s| => UpperChar(s[i]))
  }

  /** `replace(/[’]/g, "'")` */
  function StraightenApostrophes(s: string): (r: string)
    ensures |r| == |s|
  {
    seq(|s|, i requires 0 <= i < |s| => if s[i] == '\U{2019}' then '\'' else s[i])
  }

  predicate AllChars(s: string, p: char -> bool)
  {
    forall i :: 0 <= i < |s| ==> p(s[i])
  }

  predicate SomeChar(s: string, p: char -> bool)
  {
    exists i :: 0 <= i < |s| && p(s[i])
  }

  /** Drops the longest prefix whose characters satisfy `p`. */
  function DropWhile(s: string, p: char -> bool): (r: string)
    ensures |r| <= |s| && r == s[|s| - |r|..]
    ensures r == [] || !p(r[0])
  {
    if s != [] && p(s[0]) then DropWhile(s[1..], p) else s
  }

  /** What `DropWhile` drops satisfies `p`. */
  lemma {:induction false} DropWhileAll(s: string, p: char -> bool)
    ensures forall i :: 0 <= i < |s| - |DropWhile(s, p)| ==> p(s[i])
  {
    if s != [] && p(s[0]) {
      DropWhileAll(s[1..], p);
      assert forall i :: 1 <= i < |s| ==> s[i] == s[1..][i - 1];
    }
  }

  /** `replace(/P+/g, rep)`: every maximal run of `p`-characters becomes `rep`. */
  function ReplaceRuns(s: string, p: char -> bool, rep: string): string
    decreases |s|
  {
    if s == [] then []
    else if p(s[0]) then rep + ReplaceRuns(DropWhile(s[1..], p), p, rep)
    else [s[0]] + ReplaceRuns(s[1..], p, rep)
  }

  /** `replace(/P/g, '')`: deletes every `p`-character. */
  function RemoveAll(s: string, p: char -> bool): (r: string)
    ensures |r| <= |s|
    ensures forall i :: 0 <= i < |r| ==> !p(r[i])
  {
    if s == [] then [] else (if p(s[0]) then [] else [s[0]]) + RemoveAll(s[1..], p)
  }

  function TrimStart(s: string): (r: string)
    ensures |r| <= |s| && r == s[|s| - |r|..]
  {
    DropWhile(s, IsSpace)
  }

  function TrimEnd(s: string): (r: string)
    ensures |r| <= |s| && r == s[..|r|]
    ensures r == [] || !IsSpace(r[|r| - 1])
    ensures forall i :: |r| <= i < |s| ==> IsSpace(s[i])
  {
    if s != [] && IsSpace(s[|s| - 1]) then TrimEnd(s[..|s| - 1]) else s
  }

  /** `String.prototype.trim`. */
  function Trim(s: string): (r: string)
    ensures |r| <= |s|
    ensures r != [] ==> !IsSpace(r[0]) && !IsSpace(r[|r| - 1])
  {
    TrimEnd(TrimStart(s))
  }

  /** `replace(/\s+/g, ' ')` */
  function CollapseSpaces(s: string): string
  {
    ReplaceRuns(s, IsSpace, " ")
  }

  /** `s.slice(i, i + |n|) === n` */
  predicate OccursAt(h: string, n: string, i: int)
  {
    0 <= i && i + |n| <= |h| && h[i..i + |n|] == n
  }

  function IndexOfFrom(h: string, n: string, from: nat): (r: int)
    ensures r == -1 || (from <= r && OccursAt(h, n, r))
    ensures forall k :: from <= k && (r == -1 || k < r) ==> !OccursAt(h, n, k)
    decreases |h| - from
  {
    if from + |n| > |h| then -1
    else if h[from..from + |n|] == n then from
    else IndexOfFrom(h, n, from + 1)
  }

  /** `h.indexOf(n)`: the first occurrence, or -1. */
  function IndexOf(h: string, n: string): (r: int)
    ensures r == -1 || OccursAt(h, n, r)
    ensures forall k :: 0 <= k && (r == -1 || k < r) ==> !OccursAt(h, n, k)
  {
    IndexOfFrom(h, n, 0)
  }

  /** `h.includes(n)` */
  predicate Contains(h: string, n: string)
  {
    IndexOf(h, n) >= 0
  }

  /** A needle longer than the haystack does not occur in it. */
  lemma ContainsLonger(h: string, n: string)
    requires |h| < |n|
    ensures !Contains(h, n)
  {
  }

  lemma ContainsIff(h: string, n: string)
    ensures Contains(h, n) <==> exists k :: OccursAt(h, n, k)
  {
  }

  /** `\b` at position `i`: the characters on each side differ in being word characters. */
  predicate WordAt(s: string, k: int)
  {
    0 <= k < |s| && IsWordChar(s[k])
  }

  predicate Boundary(s: string, i: int)
  {
    WordAt(s, i - 1) != WordAt(s, i)
  }

  /** `s.split(c)` for a one-character separator. */
  function Split(s: string, c: char): (r: seq<string>)
    ensures |r| >= 1
    ensures forall k :: 0 <= k < |r| ==> c !in r[k]
  {
    if s == [] then [[]]
    else
      var rest := Split(s[1..], c);
      if s[0] == c then [[]] + rest else [[s[0]] + rest[0]] + rest[1..]
  }

  /** Every piece of a split is made of characters of the split string. */
  lemma {:induction false} SplitChars(s: string, c: char)
    ensures forall k, x :: 0 <= k < |Split(s, c)| && x in Split(s, c)[k] ==> x in s
  {
    if s != [] {
      SplitChars(s[1..], c);
      var rest := Split(s[1..], c);
      assert forall x :: x in s[1..] ==> x in s;
      if s[0] == c {
        assert Split(s, c) == [[]] + rest;
        assert forall k :: 1 <= k < |Split(s, c)| ==> Split(s, c)[k] == rest[k - 1];
      } else {
        assert Split(s, c) == [[s[0]] + rest[0]] + rest[1..];
        assert forall k :: 1 <= k < |Split(s, c)| ==> Split(s, c)[k] == rest[k];
      }
    }
  }

  /** `parts.join(c)` */
  function Join(parts: seq<string>, c: char): string
  {
    if parts == [] then []
    else if |parts| == 1 then parts[0]
    else parts[0] + [c] + Join(parts[1..], c)
  }

  lemma {:induction false} JoinSnoc(parts: seq<string>, c: char, t: string)
    requires parts != []
    ensures Join(parts + [t], c) == Join(parts, c) + [c] + t
  {
    if |parts| > 1 {
      assert (parts + [t])[1..] == parts[1..] + [t];
      JoinSnoc(parts[1..], c, t);
    }
  }

  /** A join starts with its first part. */
  lemma {:induction false} JoinPrefix(parts: seq<string>, c: char)
    requires parts != []
    ensures |Join(parts, c)| >= |parts[0]| && Join(parts, c)[..|parts[0]|] == parts[0]
  {
  }

  lemma {:induction false} JoinSplit(s: string, c: char)
    ensures Join(Split(s, c), c) == s
  {
    if s != [] {
      JoinSplit(s[1..], c);
      var rest := Split(s[1..], c);
      if s[0] == c {
        assert Split(s, c) == [[]] + rest;
      } else {
        if |rest| > 1 {
          assert Join(rest, c) == rest[0] + [c] + Join(rest[1..], c);
          assert ([[s[0]] + rest[0]] + rest[1..])[1..] == rest[1..];
        }
      }
    }
  }
}
