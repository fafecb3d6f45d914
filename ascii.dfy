/**
 * The two string operations the search box applies to its query, over ASCII:
 * `trim` strips leading and trailing whitespace, `toLowerCase` maps A-Z to a-z.
 */
module Ascii {

  /** ASCII whitespace: space, tab, line feed, vertical tab, form feed, carriage return. */
  predicate IsSpace(c: char) {
    c == ' ' || c == '\t' || c == '\n' || c == '\U{000B}' || c == '\U{000C}' || c == '\r'
  }

  predicate IsUpper(c: char) {
    'A' <= c <= 'Z'
  }

  /** True when every character of `s` is whitespace (in particular when `s` is empty). */
  predicate AllSpace(s: string) {
    forall k :: 0 <= k < |s| ==> IsSpace(s[k])
  }

  /** Lower-cases one character: A-Z become a-z, everything else is kept. */
  function LowerChar(c: char): (d: char)
    ensures !IsUpper(d)
    ensures IsUpper(c) || d == c
    ensures IsSpace(d) <==> IsSpace(c)
  {
    if IsUpper(c) then (c as int + 32) as char else c
  }

  /** `toLowerCase`: the string with every character lower-cased, position by position. */
  function Lower(s: string): (r: string)
    ensures |r| == |s|
    ensures forall k :: 0 <= k < |s| ==> r[k] == LowerChar(s[k])
  {
    if s == [] then [] else [LowerChar(s[0])] + Lower(s[1..])
  }

  /** The number of whitespace characters at the start of `s`. */
  function LeadingSpaces(s: string): (n: nat)
    ensures n <= |s|
    ensures AllSpace(s[..n])
    ensures n < |s| ==> !IsSpace(s[n])
  {
    if s == [] || !IsSpace(s[0]) then 0 else 1 + LeadingSpaces(s[1..])
  }

  /** The number of whitespace characters at the end of `s`. */
  function TrailingSpaces(s: string): (n: nat)
    ensures n <= |s|
    ensures AllSpace(s[|s| - n..])
    ensures n < |s| ==> !IsSpace(s[|s| - 1 - n])
  {
    if s == [] || !IsSpace(s[|s| - 1]) then 0 else 1 + TrailingSpaces(s[..|s| - 1])
  }

  /**
   * `trim`: the part of `s` left after removing the whitespace at both ends.
   * The result is a slice of `s`, everything cut off is whitespace, and the
   * result neither starts nor ends with whitespace.
   */
  function Trim(s: string): (t: string)
    ensures LeadingSpaces(s) + |t| <= |s|
    ensures t == s[LeadingSpaces(s)..LeadingSpaces(s) + |t|]
    ensures AllSpace(s[..LeadingSpaces(s)]) && AllSpace(s[LeadingSpaces(s) + |t|..])
    ensures t == [] || (!IsSpace(t[0]) && !IsSpace(t[|t| - 1]))
  {
    var rest := s[LeadingSpaces(s)..];
    rest[..|rest| - TrailingSpaces(rest)]
  }

  /** `text.includes(q)`: `q` occurs in `text` at some position. */
  predicate Contains(text: string, q: string) {
    exists i :: 0 <= i <= |text| - |q| && q <= text[i..]
  }

  /** `includes` finds a prefix, and finds nothing longer than the text. */
  lemma ContainsFacts(text: string, q: string)
    ensures q <= text ==> Contains(text, q)
    ensures Contains(text, q) ==> |q| <= |text|
  {
    assert text[0..] == text;
  }

  // ---- Lemmas about the two operations

  /** A string that is empty or only whitespace trims to the empty string, and only such a string does. */
  lemma {:induction false} TrimEmpty(s: string)
    ensures Trim(s) == [] <==> AllSpace(s)
  {
  }

  lemma {:induction false} LeadingSpacesPadLeft(a: string, s: string)
    requires AllSpace(a)
    ensures LeadingSpaces(a + s) == |a| + LeadingSpaces(s)
  {
    if a != [] {
      assert (a + s)[1..] == a[1..] + s;
      LeadingSpacesPadLeft(a[1..], s);
    } else {
      assert a + s == s;
    }
  }

  lemma {:induction false} LeadingSpacesPadRight(s: string, b: string)
    requires LeadingSpaces(s) < |s|
    ensures LeadingSpaces(s + b) == LeadingSpaces(s)
  {
    if IsSpace(s[0]) {
      assert (s + b)[1..] == s[1..] + b;
      LeadingSpacesPadRight(s[1..], b);
    }
  }

  lemma {:induction false} TrailingSpacesPadRight(s: string, b: string)
    requires AllSpace(b)
    ensures TrailingSpaces(s + b) == TrailingSpaces(s) + |b|
  {
    if b != [] {
      var n := |b| - 1;
      assert (s + b)[..|s + b| - 1] == s + b[..n];
      assert AllSpace(b[..n]) by {
        forall k | 0 <= k < n ensures IsSpace(b[..n][k]) {
          assert b[..n][k] == b[k];
        }
      }
      TrailingSpacesPadRight(s, b[..n]);
    } else {
      assert s + b == s;
    }
  }

  /** Whitespace added before a string does not change what it trims to. */
  lemma {:induction false} TrimPadLeft(a: string, s: string)
    requires AllSpace(a)
    ensures Trim(a + s) == Trim(s)
  {
    LeadingSpacesPadLeft(a, s);
    assert (a + s)[|a| + LeadingSpaces(s)..] == s[LeadingSpaces(s)..];
  }

  /** Whitespace added after a string does not change what it trims to. */
  lemma {:induction false} TrimPadRight(s: string, b: string)
    requires AllSpace(b)
    ensures Trim(s + b) == Trim(s)
  {
    var i := LeadingSpaces(s);
    if i < |s| {
      LeadingSpacesPadRight(s, b);
      var rest := s[i..];
      assert (s + b)[i..] == rest + b;
      TrailingSpacesPadRight(rest, b);
      assert (rest + b)[..|rest + b| - TrailingSpaces(rest + b)] == rest[..|rest| - TrailingSpaces(rest)];
    } else {
      assert AllSpace(s + b) by {
        forall k | 0 <= k < |s + b| ensures IsSpace((s + b)[k]) {
          if k < |s| {
            assert s[..i][k] == s[k];
          }
        }
      }
      TrimEmpty(s + b);
      TrimEmpty(s);
    }
  }

  /** Lower-casing keeps every whitespace character where it was, so it commutes with trimming. */
  lemma {:induction false} LowerKeepsLeadingSpaces(s: string)
    ensures LeadingSpaces(Lower(s)) == LeadingSpaces(s)
  {
    if s != [] {
      assert Lower(s)[1..] == Lower(s[1..]);
      LowerKeepsLeadingSpaces(s[1..]);
    }
  }

  lemma {:induction false} LowerKeepsTrailingSpaces(s: string)
    ensures TrailingSpaces(Lower(s)) == TrailingSpaces(s)
  {
    if s != [] {
      var n := |s| - 1;
      assert Lower(s)[..n] == Lower(s[..n]);
      LowerKeepsTrailingSpaces(s[..n]);
    }
  }

  lemma LowerDrop(s: string, i: nat)
    requires i <= |s|
    ensures Lower(s[i..]) == Lower(s)[i..]
  {
  }

  lemma LowerTake(s: string, m: nat)
    requires m <= |s|
    ensures Lower(s[..m]) == Lower(s)[..m]
  {
  }

  /** Trimming then lower-casing is the same as lower-casing then trimming. */
  lemma TrimLowerCommute(s: string)
    ensures Lower(Trim(s)) == Trim(Lower(s))
  {
    var i := LeadingSpaces(s);
    var rest := s[i..];
    var m := |rest| - TrailingSpaces(rest);
    LowerKeepsLeadingSpaces(s);
    LowerDrop(s, i);
    LowerKeepsTrailingSpaces(rest);
    LowerTake(rest, m);
  }

  /** Lower-casing twice is lower-casing once. */
  lemma LowerIdempotent(s: string)
    ensures Lower(Lower(s)) == Lower(s)
  {
  }
}
