/**
 * The JavaScript string primitives the contact form's validator relies on:
 * the whitespace class shared by `String.prototype.trim` and the regular
 * expression escape `\s`, `trim` itself, and `.length`, which counts UTF-16
 * code units rather than characters.
 *
 * Strings are sequences of Unicode scalar values (Dafny's `char`).
 */
module JsText {

  /** WhiteSpace or LineTerminator in ECMAScript: the characters that both
      `trim()` removes and `\s` matches. */
  predicate IsWhitespace(c: char) {
    || c == '\t' || c == '\n' || c == '\U{000B}' || c == '\U{000C}' || c == '\r'
    || c == ' ' || c == '\U{00A0}' || c == '\U{1680}'
    || ('\U{2000}' <= c <= '\U{200A}')
    || c == '\U{2028}' || c == '\U{2029}' || c == '\U{202F}' || c == '\U{205F}'
    || c == '\U{3000}' || c == '\U{FEFF}'
  }

  /** Every character of `s` is whitespace (vacuously true of ""). */
  predicate AllWhitespace(s: string) {
    forall k :: 0 <= k < |s| ==> IsWhitespace(s[k])
  }

  /** Length of the maximal whitespace prefix of `s`. */
  function LeadingWhitespace(s: string): (n: nat)
    ensures n <= |s|
    ensures forall k :: 0 <= k < n ==> IsWhitespace(s[k])
    ensures n == |s| || !IsWhitespace(s[n])
  {
    if s != [] && IsWhitespace(s[0]) then 1 + LeadingWhitespace(s[1..]) else 0
  }

  /** Length of the maximal whitespace suffix of `s`. */
  function TrailingWhitespace(s: string): (n: nat)
    ensures n <= |s|
    ensures forall k :: |s| - n <= k < |s| ==> IsWhitespace(s[k])
    ensures n == |s| || !IsWhitespace(s[|s| - 1 - n])
  {
    if s != [] && IsWhitespace(s[|s| - 1]) then 1 + TrailingWhitespace(s[..|s| - 1]) else 0
  }

  /** `String.prototype.trim`. */
  function Trim(s: string): (r: string)
    ensures |r| <= |s|
  {
    var t := s[LeadingWhitespace(s)..];
    t[..|t| - TrailingWhitespace(t)]
  }

  /** The prefix `trim` removes is whitespace. */
  lemma LeadingIsWhitespace(s: string)
    ensures AllWhitespace(s[..LeadingWhitespace(s)])
  {
    var pre := s[..LeadingWhitespace(s)];
    forall k | 0 <= k < |pre| ensures IsWhitespace(pre[k]) {
      assert pre[k] == s[k];
    }
  }

  /** The suffix `trim` removes is whitespace. */
  lemma TrailingIsWhitespace(t: string)
    ensures AllWhitespace(t[|t| - TrailingWhitespace(t)..])
  {
    var j := |t| - TrailingWhitespace(t);
    var post := t[j..];
    forall k | 0 <= k < |post| ensures IsWhitespace(post[k]) {
      assert post[k] == t[j + k];
    }
  }

  /** A string is its three consecutive slices joined. */
  lemma SliceThree(s: string, i: nat, j: nat)
    requires i <= j <= |s|
    ensures s == s[..i] + s[i..][..j - i] + s[i..][j - i..]
  {
    assert s[i..] == s[i..][..j - i] + s[i..][j - i..];
  }

  /** What `trim` removes: `s` is the result wrapped in whitespace on both
      sides. */
  lemma TrimShape(s: string)
    ensures exists pre, post :: AllWhitespace(pre) && AllWhitespace(post) && s == pre + Trim(s) + post
  {
    var i := LeadingWhitespace(s);
    var t := s[i..];
    var j := |t| - TrailingWhitespace(t);
    LeadingIsWhitespace(s);
    TrailingIsWhitespace(t);
    SliceThree(s, i, i + j);
    var pre, post := s[..i], t[j..];
    assert AllWhitespace(pre) && AllWhitespace(post) && s == pre + Trim(s) + post;
  }

  /** What `trim` keeps neither starts nor ends with whitespace, so no more
      could have been removed. */
  lemma TrimEnds(s: string)
    ensures Trim(s) == [] || (!IsWhitespace(Trim(s)[0]) && !IsWhitespace(Trim(s)[|Trim(s)| - 1]))
  {
    var i := LeadingWhitespace(s);
    var t := s[i..];
    var j := |t| - TrailingWhitespace(t);
    if Trim(s) != [] {
      assert Trim(s)[0] == t[0] && Trim(s)[|Trim(s)| - 1] == t[j - 1];
    }
  }

  /** `!s.trim()` in JavaScript: trimming leaves the empty string exactly when
      every character is whitespace. */
  lemma {:induction false} TrimEmptyIffAllWhitespace(s: string)
    ensures Trim(s) == [] <==> AllWhitespace(s)
  {
    TrimShape(s);
    var pre, post :| AllWhitespace(pre) && AllWhitespace(post) && s == pre + Trim(s) + post;
    if AllWhitespace(s) && Trim(s) != [] {
      assert false;
    }
    if Trim(s) == [] {
      assert s == pre + post;
      forall k | 0 <= k < |s| ensures IsWhitespace(s[k]) {
        if k >= |pre| {
          assert s[k] == post[k - |pre|];
        }
      }
    }
  }

  /** Number of UTF-16 code units a character occupies. */
  function CodeUnits(c: char): nat {
    if c as int < 0x1_0000 then 1 else 2
  }

  /** `s.length` in JavaScript: characters outside the Basic Multilingual Plane
      are stored as surrogate pairs and count twice. */
  function Utf16Length(s: string): (n: nat)
    ensures |s| <= n <= 2 * |s|
    ensures (forall k :: 0 <= k < |s| ==> s[k] as int < 0x1_0000) ==> n == |s|
  {
    if s == [] then 0 else CodeUnits(s[0]) + Utf16Length(s[1..])
  }
}
