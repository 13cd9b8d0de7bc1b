/**
 Definitions shared by the three front ends: a result type for the
 exceptions they raise, a sequence filter used to state what the lexers
 keep, and the Python character classes the lexers branch on.
 */
module Common {

  /** A value or the exception raised instead of it. */
  datatype Result<+T, +E> = Ok(value: T) | Err(error: E)

  /** The elements of `s` that satisfy `p`, in order. */
  function Filter<T>(s: seq<T>, p: T -> bool): (r: seq<T>)
    ensures |r| <= |s|
    ensures forall i :: 0 <= i < |r| ==> p(r[i])
  {
    if s == [] then [] else Filter(s[..|s| - 1], p) + (if p(s[|s| - 1]) then [s[|s| - 1]] else [])
  }

  lemma FilterAppend<T>(s: seq<T>, c: T, p: T -> bool)
    ensures Filter(s + [c], p) == Filter(s, p) + (if p(c) then [c] else [])
  {
    assert (s + [c])[..|s + [c]| - 1] == s;
  }

  /** Extending a prefix of `s` by the next element. */
  lemma TakeSnoc<T>(s: seq<T>, i: nat)
    requires i < |s|
    ensures s[..i] + [s[i]] == s[..i + 1]
  {
  }

  /** `r` is what is left of `s` after removing elements from its front. */
  predicate IsSuffix<T(==)>(r: seq<T>, s: seq<T>)
  {
    |r| <= |s| && r == s[|s| - |r|..]
  }

  /** A suffix of the tail of `s` is a strictly shorter suffix of `s` itself. */
  lemma SuffixOfTail<T>(r: seq<T>, s: seq<T>)
    ensures s != [] && IsSuffix(r, s[1..]) ==> IsSuffix(r, s) && |r| < |s|
  {
    if s != [] && IsSuffix(r, s[1..]) {
      assert s[1..][|s| - 1 - |r|..] == s[|s| - |r|..];
    }
  }

  /** The Greek letter lambda, U+03BB. */
  const GreekLambda: char := '\U{03BB}'

  /** The CJK ideograph U+4F4D that one of the front ends uses as its lambda sign. */
  const CjkLambda: char := '\U{4F4D}'

  /**
   Python's `str.isalpha` on one character, restricted to the letters that
   matter here: ASCII letters, the Greek letters and the CJK unified
   ideographs. Both lambda signs are letters.
   */
  predicate IsAlpha(c: char)
  {
    || ('a' <= c <= 'z')
    || ('A' <= c <= 'Z')
    || ('\U{0391}' <= c <= '\U{03A9}')
    || ('\U{03B1}' <= c <= '\U{03C9}')
    || ('\U{4E00}' <= c <= '\U{9FFF}')
  }

  /** Python's `str.isdigit` on one character, restricted to ASCII digits. */
  predicate IsDigit(c: char)
  {
    '0' <= c <= '9'
  }

  /** Python's `str.isalnum` on one character. */
  predicate IsAlnum(c: char)
  {
    IsAlpha(c) || IsDigit(c)
  }

  /** Python's `str.isspace` on one character, restricted to ASCII white space. */
  predicate IsSpace(c: char)
  {
    c == ' ' || ('\t' <= c <= '\r') || ('\U{001C}' <= c <= '\U{001F}')
  }
}
