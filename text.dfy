/** String primitives the core relies on: trimming by a whitespace set,
    ASCII lower-casing, suffix tests and prefixes. */
module Text {

  /** Whose notion of whitespace a trim uses. JavaScript's
      `String.prototype.trim` strips ECMAScript WhiteSpace and
      LineTerminator characters; Python's `str.strip()` strips the
      characters for which `str.isspace()` holds. */
  datatype Whitespace = EcmaScript | Python

  /** ECMAScript WhiteSpace (including the Zs separators) and
      LineTerminator characters. */
  const EcmaScriptSpaces: set<char> :=
    {'\t', '\n', '\U{B}', '\U{C}', '\r', ' ', '\U{A0}', '\U{1680}',
     '\U{2000}', '\U{2001}', '\U{2002}', '\U{2003}', '\U{2004}', '\U{2005}',
     '\U{2006}', '\U{2007}', '\U{2008}', '\U{2009}', '\U{200A}',
     '\U{2028}', '\U{2029}', '\U{202F}', '\U{205F}', '\U{3000}', '\U{FEFF}'}

  /** The characters for which Python's `str.isspace()` holds. */
  const PythonSpaces: set<char> :=
    {'\t', '\n', '\U{B}', '\U{C}', '\r', '\U{1C}', '\U{1D}', '\U{1E}', '\U{1F}',
     ' ', '\U{85}', '\U{A0}', '\U{1680}',
     '\U{2000}', '\U{2001}', '\U{2002}', '\U{2003}', '\U{2004}', '\U{2005}',
     '\U{2006}', '\U{2007}', '\U{2008}', '\U{2009}', '\U{200A}',
     '\U{2028}', '\U{2029}', '\U{202F}', '\U{205F}', '\U{3000}'}

  predicate IsSpace(w: Whitespace, c: char) {
    c in (if w == EcmaScript then EcmaScriptSpaces else PythonSpaces)
  }

  /** True when `s` neither starts nor ends with a whitespace character. */
  predicate Trimmed(w: Whitespace, s: string) {
    s == [] || (!IsSpace(w, s[0]) && !IsSpace(w, s[|s| - 1]))
  }

  /** `s` without its leading whitespace; what is left does not start
      with whitespace. */
  function TrimStart(w: Whitespace, s: string): (r: string)
    ensures r != [] ==> !IsSpace(w, r[0])
  {
    if s != [] && IsSpace(w, s[0]) then TrimStart(w, s[1..]) else s
  }

  /** `s` without its trailing whitespace; what is left does not end with
      whitespace. */
  function TrimEnd(w: Whitespace, s: string): (r: string)
    ensures r != [] ==> !IsSpace(w, r[|r| - 1])
  {
    if s != [] && IsSpace(w, s[|s| - 1]) then TrimEnd(w, s[..|s| - 1]) else s
  }

  /** `TrimStart` keeps a suffix of its input and drops only whitespace. */
  lemma {:induction false} TrimStartIsSuffix(w: Whitespace, s: string)
    ensures |TrimStart(w, s)| <= |s| && TrimStart(w, s) == s[|s| - |TrimStart(w, s)|..]
    ensures forall k :: 0 <= k < |s| - |TrimStart(w, s)| ==> IsSpace(w, s[k])
  {
    if s != [] && IsSpace(w, s[0]) {
      TrimStartIsSuffix(w, s[1..]);
    }
  }

  /** `TrimEnd` keeps a prefix of its input and drops only whitespace. */
  lemma {:induction false} TrimEndIsPrefix(w: Whitespace, s: string)
    ensures |TrimEnd(w, s)| <= |s| && TrimEnd(w, s) == s[..|TrimEnd(w, s)|]
    ensures forall k :: |TrimEnd(w, s)| <= k < |s| ==> IsSpace(w, s[k])
  {
    if s != [] && IsSpace(w, s[|s| - 1]) {
      TrimEndIsPrefix(w, s[..|s| - 1]);
    }
  }

  /** Both ends trimmed: JavaScript `s.trim()` for `EcmaScript`, Python
      `s.strip()` for `Python`. */
  function Trim(w: Whitespace, s: string): (r: string)
    ensures Trimmed(w, r)
  {
    TrimEndIsPrefix(w, TrimStart(w, s));
    TrimEnd(w, TrimStart(w, s))
  }

  /** What `Trim` keeps is a contiguous slice of its input, and all it
      drops on either side is whitespace. */
  lemma TrimIsSlice(w: Whitespace, s: string)
    ensures var i := |s| - |TrimStart(w, s)|;
            var j := i + |Trim(w, s)|;
            0 <= i <= j <= |s| && Trim(w, s) == s[i..j]
            && (forall k :: 0 <= k < i ==> IsSpace(w, s[k]))
            && (forall k :: j <= k < |s| ==> IsSpace(w, s[k]))
  {
    var t := TrimStart(w, s);
    TrimStartIsSuffix(w, s);
    var r := TrimEnd(w, t);
    TrimEndIsPrefix(w, t);
    var i := |s| - |t|;
    assert t == s[i..];
    SpaceTail(w, s, i, |r|);
    assert r == s[i..i + |r|] by {
      assert s[i..][..|r|] == s[i..i + |r|];
    }
  }

  /** Whitespace at the end of a suffix is whitespace at the end of the
      whole string. */
  lemma SpaceTail(w: Whitespace, s: string, i: nat, n: nat)
    requires i + n <= |s|
    requires forall k :: n <= k < |s[i..]| ==> IsSpace(w, s[i..][k])
    ensures forall k :: i + n <= k < |s| ==> IsSpace(w, s[k])
  {
    forall k | i + n <= k < |s|
      ensures IsSpace(w, s[k])
    {
      assert s[k] == s[i..][k - i];
    }
  }

  /** Trimming leaves a string that has no surrounding whitespace
      unchanged. */
  lemma {:induction false} TrimOfTrimmed(w: Whitespace, s: string)
    requires Trimmed(w, s)
    ensures Trim(w, s) == s
  {
  }

  /** Trimming is idempotent. */
  lemma TrimIdempotent(w: Whitespace, s: string)
    ensures Trim(w, Trim(w, s)) == Trim(w, s)
  {
    TrimOfTrimmed(w, Trim(w, s));
  }

  /** ASCII lower-casing of one character; every other character is kept. */
  function LowerChar(c: char): char {
    if 'A' <= c <= 'Z' then (c as int + 32) as char else c
  }

  /** ASCII lower-casing of a string, character by character. */
  function Lower(s: string): (r: string)
    ensures |r| == |s|
    ensures forall k :: 0 <= k < |s| ==> r[k] == LowerChar(s[k])
  {
    seq(|s|, k requires 0 <= k < |s| => LowerChar(s[k]))
  }

  /** No ASCII capital letter survives lower-casing. */
  lemma LowerHasNoCapital(s: string)
    ensures forall k :: 0 <= k < |s| ==> !('A' <= Lower(s)[k] <= 'Z')
  {
  }

  /** Lower-casing is idempotent. */
  lemma LowerIdempotent(s: string)
    ensures Lower(Lower(s)) == Lower(s)
  {
  }

  /** Lower-casing never turns whitespace into non-whitespace or back, so
      a trimmed string stays trimmed. */
  lemma LowerKeepsTrimmed(w: Whitespace, s: string)
    requires Trimmed(w, s)
    ensures Trimmed(w, Lower(s))
  {
  }

  /** Python `s.endswith(suffix)`. */
  predicate EndsWith(s: string, suffix: string) {
    |suffix| <= |s| && s[|s| - |suffix|..] == suffix
  }

  /** Python `s[:n]`: the first `n` characters, or all of `s` if shorter. */
  function Take(s: string, n: nat): (r: string)
    ensures |r| <= n && |r| <= |s|
    ensures |s| <= n ==> r == s
    ensures n < |s| ==> |r| == n
    ensures r == s[..|r|]
  {
    if |s| <= n then s else s[..n]
  }
}
