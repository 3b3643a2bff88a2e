/** The JavaScript string built-ins the backend relies on, over `string`
    (a sequence of characters): `trim`, `includes`, `toLowerCase`, and the
    character classes used by the sentence pattern. */
module Text {

  /** A sentence-terminal character of the chunker's pattern `[.!?]`. */
  predicate IsTerminal(c: char)
  {
    c == '.' || c == '!' || c == '?'
  }

  predicate HasTerminal(s: string)
  {
    exists i :: 0 <= i < |s| && IsTerminal(s[i])
  }

  /** The characters `String.prototype.trim` removes: ECMAScript WhiteSpace
      and LineTerminator code points. */
  predicate IsWhitespace(c: char)
  {
    c == '\t' || c == '\n' || c == '\U{000B}' || c == '\U{000C}' || c == '\r' || c == ' '
    || c == '\U{00A0}' || c == '\U{1680}' || ('\U{2000}' <= c <= '\U{200A}')
    || c == '\U{2028}' || c == '\U{2029}' || c == '\U{202F}' || c == '\U{205F}'
    || c == '\U{3000}' || c == '\U{FEFF}'
  }

  /** Neither end of `s` is whitespace. */
  predicate Trimmed(s: string)
  {
    s == [] || (!IsWhitespace(s[0]) && !IsWhitespace(s[|s| - 1]))
  }

  /** Drops leading whitespace: the result is the suffix of `s` that starts at
      its first non-whitespace character. */
  function TrimStart(s: string): (r: string)
    ensures |r| <= |s| && r == s[|s| - |r|..]
    ensures forall i :: 0 <= i < |s| - |r| ==> IsWhitespace(s[i])
    ensures r == [] || !IsWhitespace(r[0])
  {
    if s != [] && IsWhitespace(s[0]) then TrimStart(s[1..]) else s
  }

  /** Drops trailing whitespace: the result is the prefix of `s` that ends at
      its last non-whitespace character. */
  function TrimEnd(s: string): (r: string)
    ensures |r| <= |s| && r == s[..|r|]
    ensures forall i :: |r| <= i < |s| ==> IsWhitespace(s[i])
    ensures r == [] || !IsWhitespace(r[|r| - 1])
  {
    if s != [] && IsWhitespace(s[|s| - 1]) then TrimEnd(s[..|s| - 1]) else s
  }

  /** `s.trim()` */
  function Trim(s: string): string
  {
    TrimEnd(TrimStart(s))
  }

  /** The trimmed string is a trimmed infix of `s`, shorter or equal, and it is
      empty exactly when `s` is all whitespace. */
  lemma TrimProperties(s: string)
    ensures Trimmed(Trim(s)) && |Trim(s)| <= |s|
    ensures Trim(s) == [] <==> forall i :: 0 <= i < |s| ==> IsWhitespace(s[i])
  {
    var t := TrimStart(s);
    var r := TrimEnd(t);
    if r != [] {
      assert r[0] == t[0];
    }
    if r != [] {
      assert !IsWhitespace(s[|s| - |t|]);
    }
  }

  /** A space appended to a string is removed again by `trim`. */
  lemma {:induction false} TrimAppendSpace(s: string)
    ensures Trim(s + " ") == Trim(s)
  {
    var t := TrimStart(s);
    if t == [] {
      TrimStartAllWhitespace(s + " ");
    } else {
      TrimStartAppend(s, " ");
      assert TrimStart(s + " ") == t + " ";
      assert (t + " ")[..|t + " "| - 1] == t;
    }
  }

  lemma {:induction false} TrimStartAllWhitespace(s: string)
    requires forall i :: 0 <= i < |s| ==> IsWhitespace(s[i])
    ensures TrimStart(s) == []
  {
    if s != [] {
      TrimStartAllWhitespace(s[1..]);
    }
  }

  lemma {:induction false} TrimStartAppend(s: string, u: string)
    requires TrimStart(s) != []
    ensures TrimStart(s + u) == TrimStart(s) + u
  {
    if IsWhitespace(s[0]) {
      assert (s + u)[1..] == s[1..] + u;
      TrimStartAppend(s[1..], u);
    }
  }

  /** `s.includes(p)`: `p` occurs in `s` at some position. */
  predicate Contains(s: string, p: string)
    decreases |s|
  {
    p <= s || (s != [] && Contains(s[1..], p))
  }

  /** Text that cannot start an occurrence of `p` can be skipped when searching
      for `p`. */
  lemma {:induction false} ContainsSkip(x: string, m: string, p: string)
    requires p != [] && p[0] !in x
    ensures Contains(x + m, p) <==> Contains(m, p)
  {
    if x != [] {
      assert (x + m)[0] == x[0] != p[0];
      assert !(p <= x + m);
      assert p[0] !in x[1..];
      assert (x + m)[1..] == x[1..] + m;
      ContainsSkip(x[1..], m, p);
    } else {
      assert x + m == m;
    }
  }

  /** A position whose text does not begin `p` can be skipped. */
  lemma ContainsStep(c: char, m: string, p: string)
    requires !(p <= [c] + m)
    ensures Contains([c] + m, p) <==> Contains(m, p)
  {
    assert ([c] + m)[1..] == m;
  }

  /** `toLowerCase` on a character: A-Z map to a-z, all others are kept. */
  function LowerChar(c: char): (r: char)
  {
    if 'A' <= c <= 'Z' then (c as int + 32) as char else c
  }

  /** `s.toLowerCase()`, character by character. */
  function ToLower(s: string): (r: string)
    ensures |r| == |s|
    ensures forall i :: 0 <= i < |s| ==> r[i] == LowerChar(s[i])
  {
    seq(|s|, i requires 0 <= i < |s| => LowerChar(s[i]))
  }

  /** Lower-casing never creates or removes a '.' or a '/'. */
  lemma LowerCharKeepsSeparators(c: char)
    ensures LowerChar(c) == '.' <==> c == '.'
    ensures LowerChar(c) == '/' <==> c == '/'
  {
  }
}
