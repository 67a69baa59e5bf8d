/**
 * The pieces of Rust's standard string library that the core relies on:
 * `char::is_whitespace`, `str::to_lowercase` on ASCII text, `str::trim`,
 * `Iterator::skip` over chars, and `to_string` on an unsigned integer.
 */
module Text {

  /** `char::is_whitespace`: the characters with the Unicode White_Space property. */
  predicate IsWhitespace(c: char) {
    || ('\t' <= c <= '\r')
    || c == ' '
    || c == '\U{85}'
    || c == '\U{A0}'
    || c == '\U{1680}'
    || ('\U{2000}' <= c <= '\U{200A}')
    || c == '\U{2028}'
    || c == '\U{2029}'
    || c == '\U{202F}'
    || c == '\U{205F}'
    || c == '\U{3000}'
  }

  predicate AllWhitespace(s: string) {
    forall i :: 0 <= i < |s| ==> IsWhitespace(s[i])
  }

  /** Neither end of `s` is whitespace (true of the empty string). */
  predicate IsTrimmed(s: string) {
    s == [] || (!IsWhitespace(s[0]) && !IsWhitespace(s[|s| - 1]))
  }

  predicate IsDigit(c: char) {
    '0' <= c <= '9'
  }

  predicate IsLowerAsciiLetter(c: char) {
    'a' <= c <= 'z'
  }

  /** Lower-casing of one character as `to_lowercase` does it for ASCII. */
  function ToLowerAscii(c: char): char {
    if 'A' <= c <= 'Z' then (c as int + 32) as char else c
  }

  /** `str::to_lowercase` on a string made of ASCII characters only. */
  function AsciiLowercase(s: string): (r: string)
    ensures |r| == |s|
  {
    seq(|s|, i requires 0 <= i < |s| => ToLowerAscii(s[i]))
  }

  predicate StartsWith(s: string, prefix: string) {
    |prefix| <= |s| && s[..|prefix|] == prefix
  }

  /** `s.chars().skip(n).collect()`: every character after the first `n`. */
  function SkipChars(s: string, n: nat): (r: string)
    ensures |r| == if |s| <= n then 0 else |s| - n
    ensures forall i :: 0 <= i < |r| ==> r[i] == s[n + i]
  {
    if |s| <= n then [] else s[n..]
  }

  function TrimStart(s: string): string {
    if s != [] && IsWhitespace(s[0]) then TrimStart(s[1..]) else s
  }

  function TrimEnd(s: string): string {
    if s != [] && IsWhitespace(s[|s| - 1]) then TrimEnd(s[..|s| - 1]) else s
  }

  /** `t` is `s` with whitespace only cut from both ends: a window of `s` whose outside is all whitespace. */
  ghost predicate IsTrimOf(t: string, s: string) {
    exists i :: 0 <= i <= |s| - |t| && s[i..i + |t|] == t && AllWhitespace(s[..i]) && AllWhitespace(s[i + |t|..])
  }

  lemma {:induction false} TrimStartSplit(s: string) returns (k: nat)
    ensures k <= |s| && TrimStart(s) == s[k..] && AllWhitespace(s[..k])
    ensures TrimStart(s) == [] || !IsWhitespace(TrimStart(s)[0])
  {
    if s != [] && IsWhitespace(s[0]) {
      var k' := TrimStartSplit(s[1..]);
      k := k' + 1;
      assert s[1..][k'..] == s[k..];
      assert forall i :: 0 < i < k ==> s[..k][i] == s[1..][..k'][i - 1];
    } else {
      k := 0;
    }
  }

  lemma {:induction false} TrimEndSplit(s: string) returns (k: nat)
    ensures k <= |s| && TrimEnd(s) == s[..k] && AllWhitespace(s[k..])
    ensures TrimEnd(s) == [] || !IsWhitespace(TrimEnd(s)[|TrimEnd(s)| - 1])
  {
    if s != [] && IsWhitespace(s[|s| - 1]) {
      var s' := s[..|s| - 1];
      k := TrimEndSplit(s');
      assert s'[..k] == s[..k];
      assert forall i :: 0 <= i < |s| - k - 1 ==> s[k..][i] == s'[k..][i];
    } else {
      k := |s|;
    }
  }

  /** Dropping whitespace from the start, then from the end, cuts whitespace only and leaves a trimmed window. */
  lemma TrimStartThenEnd(s: string)
    ensures IsTrimOf(TrimEnd(TrimStart(s)), s)
    ensures IsTrimmed(TrimEnd(TrimStart(s)))
    ensures |TrimEnd(TrimStart(s))| <= |s|
  {
    var i := TrimStartSplit(s);
    var u := TrimStart(s);
    var j := TrimEndSplit(u);
    var t := TrimEnd(u);
    assert IsTrimOf(t, s) by {
      assert t == s[i..i + j];
      assert s[i + j..] == u[j..];
      assert s[i..i + |t|] == t && AllWhitespace(s[..i]) && AllWhitespace(s[i + |t|..]);
    }
    if t != [] {
      assert t[0] == u[0];
    }
  }

  /** `str::trim`: drop leading and trailing whitespace. */
  function Trim(s: string): (r: string)
    ensures IsTrimmed(r)
    ensures |r| <= |s|
  {
    TrimStartThenEnd(s);
    TrimEnd(TrimStart(s))
  }

  /**
   * What `trim` means: its result is a window of the input, everything cut
   * away is whitespace, and the result neither starts nor ends with whitespace.
   */
  lemma TrimIsTrimOf(s: string)
    ensures IsTrimOf(Trim(s), s)
  {
    TrimStartThenEnd(s);
  }

  /** `trim` leaves a string that neither starts nor ends with whitespace as it is. */
  lemma TrimKeepsTrimmed(s: string)
    requires IsTrimmed(s)
    ensures Trim(s) == s
  {
  }

  lemma {:induction false} TrimStartPadded(pre: string, rest: string)
    requires AllWhitespace(pre)
    requires rest == [] || !IsWhitespace(rest[0])
    ensures TrimStart(pre + rest) == rest
  {
    if pre != [] {
      assert (pre + rest)[1..] == pre[1..] + rest;
      TrimStartPadded(pre[1..], rest);
    } else {
      assert pre + rest == rest;
    }
  }

  lemma {:induction false} TrimEndPadded(rest: string, post: string)
    requires AllWhitespace(post)
    requires rest == [] || !IsWhitespace(rest[|rest| - 1])
    ensures TrimEnd(rest + post) == rest
  {
    if post != [] {
      var post' := post[..|post| - 1];
      assert (rest + post)[..|rest + post| - 1] == rest + post';
      TrimEndPadded(rest, post');
    } else {
      assert rest + post == rest;
    }
  }

  /**
   * The converse of `TrimIsTrimOf`: padding a trimmed string with whitespace
   * on both sides and trimming gives it back.
   */
  lemma TrimPadded(pre: string, t: string, post: string)
    requires AllWhitespace(pre) && AllWhitespace(post) && IsTrimmed(t)
    ensures Trim(pre + t + post) == t
  {
    if t == [] {
      assert pre + t + post == (pre + post) + [];
      TrimStartPadded(pre + post, []);
    } else {
      assert pre + t + post == pre + (t + post);
      TrimStartPadded(pre, t + post);
      TrimEndPadded(t, post);
    }
  }

  /** `trim` is idempotent. */
  lemma TrimIdempotent(s: string)
    ensures Trim(Trim(s)) == Trim(s)
  {
    TrimIsTrimOf(s);
    TrimKeepsTrimmed(Trim(s));
  }

  /** The character for a decimal digit value. */
  function DigitChar(d: nat): (c: char)
    requires d < 10
    ensures IsDigit(c)
  {
    ('0' as int + d) as char
  }

  /** `to_string` of an unsigned integer: its decimal digits, most significant first, no leading zero. */
  function DecimalString(n: nat): (r: string)
    ensures 1 <= |r|
    ensures forall i :: 0 <= i < |r| ==> IsDigit(r[i])
    ensures |r| == 1 <==> n < 10
    ensures r[0] == '0' ==> n == 0
  {
    if n < 10 then [DigitChar(n)] else DecimalString(n / 10) + [DigitChar(n % 10)]
  }
}
