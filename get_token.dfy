/**
 * `get_token`: from the value of the `Authorization` request header to the
 * bearer token or the status to answer with. The scheme is matched without
 * regard to case, as for the auth-scheme of section 2.1 of RFC 7235, but far
 * more loosely than the Bearer syntax of section 2.1 of RFC 6750: only the
 * first six characters are looked at, seven are then dropped and the rest is
 * trimmed.
 */
module TokenHeader {
  import opened Wrappers
  import opened Http
  import opened Text

  /** The scheme the lower-cased header value must start with. */
  const Scheme: string := "bearer"

  /** How many characters are dropped before the token: the scheme and one separator. */
  const PrefixLength: nat := 7

  /** A byte that `HeaderValue::to_str` accepts: a tab or a visible ASCII character (space included). */
  predicate IsVisibleAscii(b: Byte) {
    b == 9 || 32 <= b < 127
  }

  predicate AllVisibleAscii(v: seq<Byte>) {
    forall i :: 0 <= i < |v| ==> IsVisibleAscii(v[i])
  }

  /** `HeaderValue::to_str`: the value as text, when every byte is visible ASCII. */
  function ToStr(v: seq<Byte>): (r: Option<string>)
    ensures r.Some? <==> AllVisibleAscii(v)
    ensures r.Some? ==> |r.value| == |v| && forall i :: 0 <= i < |v| ==> r.value[i] as int == v[i] as int
  {
    if AllVisibleAscii(v) then Some(seq(|v|, i requires 0 <= i < |v| => v[i] as int as char)) else None
  }

  /**
   * `get_token`. `authorization` is the first `Authorization` header of the
   * request, absent when the request has none.
   */
  function GetToken(authorization: Option<seq<Byte>>): (r: Result<string, StatusCode>)
    ensures authorization.None? ==> r == Err(BadRequest400)
    ensures authorization.Some? && !AllVisibleAscii(authorization.value) ==> r == Err(InternalServerError500)
    ensures authorization.Some? && AllVisibleAscii(authorization.value) ==>
      && (r.Ok? <==> StartsWith(AsciiLowercase(ToStr(authorization.value).value), Scheme))
      && (r.Err? ==> r.error == BadRequest400)
    ensures r.Ok? ==>
      && IsTrimmed(r.value)
      && |r.value| <= (if |authorization.value| <= PrefixLength then 0 else |authorization.value| - PrefixLength)
      && IsTrimOf(r.value, SkipChars(ToStr(authorization.value).value, PrefixLength))
  {
    match authorization
    case None => Err(BadRequest400)
    case Some(value) =>
      match ToStr(value)
      case None => Err(InternalServerError500)
      case Some(text) =>
        if !StartsWith(AsciiLowercase(text), Scheme) then
          Err(BadRequest400)
        else
          var rest := SkipChars(text, PrefixLength);
          TrimIsTrimOf(rest);
          Ok(Trim(rest))
  }

  /**
   * The scheme test looks at the first six characters only and accepts each
   * of them in either case.
   */
  lemma SchemeMatchIgnoresCase(text: string)
    ensures StartsWith(AsciiLowercase(text), Scheme) <==>
      |text| >= |Scheme| && forall i :: 0 <= i < |Scheme| ==> text[i] == Scheme[i] || text[i] == "BEARER"[i]
  {
    if |text| >= |Scheme| {
      var lower := AsciiLowercase(text);
      if StartsWith(lower, Scheme) {
        forall i | 0 <= i < |Scheme|
          ensures text[i] == Scheme[i] || text[i] == "BEARER"[i]
        {
          assert lower[i] == Scheme[i];
        }
      }
      if forall i :: 0 <= i < |Scheme| ==> text[i] == Scheme[i] || text[i] == "BEARER"[i] {
        assert lower[..|Scheme|] == Scheme;
      }
    }
  }

  /** The ASCII text `s` as header bytes. */
  function Bytes(s: string): (v: seq<Byte>)
    requires forall i :: 0 <= i < |s| ==> s[i] as int < 256
    ensures |v| == |s|
  {
    seq(|s|, i requires 0 <= i < |s| => s[i] as int as Byte)
  }

  lemma ToStrBytes(s: string)
    requires forall i :: 0 <= i < |s| ==> s[i] == '\t' || ' ' <= s[i] <= '~'
    ensures ToStr(Bytes(s)) == Some(s)
  {
    var v := Bytes(s);
    assert AllVisibleAscii(v) by {
      forall i | 0 <= i < |v| ensures IsVisibleAscii(v[i]) {
        assert v[i] as int == s[i] as int;
      }
    }
    var t := ToStr(v).value;
    assert forall i :: 0 <= i < |s| ==> t[i] as int == s[i] as int;
    assert t == s;
  }

  /** A value that starts with "Bearer" or "bearer" passes the scheme test. */
  lemma BearerPasses(text: string)
    requires |text| >= |Scheme|
    requires text[..|Scheme|] == "Bearer" || text[..|Scheme|] == Scheme
    ensures StartsWith(AsciiLowercase(text), Scheme)
  {
    var lower := AsciiLowercase(text);
    forall i | 0 <= i < |Scheme|
      ensures lower[i] == Scheme[i]
    {
      assert text[i] == text[..|Scheme|][i];
    }
    assert lower[..|Scheme|] == Scheme;
  }

  /**
   * For a visible ASCII value that passes the scheme test, the token is the
   * value without its first seven characters, trimmed.
   */
  lemma AcceptedValue(text: string)
    requires forall i :: 0 <= i < |text| ==> text[i] == '\t' || ' ' <= text[i] <= '~'
    requires |text| >= |Scheme|
    requires text[..|Scheme|] == "Bearer" || text[..|Scheme|] == Scheme
    ensures GetToken(Some(Bytes(text))) == Ok(Trim(SkipChars(text, PrefixLength)))
  {
    ToStrBytes(text);
    BearerPasses(text);
  }

  /** A missing header and a header with another scheme are bad requests. */
  lemma MissingOrForeignSchemeIsBadRequest()
    ensures GetToken(None) == Err(BadRequest400)
    ensures GetToken(Some(Bytes("Basic xyz"))) == Err(BadRequest400)
  {
    ToStrBytes("Basic xyz");
    assert AsciiLowercase("Basic xyz")[1] == 'a' != Scheme[1];
  }

  /**
   * A header value that is not visible ASCII is an internal error, not a bad
   * request. The bytes that reach this branch are obs-text, 0x80 to 0xFF
   * (here 0xE9): the HTTP parser refuses control bytes in header values.
   */
  lemma InvisibleByteIsInternalError()
    ensures GetToken(Some([66, 0xE9])) == Err(InternalServerError500)
  {
    assert !IsVisibleAscii([66 as Byte, 0xE9][1]);
  }

  /** A value `AcceptedValue` covers gives whatever its rest trims to. */
  lemma TokenOf(text: string, token: string)
    requires forall i :: 0 <= i < |text| ==> text[i] == '\t' || ' ' <= text[i] <= '~'
    requires |text| >= |Scheme|
    requires text[..|Scheme|] == "Bearer" || text[..|Scheme|] == Scheme
    requires Trim(SkipChars(text, PrefixLength)) == token
    ensures GetToken(Some(Bytes(text))) == Ok(token)
  {
    AcceptedValue(text);
  }

  /** The scheme matches in lower case, and the token is the rest. */
  lemma LowerCaseSchemeExample()
    ensures GetToken(Some(Bytes("bearer abc123"))) == Ok("abc123")
  {
    assert Trim(SkipChars("bearer abc123", 7)) == "abc123" by {
      assert SkipChars("bearer abc123", 7) == "abc123";
      TrimKeepsTrimmed("abc123");
    }
    TokenOf("bearer abc123", "abc123");
  }

  /** Whitespace around the token is trimmed. */
  lemma TrimmedTokenExample()
    ensures GetToken(Some(Bytes("Bearer   xyz  "))) == Ok("xyz")
  {
    assert Trim(SkipChars("Bearer   xyz  ", 7)) == "xyz" by {
      assert SkipChars("Bearer   xyz  ", 7) == "  " + "xyz" + "  ";
      TrimPadded("  ", "xyz", "  ");
    }
    TokenOf("Bearer   xyz  ", "xyz");
  }

  /** An empty token is not rejected. */
  lemma EmptyTokenAccepted()
    ensures GetToken(Some(Bytes("Bearer"))) == Ok("")
    ensures GetToken(Some(Bytes("Bearer   "))) == Ok("")
  {
    assert Trim(SkipChars("Bearer", 7)) == "";
    TokenOf("Bearer", "");
    assert Trim(SkipChars("Bearer   ", 7)) == "" by {
      assert SkipChars("Bearer   ", 7) == "  " + "" + "";
      TrimPadded("  ", "", "");
    }
    TokenOf("Bearer   ", "");
  }

  /** The seventh character is dropped whatever it is: no space is needed after the scheme. */
  lemma NoSeparatorNeeded()
    ensures GetToken(Some(Bytes("BearerXabc"))) == Ok("abc")
  {
    assert Trim(SkipChars("BearerXabc", 7)) == "abc" by {
      assert SkipChars("BearerXabc", 7) == "abc";
      TrimKeepsTrimmed("abc");
    }
    TokenOf("BearerXabc", "abc");
  }
}
