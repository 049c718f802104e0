/**
 * `SignatureManager.verify_signature` (webhook/signature.py:21-67). The token
 * is NOT encrypted: it is base64url (section 5 of RFC 4648) of a JSON object
 * `{data, signature}` whose `signature` is the hex HMAC-SHA256, under the
 * process secret, of `json.dumps(data, sort_keys=True)`. Three checks run in
 * order: format, HMAC, then the optional expiry.
 *
 * Base64url decoding with UTF-8 and JSON parsing is one function passed in
 * (`decode`), as are the HMAC and the serialiser; the key sort that
 * `sort_keys=True` performs is the one of module KeySort.
 */
module RequestToken {

  import opened Base
  import opened Json
  import opened KeySort
  import CassoSignature

  /** What decoding the token text produced. */
  datatype Decoded =
    | BadBase64            // `urlsafe_b64decode` raised
    | BadUtf8              // the bytes are not UTF-8
    | BadJson              // `json.loads` raised `JSONDecodeError`
    | Parsed(payload: Value)

  /** Every failure surfaces as a `ValueError`; these are its messages. */
  datatype TokenError =
    | InvalidFormat        // "Invalid signature format"
    | VerificationFailed   // "Signature verification failed"
    | SignatureExpired     // "Signature has expired"
    | Malformed            // any other error, re-raised with its own text

  /** The digest of `data` that a genuine token carries. */
  function ExpectedSignature(data: Value, secretKey: string,
                             hmacSha256Hex: (string, string) -> string,
                             dumps: Value -> string): string {
    hmacSha256Hex(secretKey, dumps(Canon(data)))
  }

  /**
   * The expiry decision on `data.get('expired_at')`: skipped when the value is
   * falsy, rejecting iff `now > expired_at`, and a `TypeError` (so `Malformed`)
   * when the value is truthy but not a number.
   */
  function CheckExpiry(expiredAt: Value, now: int): (r: Option<TokenError>)
    ensures !Truthy(expiredAt) ==> r == None
    ensures expiredAt.JInt? && expiredAt.n != 0 ==>
              (r == Some(SignatureExpired) <==> now > expiredAt.n) && (r.None? <==> now <= expiredAt.n)
  {
    if !Truthy(expiredAt) then None
    else
      match IntView(expiredAt)
      case None => Some(Malformed)
      case Some(t) => if now > t then Some(SignatureExpired) else None
  }

  /** `SignatureManager.verify_signature(token)` at time `now`. */
  function Verify(token: string, secretKey: string, now: int,
                  decode: string -> Decoded,
                  hmacSha256Hex: (string, string) -> string,
                  dumps: Value -> string): (r: Result<Value, TokenError>)
    ensures r.Ok? ==> r.value.JObject? && r.value.fields != []
  {
    match decode(token)
    case BadBase64 => Err(Malformed)
    case BadUtf8 => Err(Malformed)
    case BadJson => Err(InvalidFormat)
    case Parsed(payload) =>
      if !payload.JObject? then Err(Malformed)   // `payload.get` raises
      else
        var data := Get(payload.fields, "data", JNull);
        var signature := Get(payload.fields, "signature", JNull);
        if !Truthy(data) || !Truthy(signature) then Err(InvalidFormat)
        else
          var expected := ExpectedSignature(data, secretKey, hmacSha256Hex, dumps);
          if !(signature.JStr? && CassoSignature.IsAscii(signature.s) && CassoSignature.IsAscii(expected)) then
            Err(Malformed)                          // `compare_digest` raises `TypeError`
          else if signature.s != expected then Err(VerificationFailed)
          else if !data.JObject? then Err(Malformed) // `data.get` raises
          else
            match CheckExpiry(Get(data.fields, "expired_at", JNull), now)
            case Some(e) => Err(e)
            case None => Ok(data)
  }

  /**
   * A token is accepted only if it decodes to a dict whose `data` is a dict,
   * whose `signature` is the HMAC of the key-sorted `data`, and which has not
   * expired; the value returned is exactly that `data`.
   */
  lemma AcceptedTokensAreGenuine(token: string, secretKey: string, now: int,
                                 decode: string -> Decoded,
                                 hmacSha256Hex: (string, string) -> string,
                                 dumps: Value -> string)
    requires Verify(token, secretKey, now, decode, hmacSha256Hex, dumps).Ok?
    ensures var data := Verify(token, secretKey, now, decode, hmacSha256Hex, dumps).value;
      && decode(token).Parsed?
      && decode(token).payload.JObject?
      && data == Get(decode(token).payload.fields, "data", JNull)
      && data.JObject? && data.fields != []
      && Get(decode(token).payload.fields, "signature", JNull)
           == JStr(ExpectedSignature(data, secretKey, hmacSha256Hex, dumps))
      && CheckExpiry(Get(data.fields, "expired_at", JNull), now).None?
  {
  }

  /** A payload without a truthy `data` or `signature` fails the format check first. */
  lemma FormatCheckedFirst(token: string, secretKey: string, now: int,
                           decode: string -> Decoded,
                           hmacSha256Hex: (string, string) -> string,
                           dumps: Value -> string)
    requires decode(token).Parsed? && decode(token).payload.JObject?
    requires var fs := decode(token).payload.fields;
             !Truthy(Get(fs, "data", JNull)) || !Truthy(Get(fs, "signature", JNull))
    ensures Verify(token, secretKey, now, decode, hmacSha256Hex, dumps) == Err(InvalidFormat)
  {
  }

  /**
   * The HMAC is checked before the expiry and the shape of `data`: a token
   * whose signature string does not match is reported as a verification
   * failure whatever its `data` holds, even when it has also expired.
   */
  lemma TamperedBeatsExpired(token: string, secretKey: string, now: int,
                             decode: string -> Decoded,
                             hmacSha256Hex: (string, string) -> string,
                             dumps: Value -> string)
    requires decode(token).Parsed? && decode(token).payload.JObject?
    requires var fs := decode(token).payload.fields;
             var data := Get(fs, "data", JNull);
             var sig := Get(fs, "signature", JNull);
             var expected := ExpectedSignature(data, secretKey, hmacSha256Hex, dumps);
             && Truthy(data)
             && sig.JStr? && sig.s != "" && CassoSignature.IsAscii(sig.s) && CassoSignature.IsAscii(expected)
             && sig.s != expected
    ensures Verify(token, secretKey, now, decode, hmacSha256Hex, dumps) == Err(VerificationFailed)
  {
  }

  /** The payload the originating service encodes: `{"data": data, "signature": hmac}`. */
  function SealedPayload(data: Value, secretKey: string,
                         hmacSha256Hex: (string, string) -> string,
                         dumps: Value -> string): Value {
    JObject([Field("data", data),
             Field("signature", JStr(ExpectedSignature(data, secretKey, hmacSha256Hex, dumps)))])
  }

  /**
   * A token sealed over a non-empty dict with the same secret opens to that
   * dict as long as the clock has not passed its `expired_at`; the boundary
   * `now == expired_at` is still accepted.
   */
  lemma SealedTokenOpens(token: string, data: Value, secretKey: string, now: int,
                         decode: string -> Decoded,
                         hmacSha256Hex: (string, string) -> string,
                         dumps: Value -> string)
    requires decode(token) == Parsed(SealedPayload(data, secretKey, hmacSha256Hex, dumps))
    requires data.JObject? && data.fields != []
    requires var expected := ExpectedSignature(data, secretKey, hmacSha256Hex, dumps);
             expected != "" && CassoSignature.IsAscii(expected)
    requires var e := Get(data.fields, "expired_at", JNull);
             e == JNull || (e.JInt? && now <= e.n)
    ensures Verify(token, secretKey, now, decode, hmacSha256Hex, dumps) == Ok(data)
  {
    var p := SealedPayload(data, secretKey, hmacSha256Hex, dumps);
    assert Lookup(p.fields, "data") == Some(data);
    assert Lookup(p.fields, "signature") == Some(p.fields[1].value) by {
      assert p.fields[1..] == [p.fields[1]];
    }
  }

  /** Once `now` passes `expired_at`, the same sealed token is rejected as expired. */
  lemma SealedTokenExpires(token: string, data: Value, secretKey: string, now: int,
                           decode: string -> Decoded,
                           hmacSha256Hex: (string, string) -> string,
                           dumps: Value -> string)
    requires decode(token) == Parsed(SealedPayload(data, secretKey, hmacSha256Hex, dumps))
    requires data.JObject? && data.fields != []
    requires var expected := ExpectedSignature(data, secretKey, hmacSha256Hex, dumps);
             expected != "" && CassoSignature.IsAscii(expected)
    requires var e := Get(data.fields, "expired_at", JNull);
             e.JInt? && e.n != 0 && now > e.n
    ensures Verify(token, secretKey, now, decode, hmacSha256Hex, dumps) == Err(SignatureExpired)
  {
    var p := SealedPayload(data, secretKey, hmacSha256Hex, dumps);
    assert Lookup(p.fields, "data") == Some(data);
    assert Lookup(p.fields, "signature") == Some(p.fields[1].value) by {
      assert p.fields[1..] == [p.fields[1]];
    }
  }
}
