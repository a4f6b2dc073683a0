/** Signed checkout tokens. */
module CheckoutTokens {
  import opened Text
  import opened Cidr
  import opened Base64

  datatype Claims = Claims(quoteId: string, expiresAt: int, amount: Option<int>, pricing: Option<string>)

  /** The payload with its version field, as JSON carries it. */
  datatype Payload = Payload(claims: Claims, version: int)

  /** What the codec is built on: its keyed MAC, and a JSON rendering. */
  datatype Codec = Codec(
    mac: string -> seq<byte>,
    render: Payload -> seq<byte>,
    parse: seq<byte> -> Option<Payload>)

  /** The only thing asked of JSON: what was rendered parses back. */
  ghost predicate Faithful(codec: Codec) {
    forall p :: codec.parse(codec.render(p)) == Some(p)
  }

  datatype Result<+T> = Ok(value: T) | Error(code: string)

  function Issue(codec: Codec, claims: Claims): Result<string> {
    if claims.quoteId == "" || claims.expiresAt <= 0 then Error("invalid_checkout_token_claims")
    else
      var encoded := EncodeUrl(codec.render(Payload(claims, 1)));
      Ok(encoded + "." + EncodeUrl(codec.mac(encoded)))
  }

  /** The position of the first separator. */
  function FirstDot(s: string): Option<nat> {
    if |s| == 0 then None
    else if s[0] == '.' then Some(0)
    else
      var rest := FirstDot(s[1..]);
      if rest.None? then None else Some(rest.value + 1)
  }

  lemma {:induction false} FirstDotOf(a: string, b: string)
    requires '.' !in a
    ensures FirstDot(a + "." + b) == Some(|a|)
  {
    if |a| == 0 {
      assert a + "." + b == "." + b;
    } else {
      assert (a + "." + b)[1..] == a[1..] + "." + b;
      assert '.' !in a[1..];
      FirstDotOf(a[1..], b);
    }
  }

  lemma {:induction false} FirstDotBound(s: string)
    ensures FirstDot(s).Some? ==> FirstDot(s).value < |s|
  {
    if |s| > 0 {
      FirstDotBound(s[1..]);
    }
  }

  const INVALID := "checkout_token_invalid"

  function CheckClaims(p: Payload, now: int): Result<Claims> {
    if p.version != 1 || p.claims.quoteId == "" then Error(INVALID)
    else if p.claims.expiresAt <= now then Error("checkout_token_expired")
    else if p.claims.amount.Some? && p.claims.amount.value <= 0 then Error(INVALID)
    else Ok(p.claims)
  }

  /** The claims behind a token whose signature is right. */
  function OpenPayload(codec: Codec, encoded: string): Option<Payload> {
    var bytes := DecodeUrl(encoded);
    if bytes.None? then None else codec.parse(bytes.value)
  }

  function Verify(codec: Codec, token: string, now: int): Result<Claims> {
    var dot := FirstDot(token);
    FirstDotBound(token);
    if dot.None? then Error(INVALID)
    else
      var encoded, signature := token[..dot.value], DecodeUrl(token[dot.value + 1..]);
      if !Ascii(encoded) then Error(INVALID)
      else if signature != Some(codec.mac(encoded)) then Error(INVALID)
      else
        var payload := OpenPayload(codec, encoded);
        if payload.None? then Error(INVALID) else CheckClaims(payload.value, now)
  }

  lemma IssuedOpens(codec: Codec, claims: Claims, now: int)
    requires Faithful(codec) && Issue(codec, claims).Ok?
    ensures Verify(codec, Issue(codec, claims).value, now) == CheckClaims(Payload(claims, 1), now)
  {
    var payload := codec.render(Payload(claims, 1));
    var encoded := EncodeUrl(payload);
    var signature := EncodeUrl(codec.mac(encoded));
    var token := encoded + "." + signature;
    UrlRoundTrip(payload);
    UrlRoundTrip(codec.mac(encoded));
    FirstDotOf(encoded, signature);
    assert token[..|encoded|] == encoded && token[|encoded| + 1..] == signature;
  }

  /** Claims can be issued if and only if they name a quote and an expiry. */
  lemma IssuedExactly(codec: Codec, claims: Claims)
    ensures Issue(codec, claims).Ok? <==> claims.quoteId != "" && claims.expiresAt > 0
  {
  }

  /** Whatever could be issued verifies to its own claims exactly while it has not expired and its
      amount, if any, is positive; expiry is reported first. */
  lemma IssuedVerifies(codec: Codec, claims: Claims, now: int)
    requires Faithful(codec) && Issue(codec, claims).Ok?
    ensures
      var verified := Verify(codec, Issue(codec, claims).value, now);
      && (verified == Ok(claims)
          <==> now < claims.expiresAt && (claims.amount.None? || claims.amount.value > 0))
      && (verified == Error("checkout_token_expired") <==> claims.expiresAt <= now)
  {
    IssuedOpens(codec, claims, now);
  }

  /** A token that verifies carries the MAC of its payload and unexpired, positive claims. */
  lemma VerifiedIsSigned(codec: Codec, token: string, now: int)
    requires Verify(codec, token, now).Ok?
    ensures
      var claims := Verify(codec, token, now).value;
      && claims.expiresAt > now && claims.quoteId != "" && (claims.amount.Some? ==> claims.amount.value > 0)
      && exists i: nat :: i < |token| && token[i] == '.'
                          && DecodeUrl(token[i + 1..]) == Some(codec.mac(token[..i]))
                          && OpenPayload(codec, token[..i]) == Some(Payload(claims, 1))
  {
    FirstDotBound(token);
    FirstDotIsDot(token);
    var i := FirstDot(token).value;
    assert i < |token| && token[i] == '.';
  }

  lemma {:induction false} FirstDotIsDot(s: string)
    ensures FirstDot(s).Some? ==> FirstDot(s).value < |s| && s[FirstDot(s).value] == '.'
  {
    if |s| > 0 {
      FirstDotIsDot(s[1..]);
    }
  }
}
