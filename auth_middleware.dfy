/** The bearer-token guard in front of the clothing routes. */
module AuthMiddleware {
  import opened Common
  import opened Strings
  import opened Crypto
  import opened Http

  /** `req.headers.authorization?.split(' ')[1]`: the second space-separated
      field of the header, if the header is present and has one. */
  function ExtractToken(authorization: Option<string>): (r: Option<string>)
    ensures r.Some? <==> authorization.Some? && ' ' in authorization.value
    ensures r.Some? ==> ' ' !in r.value
  {
    match authorization
    case None => None
    case Some(h) =>
      var fields := Split(h, ' ');
      SplitFieldCount(h, ' ');
      if |fields| >= 2 then
        SplitTailFirstField(h);
        Some(fields[1])
      else None
  }

  /** The second field of a split has no separator in it. */
  lemma SplitTailFirstField(h: string)
    requires |Split(h, ' ')| >= 2
    ensures ' ' !in Split(h, ' ')[1]
  {
    SplitFieldCount(h, ' ');
    FirstOccurrence(h, ' ');
    var i :| 0 <= i < |h| && h[i] == ' ' && ' ' !in h[..i];
    assert h == h[..i] + [' '] + h[i + 1..];
    SplitAtFirst(h[..i], h[i + 1..], ' ');
    SplitFirstField(h[i + 1..], ' ');
  }

  const NoTokenResponse: Response := Response(Unauthorized, Message("No token provided, authorization denied"))
  const BadTokenResponse: Response := Response(Unauthorized, Message("Token is not valid"))

  /** What `protect` decides: answer the request, or admit it with the
      decoded payload. */
  datatype Verdict = Reject(response: Response) | Admit(claims: Claims)

  /** The decision of `protect`. `verify` is `jwt.verify` and yields `None`
      where it throws. */
  function Authorize(authorization: Option<string>, verify: (string, string) -> Option<Claims>,
                     secret: string): (v: Verdict)
    ensures v.Reject? ==> v.response == NoTokenResponse || v.response == BadTokenResponse
    ensures v == Reject(NoTokenResponse) <==> !Present(ExtractToken(authorization))
    ensures v == Reject(BadTokenResponse) <==>
      Present(ExtractToken(authorization)) && verify(ExtractToken(authorization).value, secret).None?
    ensures v.Admit? ==> verify(ExtractToken(authorization).value, secret) == Some(v.claims)
  {
    var token := ExtractToken(authorization);
    if !Present(token) then Reject(NoTokenResponse)
    else match verify(token.value, secret)
      case None => Reject(BadTokenResponse)
      case Some(decoded) => Admit(decoded)
  }

  /** The token is the text between the first space and the next one; the
      word before the first space is not looked at. */
  lemma TokenIsSecondField(scheme: string, rest: string)
    requires ' ' !in scheme
    ensures ExtractToken(Some(scheme + " " + rest)) == Some(Split(rest, ' ')[0])
    ensures Split(rest, ' ')[0] <= rest
  {
    var h := scheme + " " + rest;
    assert h == scheme + [' '] + rest;
    SplitAtFirst(scheme, rest, ' ');
    SplitFirstField(rest, ' ');
    assert ' ' in h by {
      assert h[|scheme|] == ' ';
    }
  }

  /** Any scheme word and any token without spaces: the token comes back. */
  lemma AnySchemeYieldsToken(scheme: string, token: string)
    requires ' ' !in scheme && ' ' !in token
    ensures ExtractToken(Some(scheme + " " + token)) == Some(token)
  {
    TokenIsSecondField(scheme, token);
    SplitNoSeparator(token, ' ');
  }

  /** Without a usable token the request is refused whatever `verify` would
      say, so `verify` plays no part. */
  lemma NoTokenIgnoresVerify(authorization: Option<string>, v1: (string, string) -> Option<Claims>,
                             v2: (string, string) -> Option<Claims>, secret: string)
    requires !Present(ExtractToken(authorization))
    ensures Authorize(authorization, v1, secret) == Authorize(authorization, v2, secret) == Reject(NoTokenResponse)
  {
  }

  /** Headers that carry no token: none at all, a single word, a second
      field that is empty. */
  lemma NoTokenExamples(verify: (string, string) -> Option<Claims>, secret: string)
    ensures Authorize(None, verify, secret) == Reject(NoTokenResponse)
    ensures Authorize(Some("Bearer"), verify, secret) == Reject(NoTokenResponse)
    ensures Authorize(Some("Bearer "), verify, secret) == Reject(NoTokenResponse)
    ensures Authorize(Some("Bearer  abc"), verify, secret) == Reject(NoTokenResponse)
  {
    assert ' ' !in "Bearer";
    TokenIsSecondField("Bearer", "");
    TokenIsSecondField("Bearer", " abc");
    assert Split(" abc", ' ') == [""] + Split("abc", ' ') by {
      SplitLeadingSeparator(" abc", ' ');
    }
  }

  /** The request and response objects as far as `protect` touches them. */
  class Exchange {
    const authorization: Option<string>
    var user: Option<Claims>       // req.user
    var sent: Option<Response>     // what res.status(..).json(..) sent
    var nextCalls: nat             // how often next() was called

    constructor (authorization: Option<string>)
      ensures this.authorization == authorization
      ensures user.None? && sent.None? && nextCalls == 0
    {
      this.authorization := authorization;
      user := None;
      sent := None;
      nextCalls := 0;
    }
  }

  /** `protect(req, res, next)`: either sends one 401 answer and leaves
      `req.user` alone, or sets `req.user` to the decoded payload and calls
      `next` once without answering. */
  method Protect(ex: Exchange, verify: (string, string) -> Option<Claims>, secret: string)
    modifies ex
    ensures match Authorize(ex.authorization, verify, secret)
      case Reject(response) =>
        ex.sent == Some(response) && ex.user == old(ex.user) && ex.nextCalls == old(ex.nextCalls)
      case Admit(claims) =>
        ex.sent == old(ex.sent) && ex.user == Some(claims) && ex.nextCalls == old(ex.nextCalls) + 1
  {
    var token := ExtractToken(ex.authorization);
    if !Present(token) {
      ex.sent := Some(NoTokenResponse);
      return;
    }
    var decoded := verify(token.value, secret);
    if decoded.None? {
      ex.sent := Some(BadTokenResponse);
      return;
    }
    ex.user := decoded;
    ex.nextCalls := ex.nextCalls + 1;
  }
}
