/** The optional JWT guard: it reads a token from the Authorization header,
    attaches the decoded payload to the request when the token verifies,
    and lets every request through. */
module JwtGuard {
  import opened Wrappers
  import opened Strings
  import opened Auth

  /** `const [_, token] = header?.split(' ') ?? []; return token || null`:
      the second space-separated piece, whatever the first one says. */
  function ExtractToken(authorization: Option<string>): (r: Option<string>)
    ensures authorization.None? ==> r.None?
    ensures r.Some? ==> r.value != "" && ' ' !in r.value
    ensures r.Some? <==>
      authorization.Some? && |Split(authorization.value, ' ')| >= 2 && Split(authorization.value, ' ')[1] != ""
    ensures r.Some? ==> r.value == Split(authorization.value, ' ')[1]
  {
    if authorization.None? then None
    else
      var pieces := Split(authorization.value, ' ');
      if |pieces| >= 2 && pieces[1] != "" then Some(pieces[1]) else None
  }

  /** `"<scheme> <token>"` yields the token, and the scheme is not checked:
      `Bearer abc` and `Basic abc` alike give `abc`. */
  lemma {:induction false} TokenAfterAnyScheme(scheme: string, token: string)
    requires ' ' !in scheme && ' ' !in token && token != ""
    ensures ExtractToken(Some(scheme + " " + token)) == Some(token)
  {
    assert scheme + " " + token == scheme + [' '] + token;
    SplitCons(scheme, token, ' ');
    SplitFree(token, ' ');
  }

  /** A header without a space carries no token. */
  lemma {:induction false} NoSpaceNoToken(header: string)
    requires ' ' !in header
    ensures ExtractToken(Some(header)).None?
  {
    SplitFree(header, ' ');
  }

  /** `"<scheme> "` with nothing after the space carries no token. */
  lemma {:induction false} EmptyTokenIsNull(scheme: string)
    requires ' ' !in scheme
    ensures ExtractToken(Some(scheme + " ")).None?
  {
    assert scheme + " " == scheme + [' '] + "";
    SplitCons(scheme, "", ' ');
  }

  /** The parts of an HTTP request the guard reads and writes. */
  class Request {
    const authorization: Option<string>
    var user: Option<Claims>

    constructor (authorization: Option<string>, user: Option<Claims>)
      ensures this.authorization == authorization && this.user == user
    {
      this.authorization := authorization;
      this.user := user;
    }
  }

  class OptionalJwtAuthGuard {
    /** `jwtService.verify` with the configured secret: the decoded payload,
        or `None` when it throws. */
    const verify: string -> Option<Claims>

    constructor (verify: string -> Option<Claims>)
      ensures this.verify == verify
    {
      this.verify := verify;
    }

    /** `canActivate`: always true. A token that verifies sets the user, one
        that does not clears it, and no token leaves it untouched. */
    method CanActivate(request: Request) returns (allowed: bool)
      modifies request`user
      ensures allowed
      ensures ExtractToken(request.authorization).None? ==> request.user == old(request.user)
      ensures ExtractToken(request.authorization).Some? ==>
        request.user == verify(ExtractToken(request.authorization).value)
    {
      var token := ExtractToken(request.authorization);
      if token.Some? {
        var decoded := verify(token.value);
        if decoded.Some? {
          request.user := decoded;
        } else {
          request.user := None;
        }
      }
      return true;
    }
  }
}
