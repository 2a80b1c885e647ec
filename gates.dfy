/** The two access checks that stand in front of protected handlers: the
    authenticated gate (`authMiddleware`) and the admin gate (`adminOnly`). */
module Gates {
  import opened Wrappers
  import opened Records

  /** A gate either lets the request through with the caller's claims
      (`req.user`) or answers it itself. */
  datatype Gate = Pass(claims: Claims) | Halt(response: Response)

  /** `req.cookies.token` is truthy: present and not the empty string. */
  predicate HasToken(token: Option<string>)
  {
    token.Some? && token.value != ""
  }

  /** The authenticated gate. `verify` stands for the token library's signature
      and expiry check at the time of the request. */
  function Authenticate(token: Option<string>, verify: string -> Option<Claims>): (g: Gate)
    ensures g.Pass? <==> HasToken(token) && verify(token.value).Some?
    ensures g.Pass? ==> verify(token.value) == Some(g.claims)
    ensures g.Halt? ==> (g.response == NoToken <==> !HasToken(token))
    ensures g.Halt? ==> g.response == NoToken || g.response == BadToken
  {
    if !HasToken(token) then Halt(NoToken)
    else match verify(token.value)
      case Some(claims) => Pass(claims)
      case None => Halt(BadToken)
  }

  /** The admin gate, applied to claims the authenticated gate produced. */
  function RequireAdmin(claims: Claims): (g: Gate)
    ensures g.Pass? <==> claims.role == "admin"
    ensures g.Pass? ==> g.claims == claims
    ensures g.Halt? ==> g.response == AdminsOnly
  {
    if claims.role != "admin" then Halt(AdminsOnly) else Pass(claims)
  }

  /** The two gates in sequence, as the admin routes use them. A request gets
      through exactly when its token verifies to claims with the admin role;
      the admin check never runs without verified claims. A refused request
      gets 401 only when it carries no token, and 403 otherwise, whether the
      token failed or the role did. */
  function AuthenticateAdmin(token: Option<string>, verify: string -> Option<Claims>): (g: Gate)
    ensures g.Pass? <==> HasToken(token) && verify(token.value).Some? && verify(token.value).value.role == "admin"
    ensures g.Pass? ==> verify(token.value) == Some(g.claims)
    ensures g.Halt? ==> (g.response.status == 401 <==> !HasToken(token))
    ensures g.Halt? ==> g.response.status == 401 || g.response.status == 403
    ensures !HasToken(token) ==> g == Halt(NoToken)
    ensures HasToken(token) && verify(token.value).None? ==> g == Halt(BadToken)
    ensures g.Halt? && HasToken(token) && verify(token.value).Some? ==> g == Halt(AdminsOnly)
  {
    match Authenticate(token, verify)
    case Pass(claims) => RequireAdmin(claims)
    case Halt(response) => Halt(response)
  }
}
