/** The authentication gate (backend/src/middleware/protect.ts). The token cookie
    may be absent; jsonwebtoken's verify and the user look-up are handed in as
    function values that fail with None, which is how a thrown error, an expired
    or forged token, or a missing user reach the catch block. */
module Protect {
  import opened Wrappers
  import opened Errors

  /** The user record fetchUserById returns. */
  datatype UserRecord = UserRecord(id: int, userName: string)

  /** What the gate attaches to the request. */
  datatype AuthUser = AuthUser(id: int, username: string)

  const NotLoggedInMessage := "You are not logged in"
  const InvalidTokenMessage := "Invalid or expired token"

  /** The three outcomes of the gate. */
  datatype GateOutcome = NoToken | InvalidToken | Admitted(user: AuthUser)

  function Gate(token: Option<string>, verify: string -> Option<int>, fetchUserById: int -> Option<UserRecord>): (g: GateOutcome)
    ensures g.NoToken? <==> token.None? || token.value == ""
    ensures g.Admitted? <==>
      !g.NoToken? && verify(token.value).Some? && fetchUserById(verify(token.value).value).Some?
    ensures g.Admitted? ==>
      var u := fetchUserById(verify(token.value).value).value;
      g.user == AuthUser(u.id, u.userName)
  {
    if token.None? || token.value == "" then NoToken
    else match verify(token.value)
      case None => InvalidToken
      case Some(id) =>
        match fetchUserById(id)
        case None => InvalidToken
        case Some(u) => Admitted(AuthUser(u.id, u.userName))
  }

  /** The argument the gate passes to `next`. */
  function Forwarded(g: GateOutcome): Option<Error> {
    match g
    case NoToken => Some(NewAppError(NotLoggedInMessage, Unauthorized))
    case InvalidToken => Some(NewAppError(InvalidTokenMessage, Unauthorized))
    case Admitted(_) => None
  }

  /** Every refusal answers 401; only an admitted request goes on without an error. */
  lemma RefusalsAnswer401(token: Option<string>, verify: string -> Option<int>, fetchUserById: int -> Option<UserRecord>)
    ensures var g := Gate(token, verify, fetchUserById);
      (Forwarded(g).None? <==> g.Admitted?) &&
      (Forwarded(g).Some? ==> ErrorResponse(Forwarded(g).value).status == Unauthorized)
    ensures token.None? ==>
      ErrorResponse(Forwarded(Gate(token, verify, fetchUserById)).value) ==
        Response(Unauthorized, ErrorBody("error", NotLoggedInMessage))
  {
  }

  /** A forged or expired token, and a token of a user who no longer exists, get the
      same answer. */
  lemma BadTokenAndMissingUserLookAlike(token: string, verify: string -> Option<int>, fetchUserById: int -> Option<UserRecord>)
    requires token != ""
    requires verify(token).None? || fetchUserById(verify(token).value).None?
    ensures Forwarded(Gate(Some(token), verify, fetchUserById)) == Some(NewAppError(InvalidTokenMessage, Unauthorized))
  {
  }

  /** The request as protect sees it: the user it may set, and the calls of `next`. */
  class AuthenticatedRequest {
    var user: Option<AuthUser>
    var nextCalls: seq<Option<Error>>

    constructor ()
      ensures user == None && nextCalls == []
    {
      user := None;
      nextCalls := [];
    }
  }

  /** protect: calls `next` exactly once, and sets the user only when admitting. */
  method Protect(req: AuthenticatedRequest, token: Option<string>,
                 verify: string -> Option<int>, fetchUserById: int -> Option<UserRecord>)
    modifies req
    ensures var g := Gate(token, verify, fetchUserById);
      && req.nextCalls == old(req.nextCalls) + [Forwarded(g)]
      && req.user == (if g.Admitted? then Some(g.user) else old(req.user))
  {
    if token.None? || token.value == "" {
      req.nextCalls := req.nextCalls + [Some(NewAppError(NotLoggedInMessage, Unauthorized))];
      return;
    }
    var decoded := verify(token.value);
    if decoded.None? {
      req.nextCalls := req.nextCalls + [Some(NewAppError(InvalidTokenMessage, Unauthorized))];
      return;
    }
    var user := fetchUserById(decoded.value);
    if user.None? {
      req.nextCalls := req.nextCalls + [Some(NewAppError(InvalidTokenMessage, Unauthorized))];
      return;
    }
    req.user := Some(AuthUser(user.value.id, user.value.userName));
    req.nextCalls := req.nextCalls + [None];
  }
}
