/** The access gates of src/Middilewares/auth.middleware.ts: a ladder of checks
    (bearer token, its verification, the user it names, the user's role) that
    either writes an error response or passes the request on. Token
    verification is an oracle `verify`; the user table is passed in. */
module Auth {
  import opened Wrappers
  import opened JsText
  import opened Users

  /** The decoded token payload; the gates read only its user id. */
  datatype Payload = Payload(id: string)

  /** What `isValidToken` concludes. */
  datatype TokenCheck = Authenticated(payload: Payload) | Rejected(status: int, message: string)

  /** What a gate does with the request: answer it, or call `next`. */
  datatype Gate = Respond(status: int, message: string) | Next

  /** `authorization?.split(" ")[1]`, kept only when it is truthy: the text after
      the first space up to the next one, when it is not empty. */
  function BearerToken(header: Option<string>): (t: Option<string>)
    ensures t.Some? <==> header.Some? && |Split(header.value, ' ')| >= 2 && Split(header.value, ' ')[1] != ""
    ensures t.Some? ==> t.value == Split(header.value, ' ')[1] && ' ' !in t.value && t.value != ""
  {
    match header
    case None => None
    case Some(h) =>
      var parts := Split(h, ' ');
      if |parts| >= 2 && parts[1] != "" then Some(parts[1]) else None
  }

  /** A header "B t" carries "t"; a header without a space, or with two spaces
      after the scheme, carries no token. */
  lemma BearerTokenExamples()
    ensures BearerToken(Some("B t")) == Some("t")
    ensures BearerToken(Some("t")) == None
    ensures BearerToken(Some("B  t")) == None
    ensures BearerToken(None) == None
  {
    assert "t"[1..] == "" && " t"[1..] == "t" && "  t"[1..] == " t";
    assert "B t"[1..] == " t" && "B  t"[1..] == "  t";
    assert Split("", ' ') == [""];
    assert Split("t", ' ') == [['t'] + Split("", ' ')[0]] + Split("", ' ')[1..];
    assert ['t'] + "" == "t" && [""][1..] == [];
    assert Split("t", ' ') == ["t"];
    assert Split(" t", ' ') == ["", "t"];
    assert Split("B t", ' ') == [['B'] + Split(" t", ' ')[0]] + Split(" t", ' ')[1..];
    assert ['B'] + "" == "B" && ["", "t"][1..] == ["t"];
    assert Split("B t", ' ') == ["B", "t"];
    assert Split("  t", ' ') == ["", "", "t"];
    assert Split("B  t", ' ') == ["B", "", "t"];
  }

  /** The decision of `isValidToken`: no token is 403, a token the verifier
      refuses is 401, otherwise the verified payload. */
  function CheckToken(header: Option<string>, verify: string -> Option<Payload>): (r: TokenCheck)
    ensures BearerToken(header).None? <==> r == Rejected(403, "Unauthorized")
    ensures BearerToken(header).Some? && verify(BearerToken(header).value).None? <==> r == Rejected(401, "Invalid token")
    ensures r.Authenticated? ==> BearerToken(header).Some? && verify(BearerToken(header).value) == Some(r.payload)
    ensures BearerToken(header).Some? && verify(BearerToken(header).value).Some? ==>
      r == Authenticated(verify(BearerToken(header).value).value)
  {
    match BearerToken(header)
    case None => Rejected(403, "Unauthorized")
    case Some(token) =>
      match verify(token)
      case None => Rejected(401, "Invalid token")
      case Some(p) => Authenticated(p)
  }

  /** The decision of `isAtLeastUser`. */
  function UserGate(header: Option<string>, verify: string -> Option<Payload>, users: seq<User>): (g: Gate)
    ensures CheckToken(header, verify).Rejected? ==>
      g == Respond(CheckToken(header, verify).status, CheckToken(header, verify).message)
    ensures CheckToken(header, verify).Authenticated? ==>
      var found := GetById(users, CheckToken(header, verify).payload.id);
      && (found.None? <==> g == Respond(401, "Provided token for a user that does not exist"))
      && (found.Some? && found.value.role.OtherRole? <==>
            g == Respond(403, "User is not authorized to perform the current action"))
      && (g == Next <==> found.Some? && (found.value.role == ADMIN || found.value.role == USER))
  {
    match CheckToken(header, verify)
    case Rejected(status, message) => Respond(status, message)
    case Authenticated(p) =>
      match GetById(users, p.id)
      case None => Respond(401, "Provided token for a user that does not exist")
      case Some(u) =>
        if u.role != ADMIN && u.role != USER then Respond(403, "User is not authorized to perform the current action")
        else Next
  }

  /** The decision of `isAtLeastAdmin`; its missing-user message ends in a full stop. */
  function AdminGate(header: Option<string>, verify: string -> Option<Payload>, users: seq<User>): (g: Gate)
    ensures CheckToken(header, verify).Rejected? ==>
      g == Respond(CheckToken(header, verify).status, CheckToken(header, verify).message)
    ensures CheckToken(header, verify).Authenticated? ==>
      var found := GetById(users, CheckToken(header, verify).payload.id);
      && (found.None? <==> g == Respond(401, "Provided token for a user that does not exist."))
      && (found.Some? && found.value.role != ADMIN <==>
            g == Respond(403, "User is not authorized to perform the current action"))
      && (g == Next <==> found.Some? && found.value.role == ADMIN)
  {
    match CheckToken(header, verify)
    case Rejected(status, message) => Respond(status, message)
    case Authenticated(p) =>
      match GetById(users, p.id)
      case None => Respond(401, "Provided token for a user that does not exist.")
      case Some(u) =>
        if u.role != ADMIN then Respond(403, "User is not authorized to perform the current action")
        else Next
  }

  /** Whatever the admin gate lets through, the user gate lets through too; an
      ordinary USER passes only the user gate. */
  lemma AdminGateWithinUserGate(header: Option<string>, verify: string -> Option<Payload>, users: seq<User>)
    ensures AdminGate(header, verify, users) == Next ==> UserGate(header, verify, users) == Next
    ensures CheckToken(header, verify).Authenticated? &&
            GetById(users, CheckToken(header, verify).payload.id).Some? &&
            GetById(users, CheckToken(header, verify).payload.id).value.role == USER ==>
      UserGate(header, verify, users) == Next && AdminGate(header, verify, users).Respond?
  {
  }

  /** The token is checked before anyone is looked up: without a token both
      gates answer 403 whatever the user table holds. */
  lemma TokenCheckedFirst(verify: string -> Option<Payload>, users: seq<User>, others: seq<User>)
    ensures UserGate(None, verify, users) == UserGate(None, verify, others) == Respond(403, "Unauthorized")
    ensures AdminGate(None, verify, users) == AdminGate(None, verify, others) == Respond(403, "Unauthorized")
  {
  }

  /** The request and response one gate handles: the user attached to the body,
      the response written so far and how often `next` was called. */
  class Exchange {
    var bodyUser: Option<Payload>
    var status: Option<int>
    var message: Option<string>
    var nextCalls: nat

    constructor()
      ensures bodyUser == None && status == None && message == None && nextCalls == 0
    {
      bodyUser := None;
      status := None;
      message := None;
      nextCalls := 0;
    }

    /** `isValidToken`: attach the verified payload and report true, or write the
        error response and report false. It never calls `next`, so used as
        route middleware it leaves the request unanswered. */
    method IsValidToken(header: Option<string>, verify: string -> Option<Payload>) returns (authenticated: bool)
      modifies this
      ensures authenticated <==> CheckToken(header, verify).Authenticated?
      ensures authenticated ==>
        && bodyUser == Some(CheckToken(header, verify).payload)
        && status == old(status) && message == old(message)
      ensures !authenticated ==>
        && bodyUser == old(bodyUser)
        && status == Some(CheckToken(header, verify).status)
        && message == Some(CheckToken(header, verify).message)
      ensures nextCalls == old(nextCalls)
    {
      var token := BearerToken(header);
      if token.Some? {
        var decoded := verify(token.value);
        if decoded.Some? {
          bodyUser := decoded;
          return true;
        } else {
          status := Some(401);
          message := Some("Invalid token");
          return false;
        }
      } else {
        status := Some(403);
        message := Some("Unauthorized");
        return false;
      }
    }

    /** `isAtLeastUser`: the ladder of `UserGate`, writing its response or
        calling `next` exactly once. */
    method IsAtLeastUser(header: Option<string>, verify: string -> Option<Payload>, users: seq<User>)
      requires status == None && message == None
      modifies this
      ensures UserGate(header, verify, users) == Next ==>
        nextCalls == old(nextCalls) + 1 && status == None && message == None
      ensures UserGate(header, verify, users).Respond? ==>
        && nextCalls == old(nextCalls)
        && status == Some(UserGate(header, verify, users).status)
        && message == Some(UserGate(header, verify, users).message)
    {
      var authenticated := IsValidToken(header, verify);
      if !authenticated {
        return;
      }
      var user := GetById(users, bodyUser.value.id);
      if user.None? {
        status := Some(401);
        message := Some("Provided token for a user that does not exist");
        return;
      }
      if user.value.role != ADMIN && user.value.role != USER {
        status := Some(403);
        message := Some("User is not authorized to perform the current action");
        return;
      }
      nextCalls := nextCalls + 1;
    }

    /** `isAtLeastAdmin`: the ladder of `AdminGate`, writing its response or
        calling `next` exactly once. */
    method IsAtLeastAdmin(header: Option<string>, verify: string -> Option<Payload>, users: seq<User>)
      requires status == None && message == None
      modifies this
      ensures AdminGate(header, verify, users) == Next ==>
        nextCalls == old(nextCalls) + 1 && status == None && message == None
      ensures AdminGate(header, verify, users).Respond? ==>
        && nextCalls == old(nextCalls)
        && status == Some(AdminGate(header, verify, users).status)
        && message == Some(AdminGate(header, verify, users).message)
    {
      var authenticated := IsValidToken(header, verify);
      if !authenticated {
        return;
      }
      var user := GetById(users, bodyUser.value.id);
      if user.None? {
        status := Some(401);
        message := Some("Provided token for a user that does not exist.");
        return;
      }
      if user.value.role != ADMIN {
        status := Some(403);
        message := Some("User is not authorized to perform the current action");
        return;
      }
      nextCalls := nextCalls + 1;
    }
  }
}
