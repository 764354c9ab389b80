/**
  The HTTP handlers in front of the session service. Each handler decides from
  the store, the request and the claims of the bearer token, then either leaves
  the store alone or makes exactly one service call that changes it.
 */
module Controller {
  import opened Common
  import opened Codes
  import opened Keys
  import opened MessageLog
  import opened Sessions

  /** HTTP status codes the handlers return. */
  const Ok: nat := 200
  const Created: nat := 201
  const NoContent: nat := 204
  const Forbidden: nat := 403
  const NotFound: nat := 404

  /** The claims a verified token carries: the session it is bound to (if any) and its subject. */
  datatype Claims = Claims(session: Option<string>, subject: string)

  /** The token service: issuing binds a session and a username; parsing verifies and may reject. */
  datatype TokenService = TokenService(issue: (string, string) -> string, parse: string -> Option<Claims>)

  /** What a response carries. */
  datatype Body =
    | NoBody
    | SessionCreated(sessionId: string)
    | TokenIssued(token: string)
    | MessageList(messages: seq<Message>)

  /** A response with a status and a body, or an exception escaping the handler. */
  datatype Reply = Respond(status: nat, body: Body) | Raised(error: Exception)

  const BearerPrefix: string := "Bearer "

  /** Whether a header value starts with "Bearer ". */
  predicate HasBearerPrefix(header: string)
  {
    |BearerPrefix| <= |header| && header[..|BearerPrefix|] == BearerPrefix
  }

  /** extractBearer: the token that follows "Bearer " in the Authorization header. */
  function ExtractBearer(header: Option<string>): (r: Result<string>)
    ensures r.Success? <==> header.Some? && HasBearerPrefix(header.value)
    ensures r.Success? ==> header == Some(BearerPrefix + r.value)
    ensures r.Failure? ==>
      r.error == if header.None? then MissingAuthorizationHeader else InvalidAuthorizationHeader
  {
    if header.None? then Failure(MissingAuthorizationHeader)
    else if !HasBearerPrefix(header.value)
    then Failure(InvalidAuthorizationHeader)
    else
      var token := header.value[|BearerPrefix|..];
      assert header.value == BearerPrefix + token;
      Success(token)
  }

  /** Any header of the form "Bearer " + t yields exactly t. */
  lemma ExtractBearerRoundTrip(token: string)
    ensures ExtractBearer(Some(BearerPrefix + token)) == Success(token)
  {
    var header := BearerPrefix + token;
    assert header[..|BearerPrefix|] == BearerPrefix;
    assert header[|BearerPrefix|..] == token;
  }

  /**
    The first two steps of every authenticated handler: extract the bearer
    token from the (required, so present) Authorization header, then parse it.
   */
  function Authenticate(jwt: TokenService, authorization: string): (r: Result<Claims>)
    ensures r.Success? ==>
      && HasBearerPrefix(authorization)
      && jwt.parse(authorization[|BearerPrefix|..]) == Some(r.value)
    ensures r.Failure? ==> r.error == InvalidAuthorizationHeader || r.error == TokenRejected
    ensures r == Failure(InvalidAuthorizationHeader) <==> !HasBearerPrefix(authorization)
    ensures HasBearerPrefix(authorization) ==>
      r == match jwt.parse(authorization[|BearerPrefix|..])
           case None => Failure(TokenRejected)
           case Some(claims) => Success(claims)
  {
    match ExtractBearer(Some(authorization))
    case Failure(e) => Failure(e)
    case Success(token) =>
      match jwt.parse(token)
      case None => Failure(TokenRejected)
      case Some(claims) => Success(claims)
  }

  class SessionController {
    const service: SessionService
    const jwt: TokenService

    constructor (service: SessionService, jwt: TokenService)
      ensures this.service == service && this.jwt == jwt
    {
      this.service := service;
      this.jwt := jwt;
    }

    /** POST /api/sessions: creates a session for the creator named in the X-User header. */
    method CreateSession(creator: string) returns (r: Reply)
      requires service.Valid()
      modifies service.redis, service.random
      ensures service.Valid()
      ensures var (strings, outcome) :=
          Claim(old(service.redis.strings), old(service.redis.lists), creator,
                Candidates(service.random.oracle, old(service.random.drawn), MaxAttempts));
        && service.redis.strings == strings
        && service.redis.lists == old(service.redis.lists)
        && r == match outcome
                case Success(sessionId) => Respond(Created, SessionCreated(sessionId))
                case Failure(e) => Raised(e)
      ensures service.random.drawn
           == old(service.random.drawn)
              + CodeLength * Attempts(old(service.redis.strings), old(service.redis.lists),
                                      Candidates(service.random.oracle, old(service.random.drawn), MaxAttempts))
    {
      var created := service.CreateSession(creator);
      match created
      case Success(sessionId) =>
        r := Respond(Created, SessionCreated(sessionId));
      case Failure(e) =>
        r := Raised(e);
    }

    /** POST /api/sessions/{session}/connect: issues a token for an existing session. */
    method Connect(session: string, username: string) returns (r: Reply)
      ensures !service.SessionExists(session) ==> r == Respond(NotFound, NoBody)
      ensures service.SessionExists(session) ==> r == Respond(Ok, TokenIssued(jwt.issue(session, username)))
    {
      if !service.SessionExists(session) {
        return Respond(NotFound, NoBody);
      }
      var token := jwt.issue(session, username);
      r := Respond(Ok, TokenIssued(token));
    }

    /**
      POST /api/sessions/{session}/messages: appends a message from the token's
      subject, when the token is bound to this session.
     */
    method SendMessage(session: string, authorization: string, text: string, now: int) returns (r: Reply)
      requires service.Valid()
      modifies service.redis
      ensures service.Valid()
      ensures service.redis.strings == old(service.redis.strings)
      ensures match Authenticate(jwt, authorization)
        case Failure(e) =>
          r == Raised(e) && service.redis.lists == old(service.redis.lists)
        case Success(claims) =>
          if claims.session != Some(session) then
            r == Respond(Forbidden, NoBody) && service.redis.lists == old(service.redis.lists)
          else
            match service.codec.encode(Message(claims.subject, text, now))
            case None =>
              r == Raised(MessageEncodingFailed) && service.redis.lists == old(service.redis.lists)
            case Some(json) =>
              && r == Respond(Ok, NoBody)
              && service.redis.lists
                 == old(service.redis.lists)[KeyForMessages(session) :=
                                             old(service.redis.Range(KeyForMessages(session))) + [json]]
    {
      var auth := Authenticate(jwt, authorization);
      if auth.Failure? {
        return Raised(auth.error);
      }
      var claims := auth.value;
      if claims.session != Some(session) {
        return Respond(Forbidden, NoBody);
      }
      var pushed := service.PushMessage(session, claims.subject, text, now);
      if pushed.Fail? {
        return Raised(pushed.error);
      }
      r := Respond(Ok, NoBody);
    }

    /** GET /api/sessions/{session}/messages: the session's messages, if it exists. */
    method GetMessages(session: string) returns (r: Reply)
      ensures !service.SessionExists(session) ==> r == Respond(NotFound, NoBody)
      ensures service.SessionExists(session) ==> r == Respond(Ok, MessageList(service.Messages(session)))
    {
      if !service.SessionExists(session) {
        return Respond(NotFound, NoBody);
      }
      var msgs := service.ReadMessages(session);
      r := Respond(Ok, MessageList(msgs));
    }

    /** DELETE /api/sessions/{session}/destroy: the creator, and only the creator, destroys the session. */
    method Destroy(session: string, authorization: string) returns (r: Reply)
      requires service.Valid()
      modifies service.redis
      ensures service.Valid()
      ensures match Authenticate(jwt, authorization)
        case Failure(e) =>
          r == Raised(e) && unchanged(service.redis)
        case Success(claims) =>
          match old(service.GetCreator(session))
          case None =>
            r == Respond(NotFound, NoBody) && unchanged(service.redis)
          case Some(creator) =>
            if creator != claims.subject then
              r == Respond(Forbidden, NoBody) && unchanged(service.redis)
            else
              && r == Respond(NoContent, NoBody)
              && service.redis.strings == old(service.redis.strings) - {KeyForCreator(session)}
              && service.redis.lists == old(service.redis.lists) - {KeyForMessages(session)}
    {
      var auth := Authenticate(jwt, authorization);
      if auth.Failure? {
        return Raised(auth.error);
      }
      var username := auth.value.subject;
      var creator := service.GetCreator(session);
      if creator.None? {
        return Respond(NotFound, NoBody);
      }
      if creator.value != username {
        return Respond(Forbidden, NoBody);
      }
      service.DestroySession(session);
      r := Respond(NoContent, NoBody);
    }
  }
}
