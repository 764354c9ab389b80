/**
  A client of the controller: one chat room from creation to destruction,
  driven through the handlers on a fresh store. It shows what callers can
  conclude from the handlers' contracts alone.
 */
module Scenario {
  import opened Common
  import opened KeyValueStore
  import opened Keys
  import opened Codes
  import opened MessageLog
  import opened Sessions
  import opened Controller

  /**
    Create a room, connect its creator and a participant, post as the
    participant, read, try to destroy as the participant, destroy as the
    creator, read again, and post again with the participant's old token.
   */
  method RoomLifecycle(oracle: nat -> nat, codec: Codec, jwt: TokenService,
                       creator: string, participant: string, text: string, now: int)
    returns (posted: Reply, read: Reply, denied: Reply, destroyed: Reply, readAfter: Reply, postedAfter: Reply)
    requires creator != participant
    requires Inverts(codec) && codec.encode(Message(participant, text, now)).Some?
    requires forall s, u :: jwt.parse(jwt.issue(s, u)) == Some(Claims(Some(s), u))
    ensures posted == Respond(Ok, NoBody)
    ensures read == Respond(Ok, MessageList([Message(participant, text, now)]))
    ensures denied == Respond(Forbidden, NoBody)
    ensures destroyed == Respond(NoContent, NoBody)
    ensures readAfter == Respond(NotFound, NoBody)
    ensures postedAfter == Respond(Ok, NoBody)
  {
    var redis := new RedisStore();
    var random := new SecureRandom(oracle);
    var service := new SessionService(redis, random, codec);
    var controller := new SessionController(service, jwt);

    // On an empty store the first drawn code is free.
    ClaimTakesFirstFree(map[], map[], creator, Candidates(oracle, 0, MaxAttempts), 0);
    var created := controller.CreateSession(creator);
    assert created == Respond(Created, SessionCreated(Candidates(oracle, 0, MaxAttempts)[0]));
    var id := created.body.sessionId;

    var joined := controller.Connect(id, participant);
    var owner := controller.Connect(id, creator);
    assert joined.body == TokenIssued(jwt.issue(id, participant));
    assert owner.body == TokenIssued(jwt.issue(id, creator));
    var participantAuth := BearerPrefix + joined.body.token;
    var creatorAuth := BearerPrefix + owner.body.token;
    ExtractBearerRoundTrip(jwt.issue(id, participant));
    ExtractBearerRoundTrip(jwt.issue(id, creator));

    posted := controller.SendMessage(id, participantAuth, text, now);
    var json := codec.encode(Message(participant, text, now)).value;
    assert redis.Range(KeyForMessages(id)) == [json];
    PushThenRead(codec, [], Message(participant, text, now), json);
    assert [] + [json] == [json];
    assert service.SessionExists(id);
    assert service.Messages(id) == [Message(participant, text, now)];
    read := controller.GetMessages(id);
    assert read == Respond(Ok, MessageList([Message(participant, text, now)]));

    denied := controller.Destroy(id, participantAuth);
    destroyed := controller.Destroy(id, creatorAuth);
    readAfter := controller.GetMessages(id);

    // The old token still posts: sending never checks that the session exists.
    postedAfter := controller.SendMessage(id, participantAuth, text, now);
    assert !service.SessionExists(id) && KeyForMessages(id) in redis.lists;
  }

  /**
    Destroying checks only that the token's subject equals the stored creator
    name. Anyone may connect to another room under the creator's name, and the
    token issued there, though bound to that other room, destroys this one.
   */
  method DestroyWithCreatorNameFromAnotherRoom(oracle: nat -> nat, codec: Codec, jwt: TokenService,
                                               creator: string, otherCreator: string)
    returns (room: string, otherRoom: string, joined: Reply, destroyed: Reply)
    requires CodeFrom(oracle, CodeLength, CodeLength) != CodeFrom(oracle, 0, CodeLength)
    requires forall s, u :: jwt.parse(jwt.issue(s, u)) == Some(Claims(Some(s), u))
    ensures room != otherRoom
    ensures joined == Respond(Ok, TokenIssued(jwt.issue(otherRoom, creator)))
    ensures destroyed == Respond(NoContent, NoBody)
  {
    var redis := new RedisStore();
    var random := new SecureRandom(oracle);
    var service := new SessionService(redis, random, codec);
    var controller := new SessionController(service, jwt);

    // The first room takes the first drawn code, after exactly one attempt.
    var first := Candidates(oracle, 0, MaxAttempts);
    ClaimTakesFirstFree(map[], map[], creator, first, 0);
    var created := controller.CreateSession(creator);
    assert created == Respond(Created, SessionCreated(first[0]));
    room := created.body.sessionId;
    assert random.drawn == CodeLength;

    // The second room takes the next drawn code, which differs from the first.
    var second := Candidates(oracle, CodeLength, MaxAttempts);
    ghost var strings1 := redis.strings;
    assert strings1 == map[KeyForCreator(room) := creator];
    KeyForCreatorInjective(room, second[0]);
    ClaimTakesFirstFree(strings1, map[], otherCreator, second, 0);
    var createdOther := controller.CreateSession(otherCreator);
    assert createdOther == Respond(Created, SessionCreated(second[0]));
    otherRoom := createdOther.body.sessionId;

    // Someone connects to the other room under the creator's name.
    joined := controller.Connect(otherRoom, creator);
    var token := jwt.issue(otherRoom, creator);
    ExtractBearerRoundTrip(token);
    destroyed := controller.Destroy(room, BearerPrefix + token);
  }
}
