# TinyChat server core in Dafny

TinyChat's server keeps short-lived chat rooms ("sessions") in Redis. A session
is a 4-character code drawn from `abcdefghijklmnopqrstuvwxyz0123456789`. The
code's creator is stored under `session:{code}:creator`, and the room's
messages, serialised as JSON, are kept in order in the list
`session:{code}:messages`. An HTTP controller sits in front of the service.
It creates rooms, issues room-bound JWTs on connect, accepts posts only from a
token bound to the same room, and serves the message list. It lets a room be
destroyed only with a token whose subject equals the stored creator name.

This project models that core:

- `common.dfy` (`Common`): option, result and outcome types, and the exceptions
  that the service and the handlers let escape.
- `store.dfy` (`KeyValueStore`): the Redis store as a class with a map of string
  values and a map of string lists. It provides SETNX, GET, EXISTS, RPUSH, LRANGE and DEL.
- `codes.dfy` (`Codes`): the alphabet, the injected random source and
  `generateCode`.
- `keys.dfy` (`Keys`): the key-naming scheme.
- `messages.dfy` (`MessageLog`): messages, the JSON codec as a pair of partial
  functions, and how a raw list is read back.
- `service.dfy` (`Sessions`): `SessionService` over the store. `Claim` is the pure
  specification of the `createSession` retry loop.
- `controller.dfy` (`Controller`): `extractBearer` and the five HTTP handlers.
- `scenario.dfy` (`Scenario`): one room driven through the handlers from
  creation to destruction.

The random source, the JSON mapper, the JWT service and the clock are
parameters:

- The random source is an oracle `nat -> nat`. The k-th `nextInt(bound)` yields
  `oracle(k) % bound`.
- The JSON mapper is a `Codec` with `encode: Message -> Option<string>` and
  `decode: string -> Option<Message>`.
- The JWT service is a `TokenService` with `issue` and `parse`.
- The clock is a `now: int` argument.

Results about reading back what was pushed assume that decoding inverts
encoding (`MessageLog.Inverts`). The code itself does not establish this.

The service keeps a key discipline, part of `SessionService.Valid()`: creator
keys only ever hold strings, and messages keys only ever hold lists. This
follows from the fact that no creator key equals any messages key
(`Keys.CreatorAndMessagesKeysDiffer`). Every mutating operation preserves it.

Two behaviours of the code are worth knowing:

- `sendMessage` (`SessionController.java:45-58`) never calls `sessionExists`. A
  token bound to a destroyed session still appends, which re-creates an
  orphaned messages list. `Scenario.RoomLifecycle` shows this.
- `destroy` (`SessionController.java:67-78`) compares only the token's subject
  with the stored creator name, and ignores the token's session claim.
  `connect` issues a token for any username on any existing session. So a
  token obtained under the creator's name, for this room or any other, destroys
  the room. `Scenario.DestroyWithCreatorNameFromAnotherRoom` shows this.

When every attempt finds its key taken, `createSession` throws
`IllegalStateException("no available session ids")` (`SessionService.java:38`).
This is modelled as `NoAvailableSessionIds`.

## Model

| member | source | states |
|---|---|---|
| `Codes.SecureRandom.NextInt` | api/src/main/java/dr/tinychat/com/api/service/SessionService.java:83 | a draw lies in [0, bound), and each call consumes exactly one value of the random source |
| `Codes.CodeFromCharacters` | api/src/main/java/dr/tinychat/com/api/service/SessionService.java:79-87 | a generated code has exactly `length` characters, and its i-th character is the alphabet symbol picked by the i-th draw |
| `Codes.CodeFromIsCode` | api/src/main/java/dr/tinychat/com/api/service/SessionService.java:79-87 | every generated code has the requested length and uses only the 36 lowercase alphanumeric symbols |
| `Codes.GenerateCode` | api/src/main/java/dr/tinychat/com/api/service/SessionService.java:79-87 | the loop builds the code of `length` symbols from the next `length` draws, consuming exactly `length` draws |
| `Codes.CodeFrom` | api/src/main/java/dr/tinychat/com/api/service/SessionService.java:79-87 | the code built from `length` successive draws has exactly `length` characters |
| `Keys.KeyForCreator` | api/src/main/java/dr/tinychat/com/api/service/SessionService.java:89-91 | the key starts with "session:" followed by the id, ends with ":creator", and is 16 characters longer than the id |
| `Keys.KeyForMessages` | api/src/main/java/dr/tinychat/com/api/service/SessionService.java:93-95 | the key starts with "session:" followed by the id, ends with ":messages", and is 17 characters longer than the id |
| `Keys.KeyForCreatorInjective` | api/src/main/java/dr/tinychat/com/api/service/SessionService.java:89-91 | two sessions share a creator key exactly when they are the same session |
| `Keys.KeyForMessagesInjective` | api/src/main/java/dr/tinychat/com/api/service/SessionService.java:93-95 | two sessions share a messages key exactly when they are the same session |
| `Keys.CreatorAndMessagesKeysDiffer` | api/src/main/java/dr/tinychat/com/api/service/SessionService.java:89-95 | no session's creator key equals any session's messages key |
| `KeyValueStore.RedisStore.SetIfAbsent` | api/src/main/java/dr/tinychat/com/api/service/SessionService.java:33 | stores the value exactly when the key held nothing, reports whether it did, never overwrites, and leaves the lists alone |
| `KeyValueStore.RedisStore.RightPush` | api/src/main/java/dr/tinychat/com/api/service/SessionService.java:53 | appends one entry at the tail of the key's list (an absent list counts as empty), and changes nothing else |
| `KeyValueStore.RedisStore.Delete` | api/src/main/java/dr/tinychat/com/api/service/SessionService.java:75-76 | removes the key, whatever it holds, and nothing else |
| `Sessions.Candidates` | api/src/main/java/dr/tinychat/com/api/service/SessionService.java:29-31 | the 1000 codes the loop may draw, in draw order, each a valid code; the loop draws a prefix of them |
| `Sessions.Claim` | api/src/main/java/dr/tinychat/com/api/service/SessionService.java:28-39 | reference definition of the loop: a success changes only the claimed id's creator key, which now maps to the creator; a failure is `NoAvailableSessionIds` and changes nothing |
| `Sessions.ClaimOutcome` | api/src/main/java/dr/tinychat/com/api/service/SessionService.java:28-39 | on success the returned id is one of the candidates, its creator key was absent, and the only change is that key now maps to the creator; on failure the error is `NoAvailableSessionIds`, nothing changed, and every candidate's key was present |
| `Sessions.AttemptsOfClaim` | api/src/main/java/dr/tinychat/com/api/service/SessionService.java:29-38 | the loop makes at most one attempt per candidate; on success the claimed id is the last candidate attempted and every earlier one was taken; on failure every candidate was attempted |
| `Sessions.ClaimTakesFirstFree` | api/src/main/java/dr/tinychat/com/api/service/SessionService.java:30-36 | the first candidate whose creator key is absent is the one claimed, whatever follows it, and it is the last one attempted |
| `Sessions.ClaimExhausted` | api/src/main/java/dr/tinychat/com/api/service/SessionService.java:29-38 | when all 1000 candidates' keys are present, every candidate is attempted, creation fails and the store is unchanged |
| `Sessions.ClaimKeepsPresentKeys` | api/src/main/java/dr/tinychat/com/api/service/SessionService.java:33 | a key present before the claim keeps its value (set-if-absent never overwrites) |
| `Sessions.ClaimHere` | api/src/main/java/dr/tinychat/com/api/service/SessionService.java:33-36 | an attempt whose key is free ends the loop with that code claimed, and no further attempt is made |
| `Sessions.ClaimSkip` | api/src/main/java/dr/tinychat/com/api/service/SessionService.java:33-34 | an attempt whose key is taken changes nothing, counts as one attempt, and the loop goes on with the next candidate |
| `Sessions.CreatorStoreKeepsKeysTyped` | api/src/main/java/dr/tinychat/com/api/service/SessionService.java:33 | storing a creator never puts a string under a messages key |
| `Sessions.MessagesPushKeepsKeysTyped` | api/src/main/java/dr/tinychat/com/api/service/SessionService.java:53 | pushing a message never puts a list under a creator key |
| `Sessions.SessionService.SessionExists` | api/src/main/java/dr/tinychat/com/api/service/SessionService.java:41-43 | under the key discipline, a session exists exactly when `getCreator` returns a value |
| `Sessions.SessionService.GetCreator` | api/src/main/java/dr/tinychat/com/api/service/SessionService.java:45-47 | returns the string stored under the session's creator key, or none (null) exactly when no string is stored there |
| `Sessions.SessionService.CreateSession` | api/src/main/java/dr/tinychat/com/api/service/SessionService.java:28-39 | the new state and the result are those of `Claim` over the 1000 drawn candidates; lists are untouched; a returned id is a valid code that did not exist before and now exists with the caller as creator; exactly 4 draws are consumed per attempt, up to and including the winning one (all 1000 attempts on failure) |
| `Sessions.SessionService.PushMessage` | api/src/main/java/dr/tinychat/com/api/service/SessionService.java:49-57 | appends exactly the encoding of (from, text, now) at the tail of the session's list, keeping earlier entries and every other key; an encoding failure raises and changes nothing; when decoding inverts encoding, the session's messages grow by exactly that message |
| `Sessions.SessionService.ReadMessages` | api/src/main/java/dr/tinychat/com/api/service/SessionService.java:59-72 | returns, in list order, the decodings of the entries that decode, and an empty list for an absent key |
| `Sessions.SessionService.DestroySession` | api/src/main/java/dr/tinychat/com/api/service/SessionService.java:74-77 | removes both of the session's keys and nothing else, so the session no longer exists and has no messages; on an already destroyed session it changes nothing (idempotent) |
| `MessageLog.DecodeAll` | api/src/main/java/dr/tinychat/com/api/service/SessionService.java:59-72 | reference definition of the read loop; never yields more messages than the raw list has entries |
| `MessageLog.DecodeAllAppend` | api/src/main/java/dr/tinychat/com/api/service/SessionService.java:63-70 | reading a concatenation reads each part in turn, so list order is kept |
| `MessageLog.SkipsMalformed` | api/src/main/java/dr/tinychat/com/api/service/SessionService.java:64-69 | an entry that does not decode is skipped and nothing around it is lost |
| `MessageLog.DecodeAllMembers` | api/src/main/java/dr/tinychat/com/api/service/SessionService.java:63-70 | a message is read back exactly when some entry decodes to it |
| `MessageLog.DecodeAllWellFormed` | api/src/main/java/dr/tinychat/com/api/service/SessionService.java:63-70 | when every entry decodes, the i-th message read is the decoding of the i-th entry |
| `MessageLog.PushThenRead` | api/src/main/java/dr/tinychat/com/api/service/SessionService.java:50-53 | appending the encoding of a message appends exactly that message to what is read, assuming decoding inverts encoding |
| `Controller.ExtractBearer` | api/src/main/java/dr/tinychat/com/api/controller/SessionController.java:80-84 | a token is returned exactly when the header is present and starts with "Bearer ", and then the header is exactly "Bearer " + token; a missing header and a header without the prefix raise their own exceptions |
| `Controller.ExtractBearerRoundTrip` | api/src/main/java/dr/tinychat/com/api/controller/SessionController.java:80-84 | "Bearer " + t always yields t |
| `Controller.Authenticate` | api/src/main/java/dr/tinychat/com/api/controller/SessionController.java:49-50 | a header without "Bearer " fails with the invalid-header exception, and only such a header does; otherwise the result is exactly what parsing the rest of the header gives: its claims, or the token-rejected exception |
| `Controller.SessionController.CreateSession` | api/src/main/java/dr/tinychat/com/api/controller/SessionController.java:29-33 | replies 201 carrying exactly the id the service claimed, or lets the service's exception escape, with the store changed exactly as the service changes it and the same number of random draws consumed |
| `Controller.SessionController.Connect` | api/src/main/java/dr/tinychat/com/api/controller/SessionController.java:35-43 | replies 404 with no token when the session does not exist, and otherwise 200 with the token issued for (session, username) |
| `Controller.SessionController.SendMessage` | api/src/main/java/dr/tinychat/com/api/controller/SessionController.java:45-58 | a bad header or token raises and a token bound to another session gets 403, both leaving the store unchanged; otherwise the message appended has the token's subject as sender, whether or not the session exists |
| `Controller.SessionController.GetMessages` | api/src/main/java/dr/tinychat/com/api/controller/SessionController.java:60-65 | replies 404 when the session does not exist, and otherwise 200 with exactly what `readMessages` returns; it cannot change the store |
| `Controller.SessionController.Destroy` | api/src/main/java/dr/tinychat/com/api/controller/SessionController.java:67-78 | a bad header or token raises, no creator gives 404, and a subject other than the creator gives 403, all with the store unchanged; only the creator gets 204, with both keys removed and nothing else changed |
| `Scenario.RoomLifecycle` | api/src/main/java/dr/tinychat/com/api/controller/SessionController.java:29-78 | on a fresh store: the participant's post is read back, the participant cannot destroy the room, the creator can, reading then gives 404, and the participant's old token still posts with 200 |
| `Scenario.DestroyWithCreatorNameFromAnotherRoom` | api/src/main/java/dr/tinychat/com/api/controller/SessionController.java:35-78 | on a fresh store whose second drawn code differs from the first, two rooms are created; connecting to the second room under the first room's creator name yields a token bound to the second room, and that token destroys the first room with 204 |

## Left out

- Redis itself: persistence, replication, timeouts and concurrent callers are not modelled. Calls are sequential, and set-if-absent is taken to be atomic.
- Redis type errors: GET on a list key and RPUSH on a string key raise WRONGTYPE in Redis. In the model, GET of a non-string reads as absent, and RPUSH requires a non-string key. The service's key discipline rules out both cases for its own keys.
- `range` returning null, which Spring does only inside pipelines and transactions: the model reads an absent list as empty, which gives the same empty result.
- `SecureRandom`: its uniformity and unpredictability cannot be stated here. Draws come from an injected oracle.
- Jackson: encoding and decoding are abstract partial functions. The wrapped `JsonProcessingException` becomes `MessageEncodingFailed`.
- The JWT service is not part of this model. Signatures, expiry and the different kinds of parse failure all become one `TokenRejected` outcome. Tokens without a subject claim are not modelled.
- The mapping of escaping exceptions to HTTP statuses is not modelled. Neither modelled file installs an exception handler, so escaping exceptions are modelled as `Raised`.
- Spring's rejection of requests without an `X-User` or `Authorization` header (both are required headers), or with a malformed body, is not modelled, and neither are null fields inside request bodies. The handlers take both headers as plain strings. `ExtractBearer` keeps its missing-header branch, but the handlers never reach it.
- `Instant.now()` is a parameter. Timestamps carry no ordering obligation: append order is the message order.
- `client/client.py` and `RedisConfig.java` are not part of this model: the first is an asynchronous polling client, the second is bean wiring.
