/**
  The session service: allocates session codes with set-if-absent, answers
  existence and creator lookups, appends and reads messages, and destroys
  sessions, all through the store.
 */
module Sessions {
  import opened Common
  import opened KeyValueStore
  import opened Keys
  import opened Codes
  import opened MessageLog

  /** The number of codes createSession tries before giving up. */
  const MaxAttempts: nat := 1000

  /**
    The codes `n` attempts may draw from the random source, in draw order,
    starting at draw `start`; the loop draws a prefix of them.
   */
  function Candidates(oracle: nat -> nat, start: nat, n: nat): (codes: seq<string>)
    ensures |codes| == n
    ensures forall c :: c in codes ==> IsCode(c, CodeLength)
  {
    var codes := seq(n, k requires 0 <= k => CodeFrom(oracle, start + CodeLength * k, CodeLength));
    assert forall c :: c in codes ==> IsCode(c, CodeLength) by {
      forall k | 0 <= k < n {
        CodeFromIsCode(oracle, start + CodeLength * k, CodeLength);
      }
    }
    codes
  }

  /**
    The effect of the createSession loop on the string values, and its result:
    the first candidate whose creator key is absent is claimed for `creator`;
    when every candidate's key is taken, nothing changes and the call fails.
   */
  function Claim(strings: map<string, string>, lists: map<string, seq<string>>,
                 creator: string, candidates: seq<string>): (r: (map<string, string>, Result<string>))
    ensures r.1.Success? ==> r.0 == strings[KeyForCreator(r.1.value) := creator]
    ensures r.1.Failure? ==> r.0 == strings && r.1.error == NoAvailableSessionIds
  {
    if candidates == [] then (strings, Failure(NoAvailableSessionIds))
    else
      var key := KeyForCreator(candidates[0]);
      if !Present(strings, lists, key) then (strings[key := creator], Success(candidates[0]))
      else Claim(strings, lists, creator, candidates[1..])
  }

  /**
    The number of attempts the createSession loop makes over `candidates`:
    up to and including the first one whose creator key is free, or all of
    them when every key is taken.
   */
  function Attempts(strings: map<string, string>, lists: map<string, seq<string>>,
                    candidates: seq<string>): (n: nat)
  {
    if candidates == [] then 0
    else if !Present(strings, lists, KeyForCreator(candidates[0])) then 1
    else 1 + Attempts(strings, lists, candidates[1..])
  }

  /**
    The attempts end where the claim is decided: a success claims the last
    attempted candidate after every earlier one was taken, and a failure
    attempts every candidate.
   */
  lemma {:induction false} AttemptsOfClaim(strings: map<string, string>, lists: map<string, seq<string>>,
                                           creator: string, candidates: seq<string>)
    ensures Attempts(strings, lists, candidates) <= |candidates|
    ensures var r, n := Claim(strings, lists, creator, candidates), Attempts(strings, lists, candidates);
      r.1.Success? ==>
        && 1 <= n
        && r.1.value == candidates[n - 1]
        && forall j :: 0 <= j < n - 1 ==> Present(strings, lists, KeyForCreator(candidates[j]))
    ensures var r, n := Claim(strings, lists, creator, candidates), Attempts(strings, lists, candidates);
      r.1.Failure? ==> n == |candidates|
  {
    if candidates != [] && Present(strings, lists, KeyForCreator(candidates[0])) {
      AttemptsOfClaim(strings, lists, creator, candidates[1..]);
      if Claim(strings, lists, creator, candidates).1.Success? {
        var n := Attempts(strings, lists, candidates);
        forall j | 0 <= j < n - 1
          ensures Present(strings, lists, KeyForCreator(candidates[j]))
        {
          if j > 0 {
            assert candidates[j] == candidates[1..][j - 1];
          }
        }
      }
    }
  }

  /**
    A successful claim returns a candidate whose creator key was absent and now
    maps to the creator, changing nothing else; a failed claim changes nothing,
    and every candidate's key was present.
   */
  lemma {:induction false} ClaimOutcome(strings: map<string, string>, lists: map<string, seq<string>>,
                                        creator: string, candidates: seq<string>)
    ensures var r := Claim(strings, lists, creator, candidates);
      r.1.Success? ==>
        && r.1.value in candidates
        && !Present(strings, lists, KeyForCreator(r.1.value))
        && r.0 == strings[KeyForCreator(r.1.value) := creator]
    ensures var r := Claim(strings, lists, creator, candidates);
      r.1.Failure? ==>
        && r.1.error == NoAvailableSessionIds
        && r.0 == strings
        && forall c :: c in candidates ==> Present(strings, lists, KeyForCreator(c))
  {
    if candidates != [] && Present(strings, lists, KeyForCreator(candidates[0])) {
      ClaimOutcome(strings, lists, creator, candidates[1..]);
      assert candidates == [candidates[0]] + candidates[1..];
    }
  }

  /** The first candidate whose creator key is absent wins, whatever follows it. */
  lemma {:induction false} ClaimTakesFirstFree(strings: map<string, string>, lists: map<string, seq<string>>,
                                               creator: string, candidates: seq<string>, j: nat)
    requires j < |candidates|
    requires forall i :: 0 <= i < j ==> Present(strings, lists, KeyForCreator(candidates[i]))
    requires !Present(strings, lists, KeyForCreator(candidates[j]))
    ensures Claim(strings, lists, creator, candidates)
         == (strings[KeyForCreator(candidates[j]) := creator], Success(candidates[j]))
    ensures Attempts(strings, lists, candidates) == j + 1
  {
    if j > 0 {
      assert Present(strings, lists, KeyForCreator(candidates[0]));
      ClaimTakesFirstFree(strings, lists, creator, candidates[1..], j - 1);
    }
  }

  /**
    When every candidate's key is taken, every candidate is attempted, the
    claim fails and the store is unchanged.
   */
  lemma {:induction false} ClaimExhausted(strings: map<string, string>, lists: map<string, seq<string>>,
                                          creator: string, candidates: seq<string>)
    requires forall i :: 0 <= i < |candidates| ==> Present(strings, lists, KeyForCreator(candidates[i]))
    ensures Claim(strings, lists, creator, candidates) == (strings, Failure(NoAvailableSessionIds))
    ensures Attempts(strings, lists, candidates) == |candidates|
  {
    if candidates != [] {
      assert Present(strings, lists, KeyForCreator(candidates[0]));
      forall i | 0 <= i < |candidates| - 1
        ensures Present(strings, lists, KeyForCreator(candidates[1..][i]))
      {
        assert candidates[1..][i] == candidates[i + 1];
      }
      ClaimExhausted(strings, lists, creator, candidates[1..]);
    }
  }

  /** A claim never overwrites or removes a key that was already present. */
  lemma ClaimKeepsPresentKeys(strings: map<string, string>, lists: map<string, seq<string>>,
                              creator: string, candidates: seq<string>, key: string)
    requires key in strings
    ensures var r := Claim(strings, lists, creator, candidates);
      key in r.0 && r.0[key] == strings[key]
  {
    ClaimOutcome(strings, lists, creator, candidates);
  }

  /** The key discipline the service keeps: creator keys hold strings, messages keys hold lists. */
  ghost predicate KeysTyped(strings: map<string, string>, lists: map<string, seq<string>>)
  {
    && (forall id :: KeyForCreator(id) !in lists)
    && (forall id :: KeyForMessages(id) !in strings)
  }

  /** Storing a creator keeps the key discipline. */
  lemma CreatorStoreKeepsKeysTyped(strings: map<string, string>, lists: map<string, seq<string>>,
                                   sessionId: string, creator: string)
    requires KeysTyped(strings, lists)
    ensures KeysTyped(strings[KeyForCreator(sessionId) := creator], lists)
  {
    forall id ensures KeyForMessages(id) !in strings[KeyForCreator(sessionId) := creator] {
      CreatorAndMessagesKeysDiffer(sessionId, id);
    }
  }

  /** Appending to a messages list keeps the key discipline. */
  lemma MessagesPushKeepsKeysTyped(strings: map<string, string>, lists: map<string, seq<string>>,
                                   sessionId: string, entries: seq<string>)
    requires KeysTyped(strings, lists)
    ensures KeysTyped(strings, lists[KeyForMessages(sessionId) := entries])
  {
    forall id ensures KeyForCreator(id) !in lists[KeyForMessages(sessionId) := entries] {
      CreatorAndMessagesKeysDiffer(id, sessionId);
    }
  }

  /** An attempt whose key is free claims it, and is the last attempt. */
  lemma ClaimHere(strings: map<string, string>, lists: map<string, seq<string>>,
                  creator: string, candidates: seq<string>, i: nat)
    requires i < |candidates|
    requires !Present(strings, lists, KeyForCreator(candidates[i]))
    ensures Claim(strings, lists, creator, candidates[i..])
         == (strings[KeyForCreator(candidates[i]) := creator], Success(candidates[i]))
    ensures Attempts(strings, lists, candidates[i..]) == 1
  {
  }

  /** An attempt whose key is taken counts once, and the loop goes on with the candidates after it. */
  lemma ClaimSkip(strings: map<string, string>, lists: map<string, seq<string>>,
                  creator: string, candidates: seq<string>, i: nat)
    requires i < |candidates|
    requires Present(strings, lists, KeyForCreator(candidates[i]))
    ensures Claim(strings, lists, creator, candidates[i..]) == Claim(strings, lists, creator, candidates[i + 1..])
    ensures Attempts(strings, lists, candidates[i..]) == 1 + Attempts(strings, lists, candidates[i + 1..])
  {
    assert candidates[i..][1..] == candidates[i + 1..];
  }

  class SessionService {
    const redis: RedisStore
    const random: SecureRandom
    const codec: Codec

    ghost predicate Valid()
      reads redis
    {
      redis.Valid() && KeysTyped(redis.strings, redis.lists)
    }

    constructor (redis: RedisStore, random: SecureRandom, codec: Codec)
      requires redis.Valid() && KeysTyped(redis.strings, redis.lists)
      ensures Valid()
      ensures this.redis == redis && this.random == random && this.codec == codec
    {
      this.redis := redis;
      this.random := random;
      this.codec := codec;
    }

    /**
      sessionExists: the creator key of the session is present; under the key
      discipline, exactly when the session has a creator.
     */
    function SessionExists(sessionId: string): (b: bool)
      reads redis
      ensures Valid() ==> (b <==> GetCreator(sessionId).Some?)
    {
      redis.HasKey(KeyForCreator(sessionId))
    }

    /** getCreator: the value stored under the session's creator key, or none (null) when it holds none. */
    function GetCreator(sessionId: string): (creator: Option<string>)
      reads redis
      ensures creator.Some? <==> KeyForCreator(sessionId) in redis.strings
      ensures creator.Some? ==> creator.value == redis.strings[KeyForCreator(sessionId)]
    {
      redis.Get(KeyForCreator(sessionId))
    }

    /** What readMessages returns for a session in the current store. */
    function Messages(sessionId: string): seq<Message>
      reads redis
    {
      DecodeAll(codec.decode, redis.Range(KeyForMessages(sessionId)))
    }

    /** createSession: claims the first drawn code whose creator key is free, within MaxAttempts draws. */
    method CreateSession(creator: string) returns (r: Result<string>)
      requires Valid()
      modifies redis, random
      ensures Valid()
      ensures (redis.strings, r)
           == Claim(old(redis.strings), old(redis.lists), creator,
                    Candidates(random.oracle, old(random.drawn), MaxAttempts))
      ensures redis.lists == old(redis.lists)
      ensures r.Success? ==>
        && IsCode(r.value, CodeLength)
        && !old(SessionExists(r.value))
        && SessionExists(r.value)
        && GetCreator(r.value) == Some(creator)
      ensures random.drawn
           == old(random.drawn)
              + CodeLength * Attempts(old(redis.strings), old(redis.lists),
                                      Candidates(random.oracle, old(random.drawn), MaxAttempts))
      ensures random.drawn <= old(random.drawn) + CodeLength * MaxAttempts
    {
      ghost var strings0, lists0, drawn0 := redis.strings, redis.lists, random.drawn;
      ghost var all := Candidates(random.oracle, drawn0, MaxAttempts);
      for i := 0 to MaxAttempts
        invariant redis.strings == strings0 && redis.lists == lists0
        invariant random.drawn == drawn0 + CodeLength * i
        invariant Claim(strings0, lists0, creator, all) == Claim(strings0, lists0, creator, all[i..])
        invariant Attempts(strings0, lists0, all) == i + Attempts(strings0, lists0, all[i..])
      {
        assert all[i] == CodeFrom(random.oracle, random.drawn, CodeLength);
        var sessionId := GenerateCode(random, CodeLength);
        var key := KeyForCreator(sessionId);
        var success := redis.SetIfAbsent(key, creator);
        if success {
          ClaimHere(strings0, lists0, creator, all, i);
          CreatorStoreKeepsKeysTyped(strings0, lists0, sessionId, creator);
          return Success(sessionId);
        }
        ClaimSkip(strings0, lists0, creator, all, i);
      }
      assert all[MaxAttempts..] == [];
      return Failure(NoAvailableSessionIds);
    }

    /** pushMessage: appends the encoding of (from, text, now) to the tail of the session's list. */
    method PushMessage(sessionId: string, from: string, text: string, now: int) returns (r: Outcome)
      requires Valid()
      modifies redis
      ensures Valid()
      ensures redis.strings == old(redis.strings)
      ensures match codec.encode(Message(from, text, now))
        case None =>
          r == Fail(MessageEncodingFailed) && redis.lists == old(redis.lists)
        case Some(json) =>
          && r == Pass
          && redis.lists == old(redis.lists)[KeyForMessages(sessionId) := old(redis.Range(KeyForMessages(sessionId))) + [json]]
      ensures Inverts(codec) && r == Pass ==>
        Messages(sessionId) == old(Messages(sessionId)) + [Message(from, text, now)]
    {
      var dto := Message(from, text, now);
      var encoded := codec.encode(dto);
      if encoded.None? {
        return Fail(MessageEncodingFailed);
      }
      var key := KeyForMessages(sessionId);
      ghost var raw := redis.Range(key);
      MessagesPushKeepsKeysTyped(redis.strings, redis.lists, sessionId, raw + [encoded.value]);
      redis.RightPush(key, encoded.value);
      if Inverts(codec) {
        PushThenRead(codec, raw, dto, encoded.value);
      }
      r := Pass;
    }

    /** readMessages: the decodings of the session's entries that decode, in list order. */
    method ReadMessages(sessionId: string) returns (out: seq<Message>)
      ensures out == DecodeAll(codec.decode, redis.Range(KeyForMessages(sessionId)))
    {
      var raw := redis.Range(KeyForMessages(sessionId));
      out := [];
      for i := 0 to |raw|
        invariant out == DecodeAll(codec.decode, raw[..i])
      {
        assert raw[..i + 1][..i] == raw[..i];
        var dto := codec.decode(raw[i]);
        if dto.Some? {
          out := out + [dto.value];
        }
      }
      assert raw[..|raw|] == raw;
    }

    /** destroySession: deletes the session's creator key, then its messages key. */
    method DestroySession(sessionId: string)
      requires Valid()
      modifies redis
      ensures Valid()
      ensures redis.strings == old(redis.strings) - {KeyForCreator(sessionId)}
      ensures redis.lists == old(redis.lists) - {KeyForMessages(sessionId)}
      ensures !SessionExists(sessionId) && GetCreator(sessionId) == None && Messages(sessionId) == []
      ensures !old(SessionExists(sessionId)) && old(redis.Range(KeyForMessages(sessionId))) == [] ==>
        redis.strings == old(redis.strings) && redis.lists == old(redis.lists)
    {
      redis.Delete(KeyForCreator(sessionId));
      redis.Delete(KeyForMessages(sessionId));
    }
  }
}
