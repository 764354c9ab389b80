/** The store key names under which a session's data lives. */
module Keys {

  /** The string key holding the creator of session `sessionId`. */
  function KeyForCreator(sessionId: string): (key: string)
    ensures |key| == |sessionId| + 16
    ensures "session:" + sessionId <= key
    ensures key[|key| - 8..] == ":creator"
  {
    "session:" + sessionId + ":creator"
  }

  /** The list key holding the serialised messages of session `sessionId`. */
  function KeyForMessages(sessionId: string): (key: string)
    ensures |key| == |sessionId| + 17
    ensures "session:" + sessionId <= key
    ensures key[|key| - 9..] == ":messages"
  {
    "session:" + sessionId + ":messages"
  }

  /** Distinct sessions have distinct creator keys. */
  lemma KeyForCreatorInjective(a: string, b: string)
    ensures KeyForCreator(a) == KeyForCreator(b) <==> a == b
  {
    if KeyForCreator(a) == KeyForCreator(b) {
      assert |a| == |b|;
      assert a == KeyForCreator(a)[8..8 + |a|];
      assert b == KeyForCreator(b)[8..8 + |b|];
    }
  }

  /** Distinct sessions have distinct messages keys. */
  lemma KeyForMessagesInjective(a: string, b: string)
    ensures KeyForMessages(a) == KeyForMessages(b) <==> a == b
  {
    if KeyForMessages(a) == KeyForMessages(b) {
      assert |a| == |b|;
      assert a == KeyForMessages(a)[8..8 + |a|];
      assert b == KeyForMessages(b)[8..8 + |b|];
    }
  }

  /** No creator key, of any session, is the messages key of any session. */
  lemma CreatorAndMessagesKeysDiffer(a: string, b: string)
    ensures KeyForCreator(a) != KeyForMessages(b)
  {
    var c, m := KeyForCreator(a), KeyForMessages(b);
    assert c[|c| - 1] == 'r';
    assert m[|m| - 1] == 's';
  }
}
