/**
  Chat messages and the way a session's message list is read back: every raw
  entry that decodes becomes a message, in list order; the others are skipped.
 */
module MessageLog {
  import opened Common

  /** A message as stored: sender, text and the millisecond timestamp of its append. */
  datatype Message = Message(from: string, text: string, timestamp: int)

  /** The JSON mapper: encoding may fail, decoding is partial. */
  datatype Codec = Codec(encode: Message -> Option<string>, decode: string -> Option<Message>)

  /** Decoding gives back every message that encodes. */
  ghost predicate Inverts(codec: Codec)
  {
    forall m :: codec.encode(m).Some? ==> codec.decode(codec.encode(m).value) == Some(m)
  }

  /**
    The messages carried by `raw`: the decodings of the entries that decode, in
    order. Reading never yields more messages than the list has entries.
   */
  function DecodeAll(decode: string -> Option<Message>, raw: seq<string>): (out: seq<Message>)
    ensures |out| <= |raw|
  {
    if raw == [] then []
    else
      var last := decode(raw[|raw| - 1]);
      DecodeAll(decode, raw[..|raw| - 1]) + if last.Some? then [last.value] else []
  }

  /** Reading a concatenation reads each part in turn: list order is kept. */
  lemma {:induction false} DecodeAllAppend(decode: string -> Option<Message>, a: seq<string>, b: seq<string>)
    ensures DecodeAll(decode, a + b) == DecodeAll(decode, a) + DecodeAll(decode, b)
  {
    if b == [] {
      assert a + b == a;
    } else {
      var last := decode(b[|b| - 1]);
      assert (a + b)[..|a + b| - 1] == a + b[..|b| - 1];
      DecodeAllAppend(decode, a, b[..|b| - 1]);
    }
  }

  /** An entry that does not decode is skipped and nothing else is lost. */
  lemma SkipsMalformed(decode: string -> Option<Message>, a: seq<string>, bad: string, b: seq<string>)
    requires decode(bad) == None
    ensures DecodeAll(decode, a + [bad] + b) == DecodeAll(decode, a) + DecodeAll(decode, b)
  {
    var prefix := a + [bad];
    assert prefix[..|prefix| - 1] == a;
    assert DecodeAll(decode, prefix) == DecodeAll(decode, a);
    DecodeAllAppend(decode, prefix, b);
  }

  /** A message is read back exactly when some entry of the list decodes to it. */
  lemma {:induction false} DecodeAllMembers(decode: string -> Option<Message>, raw: seq<string>, m: Message)
    ensures m in DecodeAll(decode, raw) <==> exists i :: 0 <= i < |raw| && decode(raw[i]) == Some(m)
  {
    if raw != [] {
      var init := raw[..|raw| - 1];
      DecodeAllMembers(decode, init, m);
      if exists i :: 0 <= i < |raw| && decode(raw[i]) == Some(m) {
        var i :| 0 <= i < |raw| && decode(raw[i]) == Some(m);
        if i < |raw| - 1 {
          assert init[i] == raw[i];
        }
      }
      if exists i :: 0 <= i < |init| && decode(init[i]) == Some(m) {
        var i :| 0 <= i < |init| && decode(init[i]) == Some(m);
        assert raw[i] == init[i];
      }
    }
  }

  /** When every entry decodes, the i-th message read is the decoding of the i-th entry. */
  lemma {:induction false} DecodeAllWellFormed(decode: string -> Option<Message>, raw: seq<string>)
    requires forall i :: 0 <= i < |raw| ==> decode(raw[i]).Some?
    ensures |DecodeAll(decode, raw)| == |raw|
    ensures forall i :: 0 <= i < |raw| ==> DecodeAll(decode, raw)[i] == decode(raw[i]).value
  {
    if raw != [] {
      var init := raw[..|raw| - 1];
      assert forall i :: 0 <= i < |init| ==> init[i] == raw[i];
      DecodeAllWellFormed(decode, init);
    }
  }

  /** Appending the encoding of `m` appends `m` to what is read, when decoding inverts encoding. */
  lemma PushThenRead(codec: Codec, raw: seq<string>, m: Message, json: string)
    requires Inverts(codec)
    requires codec.encode(m) == Some(json)
    ensures DecodeAll(codec.decode, raw + [json]) == DecodeAll(codec.decode, raw) + [m]
  {
    assert (raw + [json])[..|raw|] == raw;
  }
}
