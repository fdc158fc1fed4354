/**
 * The login-rejection message `MessageS2CLoginNACK`: the envelope header
 * followed by one byte, the ordinal of the rejection reason. Its JSON form is
 * the envelope's JSON followed by the reason's symbolic name and its
 * untranslated text.
 *
 * The pure functions `Encode`, `Read` and `JsonFields` say what the wire and
 * JSON forms are; the class `MessageS2CLoginNACK` writes and reads them in
 * place, as the Java object does, and is proved against those functions.
 */
module LoginNack {
  import opened Wrappers
  import opened JavaBytes
  import opened Envelope
  import opened LoginReasons
  import opened Serializers

  /** The bytes `writeObject` produces for a message of type `t` with reason `r`. */
  function Encode(codec: HeaderCodec, t: MessageType, r: Reasons): seq<int8>
  {
    codec.write(t) + [ByteCast(Ordinal(r))]
  }

  /** The wire form is the header followed by exactly one byte, the reason's ordinal. */
  lemma EncodeLayout(codec: HeaderCodec, t: MessageType, r: Reasons)
    ensures |Encode(codec, t, r)| == |codec.write(t)| + 1
    ensures Encode(codec, t, r)[..|codec.write(t)|] == codec.write(t)
    ensures Encode(codec, t, r)[|codec.write(t)|] as int == Ordinal(r)
  {
  }

  /**
   * What `readObject` does to a message and to its input `s`.
   * `msgType`: the type the envelope read, if it got that far;
   * `reason`: the reason assigned to the message, if it got that far;
   * `rest`: the input left unconsumed; `outcome`: normal return or the exception.
   */
  datatype ReadEffect = ReadEffect(
    msgType: Option<MessageType>,
    reason: Option<Reasons>,
    rest: seq<int8>,
    outcome: Outcome<Error>)

  /**
   * `readObject` in the order the code does it: read the header, read a
   * signed byte, index `values()` with it, and only then check the type.
   */
  function Read(codec: HeaderCodec, s: seq<int8>): ReadEffect
  {
    match codec.read(s)
    case None => ReadEffect(None, None, s, Fail(MalformedHeader))
    case Some((t, body)) =>
      if body == [] then ReadEffect(Some(t), None, [], Fail(EndOfStream))
      else
        match FromOrdinal(body[0] as int)
        case None => ReadEffect(Some(t), None, body[1..], Fail(IndexOutOfBounds(body[0] as int)))
        case Some(r) =>
          ReadEffect(Some(t), Some(r), body[1..], if t == S2C_LOGIN_NACK then Pass else Fail(TypeMismatch(t)))
  }

  /** Decoding what was encoded gives back the reason and the type, and consumes exactly the message. */
  lemma WireRoundTrip(codec: HeaderCodec, r: Reasons, rest: seq<int8>)
    requires Sound(codec)
    ensures Read(codec, Encode(codec, S2C_LOGIN_NACK, r) + rest)
         == ReadEffect(Some(S2C_LOGIN_NACK), Some(r), rest, Pass)
  {
    var h := codec.write(S2C_LOGIN_NACK);
    var b := ByteCast(Ordinal(r));
    assert Encode(codec, S2C_LOGIN_NACK, r) + rest == h + ([b] + rest);
    assert codec.read(h + ([b] + rest)) == Some((S2C_LOGIN_NACK, [b] + rest));
    OrdinalRoundTrip(r, 0);
  }

  /**
   * A message of any other type is rejected, but only after its reason byte
   * has been consumed and assigned to the message.
   */
  lemma ForeignTypeRejected(codec: HeaderCodec, t: MessageType, r: Reasons, rest: seq<int8>)
    requires Sound(codec)
    requires t != S2C_LOGIN_NACK
    ensures Read(codec, Encode(codec, t, r) + rest) == ReadEffect(Some(t), Some(r), rest, Fail(TypeMismatch(t)))
  {
    var h := codec.write(t);
    var b := ByteCast(Ordinal(r));
    assert Encode(codec, t, r) + rest == h + ([b] + rest);
    assert codec.read(h + ([b] + rest)) == Some((t, [b] + rest));
    OrdinalRoundTrip(r, 0);
  }

  /**
   * A byte that is not an ordinal, negative signed bytes included, is
   * rejected whatever the header says, and no reason is assigned.
   */
  lemma UnknownOrdinalRejected(codec: HeaderCodec, t: MessageType, b: int8, rest: seq<int8>)
    requires Sound(codec)
    requires b < 0 || b as int >= REASON_COUNT
    ensures Read(codec, codec.write(t) + [b] + rest) == ReadEffect(Some(t), None, rest, Fail(IndexOutOfBounds(b as int)))
  {
    var h := codec.write(t);
    assert h + [b] + rest == h + ([b] + rest);
    assert codec.read(h + ([b] + rest)) == Some((t, [b] + rest));
  }

  /** A truncated message, a header with nothing after it, is rejected with no reason assigned. */
  lemma TruncatedRejected(codec: HeaderCodec, t: MessageType)
    requires Sound(codec)
    ensures Read(codec, codec.write(t)) == ReadEffect(Some(t), None, [], Fail(EndOfStream))
  {
    assert codec.write(t) + [] == codec.write(t);
  }

  /**
   * On every input, a reason is produced only from a byte equal to its
   * ordinal, and the read completes normally exactly when a reason was
   * produced and the header's type is the login rejection.
   */
  lemma ReadSoundOnAllInputs(codec: HeaderCodec, s: seq<int8>)
    ensures Read(codec, s).reason.Some? ==>
      codec.read(s).Some? && |codec.read(s).value.1| > 0 &&
      codec.read(s).value.1[0] as int == Ordinal(Read(codec, s).reason.value)
    ensures Read(codec, s).outcome.Pass? <==>
      Read(codec, s).reason.Some? && Read(codec, s).msgType == Some(S2C_LOGIN_NACK)
  {
  }

  /** The key that opens the reason field in the JSON form. */
  const REASON_KEY: string := ",\"reason\":\""
  /** What closes the reason field and opens the text field. */
  const TEXT_KEY: string := "\",\"text\":"

  /** The reason and text fields for a given name and an already written text. */
  function Fields(name: string, written: string): string
  {
    REASON_KEY + name + TEXT_KEY + written
  }

  /**
   * The JSON `writeToJson` appends after the envelope's, where `writeJson(s)`
   * is what `OutputSerializer.writeJson` appends for the string `s`.
   */
  function JsonFields(r: Reasons, writeJson: string -> string): string
  {
    Fields(Name(r), writeJson(Text(r)))
  }

  /** Appending strings one after another is appending the first to the rest. */
  lemma Regroup(p: string, a: string, b: string, c: string)
    ensures p + a + b + c == p + (a + b + c)
  {
  }

  /** The two halves of an appended string are found again by slicing at the length of the first. */
  lemma SplitAppend(a: string, b: string)
    ensures (a + b)[..|a|] == a && (a + b)[|a|..] == b
  {
  }

  /** The characters of `s` before its first double quote. */
  function UpToQuote(s: string): (p: string)
    ensures |p| <= |s| && p == s[..|p|]
    ensures '"' !in p
  {
    if s == [] || s[0] == '"' then [] else [s[0]] + UpToQuote(s[1..])
  }

  /** A quote-free prefix is read back exactly when what follows it starts with a quote. */
  lemma {:induction false} UpToQuoteOfQuoted(p: string, tail: string)
    requires '"' !in p
    requires |tail| > 0 && tail[0] == '"'
    ensures UpToQuote(p + tail) == p
  {
    if p != [] {
      assert (p + tail)[0] == p[0];
      assert (p + tail)[1..] == p[1..] + tail;
      UpToQuoteOfQuoted(p[1..], tail);
    } else {
      assert p + tail == tail;
    }
  }

  /**
   * For any quote-free name and any written text, the fields open with the
   * reason key, the name is what stands between the key and the next quote,
   * and the written text is what follows the text key.
   */
  lemma FieldsLayout(name: string, written: string)
    requires '"' !in name
    ensures |Fields(name, written)| == |REASON_KEY| + |name| + |TEXT_KEY| + |written|
    ensures Fields(name, written)[..|REASON_KEY|] == REASON_KEY
    ensures UpToQuote(Fields(name, written)[|REASON_KEY|..]) == name
    ensures Fields(name, written)[|REASON_KEY| + |name| + |TEXT_KEY|..] == written
  {
    var rest := name + TEXT_KEY + written;
    Regroup(REASON_KEY, name, TEXT_KEY, written);
    SplitAppend(REASON_KEY, rest);
    Regroup([], name, TEXT_KEY, written);
    assert name + TEXT_KEY + written == name + (TEXT_KEY + written);
    assert TEXT_KEY[0] == '"';
    UpToQuoteOfQuoted(name, TEXT_KEY + written);
    SplitAppend(REASON_KEY + name + TEXT_KEY, written);
  }

  /**
   * Reads the reason back from JSON produced by `JsonFields`: the symbolic
   * name between the reason key and the next quote, looked up by `valueOf`.
   */
  function ReasonOfJson(json: string): Option<Reasons>
  {
    if |json| >= |REASON_KEY| && json[..|REASON_KEY|] == REASON_KEY
    then ValueOf(UpToQuote(json[|REASON_KEY|..]))
    else None
  }

  /**
   * The JSON fields carry the reason by its symbolic name (not its ordinal)
   * and the untranslated text after it: the reason can be read back from
   * them, whatever the string encoder does.
   */
  lemma JsonCarriesName(r: Reasons, writeJson: string -> string)
    ensures JsonFields(r, writeJson)[..|REASON_KEY|] == REASON_KEY
    ensures ReasonOfJson(JsonFields(r, writeJson)) == Some(r)
    ensures JsonFields(r, writeJson)[|REASON_KEY| + |Name(r)| + |TEXT_KEY|..] == writeJson(Text(r))
  {
    NameHasNoQuote(r);
    FieldsLayout(Name(r), writeJson(Text(r)));
    ValueOfName(r);
  }

  /** The login-rejection message object. */
  class MessageS2CLoginNACK {
    /** The envelope's type tag. */
    var msgType: MessageType
    /** The channel the message belongs to, if any; never serialized. */
    var channel: Option<Channel>
    /** The rejection reason; `None` stands for Java's `null`, before one is set. */
    var reason: Option<Reasons>

    /** The empty message, to be filled in by `ReadObject`. */
    constructor Empty()
      ensures msgType == S2C_LOGIN_NACK && channel == None && reason == None
    {
      msgType := S2C_LOGIN_NACK;
      channel := None;
      reason := None;
    }

    /** A message carrying `resolution`, for the channel `source` (which Java allows to be null). */
    constructor (source: Option<Channel>, resolution: Reasons)
      ensures msgType == S2C_LOGIN_NACK && channel == source && reason == Some(resolution)
    {
      msgType := S2C_LOGIN_NACK;
      channel := source;
      reason := Some(resolution);
    }

    /** `getResolutionCode()`: the stored reason. */
    function GetResolutionCode(): (r: Option<Reasons>)
      reads this
      ensures r == reason
    {
      reason
    }

    /** `getResolution()`: the reason's text, translated; fails while the reason is null. */
    function GetResolution(translate: string -> string): (s: Result<string, Error>)
      reads this
      ensures reason.Some? ==> s == Success(translate(Text(reason.value)))
      ensures reason.None? ==> s == Failure(NullReason)
    {
      if reason.None? then Failure(NullReason) else Success(translate(Text(reason.value)))
    }

    /**
     * `writeObject`: the header, then the ordinal as one byte. With no reason
     * set the header is still written before the failure.
     */
    method WriteObject(codec: HeaderCodec, out: OutputSerializer) returns (outcome: Outcome<Error>)
      modifies out
      ensures reason.Some? ==> outcome == Pass && out.bytes == old(out.bytes) + Encode(codec, msgType, reason.value)
      ensures reason.None? ==> outcome == Fail(NullReason) && out.bytes == old(out.bytes) + codec.write(msgType)
    {
      out.WriteAll(codec.write(msgType));
      if reason.None? {
        return Fail(NullReason);
      }
      out.Write(ByteCast(Ordinal(reason.value)));
      return Pass;
    }

    /**
     * `readObject`: consumes the header and one byte and updates the type and
     * the reason as `Read` says, keeping whatever it did not reach.
     */
    method ReadObject(codec: HeaderCodec, inp: InputSerializer) returns (outcome: Outcome<Error>)
      modifies this, inp
      ensures var e := Read(codec, old(inp.remaining));
        && outcome == e.outcome
        && inp.remaining == e.rest
        && msgType == (if e.msgType.Some? then e.msgType.value else old(msgType))
        && reason == (if e.reason.Some? then e.reason else old(reason))
        && channel == old(channel)
    {
      var header := inp.ReadWith(codec.read);
      if header.None? {
        return Fail(MalformedHeader);
      }
      msgType := header.value;
      var b := inp.ReadByte();
      if b.None? {
        return Fail(EndOfStream);
      }
      var index := b.value as int;
      if !(0 <= index < |Values()|) {
        return Fail(IndexOutOfBounds(index));
      }
      reason := Some(Values()[index]);
      if msgType != S2C_LOGIN_NACK {
        return Fail(TypeMismatch(msgType));
      }
      return Pass;
    }

    /**
     * `writeToJson`: the envelope's JSON, then the reason's name and text.
     * With no reason set the output stops after the reason key.
     */
    method WriteToJson(codec: HeaderCodec, sb: StringBuilder, writeJson: string -> string) returns (outcome: Outcome<Error>)
      modifies sb
      ensures reason.Some? ==> outcome == Pass && sb.text == old(sb.text) + codec.json(msgType) + JsonFields(reason.value, writeJson)
      ensures reason.None? ==> outcome == Fail(NullReason) && sb.text == old(sb.text) + codec.json(msgType) + REASON_KEY
    {
      ghost var prefix := sb.text + codec.json(msgType);
      sb.Append(codec.json(msgType));
      sb.Append(REASON_KEY);
      if reason.None? {
        return Fail(NullReason);
      }
      var r := reason.value;
      AppendNameAndText(sb, Name(r), writeJson(Text(r)));
      FieldsAfterKey(prefix, Name(r), writeJson(Text(r)));
      return Pass;
    }
  }

  /** The tail of `writeToJson` after the reason key: the name, the text key, the written text. */
  method AppendNameAndText(sb: StringBuilder, name: string, written: string)
    modifies sb
    ensures sb.text == old(sb.text) + (name + TEXT_KEY + written)
  {
    ghost var before := sb.text;
    sb.Append(name);
    sb.Append(TEXT_KEY);
    sb.Append(written);
    Regroup(before, name, TEXT_KEY, written);
  }

  /** The reason key followed by the tail is the whole of the fields. */
  lemma FieldsAfterKey(prefix: string, name: string, written: string)
    ensures prefix + REASON_KEY + (name + TEXT_KEY + written) == prefix + Fields(name, written)
  {
    Regroup(REASON_KEY, name, TEXT_KEY, written);
    assert REASON_KEY + (name + TEXT_KEY + written) == Fields(name, written);
  }

  /**
   * A server sends a rejection for `r`, the client reads it into an empty
   * message: the client's message holds `r`, has the login-rejection type and
   * renders the same text.
   */
  method SendAndReceive(codec: HeaderCodec, source: Option<Channel>, r: Reasons, translate: string -> string)
    returns (outcome: Outcome<Error>, receivedType: MessageType, received: Option<Reasons>, resolution: Result<string, Error>)
    requires Sound(codec)
    ensures outcome == Pass && receivedType == S2C_LOGIN_NACK && received == Some(r)
    ensures resolution == Success(translate(Text(r)))
  {
    var sent := new MessageS2CLoginNACK(source, r);
    var out := new OutputSerializer();
    var _ := sent.WriteObject(codec, out);
    var inp := new InputSerializer(out.bytes);
    var got := new MessageS2CLoginNACK.Empty();
    WireRoundTrip(codec, r, []);
    assert out.bytes == Encode(codec, S2C_LOGIN_NACK, r) + [];
    outcome := got.ReadObject(codec, inp);
    receivedType := got.msgType;
    received := got.GetResolutionCode();
    resolution := got.GetResolution(translate);
  }

  /**
   * Writing a rejection for `r` to JSON from an empty buffer gives the
   * envelope's JSON followed by fields from which `r` reads back by name.
   */
  method RenderJson(codec: HeaderCodec, r: Reasons, writeJson: string -> string) returns (json: string)
    ensures |json| >= |codec.json(S2C_LOGIN_NACK)|
    ensures json[..|codec.json(S2C_LOGIN_NACK)|] == codec.json(S2C_LOGIN_NACK)
    ensures ReasonOfJson(json[|codec.json(S2C_LOGIN_NACK)|..]) == Some(r)
  {
    var m := new MessageS2CLoginNACK(None, r);
    var sb := new StringBuilder();
    var _ := m.WriteToJson(codec, sb, writeJson);
    json := sb.text;
    SplitAppend(codec.json(S2C_LOGIN_NACK), JsonFields(r, writeJson));
    JsonCarriesName(r, writeJson);
  }
}
