/**
 * The common message envelope (Marauroa's `Message` superclass), kept
 * abstract: the bytes and JSON it writes before a message's own fields are
 * produced by a `HeaderCodec`, of which only the type tag it carries matters
 * here.
 */
module Envelope {
  import opened JavaBytes
  import opened Wrappers

  /** The kind of a protocol message; every kind other than the login rejection is lumped together. */
  datatype MessageType = S2C_LOGIN_NACK | OtherMessageType(kind: nat)

  /** The transport channel a message came from or goes to; it is never serialized. */
  datatype Channel = Channel(address: string)

  /**
   * How the envelope header is encoded.
   * `write(t)` is the header bytes of a message of type `t`;
   * `read(s)` parses a header at the front of `s`, giving its type and the bytes after it;
   * `json(t)` is the JSON the envelope contributes before the message's own fields.
   */
  datatype HeaderCodec = HeaderCodec(
    write: MessageType -> seq<int8>,
    read: seq<int8> -> Option<(MessageType, seq<int8>)>,
    json: MessageType -> string)

  /** Reading back a written header gives its type and leaves whatever followed it untouched. */
  ghost predicate Sound(codec: HeaderCodec) {
    forall t: MessageType, rest: seq<int8> :: codec.read(codec.write(t) + rest) == Some((t, rest))
  }

  /** Why a read or write of a message does not complete normally (the Java exception it throws). */
  datatype Error =
    | MalformedHeader                // the envelope's own readObject threw IOException
    | EndOfStream                    // readByte() reached the end of the input
    | IndexOutOfBounds(index: int)   // Reasons.values()[index] threw ArrayIndexOutOfBoundsException
    | TypeMismatch(found: MessageType) // the type check threw IOException
    | NullReason                     // the reason field is null: NullPointerException
}
