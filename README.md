# Marauroa login rejection and account-creation outcomes, in Dafny

This project models two pieces of the Marauroa game protocol:

- the login-rejection message `MessageS2CLoginNACK`: the `Reasons` enumeration,
  whose ordinal is what crosses the wire as a single signed byte after the
  message envelope's header; the table of untranslated texts indexed by that
  ordinal; the message object with its two constructors, `getResolutionCode`,
  `getResolution`, the binary `writeObject`/`readObject` and the diagnostic
  `writeToJson`;
- the account-creation outcome enumeration `Result`, each constant carrying a
  `created` flag and an untranslated text, with `failed()` and `getText()`.

Files:

- `wrappers.dfy` (`Wrappers`): `Option`, `Outcome` (a void call that returns or throws) and `Result`.
- `java_bytes.dfy` (`JavaBytes`): Java's signed `byte` as `int8` and the `(byte)` narrowing cast.
- `serializers.dfy` (`Serializers`): the byte sink, the byte source and the `StringBuilder` the message works on, as small classes.
- `envelope.dfy` (`Envelope`): the message type, the channel, the abstract header codec and the error taxonomy.
- `reasons.dfy` (`LoginReasons`): `Reasons`, ordinals, `values()`, `valueOf`, names and the text table.
- `login_nack.dfy` (`LoginNack`): the wire and JSON forms as functions, the message class proved against them, a send-and-receive scenario and a JSON rendering.
- `result.dfy` (`GameResult`): the `Result` enumeration.

The envelope's header is kept abstract: a `HeaderCodec` gives the header
bytes for a message type, parses a header off the front of a byte sequence,
and gives the envelope's JSON. The only thing assumed of it (`Envelope.Sound`)
is that parsing a written header returns its type and leaves the following
bytes untouched. The translator (`I18N.translate`) and the JSON string writer
(`OutputSerializer.writeJson`) are function parameters.

Java exceptions become failure values: `IndexOutOfBounds` for the
`ArrayIndexOutOfBoundsException` of `values()[b]`, `TypeMismatch` for the
`IOException` of the type check, `EndOfStream` and `MalformedHeader` for I/O
failures, `NullReason` for the `NullPointerException` raised when a message
made by the empty constructor is written or rendered. `readObject` is modelled
in the order the code runs: the header is read, the reason byte is read and
looked up and assigned, and only then is the type checked, so a message of the
wrong type is rejected after its reason field has already been set.
Java's `readByte` is signed, so bytes -128..-1 are rejected as out of
range just like 12..127.

## Model

| member | source | states |
|---|---|---|
| `JavaBytes.ByteCast` | src/marauroa/common/net/message/MessageS2CLoginNACK.java:135 | the `(byte)` cast keeps the value modulo 256 and is the identity on -128..127 |
| `LoginReasons.Ordinal` | src/marauroa/common/net/message/MessageS2CLoginNACK.java:33-58 | every reason's ordinal is below the number of reasons, 12 |
| `LoginReasons.OrdinalsPinned` | src/marauroa/common/net/message/MessageS2CLoginNACK.java:33-58 | the wire ordinals in declaration order: USERNAME_WRONG=0 up to ACCOUNT_MERGED=11 |
| `LoginReasons.OrdinalInjective` | src/marauroa/common/net/message/MessageS2CLoginNACK.java:33-58 | different reasons have different ordinals |
| `LoginReasons.Values` | src/marauroa/common/net/message/MessageS2CLoginNACK.java:141 | `values()` has 12 entries and the entry at index i has ordinal i |
| `LoginReasons.ValuesAtOrdinal` | src/marauroa/common/net/message/MessageS2CLoginNACK.java:141 | every reason is in `values()`, at the index of its ordinal |
| `LoginReasons.FromOrdinal` | src/marauroa/common/net/message/MessageS2CLoginNACK.java:141 | indexing `values()` with any int yields a reason exactly when the int is in 0..11, and that reason has the int as ordinal |
| `LoginReasons.OrdinalRoundTrip` | src/marauroa/common/net/message/MessageS2CLoginNACK.java:135-141 | looking up a reason's ordinal gives the reason back, and any looked-up reason has the index as ordinal |
| `LoginReasons.OrdinalCastLossless` | src/marauroa/common/net/message/MessageS2CLoginNACK.java:135 | every ordinal survives the `(byte)` cast unchanged |
| `LoginReasons.Name` | src/marauroa/common/net/message/MessageS2CLoginNACK.java:152 | `reason.name()`, the symbolic identifier; its properties are stated by NameHasNoQuote, NameInjective and ValueOfName |
| `LoginReasons.NameHasNoQuote` | src/marauroa/common/net/message/MessageS2CLoginNACK.java:151-153 | no `name()` contains a double quote, so the name stands between the JSON quotes as written |
| `LoginReasons.NameInjective` | src/marauroa/common/net/message/MessageS2CLoginNACK.java:152 | different reasons have different names |
| `LoginReasons.ValueOf` | src/marauroa/common/net/message/MessageS2CLoginNACK.java:33-58 | the enum's `valueOf` returns a reason with the given name, or nothing when no reason has it |
| `LoginReasons.ValueOfName` | src/marauroa/common/net/message/MessageS2CLoginNACK.java:33-58 | `valueOf(name())` gives the reason back |
| `LoginReasons.TextTableAligned` | src/marauroa/common/net/message/MessageS2CLoginNACK.java:60-79 | the text table has exactly as many entries as `Reasons` has variants, so `text[ordinal]` is in bounds for every reason |
| `LoginReasons.Text` | src/marauroa/common/net/message/MessageS2CLoginNACK.java:118 | `text[reason.ordinal()]`, the untranslated text; in bounds by TextTableAligned, distinct by TextInjective |
| `LoginReasons.TextInjective` | src/marauroa/common/net/message/MessageS2CLoginNACK.java:60-79 | the twelve texts are distinct, so a text identifies its reason |
| `LoginNack.Encode` | src/marauroa/common/net/message/MessageS2CLoginNACK.java:133-136 | the bytes `writeObject` produces; its layout is stated by EncodeLayout and its inverse by WireRoundTrip |
| `LoginNack.EncodeLayout` | src/marauroa/common/net/message/MessageS2CLoginNACK.java:133-136 | the wire form is the header followed by exactly one byte, equal to the reason's ordinal |
| `LoginNack.Read` | src/marauroa/common/net/message/MessageS2CLoginNACK.java:139-146 | what `readObject` does to the message and its input, in the code's order; stated by WireRoundTrip, ForeignTypeRejected, UnknownOrdinalRejected, TruncatedRejected and ReadSoundOnAllInputs |
| `LoginNack.WireRoundTrip` | src/marauroa/common/net/message/MessageS2CLoginNACK.java:133-146 | reading what was written gives back the same reason and the login-rejection type, completes normally and consumes exactly the message |
| `LoginNack.ForeignTypeRejected` | src/marauroa/common/net/message/MessageS2CLoginNACK.java:139-146 | a message whose header has another type fails with a type mismatch, after its reason byte was consumed and assigned |
| `LoginNack.UnknownOrdinalRejected` | src/marauroa/common/net/message/MessageS2CLoginNACK.java:141 | a reason byte outside 0..11, negative bytes included, fails with an out-of-bounds index whatever the type, and no reason is assigned |
| `LoginNack.TruncatedRejected` | src/marauroa/common/net/message/MessageS2CLoginNACK.java:141 | a header with no byte after it fails at the end of the stream, with no reason assigned |
| `LoginNack.ReadSoundOnAllInputs` | src/marauroa/common/net/message/MessageS2CLoginNACK.java:139-146 | on any input a reason comes only from a byte equal to its ordinal, and the read completes normally exactly when a reason was read and the type is the login rejection |
| `LoginNack.JsonFields` | src/marauroa/common/net/message/MessageS2CLoginNACK.java:151-154 | what `writeToJson` appends after the envelope's JSON; stated by FieldsLayout and JsonCarriesName |
| `LoginNack.FieldsLayout` | src/marauroa/common/net/message/MessageS2CLoginNACK.java:151-154 | for any quote-free name and any written text, the appended fields open with `,"reason":"`, the name runs up to the next quote, and the written text follows `","text":` |
| `LoginNack.JsonCarriesName` | src/marauroa/common/net/message/MessageS2CLoginNACK.java:148-155 | the JSON fields start with the reason key, carry the symbolic name from which the reason reads back, and end with the written untranslated text |
| `LoginNack.MessageS2CLoginNACK.Empty` | src/marauroa/common/net/message/MessageS2CLoginNACK.java:85-87 | the empty message has the login-rejection type, no channel and no reason |
| `LoginNack.MessageS2CLoginNACK.constructor` | src/marauroa/common/net/message/MessageS2CLoginNACK.java:97-100 | the message has the login-rejection type, the given channel and the given reason |
| `LoginNack.MessageS2CLoginNACK.GetResolutionCode` | src/marauroa/common/net/message/MessageS2CLoginNACK.java:107-109 | returns the stored reason |
| `LoginNack.MessageS2CLoginNACK.GetResolution` | src/marauroa/common/net/message/MessageS2CLoginNACK.java:117-119 | the translation of the text at the reason's ordinal; a failure while no reason is set |
| `LoginNack.MessageS2CLoginNACK.WriteObject` | src/marauroa/common/net/message/MessageS2CLoginNACK.java:133-136 | appends exactly the header and the ordinal byte and nothing else; with no reason only the header is appended before the failure |
| `LoginNack.MessageS2CLoginNACK.ReadObject` | src/marauroa/common/net/message/MessageS2CLoginNACK.java:139-146 | consumes input and sets type and reason exactly as `LoginNack.Read` says, in the code's order, keeping the channel |
| `LoginNack.MessageS2CLoginNACK.WriteToJson` | src/marauroa/common/net/message/MessageS2CLoginNACK.java:148-155 | keeps what the buffer held, appends the envelope's JSON and then exactly the reason name and written text fields; with no reason it stops after the reason key |
| `LoginNack.SendAndReceive` | src/marauroa/common/net/message/MessageS2CLoginNACK.java:97-146 | a message written by the server and read into an empty message completes normally, has the login-rejection type, holds the same reason and renders the same translated text |
| `LoginNack.RenderJson` | src/marauroa/common/net/message/MessageS2CLoginNACK.java:148-155 | the rendered JSON begins with the envelope's JSON and the reason reads back from the rest by its name |
| `GameResult.Created` | src/marauroa/common/game/Result.java:25-129 | the `created` flag each constant is declared with and the constructor stores; only `OK_CREATED` carries true, as Failed and ExactlyOneSuccess state |
| `GameResult.Text` | src/marauroa/common/game/Result.java:25-129 | the untranslated text each constant is declared with and the constructor stores |
| `GameResult.Failed` | src/marauroa/common/game/Result.java:136-138 | `failed()` is false for `OK_CREATED` and true for every other outcome |
| `GameResult.GetText` | src/marauroa/common/game/Result.java:144-146 | `getText()`, the stored text translated on each call; stated by GetTextIsTranslation |
| `GameResult.GetTextIsTranslation` | src/marauroa/common/game/Result.java:144-146 | `getText()` depends only on what the translator returns for the stored text, and an identity translator returns the stored text |
| `GameResult.Ordinal` | src/marauroa/common/game/Result.java:22-114 | every outcome's ordinal is below the number of outcomes, 16 |
| `GameResult.Values` | src/marauroa/common/game/Result.java:22-114 | sixteen outcomes in declaration order: the entry at index i has ordinal i |
| `GameResult.OrdinalInjective` | src/marauroa/common/game/Result.java:22-114 | different outcomes have different ordinals |
| `GameResult.FromOrdinal` | src/marauroa/common/game/Result.java:22-114 | indexing `values()` with any int yields an outcome exactly when the int is in 0..15, and that outcome has the int as ordinal |
| `GameResult.OrdinalRoundTrip` | src/marauroa/common/game/Result.java:22-114 | looking up an outcome's ordinal gives the outcome back, and any looked-up outcome has the index as ordinal |
| `GameResult.ValuesComplete` | src/marauroa/common/game/Result.java:22-114 | the enumeration is closed: every outcome is among the sixteen, at the index equal to its ordinal |
| `GameResult.ExactlyOneSuccess` | src/marauroa/common/game/Result.java:25-114 | exactly one of the sixteen outcomes is a success and fifteen failed; the only success is `OK_CREATED` |

## Left out

- The envelope header layout (`Message.writeObject`, `readObject`, `writeToJson`) is not part of this model: it is the abstract `HeaderCodec`, and the message-type tag values of the other message kinds are lumped into `OtherMessageType`.
- `LoginNack.MessageS2CLoginNACK.ReadObject`: when the header itself cannot be read, the model leaves the input unconsumed; how much the envelope's reader consumes before failing is not part of this model.
- JSON string escaping (`OutputSerializer.writeJson`) and `I18N.translate` are not part of this model; they are function parameters, and only how their results are placed is stated.
- `toString()` and `getAddress()` are presentation and transport addressing with no contract to prove; the channel is carried as an opaque value and never serialized.
- Java's exception classes are failure values of `Envelope.Error`, not exceptions; which exception class is thrown is not distinguished beyond that.
- The literal texts are kept as data; nothing is proved about their wording. The `Result` texts are not proved distinct.
- Being immutable Java enums, `Reasons` and `Result` are Dafny datatypes; the `Result` constructor's storing of its arguments is the functions `GameResult.Created` and `GameResult.Text`, which return the literals of each declaration.
