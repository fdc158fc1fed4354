/**
 * The byte sinks and sources a message is written to and read from
 * (`OutputSerializer`, `InputSerializer`), and the `StringBuilder` that JSON
 * is appended to. Only the primitives the login-rejection message uses are
 * modelled: writing one byte, reading one byte, appending text.
 */
module Serializers {
  import opened JavaBytes
  import opened Wrappers

  /** An append-only byte sink. */
  class OutputSerializer {
    var bytes: seq<int8>

    constructor ()
      ensures bytes == []
    {
      bytes := [];
    }

    /** `write(byte)`: append one byte. */
    method Write(b: int8)
      modifies this
      ensures bytes == old(bytes) + [b]
    {
      bytes := bytes + [b];
    }

    /** Append a run of bytes, one at a time. */
    method WriteAll(s: seq<int8>)
      modifies this
      ensures bytes == old(bytes) + s
    {
      var i := 0;
      while i < |s|
        invariant 0 <= i <= |s|
        invariant bytes == old(bytes) + s[..i]
      {
        Write(s[i]);
        i := i + 1;
      }
    }
  }

  /** A byte source; `remaining` is what has not been consumed yet. */
  class InputSerializer {
    var remaining: seq<int8>

    constructor (data: seq<int8>)
      ensures remaining == data
    {
      remaining := data;
    }

    /** `readByte()`: consume one byte; at the end of the stream this fails (Java's EOFException). */
    method ReadByte() returns (r: Option<int8>)
      modifies this
      ensures old(remaining) == [] ==> r == None && remaining == []
      ensures old(remaining) != [] ==> r == Some(old(remaining)[0]) && remaining == old(remaining)[1..]
    {
      if remaining == [] {
        r := None;
      } else {
        r := Some(remaining[0]);
        remaining := remaining[1..];
      }
    }

    /**
     * Let a caller-supplied reader (such as an envelope header parser) consume a
     * prefix of the input; when it fails, nothing is consumed.
     */
    method ReadWith<T>(parse: seq<int8> -> Option<(T, seq<int8>)>) returns (r: Option<T>)
      modifies this
      ensures parse(old(remaining)).None? ==> r == None && remaining == old(remaining)
      ensures parse(old(remaining)).Some? ==>
        r == Some(parse(old(remaining)).value.0) && remaining == parse(old(remaining)).value.1
    {
      var parsed := parse(remaining);
      if parsed.None? {
        r := None;
      } else {
        r := Some(parsed.value.0);
        remaining := parsed.value.1;
      }
    }
  }

  /** A growable character buffer (`java.lang.StringBuilder`), append only. */
  class StringBuilder {
    var text: string

    constructor ()
      ensures text == ""
    {
      text := "";
    }

    method Append(s: string)
      modifies this
      ensures text == old(text) + s
    {
      text := text + s;
    }
  }
}
