/** The JSON layer over the plain client.  The codec is left abstract:
    `encode` stands for `json.dumps` and `decode` for `json.loads`, each
    None where the library raises.  Two laws of the real codec are stated
    as predicates and assumed only where a lemma names them. */
module JsonCodec {
  import opened Wrappers
  import opened Responses
  import opened Commands
  import Framer

  /** Decoding the text of an encoded value gives the value back. */
  ghost predicate RoundTrips<J(!new)>(encode: J -> Option<string>, decode: string -> Option<J>) {
    forall j :: encode(j).Some? ==> decode(encode(j).value) == Some(j)
  }

  /** Encoded text holds no raw newline: JSON escapes the control
      characters inside strings, and without indentation the encoder writes
      none between tokens. */
  ghost predicate SingleLine<J(!new)>(encode: J -> Option<string>) {
    forall j :: encode(j).Some? ==> NoNewline(encode(j).value)
  }

  /** `JsonClient.get` after the plain `get` returned `r`: errors pass
      through; a miss is passed through without decoding; a hit's payload is
      decoded, and the flags are never touched. */
  function JsonGetReply<J>(decode: string -> Option<J>, r: Result<GetValue>): (j: Result<(Option<J>, Option<int>)>)
    ensures r.Err? ==> j == Err(r.error)
    ensures r.Ok? && r.value.0.None? ==> j == Ok((None, r.value.1))
    ensures r.Ok? && r.value.0.Some? ==>
              j == match decode(r.value.0.value)
                   case None => Err(DecodeFailed)
                   case Some(x) => Ok((Some(x), r.value.1))
    ensures j.Ok? ==> r.Ok? && j.value.1 == r.value.1 && (j.value.0.None? <==> r.value.0.None?)
  {
    match r
    case Err(e) => Err(e)
    case Ok((None, flags)) => Ok((None, flags))
    case Ok((Some(text), flags)) =>
      match decode(text)
      case None => Err(DecodeFailed)
      case Some(x) => Ok((Some(x), flags))
  }

  /** `JsonClient.get` as a function of the chunks the server sends. */
  function JsonGetCall<J>(decode: string -> Option<J>, key: string, chunks: seq<string>): (r: Result<(Option<J>, Option<int>)>) {
    JsonGetReply(decode, GetCall(key, chunks))
  }

  /** `JsonClient.set` as a function of the chunks the server sends: the
      encoder runs first, and an unencodable value raises. */
  function JsonSetCall<J>(encode: J -> Option<string>, key: string, value: J, flags: int, expiry: int,
                          chunks: seq<string>): (r: Result<()>) {
    match encode(value)
    case None => Err(EncodeFailed)
    case Some(text) => SetCall(key, text, flags, expiry, chunks)
  }

  /** Whatever the decoder, a miss is a miss. */
  lemma JsonGetMiss<J>(decode: string -> Option<J>, key: string, cs: seq<string>, rest: seq<string>)
    requires Framer.Chunking(cs, "END\r\n") || Framer.Chunking(cs, "NOT_FOUND\r\n")
    ensures JsonGetCall(decode, key, cs + rest) == Ok((None, None))
  {
    GetMiss(key, cs, rest);
  }

  /** With a codec that obeys both laws, the server's reply for a value
      stored as JSON gives the value back with its flags, however the reply
      is chunked. */
  lemma JsonGetHit<J(!new)>(encode: J -> Option<string>, decode: string -> Option<J>, key: string, value: J,
                            flags: nat, cs: seq<string>, rest: seq<string>)
    requires RoundTrips(encode, decode) && SingleLine(encode)
    requires key != [] && NoSpace(key) && encode(value).Some?
    requires Framer.Chunking(cs, ValueResponse(key, flags, encode(value).value))
    ensures JsonGetCall(decode, key, cs + rest) == Ok((Some(value), Some(flags as int)))
  {
    GetHit(key, flags, encode(value).value, cs, rest);
  }
}
