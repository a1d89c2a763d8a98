/** The three commands of the client: the packet each one sends, what it
    makes of the response the framer returns, and each whole call as a
    function of the chunks the server sends back. */
module Commands {
  import opened Wrappers
  import opened Decimal
  import opened Responses
  import Framer

  /** Why a call raises, with what its exception carries. */
  datatype Error =
    | ConnectionClosed  // the server closed the connection before a full response
    | SocketClosed      // the call was made on a socket that is already closed
    | NotStored(key: string, value: string, flags: int, expiry: int, response: string)
    | KeyMismatch(key: string, response: string)
    | EncodeFailed      // the JSON encoder refused the value
    | DecodeFailed      // the JSON decoder refused the stored string

  datatype Result<T> = Ok(value: T) | Err(error: Error)

  /** What `get` returns: the payload and the flags, both None on a miss. */
  type GetValue = (Option<string>, Option<int>)

  const SetPatterns: seq<Pattern> := [SetRes1, SetRes2]
  const GetPatterns: seq<Pattern> := [GetRes1, GetRes2, GetRes3]
  const DeletePatterns: seq<Pattern> := [DeleteRes1, DeleteRes2]

  /** The scan the framer runs over the buffer after each chunk. */
  function Scan(ps: seq<Pattern>): (f: string -> Option<Match>) {
    s => FirstMatch(ps, s)
  }

  // ---------------------------------------------------------------- Requests

  /** The `set` packet: the command line with the flags, the expiry and the
      length of the value, then the value and a line break. */
  function SetPacket(key: string, value: string, flags: int, expiry: int): (p: string) {
    "set " + key + " " + FormatInt(flags) + " " + FormatInt(expiry) + " " + Format(|value|)
      + "\r\n" + value + "\r\n"
  }

  function GetPacket(key: string): (p: string) {
    "get " + key + "\r\n"
  }

  function DeletePacket(key: string): (p: string) {
    "delete " + key + "\r\n"
  }

  /** A request as a server reads it off the connection. */
  datatype Request =
    | SetRequest(key: string, value: string, flags: int, expiry: int)
    | GetRequest(key: string)
    | DeleteRequest(key: string)

  predicate Spaced(fs: seq<Field>) {
    forall i :: 0 <= i < |fs| ==> fs[i].sep == ' '
  }

  /** A server's reading of one packet: the command word, fields separated by
      single spaces and a line break; for `set`, then exactly as many
      characters of data as the length field declares and a line break. */
  function ReadRequest(p: string): (r: Option<Request>) {
    if 3 <= |p| && p[..3] == "set" then ReadSet(p[3..])
    else if 3 <= |p| && p[..3] == "get" then
      (match ReadKey(p[3..])
       case Some(k) => Some(GetRequest(k))
       case None => None)
    else if 6 <= |p| && p[..6] == "delete" then
      (match ReadKey(p[6..])
       case Some(k) => Some(DeleteRequest(k))
       case None => None)
    else None
  }

  function ReadKey(t: string): (r: Option<string>) {
    match ReadFields(t, 1)
    case None => None
    case Some((fs, rest)) =>
      if fs[0].sep == ' ' && rest == "\r\n" then Some(fs[0].token) else None
  }

  function ReadSet(t: string): (r: Option<Request>) {
    match ReadFields(t, 4)
    case None => None
    case Some((fs, rest)) => SetOfFields(fs, rest)
  }

  /** The `set` request of its four words and what follows the line. */
  function SetOfFields(fs: seq<Field>, rest: string): (r: Option<Request>)
    requires |fs| == 4
  {
    if Spaced(fs) && IsDigits(fs[3].token) then
      match (ParseInt(fs[1].token), ParseInt(fs[2].token))
      case (Some(flags), Some(expiry)) =>
        var n := Parse(fs[3].token);
        if |rest| == n + 4 && rest[..2] == "\r\n" && rest[n + 2..] == "\r\n"
        then Some(SetRequest(fs[0].token, rest[2..n + 2], flags, expiry))
        else None
      case _ => None
    else None
  }

  lemma FormatIntNoSpace(i: int)
    ensures 0 < |FormatInt(i)| && NoSpace(FormatInt(i))
  {
    var s := FormatInt(i);
    if i < 0 {
      forall x | 0 <= x < |s| ensures !IsSpace(s[x]) {
        if x > 0 {
          assert s[x] == Format(-i)[x - 1];
          assert IsDigit(Format(-i)[x - 1]);
        }
      }
    } else {
      DigitsNoSpace(s);
    }
  }

  lemma JoinFour(fs: seq<Field>)
    requires |fs| == 4
    ensures Join(fs) == [fs[0].sep] + fs[0].token + ([fs[1].sep] + fs[1].token
                        + ([fs[2].sep] + fs[2].token + ([fs[3].sep] + fs[3].token + "")))
  {
    var t1, t2, t3 := fs[1..], fs[2..], fs[3..];
    assert Join(t3) == [fs[3].sep] + fs[3].token + "" by {
      assert t3[0] == fs[3] && t3[1..] == [];
    }
    assert Join(t2) == [fs[2].sep] + fs[2].token + Join(t3) by {
      assert t2[0] == fs[2] && t2[1..] == t3;
    }
    assert Join(t1) == [fs[1].sep] + fs[1].token + Join(t2) by {
      assert t1[0] == fs[1] && t1[1..] == t2;
    }
  }

  lemma SetLine(key: string, flags: string, expiry: string, length: string, value: string)
    ensures "set " + key + " " + flags + " " + expiry + " " + length + "\r\n" + value + "\r\n"
            == "set" + (([' '] + key + ([' '] + flags + ([' '] + expiry + ([' '] + length + ""))))
                        + ("\r\n" + value + "\r\n"))
  {
  }

  lemma SetPacketFields(key: string, value: string, flags: int, expiry: int, fs: seq<Field>)
    requires fs == [Field(' ', key), Field(' ', FormatInt(flags)), Field(' ', FormatInt(expiry)),
                    Field(' ', Format(|value|))]
    ensures SetPacket(key, value, flags, expiry) == "set" + (Join(fs) + ("\r\n" + value + "\r\n"))
  {
    JoinFour(fs);
    SetLine(key, FormatInt(flags), FormatInt(expiry), Format(|value|), value);
  }

  /** A server reads back exactly the key, value, flags and expiry a `set`
      packet was built from, whatever the value holds: the length field is
      the value's length. */
  lemma ReadSetPacket(key: string, value: string, flags: int, expiry: int)
    requires key != [] && NoSpace(key)
    ensures ReadRequest(SetPacket(key, value, flags, expiry)) == Some(SetRequest(key, value, flags, expiry))
  {
    var fs := [Field(' ', key), Field(' ', FormatInt(flags)), Field(' ', FormatInt(expiry)),
               Field(' ', Format(|value|))];
    var t := Join(fs) + ("\r\n" + value + "\r\n");
    assert ReadRequest(SetPacket(key, value, flags, expiry)) == ReadSet(t) by {
      SetPacketFields(key, value, flags, expiry, fs);
      SplitWord("set", t);
    }
    FormatIntNoSpace(flags);
    FormatIntNoSpace(expiry);
    DigitsNoSpace(Format(|value|));
    ParseFormatInt(flags);
    ParseFormatInt(expiry);
    ParseFormat(|value|);
    ReadSetLine(key, FormatInt(flags), FormatInt(expiry), Format(|value|), value, flags, expiry);
  }

  /** The fields of a `set` line read back, given that each is a word, the
      numbers read as the given integers and the length as the value's. */
  lemma ReadSetLine(key: string, a: string, b: string, c: string, value: string, flags: int, expiry: int)
    requires key != [] && NoSpace(key) && a != [] && NoSpace(a) && b != [] && NoSpace(b)
    requires c != [] && NoSpace(c) && IsDigits(c) && Parse(c) == |value|
    requires ParseInt(a) == Some(flags) && ParseInt(b) == Some(expiry)
    ensures ReadSet(Join([Field(' ', key), Field(' ', a), Field(' ', b), Field(' ', c)]) + ("\r\n" + value + "\r\n"))
            == Some(SetRequest(key, value, flags, expiry))
  {
    var fs := [Field(' ', key), Field(' ', a), Field(' ', b), Field(' ', c)];
    var rest := "\r\n" + value + "\r\n";
    FieldsOkEach(fs);
    assert rest[0] == '\r';
    ReadFieldsJoin(fs, rest);
    SetFieldsRead(fs, value, flags, expiry);
  }

  lemma SetFieldsRead(fs: seq<Field>, value: string, flags: int, expiry: int)
    requires |fs| == 4 && Spaced(fs) && IsDigits(fs[3].token) && Parse(fs[3].token) == |value|
    requires ParseInt(fs[1].token) == Some(flags) && ParseInt(fs[2].token) == Some(expiry)
    ensures SetOfFields(fs, "\r\n" + value + "\r\n") == Some(SetRequest(fs[0].token, value, flags, expiry))
  {
    DataLine(value);
  }

  lemma SplitWord(w: string, t: string)
    ensures (w + t)[..|w|] == w && (w + t)[|w|..] == t
  {
  }

  lemma DataLine(value: string)
    ensures var rest := "\r\n" + value + "\r\n";
            |rest| == |value| + 4 && rest[..2] == "\r\n" && rest[2..|value| + 2] == value
            && rest[|value| + 2..] == "\r\n"
  {
  }

  lemma ReadKeyLine(key: string)
    requires key != [] && NoSpace(key)
    ensures ReadKey(" " + key + "\r\n") == Some(key)
  {
    var fs := [Field(' ', key)];
    assert Join(fs) == " " + key by {
      assert fs[1..] == [];
    }
    assert " " + key + "\r\n" == Join(fs) + "\r\n";
    assert "\r\n"[0] == '\r';
    FieldsOkEach(fs);
    ReadFieldsJoin(fs, "\r\n");
  }

  /** A server reads back the key of a `get` packet. */
  lemma ReadGetPacket(key: string)
    requires key != [] && NoSpace(key)
    ensures ReadRequest(GetPacket(key)) == Some(GetRequest(key))
  {
    var p := GetPacket(key);
    assert p[..3] == "get" && p[3..] == " " + key + "\r\n";
    ReadKeyLine(key);
  }

  /** A server reads back the key of a `delete` packet. */
  lemma ReadDeletePacket(key: string)
    requires key != [] && NoSpace(key)
    ensures ReadRequest(DeletePacket(key)) == Some(DeleteRequest(key))
  {
    var p := DeletePacket(key);
    assert p[..3] == "del" && p[..6] == "delete" && p[6..] == " " + key + "\r\n";
    ReadKeyLine(key);
  }

  // --------------------------------------------------------------- Responses

  /** `set` once the framer has returned: the exception on NOT_STORED,
      nothing on STORED. */
  function SetReply(key: string, value: string, flags: int, expiry: int, res: string, m: Match): (r: Result<()>)
    requires m.pattern in SetPatterns && Shaped(m)
  {
    if m.groups[0] == "NOT_STORED" then Err(NotStored(key, value, flags, expiry, res)) else Ok(())
  }

  /** `get` once the framer has returned: a miss on END or NOT_FOUND; on a
      VALUE response the payload and the flags if it echoes the key asked
      for, the exception otherwise. */
  function GetReply(key: string, res: string, m: Match): (r: Result<GetValue>)
    requires m.pattern in GetPatterns && Shaped(m)
  {
    if m.groups[0] == "END" || m.groups[0] == "NOT_FOUND" then Ok((None, None))
    else if m.groups[1] == key then Ok((Some(m.groups[3]), Some(Parse(m.groups[2]) as int)))
    else Err(KeyMismatch(key, res))
  }

  /** The framer over the chunks the server sends in reply to a command. */
  function Framed(ps: seq<Pattern>, chunks: seq<string>): (o: Framer.Outcome<Match>) {
    Framer.Frame(Scan(ps), chunks, "")
  }

  /** A framed response is a match of one of the command's patterns over
      the chunks read, and no more chunks are read than were sent. */
  lemma FramedMatch(ps: seq<Pattern>, chunks: seq<string>)
    ensures var o := Framed(ps, chunks);
            o.Received? ==>
              && 1 <= o.used <= |chunks|
              && o.response == Framer.Concat(chunks[..o.used])
              && FirstMatch(ps, o.response) == Some(o.m)
              && Shaped(o.m) && o.m.pattern in ps
  {
    var o := Framed(ps, chunks);
    if o.Received? {
      Framer.FrameReceived(Scan(ps), chunks, "");
      assert Scan(ps)(o.response) == FirstMatch(ps, o.response);
      FirstMatchShaped(ps, o.response);
    }
  }

  /** The framer reports a closed connection exactly when no buffer at a
      chunk boundary matches any of the command's patterns. */
  lemma FramedClosed(ps: seq<Pattern>, chunks: seq<string>)
    ensures Framed(ps, chunks).Closed? <==>
            forall k :: 1 <= k <= |chunks| ==> FirstMatch(ps, Framer.Concat(chunks[..k])).None?
  {
    Framer.FrameClosed(Scan(ps), chunks, "");
    assert forall k :: 1 <= k <= |chunks| ==> "" + Framer.Concat(chunks[..k]) == Framer.Concat(chunks[..k]);
  }

  /** The chunks the framer leaves unread. */
  function Unread(ps: seq<Pattern>, chunks: seq<string>): (u: seq<string>) {
    var o := Framed(ps, chunks);
    FramedMatch(ps, chunks);
    if o.Closed? then [] else chunks[o.used..]
  }

  /** A response none of whose proper prefixes matches is framed whole,
      however it is chunked and whatever follows it. */
  lemma FramedChunking(ps: seq<Pattern>, cs: seq<string>, rest: seq<string>, r: string)
    requires Framer.Chunking(cs, r) && FirstMatch(ps, r).Some? && PrefixFree(ps, r)
    ensures Framed(ps, cs + rest) == Framer.Received(r, FirstMatch(ps, r).value, |cs|)
    ensures Unread(ps, cs + rest) == rest
  {
    forall k | 0 < k < |r| ensures Scan(ps)(r[..k]).None? {
      assert Scan(ps)(r[..k]) == FirstMatch(ps, r[..k]);
    }
    assert Scan(ps)(r) == FirstMatch(ps, r);
    Framer.AnyChunking(Scan(ps), cs, rest, r);
    assert (cs + rest)[|cs|..] == rest;
  }

  // ------------------------------------------------------------- Whole calls

  /** `set` as a function of the chunks the server sends after the packet. */
  function SetCall(key: string, value: string, flags: int, expiry: int, chunks: seq<string>): (r: Result<()>) {
    var o := Framed(SetPatterns, chunks);
    FramedMatch(SetPatterns, chunks);
    if o.Closed? then Err(ConnectionClosed) else SetReply(key, value, flags, expiry, o.response, o.m)
  }

  /** `get` as a function of the chunks the server sends after the packet. */
  function GetCall(key: string, chunks: seq<string>): (r: Result<GetValue>) {
    var o := Framed(GetPatterns, chunks);
    FramedMatch(GetPatterns, chunks);
    if o.Closed? then Err(ConnectionClosed) else GetReply(key, o.response, o.m)
  }

  /** `delete` as a function of the chunks the server sends after the
      packet: it returns once either response is framed. */
  function DeleteCall(key: string, chunks: seq<string>): (r: Result<()>) {
    if Framed(DeletePatterns, chunks).Closed? then Err(ConnectionClosed) else Ok(())
  }

  // ---------------------------------------------------- What each call does

  lemma MatchLine(p: Pattern, s: string)
    requires p != GetRes2
    ensures MatchPattern(p, s).Some? <==> IsLine(s, Line(p))
    ensures MatchPattern(p, s).Some? ==> MatchPattern(p, s).value == Match(p, LineGroups(p))
  {
  }

  /** A VALUE match starts with the letter V. */
  lemma ValueInitial(s: string)
    ensures MatchValue(s).Some? ==> 0 < |s| && s[0] == 'V'
  {
    if MatchValue(s).Some? {
      MatchValueSound(s);
      var v := MatchValue(s).value;
      assert s == Header(v) + "\r\n" + v.payload + Trailer(v.finalNewline);
      assert Header(v)[0] == 'V';
    }
  }

  /** The match of the first of `ps` that matches `s`, given that it is
      `m`. */
  lemma FirstMatchIs(ps: seq<Pattern>, s: string, m: Match)
    requires FirstMatch(ps, s) == Some(m)
    ensures exists i :: 0 <= i < |ps| && ps[i] == m.pattern && MatchPattern(ps[i], s) == Some(m)
  {
  }

  /** `set` fails with ConnectionClosed exactly when the framer reports the
      connection closed; otherwise the framed response is one of the two
      lines, `set` returns on STORED and raises NotStored with the response
      on NOT_STORED. */
  lemma SetCallSpec(key: string, value: string, flags: int, expiry: int, chunks: seq<string>)
    ensures var o := Framed(SetPatterns, chunks);
            && (SetCall(key, value, flags, expiry, chunks) == Err(ConnectionClosed) <==> o.Closed?)
            && (o.Received? ==> IsLine(o.response, "STORED\r\n") || IsLine(o.response, "NOT_STORED\r\n"))
            && (o.Received? ==> (SetCall(key, value, flags, expiry, chunks) == Ok(())
                                 <==> IsLine(o.response, "STORED\r\n")))
            && (o.Received? ==> (SetCall(key, value, flags, expiry, chunks)
                                   == Err(NotStored(key, value, flags, expiry, o.response))
                                 <==> IsLine(o.response, "NOT_STORED\r\n")))
  {
    var o := Framed(SetPatterns, chunks);
    FramedMatch(SetPatterns, chunks);
    if o.Received? {
      FirstMatchIs(SetPatterns, o.response, o.m);
      MatchLine(o.m.pattern, o.response);
    }
  }

  /** `get` fails with ConnectionClosed exactly when the framer reports the
      connection closed. Otherwise the framed response is an END line, a
      NOT_FOUND line or a VALUE response; `get` reports a miss on the first
      two, and on a VALUE response returns its payload and flags when it
      echoes the key asked for and raises KeyMismatch when it does not. */
  lemma GetCallSpec(key: string, chunks: seq<string>)
    ensures var o := Framed(GetPatterns, chunks);
            && (GetCall(key, chunks) == Err(ConnectionClosed) <==> o.Closed?)
            && (o.Received? ==>
                  IsLine(o.response, "END\r\n") || IsLine(o.response, "NOT_FOUND\r\n")
                  || MatchValue(o.response).Some?)
            && (o.Received? ==>
                  (GetCall(key, chunks) == Ok((None, None))
                   <==> IsLine(o.response, "END\r\n") || IsLine(o.response, "NOT_FOUND\r\n")))
            && (o.Received? && MatchValue(o.response).Some? ==>
                  var v := MatchValue(o.response).value;
                  GetCall(key, chunks)
                    == if v.key == key then Ok((Some(v.payload), Some(Parse(v.flags) as int)))
                       else Err(KeyMismatch(key, o.response)))
  {
    var o := Framed(GetPatterns, chunks);
    FramedMatch(GetPatterns, chunks);
    if o.Received? {
      GetReplySpec(key, o.response, o.m);
    }
  }

  /** `get`'s classification of what the framer returned. */
  lemma GetReplySpec(key: string, res: string, m: Match)
    requires FirstMatch(GetPatterns, res) == Some(m) && Shaped(m)
    ensures IsLine(res, "END\r\n") || IsLine(res, "NOT_FOUND\r\n") || MatchValue(res).Some?
    ensures GetReply(key, res, m) == Ok((None, None)) <==> IsLine(res, "END\r\n") || IsLine(res, "NOT_FOUND\r\n")
    ensures MatchValue(res).Some? ==>
              var v := MatchValue(res).value;
              GetReply(key, res, m)
                == if v.key == key then Ok((Some(v.payload), Some(Parse(v.flags) as int)))
                   else Err(KeyMismatch(key, res))
  {
    FirstMatchIs(GetPatterns, res, m);
    ValueInitial(res);
    LineInitial(GetRes1, res);
    LineInitial(GetRes3, res);
    MatchLine(GetRes1, res);
    MatchLine(GetRes3, res);
    if m.pattern == GetRes2 {
      assert m == MatchPattern(GetRes2, res).value;
    }
  }

  /** Whatever the server sends, a payload `get` returns holds no newline:
      a value stored with one can never be read back. */
  lemma GetHitSingleLine(key: string, chunks: seq<string>)
    ensures var r := GetCall(key, chunks);
            r.Ok? && r.value.0.Some? ==> NoNewline(r.value.0.value) && r.value.1.Some?
  {
    var o := Framed(GetPatterns, chunks);
    GetCallSpec(key, chunks);
    if o.Received? && MatchValue(o.response).Some? {
      MatchValueSound(o.response);
    }
  }

  /** `delete` fails with ConnectionClosed exactly when the framer reports
      the connection closed, and returns otherwise; what it frames is either
      of its two lines. */
  lemma DeleteCallSpec(key: string, chunks: seq<string>)
    ensures var o := Framed(DeletePatterns, chunks);
            && (DeleteCall(key, chunks) == Ok(()) <==> o.Received?)
            && (DeleteCall(key, chunks) == Err(ConnectionClosed) <==> o.Closed?)
            && (o.Received? ==> IsLine(o.response, "NOT_FOUND\r\n") || IsLine(o.response, "DELETED\r\n"))
  {
    var o := Framed(DeletePatterns, chunks);
    FramedMatch(DeletePatterns, chunks);
    if o.Received? {
      FirstMatchIs(DeletePatterns, o.response, o.m);
      MatchLine(o.m.pattern, o.response);
    }
  }

  // ----------------------------------------- Replies of a well-behaved server

  /** A line, however it is split into chunks, is framed as a whole and
      leaves the chunks after it unread. */
  lemma FramedLine(ps: seq<Pattern>, p: Pattern, cs: seq<string>, rest: seq<string>)
    requires p != GetRes2 && p in ps && Framer.Chunking(cs, Line(p))
    ensures Framed(ps, cs + rest).Received? && Framed(ps, cs + rest).response == Line(p)
    ensures Unread(ps, cs + rest) == rest
  {
    var i :| 0 <= i < |ps| && ps[i] == p;
    assert MatchPattern(ps[i], Line(p)).Some?;
    LinePrefixFree(ps, Line(p));
    FramedChunking(ps, cs, rest, Line(p));
  }

  lemma SetStored(key: string, value: string, flags: int, expiry: int, cs: seq<string>, rest: seq<string>)
    requires Framer.Chunking(cs, "STORED\r\n")
    ensures SetCall(key, value, flags, expiry, cs + rest) == Ok(())
    ensures Unread(SetPatterns, cs + rest) == rest
  {
    FramedLine(SetPatterns, SetRes1, cs, rest);
    SetCallSpec(key, value, flags, expiry, cs + rest);
  }

  lemma SetNotStored(key: string, value: string, flags: int, expiry: int, cs: seq<string>, rest: seq<string>)
    requires Framer.Chunking(cs, "NOT_STORED\r\n")
    ensures SetCall(key, value, flags, expiry, cs + rest)
              == Err(NotStored(key, value, flags, expiry, "NOT_STORED\r\n"))
    ensures Unread(SetPatterns, cs + rest) == rest
  {
    FramedLine(SetPatterns, SetRes2, cs, rest);
    SetCallSpec(key, value, flags, expiry, cs + rest);
  }

  lemma GetMiss(key: string, cs: seq<string>, rest: seq<string>)
    requires Framer.Chunking(cs, "END\r\n") || Framer.Chunking(cs, "NOT_FOUND\r\n")
    ensures GetCall(key, cs + rest) == Ok((None, None))
    ensures Unread(GetPatterns, cs + rest) == rest
  {
    if Framer.Chunking(cs, "END\r\n") {
      FramedLine(GetPatterns, GetRes1, cs, rest);
    } else {
      FramedLine(GetPatterns, GetRes3, cs, rest);
    }
    GetCallSpec(key, cs + rest);
  }

  /** The reply to a hit is framed whole however it is chunked and, when it
      echoes the key asked for, yields the payload and the flags. */
  lemma GetHit(key: string, flags: nat, payload: string, cs: seq<string>, rest: seq<string>)
    requires key != [] && NoSpace(key) && NoNewline(payload)
    requires Framer.Chunking(cs, ValueResponse(key, flags, payload))
    ensures GetCall(key, cs + rest) == Ok((Some(payload), Some(flags as int)))
    ensures Unread(GetPatterns, cs + rest) == rest
  {
    GetValueFramed(key, key, flags, payload, cs, rest);
    ParseFormat(flags);
  }

  /** A hit reply that echoes another key raises KeyMismatch. */
  lemma GetOtherKey(key: string, other: string, flags: nat, payload: string, cs: seq<string>, rest: seq<string>)
    requires other != [] && NoSpace(other) && NoNewline(payload) && other != key
    requires Framer.Chunking(cs, ValueResponse(other, flags, payload))
    ensures GetCall(key, cs + rest) == Err(KeyMismatch(key, ValueResponse(other, flags, payload)))
    ensures Unread(GetPatterns, cs + rest) == rest
  {
    GetValueFramed(key, other, flags, payload, cs, rest);
  }

  /** Any reading the client recognises, without the tolerated final newline
      and without newlines inside its parts, is framed whole however it is
      chunked, and `get` answers it by the echoed key. */
  lemma GetReadingFramed(key: string, v: ValueParts, cs: seq<string>, rest: seq<string>)
    requires WellFormed(v) && LineFree(v) && !v.finalNewline
    requires Framer.Chunking(cs, RenderValue(v))
    ensures GetCall(key, cs + rest)
              == if v.key == key then Ok((Some(v.payload), Some(Parse(v.flags) as int)))
                 else Err(KeyMismatch(key, RenderValue(v)))
    ensures Unread(GetPatterns, cs + rest) == rest
  {
    var r := RenderValue(v);
    MatchValueComplete(v);
    assert MatchPattern(GetPatterns[1], r).Some?;
    ValuePrefixFree(GetPatterns, v);
    FramedChunking(GetPatterns, cs, rest, r);
    GetCallSpec(key, cs + rest);
    assert MatchValue(Framed(GetPatterns, cs + rest).response) == Some(v);
  }

  lemma GetValueFramed(key: string, other: string, flags: nat, payload: string, cs: seq<string>, rest: seq<string>)
    requires other != [] && NoSpace(other) && NoNewline(payload)
    requires Framer.Chunking(cs, ValueResponse(other, flags, payload))
    ensures GetCall(key, cs + rest)
              == if other == key then Ok((Some(payload), Some(Parse(Format(flags)) as int)))
                 else Err(KeyMismatch(key, ValueResponse(other, flags, payload)))
    ensures Unread(GetPatterns, cs + rest) == rest
  {
    var v := ValueParts(' ', other, ' ', Format(flags), ' ', Format(|payload|), payload, false);
    NoSpaceNoNewline(other);
    DigitsNoNewline(v.flags);
    DigitsNoNewline(v.length);
    GetReadingFramed(key, v, cs, rest);
  }

  lemma DeleteDone(key: string, cs: seq<string>, rest: seq<string>)
    requires Framer.Chunking(cs, "DELETED\r\n") || Framer.Chunking(cs, "NOT_FOUND\r\n")
    ensures DeleteCall(key, cs + rest) == Ok(())
    ensures Unread(DeletePatterns, cs + rest) == rest
  {
    if Framer.Chunking(cs, "DELETED\r\n") {
      FramedLine(DeletePatterns, DeleteRes2, cs, rest);
    } else {
      FramedLine(DeletePatterns, DeleteRes1, cs, rest);
    }
    DeleteCallSpec(key, cs + rest);
  }

  // ------------------------------------------ Replies this client misreads

  /** The first chunk of the example below spelled out. */
  lemma ShortReading()
    ensures var v := ValueParts(' ', "k", ' ', "0", ' ', "6", "a", false);
            && WellFormed(v) && LineFree(v)
            && RenderValue(v) == "VALUE k 0 6\r\na\r\nEND\r\n"
            && RenderValue(v) + "END\r\n" == ValueResponse("k", 0, "a\r\nEND")
  {
    var v := ValueParts(' ', "k", ' ', "0", ' ', "6", "a", false);
    var u := ValueParts(' ', "k", ' ', Format(0), ' ', Format(|"a\r\nEND"|), "a\r\nEND", false);
    assert Format(0) == "0" && Format(6) == "6" && |"a\r\nEND"| == 6;
    assert Header(u) == Header(v) == "VALUE k 0 6";
    assert "a" + Trailer(false) + "END\r\n" == "a\r\nEND" + Trailer(false);
  }

  /** The length field is not checked, so a value holding the line END is
      cut short: when the server's reply for the value "a\r\nEND" arrives in
      two chunks split after its first END line, `get` returns "a" and
      leaves the second END line unread, where the next `get` takes it for
      a miss. */
  lemma SplitReplyMisread()
    ensures "VALUE k 0 6\r\na\r\nEND\r\n" + "END\r\n" == ValueResponse("k", 0, "a\r\nEND")
    ensures GetCall("k", ["VALUE k 0 6\r\na\r\nEND\r\n", "END\r\n"]) == Ok((Some("a"), Some(0)))
    ensures Unread(GetPatterns, ["VALUE k 0 6\r\na\r\nEND\r\n", "END\r\n"]) == ["END\r\n"]
    ensures GetCall("k", ["END\r\n"]) == Ok((None, None))
  {
    var c1, c2 := "VALUE k 0 6\r\na\r\nEND\r\n", "END\r\n";
    var v := ValueParts(' ', "k", ' ', "0", ' ', "6", "a", false);
    ShortReading();
    assert Framer.Concat([c1]) == c1;
    GetReadingFramed("k", v, [c1], [c2]);
    assert [c1] + [c2] == [c1, c2];
    assert Parse("0") == 0;
    assert Framer.Chunking([c2], c2);
    GetMiss("k", [c2], []);
    assert [c2] + [] == [c2];
  }

  /** The VALUE pattern does not match the server's reply for "a\nb". */
  lemma NewlineReading()
    ensures MatchValue(ValueResponse("k", 0, "a\nb")).None?
  {
    var u := ValueParts(' ', "k", ' ', Format(0), ' ', Format(|"a\nb"|), "a\nb", false);
    var fs := FieldsOf(u);
    assert Format(0) == "0" && Format(3) == "3" && |"a\nb"| == 3;
    FieldsOkThree(fs);
    assert ValueResponse("k", 0, "a\nb") == "VALUE" + Join(fs) + ("\r\n" + "a\nb") + Trailer(false);
    assert ("\r\n" + "a\nb")[2..] == "a\nb" && "a\nb"[1] == '\n';
    MatchValueOfFields(fs, "\r\n" + "a\nb", false);
  }

  /** A reply that arrives in one chunk and matches no GET pattern leaves
      `get` waiting until the connection closes. */
  lemma GetUnmatched(key: string, s: string)
    requires FirstMatch(GetPatterns, s).None?
    ensures GetCall(key, [s]) == Err(ConnectionClosed)
  {
    assert Framer.Concat([s]) == s && [s][..1] == [s];
    FramedClosed(GetPatterns, [s]);
    GetCallSpec(key, [s]);
  }

  /** A payload holding a newline is never matched: a reply that arrives in
      one chunk leaves `get` waiting until the connection closes. */
  lemma NewlineValueUnread()
    ensures GetCall("k", [ValueResponse("k", 0, "a\nb")]) == Err(ConnectionClosed)
  {
    var s := ValueResponse("k", 0, "a\nb");
    NewlineReading();
    assert s[0] == 'V';
    assert MatchPattern(GetPatterns[0], s).None? && MatchPattern(GetPatterns[2], s).None?;
    GetUnmatched("k", s);
  }
}
