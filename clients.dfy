/** The client objects: a connection whose `recv` delivers the chunks the
    server sends, the framer as a loop over it, and the three commands as
    methods that send a packet, frame the response and classify it.  The
    socket is modelled by what the client sees of it: the chunks still to be
    received, the packets sent and whether it has been closed. */
module Clients {
  import opened Wrappers
  import opened Responses
  import opened Commands
  import Framer
  import JsonCodec

  /** The most one `recv` call returns. */
  const RecvSize: nat := 512

  class Client {
    /** The chunks the server will deliver, in order; once they run out,
        `recv` returns the empty string of a peer that closed. */
    var inbox: seq<string>
    /** The packets sent so far, in order. */
    var sent: seq<string>
    /** Whether this side has closed the socket. */
    var closed: bool

    /** Each chunk is a non-empty read of at most `RecvSize` characters, and
        a closed socket delivers nothing. */
    predicate Valid()
      reads this
    {
      && (forall i :: 0 <= i < |inbox| ==> 0 < |inbox[i]| <= RecvSize)
      && (closed ==> inbox == [])
    }

    /** A connected client whose server will send `chunks`. */
    constructor (chunks: seq<string>)
      requires forall i :: 0 <= i < |chunks| ==> 0 < |chunks[i]| <= RecvSize
      ensures Valid()
      ensures inbox == chunks && sent == [] && !closed
    {
      inbox := chunks;
      sent := [];
      closed := false;
    }

    /** `recv(512)`: the next chunk, or the empty string once there is none. */
    method Recv() returns (data: string)
      requires Valid() && !closed
      modifies this
      ensures Valid() && sent == old(sent) && !closed
      ensures old(inbox) == [] ==> data == "" && inbox == []
      ensures old(inbox) != [] ==> data == old(inbox)[0] && inbox == old(inbox)[1..]
      ensures data != "" <==> old(inbox) != []
    {
      if inbox == [] {
        data := "";
      } else {
        data := inbox[0];
        inbox := inbox[1..];
      }
    }

    /** `sendall(packet)`. */
    method Send(packet: string)
      requires Valid() && !closed
      modifies this
      ensures Valid() && !closed
      ensures sent == old(sent) + [packet] && inbox == old(inbox)
    {
      sent := sent + [packet];
    }

    /** `close()`: nothing more is received. */
    method Close()
      requires Valid()
      modifies this
      ensures Valid() && closed && inbox == [] && sent == old(sent)
    {
      closed := true;
      inbox := [];
    }

    /** `_recv_until_match(*ps)`: receive chunks, appending each to the
        buffer and scanning the patterns over the whole buffer after each,
        until one matches; on the empty read close the socket and raise.
        The result is the framer's outcome over the chunks the server
        sends, and the chunks after the last one read stay queued. */
    method RecvUntilMatch(ps: seq<Pattern>) returns (r: Result<(string, Match)>)
      requires Valid() && !closed
      modifies this
      ensures Valid() && sent == old(sent)
      ensures var o := Framed(ps, old(inbox));
              && (o.Closed? ==> r == Err(ConnectionClosed) && closed)
              && (o.Received? ==> r == Ok((o.response, o.m)) && !closed)
      ensures inbox == Unread(ps, old(inbox))
    {
      ghost var chunks := inbox;
      var soFar := "";
      ghost var n := 0;
      while true
        invariant Valid() && !closed && sent == old(sent)
        invariant 0 <= n <= |chunks| && inbox == chunks[n..]
        invariant soFar == Framer.Concat(chunks[..n])
        invariant Framed(ps, chunks) == Framer.Lift(Framer.Frame(Scan(ps), chunks[n..], soFar), n)
        decreases |inbox|
      {
        var data := Recv();
        if data == "" {
          Close();
          r := Err(ConnectionClosed);
          return;
        }
        Framer.Step(Scan(ps), chunks, n, soFar, Framed(ps, chunks));
        soFar := soFar + data;
        n := n + 1;
        var m := ScanPatterns(ps, soFar);
        if m.Some? {
          r := Ok((soFar, m.value));
          return;
        }
      }
    }

    /** `set`: send the packet, frame the response and raise on NOT_STORED. */
    method Set(key: string, value: string, flags: int := 0, expiry: int := 0) returns (r: Result<()>)
      requires Valid()
      modifies this
      ensures Valid()
      ensures old(closed) ==> r == Err(SocketClosed) && unchanged(this)
      ensures !old(closed) ==>
                && sent == old(sent) + [SetPacket(key, value, flags, expiry)]
                && r == SetCall(key, value, flags, expiry, old(inbox))
                && inbox == Unread(SetPatterns, old(inbox))
                && (closed <==> Framed(SetPatterns, old(inbox)).Closed?)
    {
      if closed {
        return Err(SocketClosed);
      }
      Send(SetPacket(key, value, flags, expiry));
      var x := RecvUntilMatch(SetPatterns);
      FramedMatch(SetPatterns, old(inbox));
      if x.Err? {
        return Err(x.error);
      }
      var (res, m) := x.value;
      r := SetReply(key, value, flags, expiry, res, m);
    }

    /** `get`: send the packet, frame the response and classify it. */
    method Get(key: string) returns (r: Result<GetValue>)
      requires Valid()
      modifies this
      ensures Valid()
      ensures old(closed) ==> r == Err(SocketClosed) && unchanged(this)
      ensures !old(closed) ==>
                && sent == old(sent) + [GetPacket(key)]
                && r == GetCall(key, old(inbox))
                && inbox == Unread(GetPatterns, old(inbox))
                && (closed <==> Framed(GetPatterns, old(inbox)).Closed?)
    {
      if closed {
        return Err(SocketClosed);
      }
      Send(GetPacket(key));
      var x := RecvUntilMatch(GetPatterns);
      FramedMatch(GetPatterns, old(inbox));
      if x.Err? {
        return Err(x.error);
      }
      var (res, m) := x.value;
      r := GetReply(key, res, m);
    }

    /** `delete`: send the packet and wait for either response. */
    method Delete(key: string) returns (r: Result<()>)
      requires Valid()
      modifies this
      ensures Valid()
      ensures old(closed) ==> r == Err(SocketClosed) && unchanged(this)
      ensures !old(closed) ==>
                && sent == old(sent) + [DeletePacket(key)]
                && r == DeleteCall(key, old(inbox))
                && inbox == Unread(DeletePatterns, old(inbox))
                && (closed <==> Framed(DeletePatterns, old(inbox)).Closed?)
    {
      if closed {
        return Err(SocketClosed);
      }
      Send(DeletePacket(key));
      var x := RecvUntilMatch(DeletePatterns);
      if x.Err? {
        return Err(x.error);
      }
      r := Ok(());
    }
  }

  /** The inner loop of `_recv_until_match`: try each pattern in turn on
      the whole buffer and stop at the first that matches. */
  method ScanPatterns(ps: seq<Pattern>, buf: string) returns (m: Option<Match>)
    ensures m == Scan(ps)(buf)
  {
    m := FirstOf(Matcher(buf), ps);
  }

  /** `f` of the first element of `xs` where it is not None, or None. */
  method FirstOf<X, Y>(f: X -> Option<Y>, xs: seq<X>) returns (r: Option<Y>)
    ensures r == FirstSome(f, xs, 0)
  {
    var i := 0;
    while i < |xs|
      invariant 0 <= i <= |xs|
      invariant FirstSome(f, xs, 0) == FirstSome(f, xs, i)
    {
      r := f(xs[i]);
      if r.Some? {
        return;
      }
      i := i + 1;
    }
    r := None;
  }

  /** The client that stores values as JSON text: `encode` and `decode`
      stand for `json.dumps` and `json.loads`, each None where the library
      raises.  `delete` and `close` are the plain client's, reached through
      `raw`. */
  class JsonClient<J> {
    const raw: Client
    const encode: J -> Option<string>
    const decode: string -> Option<J>

    predicate Valid()
      reads this, raw
    {
      raw.Valid()
    }

    constructor (chunks: seq<string>, encode: J -> Option<string>, decode: string -> Option<J>)
      requires forall i :: 0 <= i < |chunks| ==> 0 < |chunks[i]| <= RecvSize
      ensures Valid() && fresh(raw)
      ensures raw.inbox == chunks && raw.sent == [] && !raw.closed
      ensures this.encode == encode && this.decode == decode
    {
      raw := new Client(chunks);
      this.encode := encode;
      this.decode := decode;
    }

    /** `set` of the value's JSON text; an unencodable value raises before
        anything is sent. */
    method Set(key: string, value: J, flags: int := 0, expiry: int := 0) returns (r: Result<()>)
      requires Valid()
      modifies raw
      ensures Valid()
      ensures encode(value).None? ==> r == Err(EncodeFailed) && unchanged(raw)
      ensures encode(value).Some? && old(raw.closed) ==> r == Err(SocketClosed) && unchanged(raw)
      ensures encode(value).Some? && !old(raw.closed) ==>
                && raw.sent == old(raw.sent) + [SetPacket(key, encode(value).value, flags, expiry)]
                && r == JsonCodec.JsonSetCall(encode, key, value, flags, expiry, old(raw.inbox))
                && raw.inbox == Unread(SetPatterns, old(raw.inbox))
                && (raw.closed <==> Framed(SetPatterns, old(raw.inbox)).Closed?)
    {
      var text := encode(value);
      if text.None? {
        return Err(EncodeFailed);
      }
      r := raw.Set(key, text.value, flags, expiry);
    }

    /** `get`, decoding a hit's payload and passing a miss through. */
    method Get(key: string) returns (r: Result<(Option<J>, Option<int>)>)
      requires Valid()
      modifies raw
      ensures Valid()
      ensures old(raw.closed) ==> r == Err(SocketClosed) && unchanged(raw)
      ensures !old(raw.closed) ==>
                && raw.sent == old(raw.sent) + [GetPacket(key)]
                && r == JsonCodec.JsonGetCall(decode, key, old(raw.inbox))
                && raw.inbox == Unread(GetPatterns, old(raw.inbox))
                && (raw.closed <==> Framed(GetPatterns, old(raw.inbox)).Closed?)
    {
      var x := raw.Get(key);
      r := JsonCodec.JsonGetReply(decode, x);
    }
  }
}
