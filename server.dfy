/** A reference server for the three commands, used as the partner of the
    client: it reads each packet as a server reads it off the connection,
    keeps a store of values with their flags, and answers with the lines
    the client's patterns expect.  It ignores the expiry, having no clock. */
module ReferenceServer {
  import opened Wrappers
  import opened Decimal
  import opened Responses
  import opened Commands
  import Framer

  datatype Entry = Entry(value: string, flags: nat)

  type Store = map<string, Entry>

  /** The new store and the reply for one packet. */
  function Serve(store: Store, packet: string): (r: (Store, string)) {
    match ReadRequest(packet)
    case None => (store, "ERROR\r\n")
    case Some(SetRequest(k, v, f, _)) =>
      if f < 0 then (store, "CLIENT_ERROR bad command line format\r\n")
      else (store[k := Entry(v, f)], "STORED\r\n")
    case Some(GetRequest(k)) =>
      if k in store then (store, ValueResponse(k, store[k].flags, store[k].value))
      else (store, "END\r\n")
    case Some(DeleteRequest(k)) =>
      if k in store then (store - {k}, "DELETED\r\n") else (store, "NOT_FOUND\r\n")
  }

  /** A value set through the client is stored, and a `get` of its key
      returns it with its flags, however each reply is chunked. */
  lemma SetThenGet(store: Store, key: string, value: string, flags: nat, expiry: int,
                   cs1: seq<string>, rest1: seq<string>, cs2: seq<string>, rest2: seq<string>)
    requires key != [] && NoSpace(key) && NoNewline(value)
    requires Framer.Chunking(cs1, Serve(store, SetPacket(key, value, flags, expiry)).1)
    requires Framer.Chunking(cs2, Serve(Serve(store, SetPacket(key, value, flags, expiry)).0, GetPacket(key)).1)
    ensures SetCall(key, value, flags, expiry, cs1 + rest1) == Ok(())
    ensures GetCall(key, cs2 + rest2) == Ok((Some(value), Some(flags as int)))
  {
    ReadSetPacket(key, value, flags, expiry);
    ReadGetPacket(key);
    var s1 := Serve(store, SetPacket(key, value, flags, expiry)).0;
    assert s1 == store[key := Entry(value, flags)];
    SetStored(key, value, flags, expiry, cs1, rest1);
    GetHit(key, flags, value, cs2, rest2);
  }

  /** A key deleted through the client is gone: the `delete` returns, and a
      `get` of the key is a miss, however each reply is chunked. */
  lemma DeleteThenGet(store: Store, key: string,
                      cs1: seq<string>, rest1: seq<string>, cs2: seq<string>, rest2: seq<string>)
    requires key != [] && NoSpace(key)
    requires Framer.Chunking(cs1, Serve(store, DeletePacket(key)).1)
    requires Framer.Chunking(cs2, Serve(Serve(store, DeletePacket(key)).0, GetPacket(key)).1)
    ensures DeleteCall(key, cs1 + rest1) == Ok(())
    ensures GetCall(key, cs2 + rest2) == Ok((None, None))
  {
    ReadDeletePacket(key);
    ReadGetPacket(key);
    var s1 := Serve(store, DeletePacket(key)).0;
    assert key !in s1;
    DeleteDone(key, cs1, rest1);
    GetMiss(key, cs2, rest2);
  }
}
