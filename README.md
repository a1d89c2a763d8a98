# pyfatcache, modelled in Dafny

pyfatcache is a small Python client for fatcache, a cache server that speaks
the memcache text protocol. A client sends `set`, `get` and `delete` packets
over one TCP connection. It reads the reply in chunks of at most 512
characters and keeps them in a buffer. After each chunk it tests the whole
buffer against the anchored regular expressions its command accepts, and it
returns the first match. An empty read means the server has closed the
connection; the client then closes its socket and raises.

This project models that core and proves what it does:

- **`wrappers.dfy`, `decimal.dfy`**: `Option`, and decimal numerals. These
  cover `"%d" % n` for any integer and `int(s)` on digit strings.
- **`responses.dfy`** (module `Responses`): the seven response patterns.
  - The five one-line patterns use Python's `$`, which also matches before a
    final newline.
  - The VALUE pattern is a parser over `ValueParts`, which records how the
    regular expression reads a buffer. The parser is proved sound and
    complete, and a buffer has at most one such reading.
  - The inner scan that returns the first pattern that matches.
- **`framer.dfy`** (module `Framer`): the framer as a function of the chunks
  the server sends. It is generic in the scan, and running out of chunks
  stands for the empty read.
- **`commands.dfy`** (module `Commands`):
  - the three packets, with a server-side reader that is their partner;
  - how each command classifies the framed response;
  - each whole call as a function of the chunks received;
  - the replies of a well-behaved server, and two replies this client
    misreads.
- **`clients.dfy`** (module `Clients`): the objects themselves.
  - `Client` holds the chunks still to be received, the packets sent and
    whether the socket is closed. `RecvUntilMatch` is the `while True` loop
    with its invariants, and `Set`, `Get` and `Delete` send, frame and
    classify. Each is proved equal to the function in `Commands`.
  - `JsonClient` wraps a `Client`.
- **`json.dfy`** (module `JsonCodec`): the JSON layer. The codec is kept
  abstract and its two laws are stated as predicates.
- **`server.dfy`** (module `ReferenceServer`): a reference server. It is the
  partner for the end-to-end properties of the example session at the end of
  the source.

Exceptions are `Err` values of `Commands.Error`, carrying what the source's
exception carries. A `Result` is `Ok` where the source returns.

**The client ignores the byte count that frames a VALUE data block.**
- In the memcache text protocol, the VALUE line declares the byte count of
  the data block that follows it. This client's pattern (pyfatcache.py:17)
  never reads that count, and `(.*)` does not match a newline. So a payload
  holding a newline, or the line END, is misread.
- `Commands.SplitReplyMisread` and `Commands.NewlineValueUnread` show this on
  concrete replies.
- In the model, the round trip holds for payloads without a newline
  (`Commands.GetHit`, `ReferenceServer.SetThenGet`), and only for those: a
  payload that `get` returns never holds a newline (`Commands.GetHitSingleLine`).

## Model

| member | source | states |
|---|---|---|
| Decimal.Format | pyfatcache.py:66-67 | `%d` of a natural number is a canonical numeral: digits, with a leading zero only for zero |
| Decimal.ParseFormat | pyfatcache.py:89 | `int` reads back the numeral `%d` writes |
| Decimal.FormatParse | pyfatcache.py:89 | every canonical numeral is `%d` of the number `int` reads from it |
| Decimal.ParseFormatInt | pyfatcache.py:66-67 | `%d` of any integer, negative ones included, is read back by `int` |
| Responses.MatchValueSound | pyfatcache.py:17 | whatever the VALUE matcher returns is a reading of the regular expression with a whitespace-free key, and renders back to the exact buffer |
| Responses.MatchValueComplete | pyfatcache.py:17 | every such reading is returned by the matcher on its rendering |
| Responses.ValueReadingUnique | pyfatcache.py:17 | the regular expression admits at most one reading of a buffer: separators, key, flags, length and payload are determined |
| Responses.MatchValueRegex | pyfatcache.py:17 | on any buffer the regular expression reads, the matcher returns that reading if the key has no whitespace and nothing otherwise |
| Responses.MatchValueOfFields | pyfatcache.py:17 | on the word VALUE, three fields and a line break, the matcher returns a reading exactly when flags and length are digits and the payload has no newline; the length's value is never consulted |
| Responses.FirstMatch | pyfatcache.py:43-46 | the scan finds nothing exactly when no pattern matches; otherwise it returns the match of the first pattern that matches |
| Responses.FirstSomeSpec | pyfatcache.py:43-46 | the generic first-match scan returns None exactly when every element gives None, and otherwise returns the value at the first element that does not |
| Responses.FirstMatchShaped | pyfatcache.py:17 | a returned match comes from one of the given patterns, and its groups are those of its pattern (four for VALUE, with digit flags) |
| Responses.MatchEndsInNewline | pyfatcache.py:13-21 | every pattern matches only buffers that end in a newline |
| Responses.LinePrefixFree | pyfatcache.py:13-21 | no proper prefix of a one-line response matches any pattern |
| Responses.ValuePrefixFree | pyfatcache.py:17 | no proper prefix of a newline-free VALUE reply matches any pattern |
| Responses.ValueResponsePrefixFree | pyfatcache.py:17 | in particular, no proper prefix of the server's reply for a whitespace-free key and a newline-free payload matches |
| Responses.ValueResponseNewlines | pyfatcache.py:17 | that reply spans exactly three lines |
| Framer.FrameReceived | pyfatcache.py:38-46 | when the framer returns, the buffer is the concatenation of the chunks read; the match is the scan's result on it; no earlier chunk boundary matched |
| Framer.FrameClosed | pyfatcache.py:39-49 | the framer ends with the closed connection exactly when no chunk boundary's buffer matches |
| Framer.FrameAt | pyfatcache.py:39-46 | the framer stops at the first chunk boundary where the scan matches |
| Framer.AnyChunking | pyfatcache.py:39-46 | a response no proper prefix of which matches is returned whole after its last chunk, however it is split and whatever follows |
| Framer.Step | pyfatcache.py:40-46 | one pass of the loop: the new chunk extends the buffer of the chunks read so far; a match is the framer's outcome, and otherwise the framer continues from the next chunk |
| Commands.ReadSetPacket | pyfatcache.py:66-67 | the `set` packet is the command line with key, flags, expiry and the value's length, then the value; a server reads back exactly the key, value, flags and expiry, whatever the value holds |
| Commands.ReadGetPacket | pyfatcache.py:82 | the `get` packet is `get`, the key and a line break; the server reads back the key |
| Commands.ReadDeletePacket | pyfatcache.py:102 | the `delete` packet is `delete`, the key and a line break; the server reads back the key |
| Commands.FramedMatch | pyfatcache.py:38-46 | a framed response is the concatenation of the first `used` chunks; the scan's first match on it is the match returned, from one of the command's patterns |
| Commands.FramedClosed | pyfatcache.py:39-49 | a command's framing fails exactly when no chunk boundary's buffer matches one of its patterns |
| Commands.FramedChunking | pyfatcache.py:39-46 | a response no proper prefix of which matches is framed whole; the chunks after it are left unread |
| Commands.SetCallSpec | pyfatcache.py:69-71 | `set` fails with ConnectionClosed exactly when framing fails. Otherwise the response is a STORED or NOT_STORED line: `set` returns on STORED and raises with key, value, flags, expiry and response on NOT_STORED |
| Commands.GetCallSpec | pyfatcache.py:84-91 | `get` fails with ConnectionClosed exactly when framing fails. Otherwise the response is END, NOT_FOUND or a VALUE reply |
| Commands.GetReplySpec | pyfatcache.py:85-91 | END or NOT_FOUND, and only those, give `(None, None)`; a VALUE reply gives its payload and `int` of its flags when the echoed key equals the key asked for, and raises KeyMismatch with the response otherwise |
| Commands.DeleteCallSpec | pyfatcache.py:104 | `delete` returns exactly when framing succeeds, and what it framed is a DELETED or NOT_FOUND line |
| Commands.SetStored | pyfatcache.py:69-71 | a STORED reply, however chunked, makes `set` return and leaves the chunks after it unread |
| Commands.SetNotStored | pyfatcache.py:70-71 | a NOT_STORED reply, however chunked, makes `set` raise with its arguments and the response |
| Commands.GetMiss | pyfatcache.py:85-86 | an END or NOT_FOUND reply, however chunked, makes `get` return `(None, None)` |
| Commands.GetHit | pyfatcache.py:88-89 | the server's reply for a whitespace-free key and a newline-free payload, however chunked, makes `get` return the payload and the flags |
| Commands.GetHitSingleLine | pyfatcache.py:17 | whatever the server sends, a payload that `get` returns holds no newline, and it comes with flags |
| Commands.GetOtherKey | pyfatcache.py:88-91 | such a reply echoing another key makes `get` raise KeyMismatch with the response |
| Commands.GetReadingFramed | pyfatcache.py:84-91 | any newline-free VALUE reading, however chunked, is framed whole, and `get` answers it by its echoed key |
| Commands.DeleteDone | pyfatcache.py:104 | a DELETED or NOT_FOUND reply, however chunked, makes `delete` return |
| Commands.SplitReplyMisread | pyfatcache.py:17 | the server's reply for the value `a\r\nEND`, split after its first END line, makes `get` return `a`; the second END line stays queued, and the next `get` takes it for a miss |
| Commands.NewlineValueUnread | pyfatcache.py:17 | the server's reply for the value `a\nb`, arriving in one chunk, matches nothing, so `get` ends with ConnectionClosed |
| Commands.GetUnmatched | pyfatcache.py:39-49 | a one-chunk reply that matches no GET pattern makes `get` fail with ConnectionClosed |
| Clients.Client.constructor | pyfatcache.py:23-31 | a new client is open, has sent nothing and will receive the given chunks |
| Clients.Client.Recv | pyfatcache.py:40 | `recv` returns the next chunk and removes it, or the empty string once the chunks run out |
| Clients.Client.Send | pyfatcache.py:68 | `sendall` records the packet and changes nothing else |
| Clients.Client.Close | pyfatcache.py:106-108 | after `close` the socket is closed and nothing more is received |
| Clients.Client.RecvUntilMatch | pyfatcache.py:33-49 | the loop's result is the framer's outcome over the chunks: the response and match when one is found, with the socket still open; ConnectionClosed with the socket closed otherwise. Exactly the chunks after the last one read remain |
| Clients.ScanPatterns | pyfatcache.py:43-46 | the inner loop returns the scan's first match of the patterns on the buffer |
| Clients.FirstOf | pyfatcache.py:43-46 | the generic loop returns the value at the first element where it is not None |
| Clients.Client.Set | pyfatcache.py:51-71 | on a closed socket `set` raises and changes nothing. Otherwise it sends exactly the `set` packet (flags and expiry default to 0); its result is the `set` call over the chunks received, those after the reply stay queued, and the socket is closed exactly when framing fails |
| Clients.Client.Get | pyfatcache.py:81-91 | likewise for `get` and its packet |
| Clients.Client.Delete | pyfatcache.py:101-104 | likewise for `delete` and its packet |
| Clients.JsonClient.Set | pyfatcache.py:114-117 | the value is encoded first, and an unencodable value raises before anything is sent; otherwise this is the plain `set` of the encoded text (flags and expiry default to 0): same packet, result, queued chunks and closed state |
| Clients.JsonClient.Get | pyfatcache.py:119-122 | the plain `get` (same packet, queued chunks and closed state) followed by the JSON step below |
| JsonCodec.JsonGetReply | pyfatcache.py:121-122 | errors pass through. A miss passes through without decoding. A hit's payload is decoded. The flags are never changed |
| JsonCodec.JsonGetMiss | pyfatcache.py:121-122 | a miss reply gives `(None, None)` whatever the decoder |
| JsonCodec.JsonGetHit | pyfatcache.py:121-122 | with a codec that round-trips and writes no raw newline, the reply for a stored JSON value gives the value back with its flags |
| ReferenceServer.SetThenGet | pyfatcache.py:142-143 | against the reference server, `set` of a newline-free value returns, and a following `get` returns the value and flags, however each reply is chunked |
| ReferenceServer.DeleteThenGet | pyfatcache.py:140-141 | against the reference server, `delete` returns, and a following `get` of the key is a miss |

## Left out

- Socket creation and `connect` (pyfatcache.py:30-31): I/O. A client is built from the chunks its server will send.
- `settimeout` and the `timeout` parameters (pyfatcache.py:65, 81, 101): timeouts are not modelled, since the operating system's clock enforces them. In the source a timed-out `recv` (pyfatcache.py:40) raises `socket.timeout` out of the loop without reaching the `close` at pyfatcache.py:48, so the socket stays open and a late reply stays queued for the next call. That differs from the empty read, which closes the socket; the model has only the empty read.
- Errors the socket itself raises, other than an empty read: not modelled. A call on a socket this side has closed raises `SocketClosed`.
- The 512-character `recv` limit is an assumption about the chunks (`Client.Valid`). Nothing in the logic depends on it.
- `json.dumps` / `json.loads` (pyfatcache.py:116, 122): a foreign library. They are abstract functions, `None` where they raise. Their laws are predicates taken as hypotheses.
- `JsonClient` subclasses `Client` in the source. Here it holds one (`raw`), and its inherited `delete` and `close` are reached through `raw`.
- `get_conn` (pyfatcache.py:125-134): a trivial dispatcher. The `__main__` demo (pyfatcache.py:137-148) appears only through the reference server lemmas. `setup.py` is packaging metadata.
- Responses.MatchValue: does not match a VALUE reply whose key contains whitespace, because the protocol forbids such keys. Python's backtracking would still match one. `Responses.MatchValueRegex` proves the matcher agrees with the regular expression on every other reading.
- Commands.GetReply: follows the code in ignoring the declared length, because the source's pattern never reads it. The payload is only whatever `(.*)` captures.
- Framer.Frame: gives an empty chunk no special meaning, because `recv` returns the empty string only after the peer has closed, and the end of the chunk list stands for that read. An empty chunk inside the list would be appended like any other; `Client.Valid` and `Framer.Chunking` rule such lists out.
- Python 2 `str` is bytes; characters stand for them, so no encoding is modelled. Python integers are unbounded, as are Dafny's. `%d` on non-integer flags is not modelled.
- `ReferenceServer` is not fatcache. It ignores expiry, because it has no clock. It does not bound flags to 32 bits.
