/** The response framer `_recv_until_match`, as a function of the chunks that
    successive `recv` calls return.  Running out of chunks stands for the empty
    read of a peer that closed the connection.  The framer knows nothing of the
    protocol: `test` is the scan of the command's patterns over the buffer
    (`Responses.FirstMatch`), returning a match object of type `M` or nothing. */
module Framer {
  import opened Wrappers

  /** The chunks joined in order. */
  function Concat(cs: seq<string>): (s: string) {
    if cs == [] then "" else cs[0] + Concat(cs[1..])
  }

  /** `cs` is one way the connection may deliver `r`: one or more non-empty
      chunks that join to it. */
  predicate Chunking(cs: seq<string>, r: string) {
    0 < |cs| && (forall i :: 0 <= i < |cs| ==> cs[i] != "") && Concat(cs) == r
  }

  /** What one framing ends with: the buffer a pattern matched, its match
      object and how many chunks were read; or the connection closing first. */
  datatype Outcome<M> = Received(response: string, m: M, used: nat) | Closed

  /** `n` more chunks read ahead of the outcome. */
  function Lift<M>(o: Outcome<M>, n: nat): (l: Outcome<M>) {
    match o
    case Received(b, m, u) => Received(b, m, u + n)
    case Closed => Closed
  }

  /** Append each chunk to `soFar` and test the whole buffer; stop at the first match, or report `Closed` when the chunks run
      out. */
  function Frame<M>(test: string -> Option<M>, chunks: seq<string>, soFar: string): (o: Outcome<M>)
    decreases |chunks|
  {
    if chunks == [] then Closed
    else
      var buf := soFar + chunks[0];
      match test(buf)
      case Some(m) => Received(buf, m, 1)
      case None => Lift(Frame(test, chunks[1..], buf), 1)
  }

  /** One turn of the framer's loop, as its invariant sees it: the chunk
      read extends the buffer of the first `n` chunks to the first `n + 1`;
      a match in it is the framer's outcome `o`, and otherwise the framer
      carries on from the next chunk. */
  lemma Step<M>(test: string -> Option<M>, cs: seq<string>, n: nat, soFar: string, o: Outcome<M>)
    requires n < |cs| && soFar == Concat(cs[..n])
    requires o == Lift(Frame(test, cs[n..], soFar), n)
    ensures var buf := soFar + cs[n];
            && buf == Concat(cs[..n + 1])
            && (test(buf).Some? ==> o == Received(buf, test(buf).value, n + 1))
            && (test(buf).None? ==> o == Lift(Frame(test, cs[n + 1..], buf), n + 1))
  {
    assert cs[..n + 1] == cs[..n] + [cs[n]];
    ConcatAppend(cs[..n], cs[n]);
    assert cs[n..][0] == cs[n] && cs[n..][1..] == cs[n + 1..];
  }

  lemma ConcatPrefixStep(cs: seq<string>, n: nat)
    requires 1 <= n <= |cs|
    ensures Concat(cs[..n]) == cs[0] + Concat(cs[1..][..n - 1])
  {
    assert cs[..n][1..] == cs[1..][..n - 1];
  }

  lemma {:induction false} ConcatAppend(cs: seq<string>, c: string)
    ensures Concat(cs + [c]) == Concat(cs) + c
  {
    if cs == [] {
      assert [] + [c] == [c];
    } else {
      assert (cs + [c])[1..] == cs[1..] + [c];
      ConcatAppend(cs[1..], c);
    }
  }

  lemma {:induction false} ConcatSplit(cs: seq<string>, k: nat)
    requires k <= |cs|
    ensures Concat(cs) == Concat(cs[..k]) + Concat(cs[k..])
  {
    if k > 0 {
      ConcatSplit(cs[1..], k - 1);
      ConcatPrefixStep(cs, k);
      assert cs[1..][k - 1..] == cs[k..];
    }
  }

  /** When the framer returns, the response is everything read so far, the
      chunks read are the first `used`, the match is what `test` finds in that
      response, and at no earlier chunk boundary did `test` find anything. */
  lemma {:induction false} FrameReceived<M>(test: string -> Option<M>, cs: seq<string>, soFar: string)
    requires Frame(test, cs, soFar).Received?
    ensures var o := Frame(test, cs, soFar);
            && 1 <= o.used <= |cs|
            && o.response == soFar + Concat(cs[..o.used])
            && test(o.response) == Some(o.m)
            && forall k :: 1 <= k < o.used ==> test(soFar + Concat(cs[..k])).None?
    decreases |cs|
  {
    var o := Frame(test, cs, soFar);
    var buf := soFar + cs[0];
    ConcatPrefixStep(cs, 1);
    assert soFar + Concat(cs[..1]) == buf;
    if test(buf).None? {
      var o' := Frame(test, cs[1..], buf);
      assert o == Lift(o', 1);
      FrameReceived(test, cs[1..], buf);
      ConcatPrefixStep(cs, o.used);
      forall k | 2 <= k < o.used ensures test(soFar + Concat(cs[..k])).None? {
        ConcatPrefixStep(cs, k);
        assert soFar + Concat(cs[..k]) == buf + Concat(cs[1..][..k - 1]);
      }
    }
  }

  /** The framer reports a closed connection exactly when no chunk boundary
      yields a buffer in which `test` finds a match. */
  lemma {:induction false} FrameClosed<M>(test: string -> Option<M>, cs: seq<string>, soFar: string)
    ensures Frame(test, cs, soFar).Closed? <==>
            forall k :: 1 <= k <= |cs| ==> test(soFar + Concat(cs[..k])).None?
    decreases |cs|
  {
    if cs != [] {
      var buf := soFar + cs[0];
      ConcatPrefixStep(cs, 1);
      assert soFar + Concat(cs[..1]) == buf;
      FrameClosed(test, cs[1..], buf);
      forall k | 2 <= k <= |cs|
        ensures soFar + Concat(cs[..k]) == buf + Concat(cs[1..][..k - 1])
      {
        ConcatPrefixStep(cs, k);
      }
      if test(buf).None? {
        assert Frame(test, cs, soFar) == Lift(Frame(test, cs[1..], buf), 1);
        if forall k :: 1 <= k <= |cs| ==> test(soFar + Concat(cs[..k])).None? {
          forall k | 1 <= k <= |cs| - 1 ensures test(buf + Concat(cs[1..][..k])).None? {
            assert buf + Concat(cs[1..][..k]) == soFar + Concat(cs[..k + 1]);
          }
        }
      }
    }
  }

  /** The framer stops at the first chunk boundary where `test` finds a match. */
  lemma FrameAt<M>(test: string -> Option<M>, cs: seq<string>, soFar: string, n: nat)
    requires 1 <= n <= |cs|
    requires test(soFar + Concat(cs[..n])).Some?
    requires forall k :: 1 <= k < n ==> test(soFar + Concat(cs[..k])).None?
    ensures Frame(test, cs, soFar)
            == Received(soFar + Concat(cs[..n]), test(soFar + Concat(cs[..n])).value, n)
  {
    FrameClosed(test, cs, soFar);
    FrameReceived(test, cs, soFar);
  }

  /** Chunking does not matter for a response in no proper prefix of which
      `test` finds a match: however it is split into non-empty chunks, and whatever
      follows it, the framer returns exactly that response after its last
      chunk. */
  lemma AnyChunking<M>(test: string -> Option<M>, cs: seq<string>, rest: seq<string>, r: string)
    requires 0 < |cs| && forall i :: 0 <= i < |cs| ==> cs[i] != ""
    requires Concat(cs) == r && test(r).Some?
    requires forall k :: 0 < k < |r| ==> test(r[..k]).None?
    ensures Frame(test, cs + rest, "") == Received(r, test(r).value, |cs|)
  {
    var all := cs + rest;
    assert all[..|cs|] == cs;
    forall k | 1 <= k < |cs| ensures test("" + Concat(all[..k])).None? {
      assert all[..k] == cs[..k];
      ConcatSplit(cs, k);
      assert cs[..k][0] == cs[0];
      ConcatPrefixStep(cs[..k], 1);
      assert cs[k..][0] == cs[k];
      ConcatPrefixStep(cs[k..], 1);
      assert "" + Concat(all[..k]) == r[..|Concat(cs[..k])|];
    }
    assert "" + Concat(all[..|cs|]) == r;
    FrameAt(test, all, "", |cs|);
  }
}
