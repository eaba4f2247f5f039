/**
 * The receive loop of `handle_client` in simpleperf.py's server. What
 * `conn.recv` returns over the connection's life is the input sequence of
 * chunks; running out of chunks means the server is still blocked in `recv`.
 */
module Receiver {
  import opened Text

  /** `chunk.decode().strip() == 'exit'`: the client announced an error. */
  predicate IsExit(chunk: string) {
    Strip(chunk) == "exit"
  }

  /** `text[-3:] == 'BYE'`. */
  predicate EndsWithBye(text: string) {
    |text| >= 3 && text[|text| - 3..] == "BYE"
  }

  /** `not chunk or chunk.decode().strip()[-3:] == 'BYE'`: the end of the transfer. */
  predicate IsEnd(chunk: string) {
    chunk == [] || EndsWithBye(Strip(chunk))
  }

  /** What the loop body does with a chunk. */
  datatype Kind =
    | Stored     // `data += chunk`
    | ExitSignal // 'exit': the client failed
    | EndSignal  // empty, or ends in BYE: the transfer is over

  /** The loop body's two tests, in the order it makes them. */
  function KindOf(chunk: string): Kind {
    if IsExit(chunk) then ExitSignal else if IsEnd(chunk) then EndSignal else Stored
  }

  /** A chunk that is stored: neither an error signal nor the end. */
  predicate Ordinary(chunk: string) {
    KindOf(chunk) == Stored
  }

  /** How the receive loop ends. */
  datatype Reception =
    | Received(data: string) // the end was seen: `data` is what was stored, "ACK: BYE" is sent
    | Aborted                // 'exit' raised an exception: an error is printed and no result
    | Waiting                // no end yet: the server is still in `recv`

  /** Data stored before the loop reached `r`: it goes in front of what `r` received. */
  function Prepend(data: string, r: Reception): Reception {
    match r
    case Received(rest) => Received(data + rest)
    case other => other
  }

  /** The receive loop over `chunks`, for a given way of classifying a chunk. */
  function ReceiveWith(kind: string -> Kind, chunks: seq<string>): Reception {
    if chunks == [] then Waiting
    else
      match kind(chunks[0])
      case ExitSignal => Aborted
      case EndSignal => Received([])
      case Stored => Prepend(chunks[0], ReceiveWith(kind, chunks[1..]))
  }

  /** The receive loop of `handle_client` as a function of the chunks. */
  function Receive(chunks: seq<string>): Reception {
    ReceiveWith(KindOf, chunks)
  }

  /** Whatever the classification, the loop stops at the first chunk it does not store. */
  lemma {:induction false} ReceiveWithStops(kind: string -> Kind, chunks: seq<string>, k: nat)
    requires k < |chunks| && kind(chunks[k]) != Stored
    requires forall j :: 0 <= j < k ==> kind(chunks[j]) == Stored
    ensures ReceiveWith(kind, chunks) == if kind(chunks[k]) == ExitSignal then Aborted else Received(Concat(chunks[..k]))
  {
    if k == 0 {
      assert chunks[..0] == [];
    } else {
      var rest := chunks[1..];
      assert rest[k - 1] == chunks[k];
      assert forall j :: 0 <= j < k - 1 ==> rest[j] == chunks[j + 1];
      ReceiveWithStops(kind, rest, k - 1);
      assert rest[..k - 1] == chunks[..k][1..];
    }
  }

  /** Whatever the classification, a loop that stores every chunk is still waiting. */
  lemma {:induction false} ReceiveWithWaits(kind: string -> Kind, chunks: seq<string>)
    requires forall j :: 0 <= j < |chunks| ==> kind(chunks[j]) == Stored
    ensures ReceiveWith(kind, chunks) == Waiting
  {
    if chunks != [] {
      ReceiveWithWaits(kind, chunks[1..]);
    }
  }

  /**
   * The loop stops at the first chunk that is not ordinary: an 'exit' chunk
   * aborts, an end chunk delivers exactly the chunks before it, joined; the
   * end chunk itself, with any payload in front of its BYE, is not stored,
   * and nothing after it is read.
   */
  lemma ReceiveStopsAtFirst(chunks: seq<string>, k: nat)
    requires k < |chunks| && !Ordinary(chunks[k])
    requires forall j :: 0 <= j < k ==> Ordinary(chunks[j])
    ensures Receive(chunks) == if IsExit(chunks[k]) then Aborted else Received(Concat(chunks[..k]))
  {
    ReceiveWithStops(KindOf, chunks, k);
  }

  /** Without an 'exit' or end chunk the loop has not finished. */
  lemma ReceiveWaits(chunks: seq<string>)
    requires forall j :: 0 <= j < |chunks| ==> Ordinary(chunks[j])
    ensures Receive(chunks) == Waiting
  {
    ReceiveWithWaits(KindOf, chunks);
  }

  /** Data stored in two steps is stored as their concatenation. */
  lemma PrependTwice(data: string, chunk: string, r: Reception)
    ensures Prepend(data, Prepend(chunk, r)) == Prepend(data + chunk, r)
  {
    match r {
      case Received(rest) => assert data + (chunk + rest) == (data + chunk) + rest;
      case Aborted =>
      case Waiting =>
    }
  }

  /** `Receive` of the chunks from `i` on, unfolded once. */
  lemma ReceiveFrom(chunks: seq<string>, i: nat)
    requires i < |chunks|
    ensures Receive(chunks[i..]) ==
      if IsExit(chunks[i]) then Aborted
      else if IsEnd(chunks[i]) then Received([])
      else Prepend(chunks[i], Receive(chunks[i + 1..]))
  {
    assert chunks[i..][0] == chunks[i] && chunks[i..][1..] == chunks[i + 1..];
  }

  /** The server's receive loop: `data += chunk` until 'exit' or the end. */
  method HandleClient(chunks: seq<string>) returns (r: Reception)
    ensures r == Receive(chunks)
  {
    var data := "";
    var i := 0;
    while i < |chunks|
      invariant 0 <= i <= |chunks|
      invariant Receive(chunks) == Prepend(data, Receive(chunks[i..]))
    {
      var chunk := chunks[i];
      ReceiveFrom(chunks, i);
      if IsExit(chunk) {
        return Aborted;
      }
      if IsEnd(chunk) {
        assert data + [] == data;
        return Received(data);
      }
      PrependTwice(data, chunk, Receive(chunks[i + 1..]));
      data := data + chunk;
      i := i + 1;
    }
    r := Waiting;
  }

  /** Every string that ends in BYE still does after `strip()`. */
  lemma StripKeepsBye(s: string)
    requires EndsWithBye(s)
    ensures EndsWithBye(Strip(s))
  {
    var n := |s|;
    assert !IsSpace(s[n - 3]) && !IsSpace(s[n - 2]) && !IsSpace(s[n - 1]);
    var t := TrimStart(s);
    assert |t| >= 3 && t[|t| - 3..] == "BYE";
    assert TrimEnd(t) == t;
  }

  /** A chunk ending in BYE is an end chunk, never an 'exit' chunk. */
  lemma ByeChunkEnds(payload: string)
    ensures KindOf(payload + "BYE") == EndSignal
  {
    var chunk := payload + "BYE";
    assert chunk[|chunk| - 3..] == "BYE";
    StripKeepsBye(chunk);
    var t := Strip(chunk);
    assert t[|t| - 1] == 'E';
  }

  /** Whatever the classification, stored chunks followed by an end chunk deliver the stored ones; nothing after is read. */
  lemma ReceiveWithEndsAfter(kind: string -> Kind, before: seq<string>, stop: string, after: seq<string>)
    requires forall j :: 0 <= j < |before| ==> kind(before[j]) == Stored
    requires kind(stop) == EndSignal
    ensures ReceiveWith(kind, before + [stop] + after) == Received(Concat(before))
  {
    var chunks := before + [stop] + after;
    var k := |before|;
    assert chunks[k] == stop;
    assert chunks[..k] == before;
    assert forall j :: 0 <= j < k ==> chunks[j] == before[j];
    ReceiveWithStops(kind, chunks, k);
  }

  /** Ordinary chunks followed by an end chunk: the ordinary ones are received, nothing after is read. */
  lemma EndsAfter(before: seq<string>, stop: string, after: seq<string>)
    requires forall j :: 0 <= j < |before| ==> Ordinary(before[j])
    requires KindOf(stop) == EndSignal
    ensures Receive(before + [stop] + after) == Received(Concat(before))
  {
    ReceiveWithEndsAfter(KindOf, before, stop, after);
  }

  /**
   * A last packet that arrives glued to the BYE message ends the transfer and
   * is dropped with it: only the chunks before it are counted.
   */
  lemma ByeWithPayloadNotCounted(before: seq<string>, payload: string, after: seq<string>)
    requires forall j :: 0 <= j < |before| ==> Ordinary(before[j])
    ensures Receive(before + [payload + "BYE"] + after) == Received(Concat(before))
    ensures |Concat(before)| == TotalLength(before)
  {
    ByeChunkEnds(payload);
    EndsAfter(before, payload + "BYE", after);
    ConcatLength(before);
  }

  /** An empty chunk, which `recv` returns once the client closed, also ends the transfer. */
  lemma EmptyChunkEnds(before: seq<string>, after: seq<string>)
    requires forall j :: 0 <= j < |before| ==> Ordinary(before[j])
    ensures Receive(before + [[]] + after) == Received(Concat(before))
  {
    assert Strip([]) == [];
    EndsAfter(before, [], after);
  }
}
