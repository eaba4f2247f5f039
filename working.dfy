/**
 * working_simpleperf.py: `format_bytes`, the byte count of the server's
 * `handle_client` loop and the `total_sent` counter of `client_send`.
 * Chunks received are the input sequence of what `recv` returns; the clock
 * and socket failures enter as inputs of the sending loop.
 */
module Working {
  import opened Wrappers
  import opened Text
  import Units

  /** `len(data_chunk)`: `client_send` writes 1000 zero bytes per `sendall`. */
  const ChunkSize: nat := 1000

  /**
   * `format_bytes(size, unit)`: 'KB' divides by 1000, 'MB' by 1000 twice, and
   * any other unit string (also 'B' and the lower-case forms) leaves the size as it is.
   */
  function FormatBytes(size: int, unit: string): (r: real)
    ensures unit == "KB" ==> r * 1000.0 == size as real
    ensures unit == "MB" ==> r * 1000000.0 == size as real
    ensures unit != "KB" && unit != "MB" ==> r == size as real
  {
    if unit == "KB" then size as real / 1000.0
    else if unit == "MB" then size as real / 1000.0 / 1000.0
    else size as real
  }

  /** For sizes of at least 0, `format_bytes` is non-negative and monotone in the size. */
  lemma FormatBytesMonotone(a: int, b: int, unit: string)
    requires 0 <= a <= b
    ensures 0.0 <= FormatBytes(a, unit) <= FormatBytes(b, unit)
  {
  }

  /** A whole number of kilobytes formats to that number. */
  lemma FormatBytesKilo(k: int)
    ensures FormatBytes(1000 * k, "KB") == k as real
  {
  }

  /**
   * For the formats as the help text spells them (B, KB, MB), `format_bytes`
   * gives the same value as simpleperf.py's `parse_size_result`.
   */
  lemma FormatBytesAgrees(size: int, u: Units.Unit)
    ensures Units.ParseSizeResult(size, Units.UpperKey(u)) == Ok(FormatBytes(size, Units.UpperKey(u)))
  {
    Units.NormalizeUpperKey(u);
    Units.LookupKey(u);
    Units.ParseSizeResultIn(size, Units.UpperKey(u), u);
    FormatBytesUpper(size, u);
  }

  /** `format_bytes` divides by the multiplier of the unit written in upper case. */
  lemma FormatBytesUpper(size: int, u: Units.Unit)
    ensures FormatBytes(size, Units.UpperKey(u)) == size as real / Units.Multiplier(u) as real
  {
    match u {
      case B =>
        assert size as real / 1.0 == size as real;
      case KB =>
      case MB =>
        DivideTwice(size as real);
    }
  }

  lemma DivideTwice(x: real)
    ensures x / 1000.0 / 1000.0 == x / 1000000.0
  {
    var y := x / 1000000.0;
    assert x == y * 1000000.0;
    assert x / 1000.0 == y * 1000.0;
  }

  /** A lower-case 'kb', which `parse_size_result` divides by 1000, is left undivided by `format_bytes`. */
  lemma FormatBytesCaseSensitive(size: int)
    ensures FormatBytes(size, "kb") == size as real
    ensures Units.ParseSizeResult(size, "kb") == Ok(size as real / 1000.0)
  {
    StripTrimmed("kb");
    LowerUnchanged("kb");
  }

  /** The bytes counted by the server loop: chunk lengths up to the first chunk equal to b'BYE'. */
  function CountReceived(chunks: seq<string>): Option<nat> {
    if chunks == [] then None
    else if chunks[0] == "BYE" then Some(0)
    else
      match CountReceived(chunks[1..])
      case Some(n) => Some(|chunks[0]| + n)
      case None => None
  }

  /**
   * Only a chunk exactly equal to BYE ends the count, and it is not counted;
   * the lengths of all chunks before it are summed, whatever they contain.
   */
  lemma {:induction false} CountStopsAtBye(chunks: seq<string>, k: nat)
    requires k < |chunks| && chunks[k] == "BYE"
    requires forall j :: 0 <= j < k ==> chunks[j] != "BYE"
    ensures CountReceived(chunks) == Some(TotalLength(chunks[..k]))
  {
    if k > 0 {
      CountStopsAtBye(chunks[1..], k - 1);
      assert chunks[1..][..k - 1] == chunks[..k][1..];
    }
  }

  /** Without a chunk equal to BYE the loop never ends (`recv` keeps returning empty chunks once the peer is gone). */
  lemma {:induction false} CountWithoutBye(chunks: seq<string>)
    requires forall j :: 0 <= j < |chunks| ==> chunks[j] != "BYE"
    ensures CountReceived(chunks) == None
  {
    if chunks != [] {
      CountWithoutBye(chunks[1..]);
    }
  }

  /** A chunk that merely contains BYE, such as the last packet glued to it, is counted and does not end the loop. */
  lemma GluedByeCounted(payload: string, rest: seq<string>)
    requires payload != []
    ensures CountReceived([payload + "BYE"] + rest) ==
      match CountReceived(rest)
      case Some(n) => Some(|payload| + 3 + n)
      case None => None
  {
    var chunks := [payload + "BYE"] + rest;
    assert chunks[0] != "BYE" by {
      assert |chunks[0]| > 3;
    }
    assert chunks[1..] == rest;
  }

  /** `handle_client`'s loop: `total_received += len(data)` until `data == b'BYE'`. */
  method HandleClient(chunks: seq<string>) returns (totalReceived: Option<nat>)
    ensures totalReceived == CountReceived(chunks)
  {
    var total := 0;
    var i := 0;
    while i < |chunks|
      invariant 0 <= i <= |chunks|
      invariant forall j :: 0 <= j < i ==> chunks[j] != "BYE"
      invariant total == TotalLength(chunks[..i])
    {
      var data := chunks[i];
      if data == "BYE" {
        CountStopsAtBye(chunks, i);
        return Some(total);
      }
      TotalLengthAppend(chunks[..i], data);
      assert chunks[..i + 1] == chunks[..i] + [data];
      total := total + |data|;
      i := i + 1;
    }
    CountWithoutBye(chunks);
    totalReceived := None;
  }

  /** The number of `sendall` calls that complete: all `rounds` passes, or those before the failing one. */
  function Completed(rounds: nat, failAt: Option<nat>): (n: nat)
    ensures n <= rounds
  {
    if failAt.Some? && failAt.value < rounds then failAt.value else rounds
  }

  /**
   * `client_send`'s loop, run for the `rounds` passes the clock allows; the
   * pass `failAt`, if any, raises `socket.error`, which ends the loop without
   * counting that chunk. The total is 1000 per completed `sendall`.
   */
  method ClientSend(rounds: nat, failAt: Option<nat>) returns (totalSent: nat)
    ensures totalSent == ChunkSize * Completed(rounds, failAt)
    ensures totalSent % ChunkSize == 0 && totalSent <= ChunkSize * rounds
  {
    totalSent := 0;
    var i: nat := 0;
    while i < rounds
      invariant i <= rounds
      invariant totalSent == ChunkSize * i
      invariant failAt.Some? ==> i <= failAt.value
    {
      if failAt == Some(i) {
        break;
      }
      totalSent := totalSent + ChunkSize;
      i := i + 1;
    }
  }
}
