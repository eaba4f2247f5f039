# simpleperf in Dafny

simpleperf is a simplified iperf: a client sends 1000-byte packets to a server
over TCP, either for a number of seconds (`-t`) or until a size is reached
(`-n`, e.g. `10KB`), optionally printing an interval line every `-i` seconds.
When the client is done it announces the end with a `BYE` message. The server
counts what it received and answers `ACK: BYE`. Both sides then print the amount
transferred and the rate. simpleperf.py prints them in MB whatever `-f` says:
the `-f` action checks the value (B, KB or MB) but never stores it, so the
format stays at its default `MB`.

This project models the parts of the two scripts that compute something:

- **Units** (`simpleperf.py`): `parse_size`, which turns a size string into a
  byte count; `parse_size_result`, which expresses a byte count in a result
  unit; and `unit_per_second`, which names the rate unit.
- **Arguments** (`simpleperf.py`): the custom argparse actions that validate
  port, time, interval, number of connections, size and format. Also the
  namespace they leave behind when they run over the given options in order.
- **Sender** (`simpleperf.py`): the counters of the client's `send_data`:
  - `dataSent`, `startSent` and `endInterval`, and the interval lines they
    produce;
  - the size-mode loop `while dataSent <= totalData`;
  - the time-mode loop, including its `exit` branch.
- **Receiver** (`simpleperf.py`): the server's `handle_client` receive loop,
  with its `exit` and end-of-transfer tests.
- **Working** (`working_simpleperf.py`): `format_bytes`, the byte count of
  that script's `handle_client`, and the `total_sent` counter of
  `client_send`.
- **SizeExamples**: what `parse_size` gives for concrete size strings, proved
  for each one.
- **Text**: the string operations these rely on. It covers `strip()`,
  `lower()`, `isalpha()`, `isdigit()`, the character filters, and `int()` of
  a digit string.
- **Wrappers**: the `Option` and `Result` datatypes.

Exceptions become `Result` values:

| source | model |
|---|---|
| `ValueError` | `SizeError` |
| `argparse.ArgumentError` | `ArgumentError` |
| `KeyError` | `None` |
| `None` of `parse_size` | `Option` |

Divisions are exact `real` divisions.

The outside world enters only as inputs:

- What `recv` returns over a connection's life is a sequence of chunks.
  Running out of chunks means the server is still waiting.
- The wall clock becomes `rounds`, the number of passes the time-mode loop
  condition allows, and `reportAt`, the passes at which the interval had
  elapsed.
- A failing `sendall` is the pass `failAt`.

Where the code departs from what the tool evidently means to do, the model
follows the code and proves the departure as a property:

- Size mode does not stop once the target is reached. `while dataSent <=
  totalData` counts one more packet when the target is a multiple of 1000, so
  5000 bytes becomes 6000 (`Sender.SizeModeOvershoots`). In general the loop
  ends strictly above the target and at most 1000 bytes beyond it.
- `ValidFormatAction` checks the format but never stores it. Whatever `-f`
  says, the namespace keeps the default `MB` (`Arguments.ParseOptionsValid`).
- The names of the time and interval actions are swapped with respect to
  their tests. `LargerThanZeroAction` accepts a time of 0, and
  `LargerThanEqualZeroAction` refuses an interval of 0.
- `ParseSizeAction` checks only the unit. A size without digits such as `KB`
  passes it and fails only later, in `parse_size`
  (`SizeExamples.ParseSizeActionAdmitsNoDigits`).
- The simpleperf server detects the end of a transfer by looking for `BYE` at
  the end of a chunk. A last data chunk that arrives glued to the `BYE` is
  therefore dropped (`Receiver.ByeWithPayloadNotCounted`). The
  working_simpleperf server instead needs a chunk that is exactly `BYE`, so
  the same glued chunk is counted and the loop goes on
  (`Working.GluedByeCounted`).
- `format_bytes` compares the unit case-sensitively. A lower-case `kb` is left
  undivided, while `parse_size_result` divides it by 1000
  (`Working.FormatBytesCaseSensitive`).

## Model

| member | source | states |
|---|---|---|
| Units.Multiplier | simpleperf.py:60 | definition: the values of `units`, 1, 1000 and 1000\*\*2, each positive |
| Units.Lookup | simpleperf.py:60-63 | definition: `key in units` and the unit the key names, for the three keys b, kb, mb |
| Units.LookupMeaning | simpleperf.py:60-63 | a key is in `units` exactly when it is one of b, kb, mb, and then names that unit |
| Units.Normalize | simpleperf.py:59 | definition: `.strip().lower()` of a size or format string |
| Units.ParseSize | simpleperf.py:55-65 | `None` is returned unchanged, and only `None` yields `None` |
| Units.ParseSizeMeaning | simpleperf.py:59-65 | after strip and lower: a non-digit part that is not b/kb/mb raises ValueError; no digit at all fails in `int('')`; otherwise the result is the digits read as a decimal number times the unit's multiplier |
| Units.ParseSizeMultiple | simpleperf.py:65 | every accepted size is a whole multiple of its unit's multiplier |
| Units.ParseSizeNormalized | simpleperf.py:59 | case and surrounding whitespace do not change the outcome |
| Units.ParseSizeOfRendering | simpleperf.py:55-65 | the decimal rendering of n followed by a unit key parses to n times the multiplier |
| Units.ParseSizeOfUpperRendering | simpleperf.py:59-65 | the decimal rendering of n followed by the unit in upper case (B, KB, MB) parses to n times the multiplier |
| Units.ParseSizeRoundTrip | simpleperf.py:68-73 | converting a parsed size back into the unit that was written gives the number that was written |
| Units.ParseSizeResult | simpleperf.py:68-73 | fails exactly for a format that is not b/kb/mb after strip and lower; otherwise the result times the multiplier is the byte count |
| Units.ParseSizeResultIn | simpleperf.py:70-73 | for a format naming unit u the result is the byte count divided by u's multiplier |
| Units.RateLabel | simpleperf.py:79 | definition: the values of `unitsPerSecond`, Bps, Kbps and Mbps |
| Units.UnitPerSecond | simpleperf.py:77-80 | defined exactly on the formats naming b/kb/mb, giving Bps/Kbps/Mbps |
| Units.RateLabelMatchesFormat | simpleperf.py:68-80 | `unit_per_second` succeeds exactly when `parse_size_result` does, and no two units share a label |
| SizeExamples.ParseSizeBytesExample | simpleperf.py:55-65 | "5000B" parses to 5000 |
| SizeExamples.ParseSizeKiloExample | simpleperf.py:55-65 | "10KB" parses to 10000 |
| SizeExamples.ParseSizeInterleavedExample | simpleperf.py:61-62 | the filters let digits and unit letters interleave: "1k0b" parses to 10000 |
| SizeExamples.ParseSizeUnknownUnitExample | simpleperf.py:63-64 | "10XB" raises ValueError |
| SizeExamples.ParseSizeFractionExample | simpleperf.py:61-64 | "1.5kb" is refused: the point ends up in the unit |
| SizeExamples.ParseSizeInnerSpaceExample | simpleperf.py:59-64 | "5 kb" is refused: inner whitespace survives strip and ends up in the unit |
| SizeExamples.ParseSizeNoDigitsExample | simpleperf.py:61-65 | "KB" fails in `int('')` |
| Arguments.PortInRange | simpleperf.py:8-12 | a port is stored exactly when it lies in [1024, 65535]; otherwise ArgumentError for the port's dest |
| Arguments.LargerThanZero | simpleperf.py:15-19 | a time is stored exactly when it is at least 0 |
| Arguments.LargerThanEqualZero | simpleperf.py:22-26 | an interval is stored exactly when it is greater than 0 |
| Arguments.ParallelInRange | simpleperf.py:29-33 | a number of connections is stored exactly when it lies in [1, 5] |
| Arguments.ParseSizeAction | simpleperf.py:36-44 | a size is accepted exactly when its non-digit part names a unit, and is then stored as given |
| Arguments.ValidFormat | simpleperf.py:47-52 | a format is accepted exactly when it names a unit, and the namespace is left unchanged |
| Arguments.ParseSizeActionAgrees | simpleperf.py:36-44 | the action accepts a size exactly when `parse_size` does not reject its unit |
| SizeExamples.ParseSizeActionAdmitsNoDigits | simpleperf.py:36-44 | "KB" passes the action but `parse_size` fails on it |
| Arguments.Defaults | simpleperf.py:86-106 | definition: the namespace before any action runs: port 8088, format MB, no interval, 1 connection, size 1234567890123B, time 25 |
| Arguments.ApplyOption | simpleperf.py:86-106 | definition: each option calls its own action with its own dest |
| Arguments.ParseOptions | simpleperf.py:110 | definition: `parse_args` runs the actions on the defaults in command-line order, and the first ArgumentError ends parsing; the `-n`/`-t` conflict check is not modelled (see Left out) |
| Arguments.DefaultsValid | simpleperf.py:86-106 | the defaults satisfy the namespace invariant |
| Arguments.UpdateValid | simpleperf.py:12 | storing a value the action accepted keeps the namespace invariant |
| Arguments.ApplyOptionAccepts | simpleperf.py:86-106 | an option's action succeeds exactly when its own test accepts the value |
| Arguments.ApplyOptionPreserves | simpleperf.py:86-106 | a successful action keeps the namespace invariant |
| Arguments.ParseOptionsValid | simpleperf.py:86-110 | for the validated options, parsing succeeds exactly when every given option's action accepts it (the `-n`/`-t` conflict is not modelled, see Left out), and the namespace then has a valid port, 1-5 connections, no or a positive interval, a time of at least 0, the default size or one with a known unit, and format MB |
| Sender.Tick | simpleperf.py:228-244 | definition: one pass of the loop body: 1000 more bytes counted and, when an interval is set and has elapsed, one interval line over the next window with the bytes since the previous line |
| Sender.Run | simpleperf.py:226-244 | definition: the counters after n passes, pass i seeing the interval elapsed exactly when i is in `reportAt` |
| Sender.TickExtends | simpleperf.py:231-251 | a pass never changes an interval line already printed |
| Sender.QuietTickConsistent | simpleperf.py:228-229 | a pass without an interval line keeps the counter invariant |
| Sender.ReportTickConsistent | simpleperf.py:233-251 | a pass with an interval line keeps the counter invariant: the line covers exactly the packets since the previous line, over the next window |
| Sender.TickConsistent | simpleperf.py:228-251 | a pass adds one packet, adds a line exactly when an interval is set and has elapsed, and keeps the invariant |
| Sender.RunConsistent | simpleperf.py:223-251 | after n passes 1000·n bytes were counted, one line was printed per elapsed interval (none without an interval), the lines' byte counts add up to `startSent`, and each covers whole packets |
| Sender.RunReportsGrow | simpleperf.py:231-251 | the lines printed after m passes begin the lines printed after any later pass |
| Sender.WindowsAreMultiples | simpleperf.py:243-244 | line j covers the window from j·interval to (j+1)·interval |
| Sender.EndIntervalAfterRun | simpleperf.py:217-244 | `endInterval` is the number of lines printed times the interval |
| Sender.SizeModeRounds | simpleperf.py:262-264 | the size loop stops at the first multiple of 1000 strictly above the target |
| Sender.SizeModeOvershoots | simpleperf.py:262-264 | a target of 5000 bytes counts 6000 |
| Sender.SendBySize | simpleperf.py:258-286 | skipped for no or a zero target; otherwise ends strictly above the target and at most one packet beyond it, with the counters of that many passes and the invariant |
| Sender.FirstQuiet | simpleperf.py:231-256 | the first pass at which the interval has not elapsed, or none |
| Sender.SendByTime | simpleperf.py:222-256 | skipped for no time; otherwise the counters after all passes, or, with an interval at least the total time, after the first pass at which the interval has not elapsed, when 'exit' is sent |
| Sender.SendData | simpleperf.py:205-304 | size mode never sends 'exit' and always counts the first multiple of 1000 strictly above the target, whatever the clock; time mode counts 1000 bytes per pass; no loop at all leaves the counters unbound; every finished or exited session keeps the invariant |
| Receiver.KindOf | simpleperf.py:134-136 | definition: what the loop body does with a chunk: the 'exit' test is made before the end test |
| Receiver.ReceiveWith | simpleperf.py:131-140 | definition: the receive loop for a given classification of chunks: store and go on, abort, or end |
| Receiver.Receive | simpleperf.py:131-140 | definition: the receive loop with the source's own tests (`KindOf`) |
| Receiver.ReceiveWithStops | simpleperf.py:131-140 | the loop stops at the first chunk it does not store: abort on 'exit', otherwise exactly the earlier chunks joined |
| Receiver.ReceiveWithWaits | simpleperf.py:131-140 | a loop that stores every chunk is still waiting |
| Receiver.ReceiveStopsAtFirst | simpleperf.py:131-140 | with the source's tests: 'exit' aborts, an empty or BYE-terminated chunk delivers exactly the earlier chunks joined, and nothing after it is read |
| Receiver.ReceiveWaits | simpleperf.py:131-140 | without 'exit' or an end chunk the server is still in `recv` |
| Receiver.PrependTwice | simpleperf.py:140 | storing two chunks in turn stores their concatenation |
| Receiver.ReceiveFrom | simpleperf.py:132-140 | proof step for `HandleClient`: the reception from position i is one pass of the loop body on chunk i followed by the reception from i+1 |
| Receiver.HandleClient | simpleperf.py:124-140 | the loop computes the reception `Receive` of the chunks |
| Receiver.StripKeepsBye | simpleperf.py:136 | a chunk ending in BYE still does after strip |
| Receiver.ByeChunkEnds | simpleperf.py:134-136 | a chunk ending in BYE is an end chunk, not 'exit' |
| Receiver.ReceiveWithEndsAfter | simpleperf.py:131-140 | whatever the classification, stored chunks followed by an end chunk deliver the stored chunks joined |
| Receiver.EndsAfter | simpleperf.py:131-140 | proof step: `ReceiveWithEndsAfter` with the source's own tests (`KindOf`) |
| Receiver.ByeWithPayloadNotCounted | simpleperf.py:136-140 | data glued in front of the BYE is not counted; the received length is the sum of the earlier chunk lengths |
| Receiver.EmptyChunkEnds | simpleperf.py:136 | an empty chunk ends the transfer with the earlier chunks |
| Working.FormatBytes | working_simpleperf.py:8-14 | 'KB' gives a thousandth, 'MB' a millionth, any other unit the size itself |
| Working.FormatBytesMonotone | working_simpleperf.py:8-14 | for sizes of at least 0 the result is non-negative and grows with the size |
| Working.FormatBytesKilo | working_simpleperf.py:9-10 | a whole number of kilobytes formats to that number |
| Working.FormatBytesAgrees | working_simpleperf.py:8-14 | for the formats B, KB and MB as the help text spells them, the result equals `parse_size_result`'s |
| Working.FormatBytesUpper | working_simpleperf.py:9-12 | proof step for `FormatBytesAgrees`: for B, KB and MB as written in upper case, `format_bytes` divides by that unit's multiplier |
| Working.FormatBytesCaseSensitive | working_simpleperf.py:8-14 | lower-case 'kb' is left undivided, unlike in `parse_size_result` |
| Working.CountReceived | working_simpleperf.py:20-24 | definition: the sum of chunk lengths up to the first chunk equal to BYE, or none while no such chunk came |
| Working.CountStopsAtBye | working_simpleperf.py:20-24 | the count is the sum of the lengths of the chunks before the first chunk equal to BYE |
| Working.CountWithoutBye | working_simpleperf.py:20-24 | without a chunk equal to BYE the loop does not end |
| Working.GluedByeCounted | working_simpleperf.py:22-24 | a chunk that merely ends in BYE is counted in full and does not end the loop |
| Working.HandleClient | working_simpleperf.py:17-24 | the loop computes `CountReceived` of the chunks |
| Working.Completed | working_simpleperf.py:82-86 | closed-form definition of the number of completed `sendall` calls: all passes, or the passes before the one that fails; its contract bounds it by the number of passes |
| Working.ClientSend | working_simpleperf.py:59-86 | `total_sent` is 1000 per completed send: a multiple of 1000, at most 1000 per pass |

## Left out

- Sockets, threads, `listen`/`accept`, the global result lists and every
  `print`: I/O. What the counters feed into them is modelled.
- The return value of `send`. simpleperf.py calls `clientSocket.send(dataPacket)`
  (not `sendall`) and adds `len(dataPacket)` whatever `send` returns. A partial
  write is not modelled, so `dataSent` counts the bytes handed to `send`, and it
  can exceed what was actually written to the socket.
- The wall clock. It enters as the inputs `rounds` and `reportAt`.
  So the time-mode condition `elapsed <= totTime` and the test
  `elapsed >= interval` are not modelled as arithmetic on times.
- Bandwidth, durations and the `:.4f`/`:.1f` formatting: floating point on
  clock readings.
- The client's wait for `ACK: BYE` after sending `BYE`. The server is taken
  to answer, so a finished session reaches its result line.
- Building the argparse parser and the final dispatch (`args.server`,
  `args.client`, `args.time and args.num == '1234567890123B'`). These are
  library behaviour and console output.
  The `store_true` and plain string options (`-s`, `-c`, `-b`, `-I`) need no
  validation.
- Arguments.ParseOptions, Arguments.ParseOptionsValid: the conflict check of
  the mutually exclusive `-n`/`-t` group is not modelled. A command line that
  gives both `-n` and `-t` is accepted here, while `parse_args` refuses it with
  an ArgumentError. So "parsing succeeds exactly when every option is
  accepted" holds only for command lines that give at most one of the two.
- Socket failures: the `socket.error` of a failing `sendall` in
  working_simpleperf.py's `client_send` enters as the input `failAt`, the pass
  whose `sendall` fails.
- `type=int` conversion by argparse: options arrive already converted.
- The `print_stats` thread of working_simpleperf.py. It only reads
  `total_sent` and prints it.
- Text: characters outside ASCII are treated as neither whitespace, letter
  nor digit. Python's Unicode `isspace`/`isalpha`/`isdigit`/`lower`, UTF-8
  decoding of chunks and `int()`'s 4300-digit limit are not modelled.
- Sender: an interval or time given as `None` is represented by 0. Both are
  falsy where the source tests them, and neither is ever added.
- Sender.SendData: the `sys.exit()` after 'exit' is modelled as the end of the
  session (`Exited`), not as an exception propagating through the thread.
- Receiver.HandleClient: the exception raised on 'exit' and the closing of the
  connection are modelled as the `Aborted` outcome.
