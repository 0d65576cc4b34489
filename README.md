# heu stream core in Dafny

This project models the two parts of `heu` that carry its logic:

- **The HueStream v2 frame builder** (`internal/message/message.go`). A
  `MessageBuilder` owns a fixed 192-byte arena: a 52-byte preamble, then up
  to 20 channel entries of 7 bytes each. It keeps a cursor that counts the
  entries. `WritePreamble` lays down the header, `ResetBody` rewinds the
  cursor, and `WriteChannelColor` bumps the cursor and writes an entry.
  `Build` returns the first `52 + 7·count` bytes. In Dafny it is the class
  `Message.MessageBuilder` over an `array<byte>`.
- **The `stream` command** (`cmd/stream.go`). This covers:
  - `parseCommands`, which turns a line like `1 #ff0000;#00ff00` into
    broadcast and targeted colour commands;
  - the lookup of the entertainment configuration;
  - the loop that collects the configuration's channel ids;
  - the reader goroutine, which turns the input into the messages it sends
    on the channel;
  - the `select` loop, which rebuilds the frame on every batch of commands
    and writes the current frame on every tick.

  The goroutine, the channel and the ticker become explicit event
  sequences: `Stream.Event` is a tick, which carries the outcome of the
  write, or a received message. The loop is a method whose result equals
  the function `Stream.Run` over those events.

  The batch frames depend on the entry writer, `Message.Writer`. The
  source's `WriteChannelColor` always writes slot 0; this is `AsWritten`,
  and `Stream.RunStreamCmd(AsWritten, …)` is the program as the source has
  it. `Corrected` is the evidently intended writer, `AppendChannelColor`,
  which puts the k-th entry in slot k−1. The loop and all its lemmas are
  stated for both writers (see Findings).

The Go standard library functions the core calls are modelled on their
documented behaviour in module `GoStd`:

- `strings.Split` with a one-character separator;
- `strconv.ParseUint(s, 10, 8)`;
- `bufio.Reader.ReadString`.

Modules:

- `Wrappers`: Option and Result.
- `Sequences`: concatenation associativity.
- `GoStd`: the standard library pieces above.
- `Message`: the frame layout and the builder.
- `Commands`: command types and `parseCommands`.
- `Stream`: the configuration lookup, the reader, batches and the select loop.
- `StreamProperties`: whole-run properties of the loop and the reader together.

## Model

| member | source | states |
|---|---|---|
| Message.MessageBuilder.constructor | internal/message/message.go:33-35 | NewBuilder: a fresh arena of exactly MAX_MESSAGE_SIZE = 192 zero bytes, count 0, the given colour space |
| Message.MessageBuilder.Copy | internal/message/message.go:42-57 | Go's `copy` into the arena at `start`: copies min(len(src), room) bytes, returns that count, leaves every other byte as it was |
| Message.MessageBuilder.WritePreamble | internal/message/message.go:37-60 | requires a 36-byte id (other lengths panic); the first 52 bytes become the preamble, every byte from 52 on and the count are unchanged |
| Message.PreambleLayout | internal/message/message.go:41-57 | bytes 0-8 are "HueStream", 9-10 are 0x02 0x00, 11-13 are 0, 14 is the colour space, 15 is 0, 16-51 are the id; 52 bytes in all |
| Message.PreambleRoundTrip | internal/message/message.go:41-57 | the preamble decodes back to its colour space and configuration id, whatever body follows it |
| Message.MessageBuilder.ResetBody | internal/message/message.go:62-65 | count becomes 0 and no arena byte changes |
| Message.MessageBuilder.PutUint16 | internal/message/message.go:87-89 | binary.BigEndian.PutUint16: the two bytes at `at` become the value, high byte first; nothing else changes |
| Message.BigEndian16RoundTrip | internal/message/message.go:87-89 | the big-endian encoding of a uint16 and reading two bytes back are inverse both ways |
| Message.MessageBuilder.WriteEntryAt | internal/message/message.go:74-89 | the 7 bytes at `start` become channel id then the three components big-endian, chosen by the colour space (RGB triple for 0, XYZ otherwise); nothing else changes |
| Message.EntryBytes | internal/message/message.go:74-89 | an entry is 7 bytes |
| Message.EntryRoundTrip | internal/message/message.go:74-89 | decoding an entry's 7 bytes gives back its channel id and components |
| Message.MessageBuilder.WriteChannelColor | internal/message/message.go:67-92 | as written: requires count < 20 (the 21st call panics), count grows by 1, and the entry is written at offset 52 whatever the count; every other byte is unchanged |
| Message.MessageBuilder.AppendChannelColor | internal/message/message.go:67-92 | corrected: count grows by 1, and Build's frame grows by exactly the new entry's 7 bytes; the preamble is unchanged |
| Message.MessageBuilder.Build | internal/message/message.go:94-97 | returns exactly the first 52 + 7·count bytes (at most 192), changes nothing, so repeated calls return the same bytes |
| Message.EncodeEntries | internal/message/message.go:94-97 | a body of `n` entries is 7·n bytes |
| Message.EntriesRoundTrip | internal/message/message.go:94-97 | a frame body decodes back to the entry list it encodes |
| Message.EncodeEntriesAppend | internal/message/message.go:94-97 | the body of two entry lists, one after the other, is their bodies concatenated |
| Message.EncodeEntriesSnoc | internal/message/message.go:94-97 | one more entry appends its 7 bytes to the body |
| Message.BlankEntryBytes | internal/message/message.go:34 | seven zero bytes from the allocation decode as the blank entry (channel 0, all components 0) |
| Message.OverwriteTwice | internal/message/message.go:72-89 | a second write to the same slot erases all trace of the first |
| Message.NewArenaTailZero | internal/message/message.go:34 | the fresh arena is zero from byte 59 on |
| Message.PreambleKeepsTail | internal/message/message.go:42-57 | WritePreamble leaves bytes 59..191 zero |
| Message.SlotWriteKeepsTail | internal/message/message.go:72-89 | the as-written entry write keeps bytes 59..191 zero, keeps the preamble, and fills slot 0 |
| Message.SlotFrame | internal/message/message.go:94-97 | with a zero tail, a frame of `n` entries holds slot 0 followed by 7·(n−1) zero bytes |
| Message.EncodeBlanks | internal/message/message.go:34 | `k` blank entries encode as 7·k zero bytes |
| Message.FrameOf | internal/message/message.go:62-97 | the frame Build returns after ResetBody and `n` writes, through either writer, is 52 + 7·n bytes and starts with the preamble |
| Message.FrameOfEncodes | internal/message/message.go:67-97 | that frame is the preamble followed by the entries its writer leaves: all of them in order when corrected; as written, the last entry and then `n`−1 blanks |
| Message.FrameOfDecodes | internal/message/message.go:67-97 | the frame's body decodes back to exactly the entries its writer leaves |
| Message.WireKeepsEntries | internal/message/message.go:72 | the as-written writer leaves a batch's entries as they are exactly when there is at most one, or all are blank |
| Message.WritersAgree | internal/message/message.go:72 | the as-written and corrected writers build the same frame exactly when the batch has at most one entry or every entry is blank |
| Message.MessageBuilder.WriteWith | internal/message/message.go:67-92 | one write through either writer keeps the builder holding FrameOf of the entries so far plus the new one, keeps the preamble, and, as written, keeps bytes 59..191 zero |
| Message.AsWrittenBroadcast | internal/message/message.go:67-97 | as written: a broadcast to channels 1, 2, 5 on a new builder decodes as [channel 5, blank, blank] |
| Message.IntendedBroadcast | internal/message/message.go:67-97 | corrected: the same broadcast decodes as [channel 1, channel 2, channel 5], all with the colour |
| GoStd.Split | cmd/stream.go:38-39 | strings.Split: one more piece than separators, no piece holds the separator |
| GoStd.JoinSplit | cmd/stream.go:38-39 | joining the pieces of a split with the separator gives back the text |
| GoStd.SplitJoin | cmd/stream.go:38-39 | splitting separator-free pieces joined by the separator gives back the pieces |
| GoStd.SplitPrefix | cmd/stream.go:38-39 | a separator-free prefix becomes part of the first piece |
| GoStd.ParseUint8 | cmd/stream.go:47 | the result is at most 255; an error names the whole text |
| GoStd.Accumulate | cmd/stream.go:47 | the digit loop of ParseUint keeps the value at most 255; an error names the whole text |
| GoStd.AccumulateSpec | cmd/stream.go:47 | the digit loop succeeds exactly on digit strings whose value stays at most 255, returns that value, and fails with a range error on a digit string that is too large |
| GoStd.AccumulatePrefix | cmd/stream.go:47 | the digits before the first non-digit decide the digit loop's error: a prefix past 255 is a range error whatever follows, and a non-digit after a prefix of value ≤ 255 a syntax error |
| GoStd.ParseUint8Spec | cmd/stream.go:47 | ParseUint(s, 10, 8) succeeds exactly on non-empty decimal strings (leading zeros allowed) of value ≤ 255 and returns that value; the empty string is a syntax error; otherwise a digit prefix past 255 is a range error, and a non-digit after a digit prefix of value ≤ 255 a syntax error |
| GoStd.FormatDecimalValue | cmd/stream.go:47 | decimal text has the value it was made from |
| GoStd.ParseFormatUint8 | cmd/stream.go:47 | ParseUint reads back every value 0..255 written in decimal |
| GoStd.ReadString | cmd/stream.go:167 | bufio ReadString('\n'): the text up to and including the first newline with no error, or all the rest and the input's end error when no newline is left |
| Commands.ParseCommands | cmd/stream.go:36-59 | the loop over the clauses computes the line's result, CommandsOf |
| Commands.ParseClausesSucceeds | cmd/stream.go:38-58 | a line parses exactly when no clause is rejected, and yields the accepted clauses' commands in clause order, one per clause of one or two tokens |
| Commands.ParseClausesFails | cmd/stream.go:42-54 | a failing line carries the error of a rejected clause and no partial list |
| Commands.AllClausesSkipped | cmd/stream.go:40-58 | a line whose clauses all have three or more tokens gives no commands and no error |
| Commands.RenderCommandParses | cmd/stream.go:40-55 | a rendered broadcast or targeted command parses back as that command |
| Commands.RenderClausesParse | cmd/stream.go:38-58 | rendered clauses parse back to the command list |
| Commands.RenderParseRoundTrip | cmd/stream.go:36-59 | rendering a non-empty command list as a `;`-separated line and parsing it gives back the list |
| Commands.BroadcastLine | cmd/stream.go:40-45 | a single colour token is one broadcast of that colour |
| Commands.TargetedLine | cmd/stream.go:46-55 | "<id> <colour>" with a decimal id ≤ 255 is one targeted command for that channel |
| Commands.BadChannelIdLine | cmd/stream.go:47-50 | "<id> <colour>" whose id does not parse fails with that ParseUint error, whatever the colour |
| Commands.OutOfRangeLine | cmd/stream.go:47-50 | "999 #ZZZ\n" fails with the range error for "999" |
| Stream.FindConfig | cmd/stream.go:72-76 | the index of the first configuration with the id, or none when no configuration has it |
| Stream.GetEntertainmentConfig | cmd/stream.go:61-78 | the lookup computes ConfigOf |
| Stream.ConfigOfSpec | cmd/stream.go:61-78 | a listing error is returned; an empty list is an error; an empty id selects the first; otherwise the first with a matching id, or an error when none matches; a result is always one of the listed configurations |
| Stream.CollectChannelIds | cmd/stream.go:146-149 | the channel ids of the configuration, one per channel, in order |
| Stream.ReadCommands | cmd/stream.go:164-184 | the reader goroutine sends exactly ReaderMessages |
| Stream.ReadOnce | cmd/stream.go:167-179 | one round of the reader: the message it sends, how much it consumed, whether it goes on |
| Stream.LinesOfLine | cmd/stream.go:167 | a newline-terminated line is the first line of what it starts |
| Stream.ReaderMessagesByLine | cmd/stream.go:164-184 | the reader's messages are those of the input's complete lines, then the end |
| Stream.UnterminatedLineDiscarded | cmd/stream.go:167-169 | a last line with no '\n' is never parsed: it changes nothing the reader sends |
| Stream.ReaderShape | cmd/stream.go:164-184 | the reader sends at least one message; every message but the last has no error and the last has no commands |
| Stream.ReaderOnParsableInput | cmd/stream.go:164-184 | when every line parses, there is one message per line with its commands, then the end message |
| Stream.ReaderStopsAtBadLine | cmd/stream.go:174-178 | a line that fails to parse is the reader's last message and carries that error |
| Stream.CommandEntries | cmd/stream.go:209-215 | a broadcast writes one entry per session channel, a targeted command one |
| Stream.BatchSize | cmd/stream.go:208-215 | a batch writes broadcasts·|channelIds| + targeted entries |
| Stream.WriteBroadcast | cmd/stream.go:209-212 | through either writer: writes one entry per channel id, in order, unless that would pass 20 entries, and then the builder holds FrameOf the entries so far plus these; the preamble is kept |
| Stream.WriteTargeted | cmd/stream.go:213-215 | through either writer: writes the command's one entry unless the frame is full, and then the builder holds FrameOf the entries so far plus it |
| Stream.WriteCommand | cmd/stream.go:209-215 | through either writer: the writes of one command succeed exactly when the batch stays within 20 entries, and then the builder holds FrameOf the entries so far plus the command's |
| Stream.ApplyBatch | cmd/stream.go:206-217 | through either writer: succeeds exactly when the batch's entries number at most 20, and then the frame is FrameOf the preamble and the batch's entries: as written, the last entry in slot 0 and blanks after it; corrected, all entries in order |
| Stream.Rebuild | cmd/stream.go:206-217 | through either writer: the loop's answer to a batch fails exactly when the batch passes 20 entries, where the source panics, and otherwise returns the batch's frame, BatchFrame, which is then the builder's current frame; the builder stays RGB behind the same preamble and, as written, keeps its zero tail |
| Stream.SelectLoop | cmd/stream.go:189-223 | the select loop, with batches written through either writer, run on an event list from the preamble-only frame, produces exactly the trace Run describes for that writer; at every event `message` is the builder's current Build() |
| Stream.RunStreamCmd | cmd/stream.go:141-223 | a lookup error is returned, an id that is not 36 bytes panics, and otherwise the select loop runs with the configuration's channel ids; `AsWritten` is the source's program |
| StreamProperties.BatchFrameWellFormed | cmd/stream.go:206-217 | a batch frame is the preamble plus whole entries, at most 192 bytes |
| StreamProperties.RunFramesWellFormed | cmd/stream.go:192-223 | every frame the loop sends is the preamble plus whole entries, at most 192 bytes |
| StreamProperties.QuitFlushesOnce | cmd/stream.go:195-223 | once quitting, later messages are still applied, and the next successful tick sends the frame exactly once and returns the recorded result |
| StreamProperties.FirstQuit | cmd/stream.go:218-221 | the first message without commands |
| StreamProperties.LockstepRound | cmd/stream.go:195-223 | one message and one tick: a batch rebuilds the frame and sends it; a message without commands sends the current frame and returns its error |
| StreamProperties.LockstepRun | cmd/stream.go:195-223 | in lockstep, the loop sends each batch's frame up to the first message without commands, sends the current frame once more, and returns that message's error |
| StreamProperties.LoopOnReaderShape | cmd/stream.go:164-223 | on messages shaped as the reader sends them, lockstep ends with the last frame sent once more, and with no error when it stops before the last message |
| StreamProperties.ReaderThenLoop | cmd/stream.go:164-223 | the reader's messages for any input, fed to the loop in lockstep, give that outcome |
| StreamProperties.OneLineInput | cmd/stream.go:164-184 | one complete line: its parse error alone, or its commands and then the input's end |
| StreamProperties.OneBatchRun | cmd/stream.go:195-223 | a batch then a message without commands: the batch's frame is sent twice and that message's error returned |
| StreamProperties.SingleBatchTwice | cmd/stream.go:195-223 | a single batch then io.EOF, through either writer: one well-formed frame, sent twice, and no error; the frame decodes to the entries the writer leaves (all of the batch's when corrected; as written, the last entry then blanks) |
| StreamProperties.BroadcastReader | cmd/stream.go:164-184 | a one-colour line: one broadcast, then the end |
| StreamProperties.BroadcastStream | cmd/stream.go:164-223 | a one-colour line then io.EOF: a frame sent twice and no error; as written it decodes to the last channel's entry then one blank per other channel; corrected, to one entry per channel in configuration order |
| StreamProperties.TargetedReader | cmd/stream.go:164-184 | a line "<id> <colour>": one targeted command, then the end |
| StreamProperties.TargetedStream | cmd/stream.go:164-223 | a line "<id> <colour>" then io.EOF, through either writer: a frame with that channel's single entry, sent twice, no error |
| StreamProperties.QuitAtOnce | cmd/stream.go:218-221 | a first message without commands: the preamble-only frame is sent once and its error returned |
| StreamProperties.BadChannelIdReader | cmd/stream.go:174-178 | a line whose channel id does not parse: only that error is sent |
| StreamProperties.BadChannelIdStream | cmd/stream.go:164-223 | a line whose channel id does not parse: the preamble-only frame is sent once and the ParseUint error returned |

## Left out

- Colour conversion: `col.R * 0xFFFF` truncation and `col.Xyz()` are floating point. A colour is modelled as its two already-quantised uint16 triples, `Message.Color(rgb, xyz)`. The builder picks one by its colour space, as the source does.
- `colorful.Hex` is a parameter, `Commands.HexDecoder`, returning a colour or nothing. The model passes it the token as the source does. The last token of a line read by ReadString still ends in '\n', so it is that text the decoder sees.
- The HTTP client, the DTLS connection and its `Write` are left out. A write is an event carrying success or an error.
- Also left out:
  - session start and stop;
  - the 30-second handshake timeout;
  - opening the command file;
  - hex-decoding the DTLS key;
  - `cobra`/`viper` configuration and logging.
- The configuration listing is a parameter of `Stream.ConfigOf`, so its result, error included, comes from outside the model.
- The goroutine, the unbuffered channel and the ticker are replaced by an explicit event list. Any interleaving can be written as such a list. The whole-run lemmas in `StreamProperties` use the lockstep schedule, in which each message is followed by one successful tick. Other schedules are covered only by `Run`'s general properties: well-formed frames and the quitting flush.
- `Build` returns a slice that aliases the arena in Go. The model returns a snapshot sequence, which is sound because `message` is reassigned after every batch: `Stream.SelectLoop` keeps `message` equal to the builder's current frame as a loop invariant.
- `WritePreamble` and `WriteChannelColor` return the builder for chaining. Those returns are not modelled.
- Panics:
  - A configuration id that is not 36 bytes is a precondition of `Message.MessageBuilder.WritePreamble`, and the `Panicked` outcome of `Stream.RunStreamCmd`.
  - A batch of more than 20 entries is a precondition of the single-write methods, and the `Panicked` outcome of the select loop, since it can be reached from user input.
- Command text is a Dafny `string`, a sequence of Unicode scalar values, while Go reads bytes. For valid UTF-8 no parse result changes, because ';', ' ', '\n' and the digits are ASCII. Input that is not valid UTF-8 cannot be expressed.
- The model follows the Go code where a reader might expect otherwise:
  - An empty clause (as in `#fff;`) is one empty token, so the hex decoder decides whether it fails.
  - Clauses with three or more tokens are skipped silently rather than rejected.
  - A failing line reports the ParseUint or hex error itself.

## Findings

| source | as written | input that shows it | evidently intended | confidence | as-written member | corrected member |
|---|---|---|---|---|---|---|
| internal/message/message.go:72 | every entry is written at `start := PREAMBLE_SIZE`, whatever the count | a broadcast of one colour to channels 1, 2 and 5: Build reports three entries, decoding as [channel 5, blank, blank] | the k-th entry goes at `PREAMBLE_SIZE + CHANNEL_MESSAGE_SIZE·(k−1)` (k counting from 1), so the frame decodes as [1, 2, 5] | not executed | Message.AsWrittenBroadcast, Message.WritersAgree, Stream.RunStreamCmd | Message.MessageBuilder.AppendChannelColor, Message.IntendedBroadcast |
