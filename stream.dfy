/**
 * The stream command: choosing the entertainment configuration, collecting
 * its channel ids, the reader that turns input lines into messages, and the
 * loop that merges ticker ticks with those messages and sends frames.
 *
 * The goroutine, the unbuffered channel and the ticker are replaced by
 * explicit sequences: the reader by the list of messages it sends, the loop
 * by the list of events it handles, in the order they are handled.
 */
module Stream {
  import opened Wrappers
  import opened GoStd
  import opened Message
  import opened Commands
  import opened Sequences

  // ---------------------------------------------------------------------------
  // Entertainment configurations
  // ---------------------------------------------------------------------------

  datatype Channel = Channel(channelId: byte)

  /** The fields of an entertainment configuration that the stream command reads. */
  datatype EntertainmentConfiguration = EntertainmentConfiguration(id: seq<byte>, channels: seq<Channel>)

  /** Index of the first configuration with id `id`, if any. */
  function FindConfig(configs: seq<EntertainmentConfiguration>, id: seq<byte>): (r: Option<nat>)
    ensures r.Some? ==> r.value < |configs| && configs[r.value].id == id
    ensures r.Some? ==> forall j :: 0 <= j < r.value ==> configs[j].id != id
    ensures r.None? ==> forall j :: 0 <= j < |configs| ==> configs[j].id != id
  {
    if configs == [] then None
    else if configs[0].id == id then Some(0)
    else match FindConfig(configs[1..], id)
      case None => None
      case Some(k) => Some(k + 1)
  }

  /**
   * The configuration getEntertainmentConfig chooses from the result of
   * listing them: the first one when no id is given, else the first with that id.
   */
  function ConfigOf(listed: Result<seq<EntertainmentConfiguration>, Error>, id: seq<byte>)
    : Result<EntertainmentConfiguration, Error>
  {
    if listed.Err? then Err(listed.error)
    else if |listed.value| == 0 then Err(NoConfigurations)
    else if id == [] then Ok(listed.value[0])
    else match FindConfig(listed.value, id)
      case None => Err(ConfigNotFound(id))
      case Some(k) => Ok(listed.value[k])
  }

  /** getEntertainmentConfig, with the listing call's result as input. */
  method GetEntertainmentConfig(listed: Result<seq<EntertainmentConfiguration>, Error>, id: seq<byte>)
    returns (r: Result<EntertainmentConfiguration, Error>)
    ensures r == ConfigOf(listed, id)
  {
    if listed.Err? {
      return Err(listed.error);
    }
    var data := listed.value;
    if |data| == 0 {
      return Err(NoConfigurations);
    }
    if id == [] {
      return Ok(data[0]);
    }
    for i := 0 to |data|
      invariant forall j :: 0 <= j < i ==> data[j].id != id
    {
      if data[i].id == id {
        return Ok(data[i]);
      }
    }
    return Err(ConfigNotFound(id));
  }

  /**
   * The selection rules: a failed listing passes its error on, an empty list
   * is an error, an empty id picks the first configuration, and any other id
   * picks the first configuration carrying it or fails when none does.
   */
  lemma ConfigOfSpec(listed: Result<seq<EntertainmentConfiguration>, Error>, id: seq<byte>)
    ensures listed.Err? ==> ConfigOf(listed, id) == Err(listed.error)
    ensures listed.Ok? && listed.value == [] ==> ConfigOf(listed, id) == Err(NoConfigurations)
    ensures listed.Ok? && listed.value != [] && id == [] ==> ConfigOf(listed, id) == Ok(listed.value[0])
    ensures listed.Ok? && listed.value != [] && id != [] ==>
              (ConfigOf(listed, id).Ok? <==> exists i :: 0 <= i < |listed.value| && listed.value[i].id == id)
    ensures listed.Ok? && id != [] && ConfigOf(listed, id).Ok? ==>
              exists i :: 0 <= i < |listed.value| && ConfigOf(listed, id).value == listed.value[i] &&
                          listed.value[i].id == id && forall j :: 0 <= j < i ==> listed.value[j].id != id
    ensures ConfigOf(listed, id).Ok? ==> ConfigOf(listed, id).value in listed.value
  {
  }

  /** The channel ids of a configuration, in configuration order. */
  function ChannelIdsOf(config: EntertainmentConfiguration): seq<byte>
  {
    seq(|config.channels|, i requires 0 <= i < |config.channels| => config.channels[i].channelId)
  }

  /** The loop collecting the configuration's channel ids. */
  method CollectChannelIds(config: EntertainmentConfiguration) returns (channelIds: seq<byte>)
    ensures |channelIds| == |config.channels|
    ensures forall i :: 0 <= i < |channelIds| ==> channelIds[i] == config.channels[i].channelId
    ensures channelIds == ChannelIdsOf(config)
  {
    channelIds := [];
    for i := 0 to |config.channels|
      invariant |channelIds| == i
      invariant forall j :: 0 <= j < i ==> channelIds[j] == config.channels[j].channelId
    {
      channelIds := channelIds + [config.channels[i].channelId];
    }
  }

  // ---------------------------------------------------------------------------
  // The reader goroutine
  // ---------------------------------------------------------------------------

  /**
   * The messages the reader sends for input `data` that ends with `end`: one
   * per line read and parsed, then one with the error and nothing more, or
   * at io.EOF one empty message. Data after the last '\n' is never parsed.
   */
  function ReaderMessages(data: string, end: ReadEnd, hex: HexDecoder): seq<ChanMessage>
    decreases |data|
  {
    var (line, err) := ReadString(data, '\n', end);
    if err == Some(EOF) then [ChanMessage([], None)]
    else if err.Some? then [ChanMessage([], Some(ReadError(err.value.cause)))]
    else
      match CommandsOf(line, hex)
      case Err(e) => [ChanMessage([], Some(e))]
      case Ok(commands) => [ChanMessage(commands, None)] + ReaderMessages(data[|line|..], end, hex)
  }

  /** The body of the reader goroutine; `sent` lists what it sends on the channel. */
  method ReadCommands(data: string, end: ReadEnd, hex: HexDecoder) returns (sent: seq<ChanMessage>)
    ensures sent == ReaderMessages(data, end, hex)
  {
    ghost var whole := ReaderMessages(data, end, hex);
    sent := [];
    var rest := data;
    assert whole == sent + ReaderMessages(rest, end, hex);
    while true
      invariant whole == sent + ReaderMessages(rest, end, hex)
      decreases |rest|
    {
      var message, consumed, more := ReadOnce(rest, end, hex);
      if !more {
        sent := sent + [message];
        return;
      }
      ghost var after := ReaderMessages(rest[consumed..], end, hex);
      AppendAssoc(sent, [message], after);
      sent, rest := sent + [message], rest[consumed..];
    }
  }

  /**
   * One round of the reader loop on the unread input `rest`: the message it
   * sends, how much input it consumed, and whether the loop goes on.
   */
  method ReadOnce(rest: string, end: ReadEnd, hex: HexDecoder) returns (message: ChanMessage, consumed: nat, more: bool)
    ensures more ==> (0 < consumed <= |rest| &&
                      ReaderMessages(rest, end, hex) == [message] + ReaderMessages(rest[consumed..], end, hex))
    ensures !more ==> ReaderMessages(rest, end, hex) == [message]
  {
    var read := ReadString(rest, '\n', end);
    var line, err := read.0, read.1;
    ReaderRound(rest, end, hex);
    consumed, more := 0, false;
    if err == Some(EOF) {
      message := ChanMessage([], None);
    } else if err.Some? {
      message := ChanMessage([], Some(ReadError(err.value.cause)));
    } else {
      var commands := ParseCommands(line, hex);
      if commands.Err? {
        message := ChanMessage([], Some(commands.error));
      } else {
        message, consumed, more := ChanMessage(commands.value, None), |line|, true;
      }
    }
  }

  /** One round of the reader loop on the unread input `d`, case by case. */
  lemma ReaderRound(d: string, end: ReadEnd, hex: HexDecoder)
    ensures var (line, err) := ReadString(d, '\n', end);
      && (err == Some(EOF) ==> ReaderMessages(d, end, hex) == [ChanMessage([], None)])
      && (err.Some? && err != Some(EOF) ==>
            ReaderMessages(d, end, hex) == [ChanMessage([], Some(ReadError(err.value.cause)))])
      && (err.None? && CommandsOf(line, hex).Err? ==>
            ReaderMessages(d, end, hex) == [ChanMessage([], Some(CommandsOf(line, hex).error))])
      && (err.None? && CommandsOf(line, hex).Ok? ==>
            0 < |line| <= |d| &&
            ReaderMessages(d, end, hex) == [ChanMessage(CommandsOf(line, hex).value, None)] + ReaderMessages(d[|line|..], end, hex))
  {
  }

  /** The newline-terminated lines of `data`; text after the last '\n' is not a line. */
  function Lines(data: string): (lines: seq<string>)
  {
    var pieces := Split(data, '\n');
    seq(|pieces| - 1, i requires 0 <= i < |pieces| - 1 => pieces[i] + "\n")
  }

  /** The message that ends the reader's output for an input ending with `end`. */
  function Final(end: ReadEnd): ChanMessage
  {
    match end
    case EOF => ChanMessage([], None)
    case ReadFailure(cause) => ChanMessage([], Some(ReadError(cause)))
  }

  /** The reader's messages, line by line. */
  function LineMessages(lines: seq<string>, end: ReadEnd, hex: HexDecoder): seq<ChanMessage>
  {
    if lines == [] then [Final(end)]
    else
      match CommandsOf(lines[0], hex)
      case Err(e) => [ChanMessage([], Some(e))]
      case Ok(commands) => [ChanMessage(commands, None)] + LineMessages(lines[1..], end, hex)
  }

  lemma {:induction false} LinesOfLine(line: string, rest: string)
    requires |line| > 0 && line[|line| - 1] == '\n' && '\n' !in line[..|line| - 1]
    ensures Lines(line + rest) == [line] + Lines(rest)
  {
    var p := line[..|line| - 1];
    assert line + rest == p + (['\n'] + rest);
    SplitPrefix(p, ['\n'] + rest, '\n');
    assert Split(['\n'] + rest, '\n') == [""] + Split(rest, '\n');
    assert p + "" == p && p + "\n" == line;
    var pieces := Split(line + rest, '\n');
    assert pieces == [p] + Split(rest, '\n');
  }

  lemma LinesWithoutNewline(tail: string)
    requires '\n' !in tail
    ensures Lines(tail) == []
  {
    SplitPrefix(tail, "", '\n');
    assert tail + "" == tail;
  }

  /**
   * The reader's output, line by line: each newline-terminated line becomes
   * a message until one fails to parse, and the input's end is reported last.
   */
  lemma {:induction false} ReaderMessagesByLine(data: string, end: ReadEnd, hex: HexDecoder)
    ensures ReaderMessages(data, end, hex) == LineMessages(Lines(data), end, hex)
    decreases |data|
  {
    var (line, err) := ReadString(data, '\n', end);
    ReaderRound(data, end, hex);
    if err.None? {
      var rest := data[|line|..];
      assert data == line + rest;
      LinesOfLine(line, rest);
      var lines := Lines(data);
      assert lines[0] == line && lines[1..] == Lines(rest);
      ReaderMessagesByLine(rest, end, hex);
      assert LineMessages(lines, end, hex) ==
        match CommandsOf(line, hex)
        case Err(e) => [ChanMessage([], Some(e))]
        case Ok(commands) => [ChanMessage(commands, None)] + LineMessages(Lines(rest), end, hex);
    } else {
      LinesWithoutNewline(data);
    }
  }

  /** A final line that is not terminated by '\n' is discarded, whatever it holds. */
  lemma UnterminatedLineDiscarded(data: string, tail: string, end: ReadEnd, hex: HexDecoder)
    requires data == [] || data[|data| - 1] == '\n'
    requires '\n' !in tail
    ensures ReaderMessages(data + tail, end, hex) == ReaderMessages(data, end, hex)
  {
    LinesAppend(data, tail);
    ReaderMessagesByLine(data + tail, end, hex);
    ReaderMessagesByLine(data, end, hex);
  }

  lemma {:induction false} LinesAppend(data: string, tail: string)
    requires data == [] || data[|data| - 1] == '\n'
    requires '\n' !in tail
    ensures Lines(data + tail) == Lines(data)
    decreases |data|
  {
    if data == [] {
      assert data + tail == tail;
      LinesWithoutNewline(tail);
      LinesWithoutNewline(data);
    } else {
      var (line, err) := ReadString(data, '\n', EOF);
      assert err.None?;
      var rest := data[|line|..];
      assert data == line + rest;
      assert data + tail == line + (rest + tail);
      assert rest == [] || rest[|rest| - 1] == '\n' by {
        if rest != [] { assert rest[|rest| - 1] == data[|data| - 1]; }
      }
      LinesAppend(rest, tail);
      LinesOfLine(line, rest);
      LinesOfLine(line, rest + tail);
    }
  }

  /**
   * The shape of the reader's output: at least one message; every message
   * but the last has no error, and the last one carries no commands.
   */
  lemma {:induction false} ReaderShape(data: string, end: ReadEnd, hex: HexDecoder)
    ensures var m := ReaderMessages(data, end, hex);
      |m| > 0 && m[|m| - 1].commands == [] &&
      forall i :: 0 <= i < |m| - 1 ==> m[i].err == None
    decreases |data|
  {
    var (line, err) := ReadString(data, '\n', end);
    if err.None? && CommandsOf(line, hex).Ok? {
      ReaderShape(data[|line|..], end, hex);
      var m := ReaderMessages(data, end, hex);
      assert m == [ChanMessage(CommandsOf(line, hex).value, None)] + ReaderMessages(data[|line|..], end, hex);
    }
  }

  /**
   * On input whose every complete line parses, the reader sends exactly one
   * message per line, carrying that line's commands, and then the message
   * for how the input ended.
   */
  lemma {:induction false} ReaderOnParsableInput(data: string, end: ReadEnd, hex: HexDecoder)
    requires forall i :: 0 <= i < |Lines(data)| ==> CommandsOf(Lines(data)[i], hex).Ok?
    ensures var m := ReaderMessages(data, end, hex); var lines := Lines(data);
      |m| == |lines| + 1 && m[|lines|] == Final(end) &&
      forall i :: 0 <= i < |lines| ==> m[i] == ChanMessage(CommandsOf(lines[i], hex).value, None)
  {
    ReaderMessagesByLine(data, end, hex);
    LineMessagesOfParsable(Lines(data), end, hex);
  }

  lemma {:induction false} LineMessagesOfParsable(lines: seq<string>, end: ReadEnd, hex: HexDecoder)
    requires forall i :: 0 <= i < |lines| ==> CommandsOf(lines[i], hex).Ok?
    ensures var m := LineMessages(lines, end, hex);
      |m| == |lines| + 1 && m[|lines|] == Final(end) &&
      forall i :: 0 <= i < |lines| ==> m[i] == ChanMessage(CommandsOf(lines[i], hex).value, None)
  {
    if lines != [] {
      assert CommandsOf(lines[0], hex).Ok?;
      LineMessagesOfParsable(lines[1..], end, hex);
      var m := LineMessages(lines, end, hex);
      assert m == [ChanMessage(CommandsOf(lines[0], hex).value, None)] + LineMessages(lines[1..], end, hex);
      forall i | 0 < i < |lines| ensures m[i] == ChanMessage(CommandsOf(lines[i], hex).value, None) {
        assert lines[i] == lines[1..][i - 1];
      }
    }
  }

  /** A line that fails to parse is the reader's last message: it carries that error. */
  lemma {:induction false} ReaderStopsAtBadLine(data: string, end: ReadEnd, hex: HexDecoder, k: nat)
    requires k < |Lines(data)| && CommandsOf(Lines(data)[k], hex).Err?
    requires forall i :: 0 <= i < k ==> CommandsOf(Lines(data)[i], hex).Ok?
    ensures var m := ReaderMessages(data, end, hex);
      |m| == k + 1 && m[k] == ChanMessage([], Some(CommandsOf(Lines(data)[k], hex).error))
  {
    ReaderMessagesByLine(data, end, hex);
    LineMessagesStopAt(Lines(data), end, hex, k);
  }

  lemma {:induction false} LineMessagesStopAt(lines: seq<string>, end: ReadEnd, hex: HexDecoder, k: nat)
    requires k < |lines| && CommandsOf(lines[k], hex).Err?
    requires forall i :: 0 <= i < k ==> CommandsOf(lines[i], hex).Ok?
    ensures var m := LineMessages(lines, end, hex);
      |m| == k + 1 && m[k] == ChanMessage([], Some(CommandsOf(lines[k], hex).error))
  {
    if k > 0 {
      assert CommandsOf(lines[0], hex).Ok?;
      forall i | 0 <= i < k - 1 ensures CommandsOf(lines[1..][i], hex).Ok? {
        assert lines[1..][i] == lines[i + 1];
      }
      assert lines[1..][k - 1] == lines[k];
      LineMessagesStopAt(lines[1..], end, hex, k - 1);
    }
  }

  // ---------------------------------------------------------------------------
  // Applying a batch of commands to the frame
  // ---------------------------------------------------------------------------

  /** The entries one command writes: one per session channel for a broadcast, else one. */
  function CommandEntries(c: Command, channelIds: seq<byte>, colorSpace: ColorSpace): (r: seq<Entry>)
    ensures |r| == if c.broadcast then |channelIds| else 1
  {
    if c.broadcast
    then seq(|channelIds|, i requires 0 <= i < |channelIds| => Entry(channelIds[i], Components(colorSpace, c.color)))
    else [Entry(c.channelId, Components(colorSpace, c.color))]
  }

  /** All entries a batch writes, command by command, in order. */
  function BatchEntries(cmds: seq<Command>, channelIds: seq<byte>, colorSpace: ColorSpace): seq<Entry>
  {
    if cmds == [] then []
    else BatchEntries(cmds[..|cmds| - 1], channelIds, colorSpace) + CommandEntries(cmds[|cmds| - 1], channelIds, colorSpace)
  }

  /** The number of broadcast commands in a batch. */
  function Broadcasts(cmds: seq<Command>): (n: nat)
    ensures n <= |cmds|
  {
    if cmds == [] then 0
    else Broadcasts(cmds[..|cmds| - 1]) + (if cmds[|cmds| - 1].broadcast then 1 else 0)
  }

  lemma MulSucc(b: nat, n: nat)
    ensures (b + 1) * n == b * n + n
  {
  }

  /** The number of writes a batch makes: broadcasts times channels, plus the targeted commands. */
  lemma {:induction false} BatchSize(cmds: seq<Command>, channelIds: seq<byte>, colorSpace: ColorSpace)
    ensures |BatchEntries(cmds, channelIds, colorSpace)| ==
            Broadcasts(cmds) * |channelIds| + (|cmds| - Broadcasts(cmds))
    decreases |cmds|
  {
    if cmds != [] {
      var init := cmds[..|cmds| - 1];
      var last := cmds[|cmds| - 1];
      BatchSize(init, channelIds, colorSpace);
      var b, n := Broadcasts(init), |channelIds|;
      assert |BatchEntries(cmds, channelIds, colorSpace)|
          == |BatchEntries(init, channelIds, colorSpace)| + |CommandEntries(last, channelIds, colorSpace)|;
      if last.broadcast {
        MulSucc(b, n);
      }
    }
  }

  lemma {:induction false} BatchEntriesGrow(cmds: seq<Command>, j: nat, channelIds: seq<byte>, colorSpace: ColorSpace)
    requires j < |cmds|
    ensures BatchEntries(cmds[..j + 1], channelIds, colorSpace)
            == BatchEntries(cmds[..j], channelIds, colorSpace) + CommandEntries(cmds[j], channelIds, colorSpace)
    ensures |BatchEntries(cmds[..j + 1], channelIds, colorSpace)| <= |BatchEntries(cmds, channelIds, colorSpace)|
    decreases |cmds|
  {
    assert cmds[..j + 1][..j] == cmds[..j];
    if j + 1 < |cmds| {
      var init := cmds[..|cmds| - 1];
      assert init[..j + 1] == cmds[..j + 1];
      BatchEntriesGrow(init, j, channelIds, colorSpace);
    } else {
      assert cmds[..j + 1] == cmds;
    }
  }

  /**
   * Writes one entry per session channel, in order, for broadcast command
   * `c`, through writer `w`, after the entries `done` of the batch so far.
   */
  method WriteBroadcast(w: Writer, builder: MessageBuilder, c: Command, channelIds: seq<byte>, ghost done: seq<Entry>)
    returns (ok: bool)
    requires builder.Holds(w, done) && c.broadcast
    modifies builder, builder.buffer
    ensures builder.Valid() && (w == AsWritten ==> TailZero(builder.buffer[..]))
    ensures builder.buffer[..PREAMBLE_SIZE] == old(builder.buffer[..PREAMBLE_SIZE])
    ensures ok <==> |done| + |channelIds| <= MAX_CHANNELS
    ensures ok ==> builder.Holds(w, done + CommandEntries(c, channelIds, builder.colorSpace))
  {
    ghost var mine := CommandEntries(c, channelIds, builder.colorSpace);
    assert done + mine[..0] == done;
    for k := 0 to |channelIds|
      invariant builder.Holds(w, done + mine[..k])
      invariant builder.buffer[..PREAMBLE_SIZE] == old(builder.buffer[..PREAMBLE_SIZE])
    {
      if builder.channelMessageCount == MAX_CHANNELS {
        return false;
      }
      assert done + mine[..k + 1] == (done + mine[..k]) + [mine[k]];
      builder.WriteWith(w, channelIds[k], c.color, done + mine[..k]);
    }
    assert mine[..|channelIds|] == mine;
    return true;
  }

  /** Writes the single entry of targeted command `c` through writer `w`, after the entries `done`. */
  method WriteTargeted(w: Writer, builder: MessageBuilder, c: Command, channelIds: seq<byte>, ghost done: seq<Entry>)
    returns (ok: bool)
    requires builder.Holds(w, done) && !c.broadcast
    modifies builder, builder.buffer
    ensures builder.Valid() && (w == AsWritten ==> TailZero(builder.buffer[..]))
    ensures builder.buffer[..PREAMBLE_SIZE] == old(builder.buffer[..PREAMBLE_SIZE])
    ensures ok <==> |done| + 1 <= MAX_CHANNELS
    ensures ok ==> builder.Holds(w, done + CommandEntries(c, channelIds, builder.colorSpace))
  {
    if builder.channelMessageCount == MAX_CHANNELS {
      return false;
    }
    builder.WriteWith(w, c.channelId, c.color, done);
    return true;
  }

  /** The writes of one command in the batch loop of runStreamCmd, through writer `w`. */
  method WriteCommand(w: Writer, builder: MessageBuilder, c: Command, channelIds: seq<byte>, ghost done: seq<Entry>)
    returns (ok: bool)
    requires builder.Holds(w, done)
    modifies builder, builder.buffer
    ensures builder.Valid() && (w == AsWritten ==> TailZero(builder.buffer[..]))
    ensures builder.buffer[..PREAMBLE_SIZE] == old(builder.buffer[..PREAMBLE_SIZE])
    ensures ok <==> |done| + |CommandEntries(c, channelIds, builder.colorSpace)| <= MAX_CHANNELS
    ensures ok ==> builder.Holds(w, done + CommandEntries(c, channelIds, builder.colorSpace))
  {
    if c.broadcast {
      ok := WriteBroadcast(w, builder, c, channelIds, done);
    } else {
      ok := WriteTargeted(w, builder, c, channelIds, done);
    }
  }

  /**
   * The batch loop of runStreamCmd, through writer `w`: reset the body, then
   * write every command's entries. It reports false where the source
   * panics, at the write that would exceed MAX_CHANNELS entries. With the
   * as-written writer the frame carries only the last entry, in slot 0.
   */
  method ApplyBatch(w: Writer, builder: MessageBuilder, cmds: seq<Command>, channelIds: seq<byte>) returns (ok: bool)
    requires builder.Valid() && (w == AsWritten ==> TailZero(builder.buffer[..]))
    modifies builder, builder.buffer
    ensures builder.Valid() && (w == AsWritten ==> TailZero(builder.buffer[..]))
    ensures builder.buffer[..PREAMBLE_SIZE] == old(builder.buffer[..PREAMBLE_SIZE])
    ensures ok <==> |BatchEntries(cmds, channelIds, builder.colorSpace)| <= MAX_CHANNELS
    ensures ok ==> builder.Frame() == FrameOf(w, old(builder.buffer[..PREAMBLE_SIZE]),
                                               BatchEntries(cmds, channelIds, builder.colorSpace))
  {
    ghost var preamble := builder.buffer[..PREAMBLE_SIZE];
    ghost var cs := builder.colorSpace;
    builder.ResetBody();
    assert cmds[..0] == [];
    assert builder.Holds(w, []);
    for j := 0 to |cmds|
      invariant builder.Holds(w, BatchEntries(cmds[..j], channelIds, cs))
      invariant builder.buffer[..PREAMBLE_SIZE] == preamble
    {
      BatchEntriesGrow(cmds, j, channelIds, cs);
      var written := WriteCommand(w, builder, cmds[j], channelIds, BatchEntries(cmds[..j], channelIds, cs));
      if !written {
        return false;
      }
    }
    assert cmds[..|cmds|] == cmds;
    return true;
  }

  // ---------------------------------------------------------------------------
  // The select loop
  // ---------------------------------------------------------------------------

  /** One event the loop handles: a tick, with the outcome of writing the frame, or a received message. */
  datatype Event = Tick(writeErr: Option<Error>) | Recv(message: ChanMessage)

  /** How the loop ends: it returns, it panics, or the events run out while it still waits. */
  datatype Outcome = Returned(err: Option<Error>) | Panicked | Waiting

  /** The outcome, and every frame handed to the transport, in order. */
  datatype Trace = Trace(outcome: Outcome, written: seq<seq<byte>>)

  /** The loop's variables besides the builder. */
  datatype LoopState = LoopState(message: seq<byte>, quitting: bool, result: Option<Error>)

  function Sent(frames: seq<seq<byte>>, t: Trace): Trace
  {
    Trace(t.outcome, frames + t.written)
  }

  /** The frame Build returns after a batch written through `w`. */
  function BatchFrame(w: Writer, preamble: seq<byte>, channelIds: seq<byte>, cmds: seq<Command>): seq<byte>
  {
    FrameOf(w, preamble, BatchEntries(cmds, channelIds, COLOR_SPACE_RGB))
  }

  /** The state after a received message, when it does not panic. */
  function Receive(w: Writer, preamble: seq<byte>, channelIds: seq<byte>, st: LoopState, m: ChanMessage): LoopState
  {
    if |m.commands| > 0
    then st.(message := BatchFrame(w, preamble, channelIds, m.commands))
    else st.(quitting := true, result := m.err)
  }

  /** A received message makes the source panic when its batch writes more than MAX_CHANNELS entries. */
  predicate Overflows(m: ChanMessage, channelIds: seq<byte>)
  {
    |m.commands| > 0 && |BatchEntries(m.commands, channelIds, COLOR_SPACE_RGB)| > MAX_CHANNELS
  }

  /**
   * The loop over a list of events, from state `st`: a tick writes the
   * current frame and returns on a write error, or after the write once
   * quitting; a message with commands rebuilds the frame, and one without
   * commands sets quitting and records its error.
   */
  function Run(w: Writer, preamble: seq<byte>, channelIds: seq<byte>, st: LoopState, events: seq<Event>): Trace
    decreases |events|
  {
    if events == [] then Trace(Waiting, [])
    else
      match events[0]
      case Tick(writeErr) =>
        if writeErr.Some? then Trace(Returned(writeErr), [st.message])
        else if st.quitting then Trace(Returned(st.result), [st.message])
        else Sent([st.message], Run(w, preamble, channelIds, st, events[1..]))
      case Recv(m) =>
        if Overflows(m, channelIds) then Trace(Panicked, [])
        else Run(w, preamble, channelIds, Receive(w, preamble, channelIds, st, m), events[1..])
  }

  /** The state before the first event: the preamble-only frame, not quitting. */
  function Initial(preamble: seq<byte>): LoopState
  {
    LoopState(preamble, false, None)
  }

  /** A successful tick while not quitting hands the current frame on and goes on with the rest. */
  lemma TickStep(w: Writer, preamble: seq<byte>, channelIds: seq<byte>, st: LoopState, events: seq<Event>, written: seq<seq<byte>>)
    requires events != [] && events[0] == Tick(None) && !st.quitting
    ensures Sent(written, Run(w, preamble, channelIds, st, events))
            == Sent(written + [st.message], Run(w, preamble, channelIds, st, events[1..]))
  {
    AppendAssoc(written, [st.message], Run(w, preamble, channelIds, st, events[1..]).written);
  }

  /** A received message that does not overflow moves to the state Receive gives. */
  lemma RecvStep(w: Writer, preamble: seq<byte>, channelIds: seq<byte>, st: LoopState, events: seq<Event>)
    requires events != [] && events[0].Recv? && !Overflows(events[0].message, channelIds)
    ensures Run(w, preamble, channelIds, st, events)
            == Run(w, preamble, channelIds, Receive(w, preamble, channelIds, st, events[0].message), events[1..])
  {
  }

  /** The builder as the loop keeps it: RGB, behind `preamble`, and, as written, with a zero tail. */
  ghost predicate Ready(w: Writer, builder: MessageBuilder, preamble: seq<byte>)
    reads builder, builder.buffer
  {
    builder.Valid() && builder.colorSpace == COLOR_SPACE_RGB && builder.buffer[..PREAMBLE_SIZE] == preamble &&
    (w == AsWritten ==> TailZero(builder.buffer[..]))
  }

  /**
   * The loop's answer to a batch: apply it, then Build. It fails exactly
   * where the source panics, and otherwise returns the batch's frame.
   */
  method Rebuild(w: Writer, builder: MessageBuilder, cmds: seq<Command>, channelIds: seq<byte>, ghost preamble: seq<byte>)
    returns (ok: bool, frame: seq<byte>)
    requires Ready(w, builder, preamble)
    modifies builder, builder.buffer
    ensures Ready(w, builder, preamble)
    ensures ok <==> |BatchEntries(cmds, channelIds, COLOR_SPACE_RGB)| <= MAX_CHANNELS
    ensures ok ==> frame == BatchFrame(w, preamble, channelIds, cmds) && frame == builder.Frame()
  {
    ok := ApplyBatch(w, builder, cmds, channelIds);
    frame := [];
    if ok {
      frame := builder.Build();
    }
  }

  /**
   * The select loop of the stream command, with the builder created and its
   * preamble written as the source does just before it, each batch written
   * through `w`: `AsWritten` is the program as the source has it.
   */
  method SelectLoop(w: Writer, configId: seq<byte>, channelIds: seq<byte>, events: seq<Event>) returns (t: Trace)
    requires |configId| == ENTERTAINMENT_CONFIG_ID_SIZE
    ensures t == Run(w, PreambleBytes(COLOR_SPACE_RGB, configId), channelIds,
                     Initial(PreambleBytes(COLOR_SPACE_RGB, configId)), events)
  {
    ghost var preamble := PreambleBytes(COLOR_SPACE_RGB, configId);
    var builder := new MessageBuilder(COLOR_SPACE_RGB);
    NewArenaTailZero();
    PreambleKeepsTail(builder.buffer[..], COLOR_SPACE_RGB, configId);
    builder.WritePreamble(configId);
    var message := builder.Build();
    var quitting := false;
    var result: Option<Error> := None;
    var written: seq<seq<byte>> := [];
    assert message == preamble;
    ghost var whole := Run(w, preamble, channelIds, Initial(preamble), events);
    var pending := events;
    while pending != []
      invariant Ready(w, builder, preamble)
      invariant message == builder.Frame()
      invariant whole == Sent(written, Run(w, preamble, channelIds, LoopState(message, quitting, result), pending))
      decreases |pending|
    {
      ghost var st := LoopState(message, quitting, result);
      match pending[0] {
        case Tick(writeErr) =>
          if writeErr.None? && !quitting {
            TickStep(w, preamble, channelIds, st, pending, written);
          }
          written := written + [message];
          if writeErr.Some? {
            return Trace(Returned(writeErr), written);
          }
          if quitting {
            return Trace(Returned(result), written);
          }
        case Recv(chanMessage) =>
          if |chanMessage.commands| > 0 {
            var ok, frame := Rebuild(w, builder, chanMessage.commands, channelIds, preamble);
            if !ok {
              assert written + [] == written;
              return Trace(Panicked, written);
            }
            RecvStep(w, preamble, channelIds, st, pending);
            message := frame;
            assert LoopState(message, quitting, result) == Receive(w, preamble, channelIds, st, chanMessage);
          } else {
            RecvStep(w, preamble, channelIds, st, pending);
            quitting := true;
            result := chanMessage.err;
          }
      }
      pending := pending[1..];
    }
    assert written + [] == written;
    return Trace(Waiting, written);
  }

  /** What the stream command returns for a configuration listing, an id argument and the loop's events. */
  function StreamOutcome(w: Writer, listed: Result<seq<EntertainmentConfiguration>, Error>, id: seq<byte>, events: seq<Event>)
    : Trace
  {
    match ConfigOf(listed, id)
    case Err(e) => Trace(Returned(Some(e)), [])
    case Ok(config) =>
      if |config.id| != ENTERTAINMENT_CONFIG_ID_SIZE then Trace(Panicked, [])
      else
        var preamble := PreambleBytes(COLOR_SPACE_RGB, config.id);
        Run(w, preamble, ChannelIdsOf(config), Initial(preamble), events)
  }

  /**
   * runStreamCmd from the configuration lookup on: a lookup error is
   * returned, a configuration id that is not 36 bytes makes WritePreamble
   * panic, and otherwise the select loop runs, with batches written
   * through `w` (`AsWritten` is the source's own program).
   */
  method RunStreamCmd(w: Writer, listed: Result<seq<EntertainmentConfiguration>, Error>, id: seq<byte>, events: seq<Event>)
    returns (t: Trace)
    ensures t == StreamOutcome(w, listed, id, events)
  {
    var config := GetEntertainmentConfig(listed, id);
    if config.Err? {
      return Trace(Returned(Some(config.error)), []);
    }
    var channelIds := CollectChannelIds(config.value);
    if |config.value.id| != ENTERTAINMENT_CONFIG_ID_SIZE {
      return Trace(Panicked, []);
    }
    t := SelectLoop(w, config.value.id, channelIds, events);
  }
}
