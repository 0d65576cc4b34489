/**
 * Properties of the stream command's select loop over whole event lists:
 * the shape of every frame it sends, how quitting ends it, and the loop
 * running against the reader's messages.
 */
module StreamProperties {
  import opened Wrappers
  import opened GoStd
  import opened Message
  import opened Commands
  import opened Stream

  /** A frame as the loop sends it: the preamble, then at most MAX_CHANNELS whole entries. */
  predicate WellFormedFrame(preamble: seq<byte>, f: seq<byte>)
  {
    PREAMBLE_SIZE <= |f| <= MAX_MESSAGE_SIZE && f[..PREAMBLE_SIZE] == preamble
    && (|f| - PREAMBLE_SIZE) % CHANNEL_MESSAGE_SIZE == 0
  }

  predicate AllWellFormed(preamble: seq<byte>, frames: seq<seq<byte>>)
  {
    forall i :: 0 <= i < |frames| ==> WellFormedFrame(preamble, frames[i])
  }

  lemma BatchFrameWellFormed(w: Writer, preamble: seq<byte>, channelIds: seq<byte>, cmds: seq<Command>)
    requires |preamble| == PREAMBLE_SIZE
    requires |BatchEntries(cmds, channelIds, COLOR_SPACE_RGB)| <= MAX_CHANNELS
    ensures WellFormedFrame(preamble, BatchFrame(w, preamble, channelIds, cmds))
  {
    var k := |BatchEntries(cmds, channelIds, COLOR_SPACE_RGB)|;
    var f := BatchFrame(w, preamble, channelIds, cmds);
    assert |f| - PREAMBLE_SIZE == CHANNEL_MESSAGE_SIZE * k;
  }

  /**
   * Every frame the loop hands to the transport is the preamble followed by
   * at most MAX_CHANNELS whole entries.
   */
  lemma {:induction false} RunFramesWellFormed(w: Writer, preamble: seq<byte>, channelIds: seq<byte>, st: LoopState, events: seq<Event>)
    requires |preamble| == PREAMBLE_SIZE && WellFormedFrame(preamble, st.message)
    ensures AllWellFormed(preamble, Run(w, preamble, channelIds, st, events).written)
    decreases |events|
  {
    if events != [] {
      match events[0]
      case Tick(writeErr) =>
        if writeErr.None? && !st.quitting {
          RunFramesWellFormed(w, preamble, channelIds, st, events[1..]);
          var r := Run(w, preamble, channelIds, st, events[1..]);
          var sent := Run(w, preamble, channelIds, st, events).written;
          assert sent == [st.message] + r.written;
          forall i | 0 < i < |sent| ensures WellFormedFrame(preamble, sent[i]) {
            assert sent[i] == r.written[i - 1];
          }
        }
      case Recv(m) =>
        if !Overflows(m, channelIds) {
          if |m.commands| > 0 {
            BatchFrameWellFormed(w, preamble, channelIds, m.commands);
          }
          RunFramesWellFormed(w, preamble, channelIds, Receive(w, preamble, channelIds, st, m), events[1..]);
        }
    }
  }

  /** The state after receiving each of `ms` in turn. */
  function ReceiveAll(w: Writer, preamble: seq<byte>, channelIds: seq<byte>, st: LoopState, ms: seq<ChanMessage>): LoopState
    decreases |ms|
  {
    if ms == [] then st else ReceiveAll(w, preamble, channelIds, Receive(w, preamble, channelIds, st, ms[0]), ms[1..])
  }

  function Recvs(ms: seq<ChanMessage>): seq<Event>
  {
    if ms == [] then [] else [Recv(ms[0])] + Recvs(ms[1..])
  }

  /**
   * Once quitting, messages received before the next successful tick are
   * still applied, and that tick sends the frame exactly once and returns
   * the recorded result.
   */
  lemma {:induction false} QuitFlushesOnce(w: Writer, preamble: seq<byte>, channelIds: seq<byte>, st: LoopState,
                                           ms: seq<ChanMessage>, rest: seq<Event>)
    requires st.quitting
    requires forall i :: 0 <= i < |ms| ==> !Overflows(ms[i], channelIds)
    ensures var last := ReceiveAll(w, preamble, channelIds, st, ms);
      last.quitting &&
      Run(w, preamble, channelIds, st, Recvs(ms) + [Tick(None)] + rest) == Trace(Returned(last.result), [last.message])
    decreases |ms|
  {
    if ms == [] {
      assert Recvs(ms) + [Tick(None)] + rest == [Tick(None)] + rest;
    } else {
      var events := Recvs(ms) + [Tick(None)] + rest;
      assert events[0] == Recv(ms[0]);
      assert events[1..] == Recvs(ms[1..]) + [Tick(None)] + rest;
      forall i | 0 <= i < |ms[1..]| ensures !Overflows(ms[1..][i], channelIds) {
        assert ms[1..][i] == ms[i + 1];
      }
      QuitFlushesOnce(w, preamble, channelIds, Receive(w, preamble, channelIds, st, ms[0]), ms[1..], rest);
    }
  }

  /** A schedule in which every message is received and followed by one successful tick. */
  function Lockstep(ms: seq<ChanMessage>): seq<Event>
  {
    if ms == [] then [] else [Recv(ms[0]), Tick(None)] + Lockstep(ms[1..])
  }

  /** The position of the first message without commands, the one that sets quitting. */
  function FirstQuit(ms: seq<ChanMessage>): (k: nat)
    requires |ms| > 0 && ms[|ms| - 1].commands == []
    ensures k < |ms| && ms[k].commands == [] && forall i :: 0 <= i < k ==> ms[i].commands != []
  {
    if ms[0].commands == [] then 0 else 1 + FirstQuit(ms[1..])
  }

  /** The frame each message's batch builds, message by message. */
  function BatchFrames(w: Writer, preamble: seq<byte>, channelIds: seq<byte>, ms: seq<ChanMessage>): (r: seq<seq<byte>>)
    ensures |r| == |ms| && forall i :: 0 <= i < |ms| ==> r[i] == BatchFrame(w, preamble, channelIds, ms[i].commands)
  {
    seq(|ms|, i requires 0 <= i < |ms| => BatchFrame(w, preamble, channelIds, ms[i].commands))
  }

  /**
   * What the loop does in lockstep with messages `ms`, when message i builds
   * frame `frames[i]` and the loop starts from frame `first`: one frame per
   * message up to the first message without commands, namely the frame of
   * each batch and then the last frame once more, and it returns that
   * message's error.
   */
  predicate OutcomeWith(frames: seq<seq<byte>>, first: seq<byte>, ms: seq<ChanMessage>, t: Trace)
    requires |frames| == |ms| && |ms| > 0 && ms[|ms| - 1].commands == []
  {
    var k := FirstQuit(ms);
    t.outcome == Returned(ms[k].err) && |t.written| == k + 1 &&
    (forall i :: 0 <= i < k ==> t.written[i] == frames[i]) &&
    t.written[k] == (if k == 0 then first else t.written[k - 1])
  }

  /** The lockstep outcome with the frames the batches of `ms` build. */
  predicate LockstepOutcome(w: Writer, preamble: seq<byte>, channelIds: seq<byte>, first: seq<byte>, ms: seq<ChanMessage>, t: Trace)
    requires |ms| > 0 && ms[|ms| - 1].commands == []
  {
    OutcomeWith(BatchFrames(w, preamble, channelIds, ms), first, ms, t)
  }

  /** One round in lockstep: receive the first message, then tick once. */
  lemma LockstepRound(w: Writer, preamble: seq<byte>, channelIds: seq<byte>, st: LoopState, ms: seq<ChanMessage>)
    requires !st.quitting && |ms| > 0 && !Overflows(ms[0], channelIds)
    ensures Run(w, preamble, channelIds, st, Lockstep(ms)) ==
      if ms[0].commands == [] then Trace(Returned(ms[0].err), [st.message])
      else Sent([BatchFrame(w, preamble, channelIds, ms[0].commands)],
                Run(w, preamble, channelIds, st.(message := BatchFrame(w, preamble, channelIds, ms[0].commands)), Lockstep(ms[1..])))
  {
    var events := Lockstep(ms);
    assert events[0] == Recv(ms[0]);
    assert events[1..][0] == Tick(None);
    assert events[1..][1..] == Lockstep(ms[1..]);
  }

  /** Prepending the first message's frame to the outcome of the messages after it. */
  lemma OutcomeCons(frames: seq<seq<byte>>, first: seq<byte>, ms: seq<ChanMessage>, rest: Trace, t: Trace)
    requires |frames| == |ms| && |ms| > 1 && ms[|ms| - 1].commands == [] && ms[0].commands != []
    requires OutcomeWith(frames[1..], frames[0], ms[1..], rest)
    requires t == Sent([frames[0]], rest)
    ensures OutcomeWith(frames, first, ms, t)
  {
    var k := FirstQuit(ms);
    assert k == 1 + FirstQuit(ms[1..]);
    assert t.written == [frames[0]] + rest.written;
    forall i | 0 <= i < k ensures t.written[i] == frames[i] {
      if i > 0 { assert frames[1..][i - 1] == frames[i]; }
    }
    assert ms[k] == ms[1..][k - 1];
    assert t.outcome == Returned(ms[k].err);
    assert |t.written| == k + 1;
    assert t.written[k] == t.written[k - 1] by {
      if k > 1 {
        assert t.written[k] == rest.written[k - 1] == rest.written[k - 2] == t.written[k - 1];
      } else {
        assert rest.written[0] == frames[0];
      }
    }
  }

  /** The frames of the messages after the first are the frames after the first. */
  lemma BatchFramesTail(w: Writer, preamble: seq<byte>, channelIds: seq<byte>, ms: seq<ChanMessage>)
    requires |ms| > 0
    ensures BatchFrames(w, preamble, channelIds, ms)[1..] == BatchFrames(w, preamble, channelIds, ms[1..])
  {
    var frames := BatchFrames(w, preamble, channelIds, ms);
    forall i | 0 <= i < |ms| - 1 ensures frames[1..][i] == BatchFrames(w, preamble, channelIds, ms[1..])[i] {
      assert ms[1..][i] == ms[i + 1];
    }
  }

  /**
   * In lockstep, the loop sends one frame per message up to the first
   * message without commands, and then returns that message's error.
   */
  lemma {:induction false} LockstepRun(w: Writer, preamble: seq<byte>, channelIds: seq<byte>, st: LoopState, ms: seq<ChanMessage>)
    requires !st.quitting && |ms| > 0 && ms[|ms| - 1].commands == []
    requires forall i :: 0 <= i < |ms| ==> !Overflows(ms[i], channelIds)
    ensures LockstepOutcome(w, preamble, channelIds, st.message, ms, Run(w, preamble, channelIds, st, Lockstep(ms)))
    decreases |ms|
  {
    LockstepRound(w, preamble, channelIds, st, ms);
    if ms[0].commands != [] {
      var st1 := st.(message := BatchFrame(w, preamble, channelIds, ms[0].commands));
      forall i | 0 <= i < |ms[1..]| ensures !Overflows(ms[1..][i], channelIds) {
        assert ms[1..][i] == ms[i + 1];
      }
      LockstepRun(w, preamble, channelIds, st1, ms[1..]);
      BatchFramesTail(w, preamble, channelIds, ms);
      OutcomeCons(BatchFrames(w, preamble, channelIds, ms), st.message, ms,
                  Run(w, preamble, channelIds, st1, Lockstep(ms[1..])), Run(w, preamble, channelIds, st, Lockstep(ms)));
    } else {
      assert FirstQuit(ms) == 0;
    }
  }

  /**
   * The loop against messages shaped as the reader sends them: the lockstep
   * outcome from the preamble-only frame, and an error returned only when
   * quitting came from the last message.
   */
  predicate ReaderLoopOutcome(w: Writer, preamble: seq<byte>, channelIds: seq<byte>, ms: seq<ChanMessage>, t: Trace)
  {
    |ms| > 0 && ms[|ms| - 1].commands == [] &&
    LockstepOutcome(w, preamble, channelIds, preamble, ms, t) &&
    (FirstQuit(ms) < |ms| - 1 ==> t.outcome == Returned(None))
  }

  lemma LoopOnReaderShape(w: Writer, preamble: seq<byte>, channelIds: seq<byte>, ms: seq<ChanMessage>)
    requires |ms| > 0 && ms[|ms| - 1].commands == []
    requires forall i :: 0 <= i < |ms| - 1 ==> ms[i].err == None
    requires forall i :: 0 <= i < |ms| ==> !Overflows(ms[i], channelIds)
    ensures ReaderLoopOutcome(w, preamble, channelIds, ms, Run(w, preamble, channelIds, Initial(preamble), Lockstep(ms)))
  {
    LockstepRun(w, preamble, channelIds, Initial(preamble), ms);
  }

  /**
   * The reader and the loop together, in lockstep: the loop sends the frame
   * of every parsed line's batch, then sends the last frame exactly once
   * more and returns. It returns an error only when the reader's last
   * message carried one and no earlier line had all its clauses skipped.
   */
  lemma ReaderThenLoop(w: Writer, data: string, end: ReadEnd, hex: HexDecoder, configId: seq<byte>, channelIds: seq<byte>)
    requires |configId| == ENTERTAINMENT_CONFIG_ID_SIZE
    requires var ms := ReaderMessages(data, end, hex);
      forall i :: 0 <= i < |ms| ==> !Overflows(ms[i], channelIds)
    ensures var preamble := PreambleBytes(COLOR_SPACE_RGB, configId);
      var ms := ReaderMessages(data, end, hex);
      ReaderLoopOutcome(w, preamble, channelIds, ms, Run(w, preamble, channelIds, Initial(preamble), Lockstep(ms)))
  {
    ReaderShape(data, end, hex);
    LoopOnReaderShape(w, PreambleBytes(COLOR_SPACE_RGB, configId), channelIds, ReaderMessages(data, end, hex));
  }

  // ---------------------------------------------------------------------------
  // Whole runs on one-line inputs
  // ---------------------------------------------------------------------------

  /** Input made of one complete line: the reader reads that line and then reports the input's end. */
  lemma OneLineInput(line: string, end: ReadEnd, hex: HexDecoder)
    requires |line| > 0 && line[|line| - 1] == '\n' && '\n' !in line[..|line| - 1]
    ensures ReaderMessages(line, end, hex) ==
      match CommandsOf(line, hex)
      case Err(e) => [ChanMessage([], Some(e))]
      case Ok(cmds) => [ChanMessage(cmds, None), Final(end)]
  {
    ReaderMessagesByLine(line, end, hex);
    assert line + "" == line;
    LinesOfLine(line, "");
    LinesWithoutNewline("");
    assert Lines(line) == [line];
  }

  /**
   * One batch followed by a message without commands, in lockstep: the
   * batch's frame is sent after it and once more after the second message,
   * and the loop returns the error that message carries.
   */
  lemma OneBatchRun(w: Writer, preamble: seq<byte>, channelIds: seq<byte>, ms: seq<ChanMessage>)
    requires |ms| == 2 && ms[0].commands != [] && ms[1].commands == []
    requires !Overflows(ms[0], channelIds)
    ensures var f := BatchFrame(w, preamble, channelIds, ms[0].commands);
      var t := Run(w, preamble, channelIds, Initial(preamble), Lockstep(ms));
      t.outcome == Returned(ms[1].err) && t.written == [f, f]
  {
    assert !Overflows(ms[1], channelIds);
    LockstepRun(w, preamble, channelIds, Initial(preamble), ms);
    assert FirstQuit(ms[1..]) == 0;
    assert FirstQuit(ms) == 1;
  }

  /** The loop returned no error after sending one frame, holding `entries`, twice. */
  predicate SentOneFrameTwice(preamble: seq<byte>, entries: seq<Entry>, t: Trace)
  {
    t.outcome == Returned(None) && |t.written| == 2 && t.written[0] == t.written[1] &&
    WellFormedFrame(preamble, t.written[0]) &&
    DecodeEntries(t.written[0][PREAMBLE_SIZE..]) == entries
  }

  /**
   * One batch writing `entries` and then io.EOF, in lockstep: the frame,
   * sent twice, carries the entries writer `w` leaves, which are `entries`
   * themselves only for the corrected writer.
   */
  lemma SingleBatchTwice(w: Writer, preamble: seq<byte>, channelIds: seq<byte>, ms: seq<ChanMessage>, entries: seq<Entry>)
    requires |preamble| == PREAMBLE_SIZE
    requires |ms| == 2 && ms[0].commands != [] && ms[1] == ChanMessage([], None)
    requires BatchEntries(ms[0].commands, channelIds, COLOR_SPACE_RGB) == entries && |entries| <= MAX_CHANNELS
    ensures SentOneFrameTwice(preamble, WireEntries(w, entries), Run(w, preamble, channelIds, Initial(preamble), Lockstep(ms)))
  {
    OneBatchRun(w, preamble, channelIds, ms);
    BatchFrameWellFormed(w, preamble, channelIds, ms[0].commands);
    FrameOfDecodes(w, preamble, entries);
  }

  /** The entries a broadcast of `col` writes: one per channel, in configuration order. */
  function BroadcastEntries(channelIds: seq<byte>, col: Color): (r: seq<Entry>)
    ensures |r| == |channelIds| && forall i :: 0 <= i < |r| ==> r[i] == Entry(channelIds[i], col.rgb)
  {
    seq(|channelIds|, i requires 0 <= i < |channelIds| => Entry(channelIds[i], col.rgb))
  }

  /** The reader on a single line holding one colour: the broadcast, then the end. */
  lemma BroadcastReader(token: string, hex: HexDecoder, col: Color, end: ReadEnd)
    requires ' ' !in token && ';' !in token && '\n' !in token && hex(token + "\n") == Some(col)
    ensures ReaderMessages(token + "\n", end, hex) == [ChanMessage([Command(0, true, col)], None), Final(end)]
  {
    var line := token + "\n";
    assert line[..|line| - 1] == token;
    BroadcastLine(line, hex);
    OneLineInput(line, end, hex);
  }

  /**
   * A single line holding one colour, in lockstep: one frame sent twice
   * (once after the line, once more after io.EOF), and no error. With the
   * corrected writer the frame has an entry for every channel of the
   * configuration, in configuration order; with the source's writer it has
   * as many entries, but only the last channel's survives, in slot 0, and
   * the others are blank. For the line "#FF0000" and channels 1, 2 and 5
   * that is three red entries, against a red entry for channel 5 and two
   * blanks.
   */
  lemma BroadcastStream(w: Writer, token: string, hex: HexDecoder, configId: seq<byte>, channelIds: seq<byte>, col: Color)
    requires |configId| == ENTERTAINMENT_CONFIG_ID_SIZE && |channelIds| <= MAX_CHANNELS
    requires ' ' !in token && ';' !in token && '\n' !in token && hex(token + "\n") == Some(col)
    ensures var preamble := PreambleBytes(COLOR_SPACE_RGB, configId);
      var t := Run(w, preamble, channelIds, Initial(preamble), Lockstep(ReaderMessages(token + "\n", EOF, hex)));
      ((w == Corrected || channelIds == []) ==> SentOneFrameTwice(preamble, BroadcastEntries(channelIds, col), t)) &&
      (w == AsWritten && channelIds != [] ==>
         SentOneFrameTwice(preamble, [Entry(channelIds[|channelIds| - 1], col.rgb)] + Blanks(|channelIds| - 1), t))
  {
    var c := Command(0, true, col);
    BroadcastReader(token, hex, col, EOF);
    var entries := BroadcastEntries(channelIds, col);
    assert BatchEntries([c], channelIds, COLOR_SPACE_RGB) == entries by {
      assert [c][..0] == [];
      assert Components(COLOR_SPACE_RGB, col) == col.rgb;
    }
    SingleBatchTwice(w, PreambleBytes(COLOR_SPACE_RGB, configId), channelIds, ReaderMessages(token + "\n", EOF, hex), entries);
    if w == AsWritten && channelIds == [] {
      assert WireEntries(w, entries) == entries;
    }
  }

  /** The reader on a single line "<id> <colour>": the targeted command, then the end. */
  lemma TargetedReader(id: string, token: string, hex: HexDecoder, col: Color, end: ReadEnd)
    requires id != [] && AllDigits(id) && DecimalValue(id) <= MAX_UINT8
    requires ' ' !in token && ';' !in token && '\n' !in token && hex(token + "\n") == Some(col)
    ensures ReaderMessages(id + " " + token + "\n", end, hex) ==
      [ChanMessage([Command(DecimalValue(id) as byte, false, col)], None), Final(end)]
  {
    var line := id + " " + token + "\n";
    assert line == id + " " + (token + "\n");
    assert '\n' !in id by {
      assert forall i :: 0 <= i < |id| ==> IsDigit(id[i]);
    }
    assert line[..|line| - 1] == id + " " + token;
    TargetedLine(id, token + "\n", hex);
    OneLineInput(line, end, hex);
  }

  /**
   * A single line "<id> <colour>" with a decimal id up to 255, in lockstep:
   * one frame with the single entry for that channel, sent twice, and no
   * error, through either writer; "2 #00FF00" gives one green entry for
   * channel 2.
   */
  lemma TargetedStream(w: Writer, id: string, token: string, hex: HexDecoder, configId: seq<byte>, channelIds: seq<byte>, col: Color)
    requires |configId| == ENTERTAINMENT_CONFIG_ID_SIZE
    requires id != [] && AllDigits(id) && DecimalValue(id) <= MAX_UINT8
    requires ' ' !in token && ';' !in token && '\n' !in token && hex(token + "\n") == Some(col)
    ensures var preamble := PreambleBytes(COLOR_SPACE_RGB, configId);
      SentOneFrameTwice(preamble, [Entry(DecimalValue(id) as byte, col.rgb)],
        Run(w, preamble, channelIds, Initial(preamble), Lockstep(ReaderMessages(id + " " + token + "\n", EOF, hex))))
  {
    var c := Command(DecimalValue(id) as byte, false, col);
    TargetedReader(id, token, hex, col, EOF);
    var entries := [Entry(c.channelId, col.rgb)];
    assert BatchEntries([c], channelIds, COLOR_SPACE_RGB) == entries by {
      assert [c][..0] == [];
    }
    SingleBatchTwice(w, PreambleBytes(COLOR_SPACE_RGB, configId), channelIds, ReaderMessages(id + " " + token + "\n", EOF, hex), entries);
    assert WireEntries(w, entries) == entries by {
      assert [entries[0]] + Blanks(0) == entries;
    }
  }

  /** A first message without commands, in lockstep: the frame is sent once and its error returned. */
  lemma QuitAtOnce(w: Writer, preamble: seq<byte>, channelIds: seq<byte>, ms: seq<ChanMessage>)
    requires |ms| == 1 && ms[0].commands == []
    ensures Run(w, preamble, channelIds, Initial(preamble), Lockstep(ms)) == Trace(Returned(ms[0].err), [preamble])
  {
    LockstepRound(w, preamble, channelIds, Initial(preamble), ms);
  }

  /** The reader on a single line whose channel id does not parse: just the error. */
  lemma BadChannelIdReader(id: string, token: string, hex: HexDecoder, end: ReadEnd)
    requires ' ' !in id && ';' !in id && '\n' !in id && ParseUint8(id).Err?
    requires ' ' !in token && ';' !in token && '\n' !in token
    ensures ReaderMessages(id + " " + token + "\n", end, hex) == [ChanMessage([], Some(ParseUintError(ParseUint8(id).error)))]
  {
    var line := id + " " + token + "\n";
    assert line == id + " " + (token + "\n");
    assert line[..|line| - 1] == id + " " + token;
    BadChannelIdLine(id, token + "\n", hex);
    OneLineInput(line, end, hex);
  }

  /**
   * A single line whose channel id does not parse, such as "999 #ZZZ": the
   * reader sends the error and stops, and the loop sends the frame it has,
   * the preamble alone, exactly once more, then returns that error.
   */
  lemma BadChannelIdStream(w: Writer, id: string, token: string, hex: HexDecoder, configId: seq<byte>, channelIds: seq<byte>, end: ReadEnd)
    requires |configId| == ENTERTAINMENT_CONFIG_ID_SIZE
    requires ' ' !in id && ';' !in id && '\n' !in id && ParseUint8(id).Err?
    requires ' ' !in token && ';' !in token && '\n' !in token
    ensures var preamble := PreambleBytes(COLOR_SPACE_RGB, configId);
      Run(w, preamble, channelIds, Initial(preamble), Lockstep(ReaderMessages(id + " " + token + "\n", end, hex)))
      == Trace(Returned(Some(ParseUintError(ParseUint8(id).error))), [preamble])
  {
    BadChannelIdReader(id, token, hex, end);
    QuitAtOnce(w, PreambleBytes(COLOR_SPACE_RGB, configId), channelIds, ReaderMessages(id + " " + token + "\n", end, hex));
  }
}
