/**
 * The command language read by the stream command: the `command` and
 * `chanMessage` records and parseCommands, which turns one input line into
 * colour commands.
 */
module Commands {
  import opened Wrappers
  import opened GoStd
  import opened Message
  import opened Sequences

  /** The errors that can reach the stream command's result. */
  datatype Error =
    | ParseUintError(numError: NumError) // strconv.ParseUint rejected a channel id
    | HexError(text: string)             // the colour decoder rejected a colour
    | ReadError(cause: string)           // reading the input failed other than with io.EOF
    | WriteError(cause: string)          // sending a frame failed
    | ListError(cause: string)           // listing the entertainment configurations failed
    | NoConfigurations
    | ConfigNotFound(id: seq<byte>)

  /** One colour update; a broadcast keeps the zero channel id. */
  datatype Command = Command(channelId: byte, broadcast: bool, color: Color)

  /** What the reader hands to the select loop: commands, an error, or neither (end of input). */
  datatype ChanMessage = ChanMessage(commands: seq<Command>, err: Option<Error>)

  /** The hex colour decoder (colorful.Hex), which is not modelled: None is a decoding error. */
  type HexDecoder = string -> Option<Color>

  /** What one `;`-separated clause contributes. */
  datatype ClauseResult = Skip | Accept(command: Command) | Reject(error: Error)

  /**
   * One clause: a single space-separated token is a broadcast colour, two
   * tokens are a channel id and a colour, and any other number of tokens is
   * ignored.
   */
  function ParseClause(clause: string, hex: HexDecoder): ClauseResult
  {
    var chunks := Split(clause, ' ');
    if |chunks| == 1 then
      match hex(chunks[0])
      case None => Reject(HexError(chunks[0]))
      case Some(color) => Accept(Command(0, true, color))
    else if |chunks| == 2 then
      match ParseUint8(chunks[0])
      case Err(e) => Reject(ParseUintError(e))
      case Ok(id) =>
        match hex(chunks[1])
        case None => Reject(HexError(chunks[1]))
        case Some(color) => Accept(Command(id as byte, false, color))
    else Skip
  }

  /** The clauses in order; the first rejected clause decides the error. */
  function ParseClauses(clauses: seq<string>, hex: HexDecoder): Result<seq<Command>, Error>
  {
    if clauses == [] then Ok([])
    else
      match ParseClause(clauses[0], hex)
      case Reject(e) => Err(e)
      case Skip => ParseClauses(clauses[1..], hex)
      case Accept(c) => Prepend([c], ParseClauses(clauses[1..], hex))
  }

  /** The result parseCommands gives for `text`. */
  function CommandsOf(text: string, hex: HexDecoder): Result<seq<Command>, Error>
  {
    ParseClauses(Split(text, ';'), hex)
  }

  function Prepend(prefix: seq<Command>, r: Result<seq<Command>, Error>): Result<seq<Command>, Error>
  {
    if r.Err? then r else Ok(prefix + r.value)
  }

  /** parseCommands: the loop over the clauses, appending one command per accepted clause. */
  method ParseCommands(text: string, hex: HexDecoder) returns (r: Result<seq<Command>, Error>)
    ensures r == CommandsOf(text, hex)
  {
    var commands: seq<Command> := [];
    var clauses := Split(text, ';');
    assert clauses[0..] == clauses;
    assert Prepend(commands, ParseClauses(clauses, hex)) == ParseClauses(clauses, hex) by {
      var r := ParseClauses(clauses, hex);
      assert r.Ok? ==> commands + r.value == r.value;
    }
    for i := 0 to |clauses|
      invariant CommandsOf(text, hex) == Prepend(commands, ParseClauses(clauses[i..], hex))
    {
      assert clauses[i..][0] == clauses[i] && clauses[i..][1..] == clauses[i + 1..];
      var commandTextChunks := Split(clauses[i], ' ');
      if |commandTextChunks| == 1 {
        var color := hex(commandTextChunks[0]);
        if color.None? {
          return Err(HexError(commandTextChunks[0]));
        }
        ghost var rest := ParseClauses(clauses[i + 1..], hex);
        if rest.Ok? {
          AppendAssoc(commands, [Command(0, true, color.value)], rest.value);
        }
        commands := commands + [Command(0, true, color.value)];
      } else if |commandTextChunks| == 2 {
        var channelId := ParseUint8(commandTextChunks[0]);
        if channelId.Err? {
          return Err(ParseUintError(channelId.error));
        }
        var color := hex(commandTextChunks[1]);
        if color.None? {
          return Err(HexError(commandTextChunks[1]));
        }
        var c := Command(channelId.value as byte, false, color.value);
        ghost var rest := ParseClauses(clauses[i + 1..], hex);
        if rest.Ok? {
          AppendAssoc(commands, [c], rest.value);
        }
        commands := commands + [c];
      }
    }
    assert clauses[|clauses|..] == [];
    assert commands + [] == commands;
    return Ok(commands);
  }

  // ---------------------------------------------------------------------------
  // What a parsed line contains
  // ---------------------------------------------------------------------------

  /** The commands of the accepted clauses, in clause order. */
  function Accepted(clauses: seq<string>, hex: HexDecoder): seq<Command>
  {
    if clauses == [] then []
    else
      (match ParseClause(clauses[0], hex) case Accept(c) => [c] case _ => [])
      + Accepted(clauses[1..], hex)
  }

  /** Number of clauses with one or two space-separated tokens. */
  function TokenizedClauses(clauses: seq<string>): nat
  {
    if clauses == [] then 0
    else (if 1 <= |Split(clauses[0], ' ')| <= 2 then 1 else 0) + TokenizedClauses(clauses[1..])
  }

  predicate NoneRejected(clauses: seq<string>, hex: HexDecoder)
  {
    forall i :: 0 <= i < |clauses| ==> !ParseClause(clauses[i], hex).Reject?
  }

  /**
   * A line parses exactly when no clause is rejected; it then yields the
   * command of every accepted clause, in order, one per clause of one or two
   * tokens.
   */
  lemma {:induction false} ParseClausesSucceeds(clauses: seq<string>, hex: HexDecoder)
    ensures ParseClauses(clauses, hex).Ok? <==> NoneRejected(clauses, hex)
    ensures ParseClauses(clauses, hex).Ok? ==> ParseClauses(clauses, hex).value == Accepted(clauses, hex)
    ensures ParseClauses(clauses, hex).Ok? ==> |ParseClauses(clauses, hex).value| == TokenizedClauses(clauses)
  {
    if clauses != [] {
      ParseClausesSucceeds(clauses[1..], hex);
      assert NoneRejected(clauses, hex) <==>
             !ParseClause(clauses[0], hex).Reject? && NoneRejected(clauses[1..], hex) by {
        if !ParseClause(clauses[0], hex).Reject? && NoneRejected(clauses[1..], hex) {
          forall i | 0 <= i < |clauses| ensures !ParseClause(clauses[i], hex).Reject? {
            if i > 0 { assert clauses[i] == clauses[1..][i - 1]; }
          }
        }
        if NoneRejected(clauses, hex) {
          forall i | 0 <= i < |clauses[1..]| ensures !ParseClause(clauses[1..][i], hex).Reject? {
            assert clauses[1..][i] == clauses[i + 1];
          }
        }
      }
    }
  }

  /**
   * A line that fails carries the error of its first rejected clause; no
   * partial command list comes back.
   */
  lemma {:induction false} ParseClausesFails(clauses: seq<string>, hex: HexDecoder)
    requires ParseClauses(clauses, hex).Err?
    ensures exists i :: 0 <= i < |clauses| && ParseClause(clauses[i], hex) == Reject(ParseClauses(clauses, hex).error)
                        && forall j :: 0 <= j < i ==> !ParseClause(clauses[j], hex).Reject?
  {
    var e := ParseClauses(clauses, hex).error;
    if ParseClause(clauses[0], hex).Reject? {
      assert ParseClause(clauses[0], hex) == Reject(e);
    } else {
      ParseClausesFails(clauses[1..], hex);
      var i :| 0 <= i < |clauses[1..]| && ParseClause(clauses[1..][i], hex) == Reject(e)
               && forall j :: 0 <= j < i ==> !ParseClause(clauses[1..][j], hex).Reject?;
      assert clauses[1..][i] == clauses[i + 1];
      forall j | 0 <= j < i + 1 ensures !ParseClause(clauses[j], hex).Reject? {
        if j > 0 { assert clauses[j] == clauses[1..][j - 1]; }
      }
    }
  }

  /** A line whose every clause has three or more tokens parses to no commands and no error. */
  lemma {:induction false} AllClausesSkipped(clauses: seq<string>, hex: HexDecoder)
    requires forall i :: 0 <= i < |clauses| ==> |Split(clauses[i], ' ')| > 2
    ensures ParseClauses(clauses, hex) == Ok([])
  {
    if clauses != [] {
      assert |Split(clauses[0], ' ')| > 2;
      AllClausesSkipped(clauses[1..], hex);
    }
  }

  // ---------------------------------------------------------------------------
  // Rendering commands as text, and reading them back
  // ---------------------------------------------------------------------------

  /** The clause text for a command, given an encoder for colours. */
  function RenderCommand(c: Command, encode: Color -> string): string
  {
    if c.broadcast then encode(c.color) else FormatDecimal(c.channelId as nat) + " " + encode(c.color)
  }

  function RenderClauses(cmds: seq<Command>, encode: Color -> string): (clauses: seq<string>)
    ensures |clauses| == |cmds|
    ensures forall i :: 0 <= i < |cmds| ==> clauses[i] == RenderCommand(cmds[i], encode)
  {
    if cmds == [] then [] else [RenderCommand(cmds[0], encode)] + RenderClauses(cmds[1..], encode)
  }

  /** A line holding `cmds`, one clause each, separated by `;`. */
  function RenderLine(cmds: seq<Command>, encode: Color -> string): string
  {
    Join(RenderClauses(cmds, encode), ';')
  }

  /**
   * The colour of `c` is written as a token without spaces or semicolons that
   * the decoder reads back, and a broadcast has the zero channel id.
   */
  predicate RenderableCommand(c: Command, hex: HexDecoder, encode: Color -> string)
  {
    hex(encode(c.color)) == Some(c.color) && ' ' !in encode(c.color) && ';' !in encode(c.color) &&
    (c.broadcast ==> c.channelId == 0)
  }

  predicate Renderable(cmds: seq<Command>, hex: HexDecoder, encode: Color -> string)
  {
    forall i :: 0 <= i < |cmds| ==> RenderableCommand(cmds[i], hex, encode)
  }

  lemma RenderCommandParses(c: Command, hex: HexDecoder, encode: Color -> string)
    requires RenderableCommand(c, hex, encode)
    ensures ParseClause(RenderCommand(c, encode), hex) == Accept(c)
    ensures ';' !in RenderCommand(c, encode)
  {
    if c.broadcast {
      SplitJoin([encode(c.color)], ' ');
    } else {
      var d := FormatDecimal(c.channelId as nat);
      ParseFormatUint8(c.channelId as nat);
      assert Join([d, encode(c.color)], ' ') == d + " " + encode(c.color);
      SplitJoin([d, encode(c.color)], ' ');
      assert RenderCommand(c, encode) == d + " " + encode(c.color);
    }
  }

  lemma {:induction false} RenderClausesParse(cmds: seq<Command>, hex: HexDecoder, encode: Color -> string)
    requires Renderable(cmds, hex, encode)
    ensures ParseClauses(RenderClauses(cmds, encode), hex) == Ok(cmds)
  {
    if cmds != [] {
      var clauses := RenderClauses(cmds, encode);
      assert clauses[0] == RenderCommand(cmds[0], encode) && clauses[1..] == RenderClauses(cmds[1..], encode);
      RenderableTail(cmds, hex, encode);
      RenderCommandParses(cmds[0], hex, encode);
      RenderClausesParse(cmds[1..], hex, encode);
      assert [cmds[0]] + cmds[1..] == cmds;
    }
  }

  lemma RenderableTail(cmds: seq<Command>, hex: HexDecoder, encode: Color -> string)
    requires cmds != [] && Renderable(cmds, hex, encode)
    ensures RenderableCommand(cmds[0], hex, encode) && Renderable(cmds[1..], hex, encode)
  {
    forall i | 0 <= i < |cmds[1..]| ensures RenderableCommand(cmds[1..][i], hex, encode) {
      assert cmds[1..][i] == cmds[i + 1];
    }
  }

  /**
   * Round trip on the typed representation: rendering a non-empty command
   * list as a line and parsing that line gives back the same commands.
   */
  lemma RenderParseRoundTrip(cmds: seq<Command>, hex: HexDecoder, encode: Color -> string)
    requires |cmds| > 0 && Renderable(cmds, hex, encode)
    ensures CommandsOf(RenderLine(cmds, encode), hex) == Ok(cmds)
  {
    var clauses := RenderClauses(cmds, encode);
    forall i | 0 <= i < |clauses| ensures ';' !in clauses[i] {
      RenderCommandParses(cmds[i], hex, encode);
    }
    SplitJoin(clauses, ';');
    RenderClausesParse(cmds, hex, encode);
  }

  // ---------------------------------------------------------------------------
  // Example lines
  // ---------------------------------------------------------------------------

  /** A line of one colour token (such as "#FF0000\n") is one broadcast of that colour. */
  lemma BroadcastLine(token: string, hex: HexDecoder)
    requires ' ' !in token && ';' !in token && hex(token).Some?
    ensures CommandsOf(token, hex) == Ok([Command(0, true, hex(token).value)])
  {
    assert Join([token], ';') == token && Join([token], ' ') == token;
    SplitJoin([token], ';');
    SplitJoin([token], ' ');
    assert ParseClause(token, hex) == Accept(Command(0, true, hex(token).value));
    assert [token][0] == token && [token][1..] == [];
    assert ParseClauses([token], hex) == Prepend([Command(0, true, hex(token).value)], Ok([]));
    assert [Command(0, true, hex(token).value)] + [] == [Command(0, true, hex(token).value)];
    assert Split(token, ';') == [token];
  }

  /** A line "<id> <colour>" with a decimal id up to 255 is one targeted command. */
  lemma TargetedLine(id: string, token: string, hex: HexDecoder)
    requires id != [] && AllDigits(id) && DecimalValue(id) <= MAX_UINT8
    requires ' ' !in token && ';' !in token && hex(token).Some?
    ensures CommandsOf(id + " " + token, hex) == Ok([Command(DecimalValue(id) as byte, false, hex(token).value)])
  {
    assert ' ' !in id && ';' !in id by {
      assert forall i :: 0 <= i < |id| ==> IsDigit(id[i]);
    }
    var line := id + " " + token;
    assert Join([id, token], ' ') == line;
    assert ';' !in line;
    assert Join([line], ';') == line;
    SplitJoin([line], ';');
    SplitJoin([id, token], ' ');
    ParseUint8Spec(id);
    var c := Command(DecimalValue(id) as byte, false, hex(token).value);
    assert ParseClause(line, hex) == Accept(c);
    assert [line][0] == line && [line][1..] == [];
    assert ParseClauses([line], hex) == Prepend([c], Ok([]));
    assert [c] + [] == [c];
    assert Split(line, ';') == [line];
  }

  /** A line "<id> <colour>" whose id does not parse fails with that error, whatever the colour. */
  lemma BadChannelIdLine(id: string, token: string, hex: HexDecoder)
    requires ' ' !in id && ';' !in id && ParseUint8(id).Err?
    requires ' ' !in token && ';' !in token
    ensures CommandsOf(id + " " + token, hex) == Err(ParseUintError(ParseUint8(id).error))
  {
    var line := id + " " + token;
    assert Join([id, token], ' ') == line;
    assert ';' !in line;
    assert Join([line], ';') == line;
    SplitJoin([line], ';');
    SplitJoin([id, token], ' ');
    assert ParseClause(line, hex) == Reject(ParseUintError(ParseUint8(id).error));
    assert [line][0] == line;
  }

  /** "999 #ZZZ\n": the channel id is out of range, so the whole line fails whatever the colour. */
  lemma OutOfRangeLine(hex: HexDecoder)
    ensures CommandsOf("999 #ZZZ\n", hex) == Err(ParseUintError(NumError("999", ErrRange)))
  {
    assert ParseUint8("999") == Err(NumError("999", ErrRange)) by {
      assert "999"[1..] == "99" && "99"[1..] == "9";
      assert Accumulate("999", "9", 99) == Err(NumError("999", ErrRange));
      assert Accumulate("999", "99", 9) == Accumulate("999", "9", 99);
      assert Accumulate("999", "999", 0) == Accumulate("999", "99", 9);
    }
    assert "999" + " " + "#ZZZ\n" == "999 #ZZZ\n";
    BadChannelIdLine("999", "#ZZZ\n", hex);
  }
}
