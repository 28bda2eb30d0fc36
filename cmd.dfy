/**
 * The Cmd class of src/cmdArduino.cpp: the line buffer and escape
 * accumulator as fixed-size arrays updated in place, the flags, mode and
 * command table as fields, and the stream as a trace of events. Every
 * method is proved to move the abstract state, and to extend the trace,
 * exactly as the functions of CmdSpec say.
 */
module CmdArduino {
  import opened Defs
  import opened Terminal
  import opened LineEdit
  import opened EscapeSeq
  import opened Tokenizer
  import opened Registry
  import opened JsonShape
  import opened Parsing
  import CmdSpec

  class Cmd {
    /** msg: the line buffer. */
    const msg: array<byte>
    /** msg_ptr - msg: the number of bytes typed. */
    var msgLen: nat
    /** _cursor_ptr - msg. */
    var cursor: nat
    /** _esc_cmd: the escape-sequence accumulator. */
    const escCmd: array<byte>
    /** _esc_cmd_ptr - _esc_cmd. */
    var escLen: nat
    /** _ext_esc_cmd. */
    var extEscCmd: bool
    /** _exit_cli. */
    var exitCli: bool
    /** _mode. */
    var mode: byte
    /** _print: whether cli_print and cli_println reach the stream. */
    var echo: bool
    /** The command list from its head. */
    var cmdTbl: seq<Entry>
    /** _json_func, None for NULL. */
    var jsonFunc: Option<nat>
    /** Everything written to the stream, and every call of a user handler or the JSON callback, in order. */
    var trace: seq<Event>

    ghost predicate Valid()
      reads this`msgLen, this`cursor, this`escLen, escCmd
    {
      && msg.Length == CMD_MAX_MSG_SIZE
      && escCmd.Length == ESC_BUF_SIZE
      && msg != escCmd
      && cursor <= msgLen <= CMD_MAX_MSG_SIZE - 1
      && escLen <= ESC_BUF_SIZE
      && (escLen > 0 ==> escCmd[0] == CLI_ASCII_ESC)
    }

    /** The line typed so far: msg up to msg_ptr. */
    ghost function Text(): seq<byte>
      reads this`msgLen, msg
      requires msgLen <= msg.Length
    {
      msg[..msgLen]
    }

    /** The escape sequence collected so far: _esc_cmd up to _esc_cmd_ptr. */
    ghost function Esc(): seq<byte>
      reads this`escLen, escCmd
      requires escLen <= escCmd.Length
    {
      escCmd[..escLen]
    }

    /** The state the object stands for. */
    ghost function Abs(): CmdSpec.State
      reads this`msgLen, this`cursor, this`escLen, this`extEscCmd, this`exitCli, this`mode
      reads this`echo, this`cmdTbl, this`jsonFunc, msg, escCmd
      requires Valid()
    {
      CmdSpec.State(Line(Text(), cursor), Esc(), extEscCmd, exitCli, mode, echo, cmdTbl, jsonFunc)
    }

    /** A valid object stands for a state that keeps the invariant. */
    lemma AbsInv()
      requires Valid()
      ensures CmdSpec.Inv(Abs())
    {
    }

    /** Cmd(): the initial field values of the class declaration, then init_buffers. */
    constructor()
      ensures Valid() && Abs() == CmdSpec.Init && trace == []
      ensures fresh(msg) && fresh(escCmd)
    {
      msg := new byte[CMD_MAX_MSG_SIZE];
      escCmd := new byte[ESC_BUF_SIZE];
      msgLen, cursor, escLen := 0, 0, 0;
      extEscCmd, exitCli := false, false;
      mode, echo := CLI_MODE_STD, true;
      cmdTbl, jsonFunc := [], None;
      trace := [];
      new;
      InitBuffers();
    }

    // -------------------------------------------------------------------
    // Output

    /** cli_print / cli_println: the events reach the stream only while echo is on. */
    method Write(es: seq<Event>)
      modifies this`trace
      ensures trace == old(trace) + Out(echo, es)
    {
      if echo {
        trace := trace + es;
      }
    }

    /** display(): a line break, the banner on its own line, the prompt. */
    method Display()
      requires Valid()
      modifies this`trace
      ensures trace == old(trace) + Out(echo, DisplayEvents)
    {
      Write([NewLine]);
      Write([Banner, NewLine]);
      WriteThen(old(trace), echo, [NewLine], [Banner, NewLine]);
      Write([Prompt]);
      WriteThen(old(trace), echo, [NewLine, Banner, NewLine], [Prompt]);
    }

    /** display_prompt(): a line break and the prompt. */
    method DisplayPrompt()
      requires Valid()
      modifies this`trace
      ensures trace == old(trace) + Out(echo, PromptEvents)
    {
      Write([NewLine]);
      Write([Prompt]);
      WriteThen(old(trace), echo, [NewLine], [Prompt]);
    }

    /** cursor_print: clear to the end of the terminal line, reprint from the cursor to the end, and count what was reprinted. */
    method CursorPrint() returns (printed: nat)
      requires cursor <= msgLen <= msg.Length
      modifies this`trace
      ensures printed == msgLen - cursor
      ensures trace == old(trace) + Out(echo, [Control(ESC_CMD_CLR_LINE_RIGHT)] + EchoAll(Text()[cursor..]))
    {
      ghost var text := Text();
      Write([Control(ESC_CMD_CLR_LINE_RIGHT)]);
      ghost var cleared := trace;
      printed := 0;
      var p := cursor;
      while p < msgLen
        invariant cursor <= p <= msgLen
        invariant printed == p - cursor && Text() == text
        invariant trace == cleared + Out(echo, EchoAll(text[cursor..p]))
      {
        if echo {
          trace := trace + [Echo(msg[p])];
        }
        EchoThen(cleared, echo, text, cursor, p);
        p := p + 1;
        printed := printed + 1;
      }
      assert text[cursor..p] == text[cursor..];
      WriteThen(old(trace), echo, [Control(ESC_CMD_CLR_LINE_RIGHT)], EchoAll(text[cursor..]));
      assert trace == old(trace) + Out(echo, [Control(ESC_CMD_CLR_LINE_RIGHT)] + EchoAll(text[cursor..]));
      assert Text() == text;
    }

    /**
     * The cursor-left loops of standard_key and esc_cmd_del, with a counter
     * that cannot wrap: exactly `n` cursor-lefts.
     */
    method MoveLeft(n: nat)
      modifies this`trace
      ensures trace == old(trace) + Out(echo, Lefts(n))
    {
      var i := 0;
      while i < n
        invariant i <= n
        invariant trace == old(trace) + Out(echo, Lefts(i))
      {
        ghost var t := trace;
        Write([Control(ESC_CMD_LEFT)]);
        LeftThen(old(trace), t, trace, echo, i);
        i := i + 1;
      }
    }

    // -------------------------------------------------------------------
    // Resetting

    /** rst_msg_ptr: empty line, cursor at the start, escape accumulator empty; _ext_esc_cmd is left as it is. */
    method RstMsgPtr()
      requires Valid()
      modifies this`msgLen, this`escLen, this`cursor
      ensures Valid() && Abs() == CmdSpec.Reset(old(Abs()))
      ensures trace == old(trace)
    {
      msgLen := 0;
      escLen := 0;
      cursor := 0;
    }

    /** init_buffers: an empty command table and empty buffers. */
    method InitBuffers()
      requires Valid()
      modifies this`cmdTbl, this`msgLen, this`escLen, this`cursor
      ensures Valid() && Abs() == CmdSpec.Reset(old(Abs())).(table := [])
      ensures trace == old(trace)
    {
      cmdTbl := [];
      RstMsgPtr();
    }

    // -------------------------------------------------------------------
    // Editing the line in place

    /**
     * The edit of standard_key in the middle of the line: the shift loop
     * msg[i] := msg[i - 1] from the end of the line down to just past the
     * cursor, then `c` into the gap at the cursor and one byte more.
     */
    method InsertAtCursor(c: byte)
      requires Valid() && msgLen < CMD_MAX_MSG_SIZE - 1
      modifies this`msgLen, msg
      ensures Valid()
      ensures Text() == Insert(old(Line(Text(), cursor)), c).text
    {
      ghost var l := Line(Text(), cursor);
      var k := msgLen;
      while k > cursor
        modifies msg
        invariant cursor <= k <= msgLen
        invariant forall i :: 0 <= i < k ==> msg[i] == l.text[i]
        invariant forall i :: k < i <= msgLen ==> msg[i] == l.text[i - 1]
      {
        msg[k] := msg[k - 1];
        k := k - 1;
      }
      msg[cursor] := c;
      msgLen := msgLen + 1;
      InsertByIndex(l, c, msg[..msgLen]);
    }

    /**
     * The edit of esc_cmd_del: the shift loop msg[i] := msg[i + 1] from the
     * cursor up to the end of the line, then one byte fewer unless the
     * cursor was at the end.
     */
    method DeleteAtCursor()
      requires Valid()
      modifies this`msgLen, msg
      ensures Valid()
      ensures Text() == Delete(old(Line(Text(), cursor))).text
    {
      ghost var l := Line(Text(), cursor);
      var k := cursor;
      while k < msgLen
        modifies msg
        invariant cursor <= k <= msgLen
        invariant forall i :: 0 <= i < cursor ==> msg[i] == l.text[i]
        invariant forall i :: cursor <= i < k && i + 1 < msgLen ==> msg[i] == l.text[i + 1]
        invariant forall i :: k <= i < msgLen ==> msg[i] == l.text[i]
      {
        msg[k] := msg[k + 1];
        k := k + 1;
      }
      if cursor < msgLen {
        msgLen := msgLen - 1;
        DeleteByIndex(l, msg[..msgLen]);
      } else {
        assert msg[..msgLen] == l.text;
      }
    }

    /** standard_key(c) at the end of the line: store `c`, advance, echo it. */
    method AppendKey(c: byte)
      requires Valid() && cursor == msgLen < CMD_MAX_MSG_SIZE - 1
      modifies this`msgLen, this`cursor, this`trace, msg
      ensures Valid()
      ensures Line(Text(), cursor) == Insert(old(Line(Text(), cursor)), c)
      ensures trace == old(trace) + Out(echo, InsertRedraw(old(Line(Text(), cursor)), c))
    {
      ghost var l := Line(Text(), cursor);
      msg[cursor] := c;
      cursor := cursor + 1;
      msgLen := msgLen + 1;
      assert Text() == l.text + [c];
      Write([Echo(c)]);
    }

    /**
     * standard_key(c) in the middle of the line: open a gap, store `c`,
     * reprint from the cursor, step back over all but the inserted byte,
     * advance the cursor.
     */
    method InsertKey(c: byte)
      requires Valid() && cursor < msgLen < CMD_MAX_MSG_SIZE - 1
      modifies this`msgLen, this`cursor, this`trace, msg
      ensures Valid()
      ensures Line(Text(), cursor) == Insert(old(Line(Text(), cursor)), c)
      ensures trace == old(trace) + Out(echo, InsertRedraw(old(Line(Text(), cursor)), c))
    {
      ghost var l := Line(Text(), cursor);
      InsertAtCursor(c);
      InsertRedrawn(l, c);
      cursor := cursor + 1;
    }

    /** The redraw of standard_key in the middle of the line, once `c` is in the buffer and before the cursor moves. */
    method InsertRedrawn(ghost l: Line, c: byte)
      requires cursor <= msgLen <= msg.Length
      requires l.cursor < |l.text| && cursor == l.cursor && Text() == Insert(l, c).text
      modifies this`trace
      ensures trace == old(trace) + Out(echo, InsertRedraw(l, c))
    {
      InsertTail(l, c, Text());
      ghost var tail := Text()[cursor..];
      var printed := CursorPrint();
      ghost var t1 := trace;
      assert printed == |tail| && t1 == old(trace) + Out(echo, [Control(ESC_CMD_CLR_LINE_RIGHT)] + EchoAll(tail));
      MoveLeft(printed - 1);
      InsertWrites(old(trace), t1, trace, echo, l, c, tail);
    }

    /** standard_key(c): a full buffer is reported and dropped; otherwise `c` goes in at the cursor. */
    method StandardKey(c: byte)
      requires Valid()
      modifies this`msgLen, this`cursor, this`escLen, this`trace, msg
      ensures Valid()
      ensures Abs() == CmdSpec.StandardKey(old(Abs()), c).0
      ensures trace == old(trace) + CmdSpec.StandardKey(old(Abs()), c).1
    {
      if msgLen == CMD_MAX_MSG_SIZE - 1 {
        Write([NewLine, TooLong, NewLine]);
        RstMsgPtr();
      } else if cursor == msgLen {
        AppendKey(c);
      } else {
        InsertKey(c);
      }
    }

    /** esc_cmd_del: delete the byte at the cursor and redraw the rest of the line. */
    method EscCmdDel()
      requires Valid()
      modifies this`msgLen, this`trace, msg
      ensures Valid()
      ensures Abs() == old(Abs()).(line := Delete(old(Abs()).line))
      ensures trace == old(trace) + Out(echo, DeleteRedraw(old(Abs()).line))
    {
      ghost var l := Line(Text(), cursor);
      DeleteAtCursor();
      DeleteRedrawn(l);
    }

    /** The redraw of esc_cmd_del, once the byte is gone from the buffer. */
    method DeleteRedrawn(ghost l: Line)
      requires cursor <= msgLen <= msg.Length
      requires l.cursor <= |l.text| && cursor == l.cursor && Text() == Delete(l).text
      modifies this`trace
      ensures trace == old(trace) + Out(echo, DeleteRedraw(l))
    {
      var printed := CursorPrint();
      ghost var t1 := trace;
      MoveLeft(printed);
      DeleteWrites(old(trace), t1, trace, echo, l, printed);
    }

    /** backspace(bs) inside the line: one step left, then esc_cmd_del. */
    method BackspaceMid()
      requires Valid() && 0 < cursor < msgLen
      modifies this`msgLen, this`cursor, this`trace, msg
      ensures Valid()
      ensures Abs() == old(Abs()).(line := Delete(Line(old(Text()), old(cursor) - 1)))
      ensures trace == old(trace) + Out(echo, [Control(ESC_CMD_LEFT)] + DeleteRedraw(Line(old(Text()), old(cursor) - 1)))
    {
      ghost var l := Line(Text(), cursor - 1);
      cursor := cursor - 1;
      Write([Control(ESC_CMD_LEFT)]);
      EscCmdDel();
      WriteThen(old(trace), echo, [Control(ESC_CMD_LEFT)], DeleteRedraw(l));
    }

    /** backspace(bs): at the end of the line the erase byte is echoed and the last byte dropped; inside it, BackspaceMid. */
    method Backspace(bs: byte)
      requires Valid()
      modifies this`msgLen, this`cursor, this`trace, msg
      ensures Valid()
      ensures Abs() == CmdSpec.BackspaceKey(old(Abs()), bs).0
      ensures trace == old(trace) + CmdSpec.BackspaceKey(old(Abs()), bs).1
    {
      if cursor > 0 {
        if cursor == msgLen {
          msgLen := msgLen - 1;
          cursor := cursor - 1;
          Write([Rubout(bs)]);
        } else {
          BackspaceMid();
        }
      }
    }

    /** esc_cmd_left. */
    method EscCmdLeft()
      requires Valid()
      modifies this`cursor, this`trace
      ensures Valid()
      ensures Abs() == CmdSpec.Execute(old(Abs()), EscLeft).0
      ensures trace == old(trace) + CmdSpec.Execute(old(Abs()), EscLeft).1
    {
      if cursor > 0 {
        Write([Control(ESC_CMD_LEFT)]);
        cursor := cursor - 1;
      }
    }

    /** esc_cmd_right. */
    method EscCmdRight()
      requires Valid()
      modifies this`cursor, this`trace
      ensures Valid()
      ensures Abs() == CmdSpec.Execute(old(Abs()), EscRight).0
      ensures trace == old(trace) + CmdSpec.Execute(old(Abs()), EscRight).1
    {
      if msgLen != cursor {
        Write([Control(ESC_CMD_RIGHT)]);
        cursor := cursor + 1;
      }
    }

    /** esc_cmd_up: the history is not implemented, so nothing happens. */
    method EscCmdUp()
      requires Valid()
      ensures Abs() == CmdSpec.Execute(Abs(), EscUp).0
      ensures CmdSpec.Execute(Abs(), EscUp).1 == []
    {
    }

    // -------------------------------------------------------------------
    // Escape sequences

    /** esc_key: a second ESC right after the first requests exit; the ESC is stored either way. */
    method EscKey()
      requires Valid() && escLen < ESC_BUF_SIZE
      modifies this`exitCli, this`escLen, escCmd
      ensures Valid()
      ensures Abs() == CmdSpec.EscKey(old(Abs()))
      ensures trace == old(trace)
    {
      if escLen == 1 {
        exitCli := true;
      }
      escCmd[escLen] := CLI_ASCII_ESC;
      escLen := escLen + 1;
      assert escCmd[..escLen] == old(escCmd[..escLen]) + [CLI_ASCII_ESC];
    }

    /**
     * check_esc_cmd on the NUL-terminated accumulator: the arrows and the
     * Delete key act on the line; cursor up and anything else do nothing.
     */
    method CheckEscCmd()
      requires Valid() && escLen < ESC_BUF_SIZE && escCmd[escLen] == 0
      modifies this`msgLen, this`cursor, this`trace, msg
      ensures Valid()
      ensures Abs() == CmdSpec.Execute(old(Abs()), Classify(old(escCmd[..escLen]))).0
      ensures trace == old(trace) + CmdSpec.Execute(old(Abs()), Classify(old(escCmd[..escLen]))).1
    {
      CStringTerminated(escCmd[..escLen], []);
      assert escCmd[..escLen + 1] == escCmd[..escLen] + [0] + [];
      var cmd := Classify(escCmd[..escLen + 1]);
      match cmd
      case EscUp => EscCmdUp();
      case EscLeft => EscCmdLeft();
      case EscRight => EscCmdRight();
      case EscDel => EscCmdDel();
      case EscUnknown =>
    }

    /** Store `c` at _esc_cmd_ptr and advance it. */
    method PushEsc(c: byte)
      requires Valid() && 0 < escLen < ESC_BUF_SIZE
      modifies this`escLen, escCmd
      ensures Valid() && escLen == old(escLen) + 1
      ensures Esc() == old(Esc()) + [c]
    {
      escCmd[escLen] := c;
      escLen := escLen + 1;
      assert escCmd[..escLen] == old(escCmd[..escLen]) + [c];
    }

    /**
     * A completed sequence: NUL-terminate it, act on it with check_esc_cmd,
     * then empty the accumulator and clear the extended flag.
     */
    method FinishEsc()
      requires Valid() && escLen < ESC_BUF_SIZE
      modifies this`msgLen, this`cursor, this`escLen, this`extEscCmd, this`trace, msg, escCmd
      ensures Valid()
      ensures Abs() == CmdSpec.Execute(old(Abs()), Classify(old(Esc()))).0.(esc := [], ext := false)
      ensures trace == old(trace) + CmdSpec.Execute(old(Abs()), Classify(old(Esc()))).1
    {
      ghost var a := Esc();
      escCmd[escLen] := 0;
      assert Esc() == a;
      CheckEscCmd();
      escLen := 0;
      extEscCmd := false;
    }

    /** handle_esc_cmd_char(c): a byte while a sequence is being collected. */
    method HandleEscCmdChar(c: byte)
      requires Valid() && escLen > 0 && Fits(escCmd[..escLen], extEscCmd, c)
      modifies this`msgLen, this`cursor, this`escLen, this`extEscCmd, this`exitCli, this`trace, msg, escCmd
      ensures Valid()
      ensures Abs() == CmdSpec.EscChar(old(Abs()), c).0
      ensures trace == old(trace) + CmdSpec.EscChar(old(Abs()), c).1
    {
      if c == CLI_ASCII_ESC {
        EscKey();
        return;
      }
      ghost var s := Abs();
      FeedAppends(s.esc, s.ext, c);
      ghost var fed := FeedByte(s.esc, s.ext, c);
      if escLen + 1 >= ESC_CMD_SIZE && !(!extEscCmd && IsDigit(c)) {
        assert fed == Complete(s.esc + [c]);
        CmdSpec.ExecuteIgnoresEsc(s, Classify(s.esc + [c]), s.esc + [c], s.ext);
        PushEsc(c);
        FinishEsc();
      } else {
        assert fed == Pending(s.esc + [c], escLen + 1 >= ESC_CMD_SIZE || extEscCmd);
        PushEsc(c);
        if escLen >= ESC_CMD_SIZE {
          extEscCmd := true;
        }
      }
    }

    // -------------------------------------------------------------------
    // Completed lines

    /** parse_std on the C string `line`: argv, the table lookup, the handler call or the error, then display(). */
    method ParseStd(line: seq<byte>)
      requires Valid() && Dispatchable(cmdTbl, line)
      modifies this`trace
      ensures trace == old(trace) + Dispatch(cmdTbl, line, CMD_MAX_ARGS, echo)
    {
      var argc, argv := SplitArgs(line, CMD_MAX_ARGS, CMD_MAX_ARGS + 1);
      if cmdTbl != [] {
        ArgvHoldsTokens(Tokens(line), CMD_MAX_ARGS);
        var found := FindCommand(cmdTbl, argv[0].value);
        if found.Some? {
          var call := Invoke(cmdTbl[found.value].handler, argc, argv);
          assert Target(cmdTbl, line) == Some(call.handler);
          trace := trace + [call];
          Display();
          AppendAssoc(old(trace), [call], Out(echo, DisplayEvents));
          return;
        }
      }
      assert Target(cmdTbl, line).None?;
      Write([NotRecognised, NewLine]);
      Display();
      WriteThen(old(trace), echo, [NotRecognised, NewLine], DisplayEvents);
    }

    /** parse_json on the C string `line`: a brace-shaped line goes to the JSON callback. */
    method ParseJson(line: seq<byte>)
      requires Valid() && (JsonShaped(line) ==> jsonFunc.Some?)
      modifies this`trace
      ensures trace == old(trace) + JsonEvents(jsonFunc, line)
    {
      if JsonShaped(line) {
        trace := trace + [JsonMessage(jsonFunc.value, line)];
      }
    }

    /**
     * The part of return_key for a non-empty line: the NUL after the last
     * byte, a line break, and the line as a C string to the parser of the
     * current mode.
     */
    method Submit()
      requires Valid() && msgLen > 0 && CmdSpec.ReturnDefined(Abs())
      modifies this`trace, msg
      ensures Valid() && Abs() == old(Abs())
      ensures trace == old(trace) + Out(echo, [NewLine]) + CmdSpec.Parsed(old(Abs()))
    {
      ghost var s0 := Abs();
      msg[msgLen] := 0;
      assert Text() == s0.line.text;
      CStringTerminated(msg[..msgLen], []);
      assert msg[..msgLen + 1] == msg[..msgLen] + [0] + [];
      var line := CString(msg[..msgLen + 1]);
      assert line == CmdSpec.Command(s0);
      Write([NewLine]);
      if mode == CLI_MODE_JSON || mode == CLI_MODE_JSON_MAN {
        ParseJson(line);
      } else {
        ParseStd(line);
      }
    }

    /** return_key: an empty line redraws the prompt; any other is submitted, then the buffers are reset. */
    method ReturnKey()
      requires Valid() && CmdSpec.ReturnDefined(Abs())
      modifies this`msgLen, this`cursor, this`escLen, this`trace, msg
      ensures Valid()
      ensures Abs() == CmdSpec.ReturnKey(old(Abs())).0
      ensures trace == old(trace) + CmdSpec.ReturnKey(old(Abs())).1
    {
      if msgLen == 0 {
        DisplayPrompt();
        return;
      }
      Submit();
      AppendAssoc(old(trace), Out(echo, [NewLine]), CmdSpec.Parsed(old(Abs())));
      RstMsgPtr();
    }

    // -------------------------------------------------------------------
    // The byte handler and the public operations

    /** handler(c): one byte from the stream. */
    method Handler(c: byte)
      requires Valid() && CmdSpec.StepDefined(Abs(), c)
      modifies this, msg, escCmd
      ensures Valid()
      ensures Abs() == CmdSpec.Step(old(Abs()), c).0
      ensures trace == old(trace) + CmdSpec.Step(old(Abs()), c).1
    {
      AbsInv();
      if escLen > 0 {
        HandleEscCmdChar(c);
      } else if c == CLI_ASCII_ESC {
        EscKey();
      } else if c == CLI_ASCII_LF {
      } else if c == CLI_ASCII_CR {
        ReturnKey();
      } else if c == CLI_ASCII_BS || c == CLI_ASCII_DEL {
        Backspace(c);
      } else {
        StandardKey(c);
      }
    }

    /** poll(): every byte available on the stream, in order, through handler(). */
    method Poll(input: seq<byte>)
      requires Valid() && CmdSpec.Inv(Abs()) && CmdSpec.RunDefined(Abs(), input)
      modifies this, msg, escCmd
      ensures Valid() && CmdSpec.Inv(Abs())
      ensures Abs() == CmdSpec.Run(old(Abs()), input).0
      ensures trace == old(trace) + CmdSpec.Run(old(Abs()), input).1
    {
      var i := 0;
      while i < |input|
        invariant i <= |input| && Valid()
        invariant CmdSpec.Inv(Abs()) && CmdSpec.RunDefined(Abs(), input[i..])
        invariant CmdSpec.Run(Abs(), input[i..]).0 == CmdSpec.Run(old(Abs()), input).0
        invariant trace + CmdSpec.Run(Abs(), input[i..]).1 == old(trace) + CmdSpec.Run(old(Abs()), input).1
      {
        ghost var s := Abs();
        ghost var t := trace;
        assert input[i..][0] == input[i] && input[i..][1..] == input[i + 1..];
        ghost var first := CmdSpec.Step(s, input[i]);
        ghost var rest := CmdSpec.Run(first.0, input[i + 1..]);
        assert CmdSpec.Run(s, input[i..]) == (rest.0, first.1 + rest.1);
        Handler(input[i]);
        AppendAssoc(t, first.1, rest.1);
        i := i + 1;
      }
      assert input[i..] == [];
    }

    /** mode(m): set the mode, reset the buffers, and set echo and the prompt according to the mode. */
    method Mode(m: byte)
      requires Valid()
      modifies this`mode, this`echo, this`msgLen, this`escLen, this`cursor, this`trace
      ensures Valid()
      ensures Abs() == CmdSpec.SetMode(old(Abs()), m).0
      ensures trace == old(trace) + CmdSpec.SetMode(old(Abs()), m).1
    {
      mode := m;
      RstMsgPtr();
      if m == CLI_MODE_JSON {
        echo := false;
      } else if m == CLI_MODE_JSON_MAN {
        echo := true;
      } else {
        echo := true;
        DisplayPrompt();
      }
    }

    /** attach_json_callback(f). */
    method AttachJsonCallback(f: Option<nat>)
      requires Valid()
      modifies this`jsonFunc
      ensures Valid() && Abs() == CmdSpec.AttachJson(old(Abs()), f)
      ensures trace == old(trace)
    {
      jsonFunc := f;
    }

    /** exit_cli(): report a pending exit request once, clearing it and the buffers. */
    method ExitCli() returns (r: bool)
      requires Valid()
      modifies this`exitCli, this`msgLen, this`escLen, this`cursor
      ensures Valid()
      ensures (Abs(), r) == CmdSpec.ExitCli(old(Abs()))
      ensures trace == old(trace)
    {
      if exitCli {
        exitCli := false;
        RstMsgPtr();
        return true;
      }
      return false;
    }

    /** add(name, func): a new node at the head of the command list. */
    method Add(name: seq<byte>, handler: nat)
      requires Valid()
      modifies this`cmdTbl
      ensures Valid() && Abs() == CmdSpec.Add(old(Abs()), name, handler)
      ensures trace == old(trace)
    {
      cmdTbl := Register(cmdTbl, name, handler);
    }
  }
}
