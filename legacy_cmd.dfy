/**
 * The Cmd class of the repository's root cmdArduino.cpp: the line buffer
 * as a fixed-size array updated in place, the exit flag and command table
 * as fields, and the stream as a trace of events. Every method is proved
 * to move the abstract state, and to extend the trace, exactly as the
 * functions of LegacySpec say.
 */
module LegacyCmdArduino {
  import opened Defs
  import opened Terminal
  import opened Tokenizer
  import opened Registry
  import opened Parsing
  import LegacySpec

  class LegacyCmd {
    /** msg: the line buffer. */
    const msg: array<byte>
    /** msg_ptr - msg: the number of bytes typed. */
    var msgLen: nat
    /** exit_char. */
    var exitChar: bool
    /** CLI_EXIT_CHAR, fixed when the sketch is compiled. */
    const exitKey: byte
    /** The command list from its head (cmd_tbl_list). */
    var cmdTbl: seq<Entry>
    /** Everything written to the stream, and every call of a user handler, in order. */
    var trace: seq<Event>

    ghost predicate Valid()
      reads this`msgLen
    {
      && msg.Length == CMD_MAX_MSG_SIZE
      && msgLen < CMD_MAX_MSG_SIZE - 1
      && LegacySpec.ExitKeyOk(exitKey)
    }

    /** The line typed so far: msg up to msg_ptr. */
    ghost function Text(): seq<byte>
      reads this`msgLen, msg
      requires msgLen <= msg.Length
    {
      msg[..msgLen]
    }

    /** The state the object stands for. */
    ghost function Abs(): LegacySpec.State
      reads this`msgLen, this`exitChar, this`cmdTbl, msg
      requires Valid()
    {
      LegacySpec.State(Text(), exitChar, cmdTbl)
    }

    /** Cmd(): the stream is a parameter of the model, so only init_buffers remains. */
    constructor(exitKey: byte)
      requires LegacySpec.ExitKeyOk(exitKey)
      ensures Valid() && Abs() == LegacySpec.Init && trace == []
      ensures this.exitKey == exitKey && fresh(msg)
    {
      msg := new byte[CMD_MAX_MSG_SIZE];
      this.exitKey := exitKey;
      msgLen := 0;
      exitChar := false;
      cmdTbl := [];
      trace := [];
      new;
      InitBuffers();
    }

    /** init_buffers(): empty line, empty command table. */
    method InitBuffers()
      requires Valid()
      modifies this`msgLen, this`cmdTbl
      ensures Valid() && Abs() == old(Abs()).(text := [], table := [])
      ensures trace == old(trace)
    {
      msgLen := 0;
      cmdTbl := [];
    }

    /** display(): a line break, the banner on its own line, the prompt. */
    method Display()
      modifies this`trace
      ensures trace == old(trace) + DisplayEvents
    {
      trace := trace + [NewLine];
      trace := trace + [Banner, NewLine];
      trace := trace + [Prompt];
    }

    /** display_prompt(): a line break and the prompt. */
    method DisplayPrompt()
      modifies this`trace
      ensures trace == old(trace) + PromptEvents
    {
      trace := trace + [NewLine];
      trace := trace + [Prompt];
    }

    /**
     * parse(cmd): split the line into argv with strtok, walk the command
     * list for argv[0], call the first match with (argc, argv) and redraw,
     * or report the command as not recognised and redraw. The argv slots
     * are one more than the argument limit, so the do-while loop's last
     * store stays inside them.
     */
    method Parse(line: seq<byte>)
      requires Dispatchable(cmdTbl, line)
      modifies this`trace
      ensures trace == old(trace) + Dispatch(cmdTbl, line, LegacySpec.LEGACY_MAX_ARGS, true)
    {
      var argc, argv := SplitArgs(line, LegacySpec.LEGACY_MAX_ARGS, LegacySpec.LEGACY_MAX_ARGS + 1);
      if cmdTbl != [] {
        ArgvHoldsTokens(Tokens(line), LegacySpec.LEGACY_MAX_ARGS);
        var found := FindCommand(cmdTbl, argv[0].value);
        if found.Some? {
          var call := Invoke(cmdTbl[found.value].handler, argc, argv);
          assert Target(cmdTbl, line) == Some(call.handler);
          trace := trace + [call];
          Display();
          AppendAssoc(old(trace), [call], DisplayEvents);
          return;
        }
      }
      assert Target(cmdTbl, line).None?;
      trace := trace + [NotRecognised, NewLine];
      Display();
      AppendAssoc(old(trace), [NotRecognised, NewLine], DisplayEvents);
    }

    /** The '\r' case on a typed line: terminate msg, print a line break, parse, empty the line. */
    method ReturnKey()
      requires Valid() && msgLen > 0 && LegacySpec.StepDefined(Abs(), CLI_ASCII_CR)
      modifies this`msgLen, this`trace, msg
      ensures Valid() && Abs() == old(Abs()).(text := [])
      ensures trace == old(trace) + [NewLine] + Dispatch(cmdTbl, LegacySpec.Command(old(Abs())), LegacySpec.LEGACY_MAX_ARGS, true)
    {
      ghost var s0 := Abs();
      msg[msgLen] := 0;
      assert Text() == s0.text;
      CStringTerminated(msg[..msgLen], []);
      assert msg[..msgLen + 1] == msg[..msgLen] + [0] + [];
      var line := CString(msg[..msgLen + 1]);
      assert line == LegacySpec.Command(s0);
      trace := trace + [NewLine];
      Parse(line);
      msgLen := 0;
    }

    /** The '\b' and 0x7F cases: drop the last byte and print the key, unless the line is empty. */
    method BackspaceKey(c: byte)
      requires Valid()
      modifies this`msgLen, this`trace
      ensures Valid()
      ensures old(msgLen) == 0 ==> msgLen == 0 && trace == old(trace)
      ensures old(msgLen) > 0 ==> Text() == old(Text())[..old(msgLen) - 1] && trace == old(trace) + [Rubout(c)]
    {
      if msgLen > 0 {
        msgLen := msgLen - 1;
        trace := trace + [Rubout(c)];
      }
    }

    /** The default case: print the byte, store it, and drop the line with an error once it is too long. */
    method StoreKey(c: byte)
      requires Valid()
      modifies this`msgLen, this`trace, msg
      ensures Valid()
      ensures old(msgLen) + 1 == CMD_MAX_MSG_SIZE - 1 ==>
                msgLen == 0 && trace == old(trace) + [Echo(c), NewLine, TooLong, NewLine]
      ensures old(msgLen) + 1 < CMD_MAX_MSG_SIZE - 1 ==>
                Text() == old(Text()) + [c] && trace == old(trace) + [Echo(c)]
    {
      trace := trace + [Echo(c)];
      msg[msgLen] := c;
      msgLen := msgLen + 1;
      if msgLen == CMD_MAX_MSG_SIZE - 1 {
        trace := trace + [NewLine];
        trace := trace + [TooLong, NewLine];
        msgLen := 0;
      }
    }

    /** handler(): one byte read from the stream. */
    method Handler(c: byte)
      requires Valid() && LegacySpec.StepDefined(Abs(), c)
      modifies this`msgLen, this`exitChar, this`trace, msg
      ensures Valid()
      ensures Abs() == LegacySpec.Step(old(Abs()), exitKey, c).0
      ensures trace == old(trace) + LegacySpec.Step(old(Abs()), exitKey, c).1
    {
      if c == CLI_ASCII_CR {
        if msgLen == 0 {
          DisplayPrompt();
          return;
        }
        ReturnKey();
      } else if c == CLI_ASCII_BS || c == CLI_ASCII_DEL {
        BackspaceKey(c);
      } else if c == exitKey {
        exitChar := true;
      } else {
        StoreKey(c);
      }
    }

    /** poll(): handler() for each byte of `input`, the bytes available on the stream. */
    method Poll(input: seq<byte>)
      requires Valid() && LegacySpec.RunDefined(Abs(), exitKey, input)
      modifies this`msgLen, this`exitChar, this`trace, msg
      ensures Valid()
      ensures Abs() == LegacySpec.Run(old(Abs()), exitKey, input).0
      ensures trace == old(trace) + LegacySpec.Run(old(Abs()), exitKey, input).1
    {
      var i := 0;
      while i < |input|
        invariant i <= |input| && Valid()
        invariant LegacySpec.RunDefined(Abs(), exitKey, input[i..])
        invariant LegacySpec.Run(Abs(), exitKey, input[i..]).0 == LegacySpec.Run(old(Abs()), exitKey, input).0
        invariant trace + LegacySpec.Run(Abs(), exitKey, input[i..]).1
                  == old(trace) + LegacySpec.Run(old(Abs()), exitKey, input).1
      {
        ghost var s := Abs();
        ghost var t := trace;
        assert input[i..][0] == input[i] && input[i..][1..] == input[i + 1..];
        ghost var first := LegacySpec.Step(s, exitKey, input[i]);
        ghost var rest := LegacySpec.Run(first.0, exitKey, input[i + 1..]);
        assert LegacySpec.Run(s, exitKey, input[i..]) == (rest.0, first.1 + rest.1);
        Handler(input[i]);
        AppendAssoc(t, first.1, rest.1);
        i := i + 1;
      }
      assert input[i..] == [];
    }

    /** add(name, func): a new node at the head of the list. */
    method Add(name: seq<byte>, handler: nat)
      requires Valid()
      modifies this`cmdTbl
      ensures Valid() && Abs() == LegacySpec.Add(old(Abs()), name, handler)
      ensures trace == old(trace)
    {
      cmdTbl := Register(cmdTbl, name, handler);
    }

    /** exit_cli(). */
    method ExitCli() returns (r: bool)
      requires Valid()
      modifies this`exitChar, this`msgLen
      ensures Valid()
      ensures (Abs(), r) == LegacySpec.ExitCli(old(Abs()))
      ensures trace == old(trace)
    {
      if exitChar {
        exitChar := false;
        msgLen := 0;
        return true;
      }
      return false;
    }
  }
}
