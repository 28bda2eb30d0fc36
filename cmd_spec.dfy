/**
 * The whole command line of src/cmdArduino.cpp as a state machine on
 * values: the state a Cmd object holds between calls, and what each public
 * operation and each received byte does to it and writes out. The class in
 * cmd.dfy is proved to implement exactly these functions.
 */
module CmdSpec {
  import opened Defs
  import opened Terminal
  import opened LineEdit
  import opened EscapeSeq
  import opened Tokenizer
  import opened Registry
  import opened JsonShape
  import opened Parsing

  /**
   * line: msg up to msg_ptr, and _cursor_ptr; esc: _esc_cmd up to
   * _esc_cmd_ptr; ext: _ext_esc_cmd; exit: _exit_cli; mode: _mode; echo:
   * _print; table: the command list from its head; json: _json_func
   * (None for NULL).
   */
  datatype State = State(
    line: Line,
    esc: seq<byte>,
    ext: bool,
    exit: bool,
    mode: byte,
    echo: bool,
    table: seq<Entry>,
    json: Option<nat>)

  /**
   * The invariant every operation keeps: the line buffer invariant, the
   * escape accumulator within its ESC_BUF_SIZE bytes, and a sequence being
   * collected always starts with ESC.
   */
  predicate Inv(s: State)
  {
    && Valid(s.line)
    && |s.esc| <= ESC_BUF_SIZE
    && (s.esc != [] ==> s.esc[0] == CLI_ASCII_ESC)
  }

  /** A freshly constructed Cmd: empty buffers and table, standard mode, echo on, no exit request, no JSON callback. */
  const Init: State := State(Empty, [], false, false, CLI_MODE_STD, true, [], None)

  /** rst_msg_ptr: empty line, cursor at the start, escape accumulator empty (the extended flag is left as it is). */
  function Reset(s: State): (r: State)
    ensures r.line == Empty && r.esc == []
    ensures r.ext == s.ext
  {
    s.(line := Empty, esc := [])
  }

  /** A byte that standard_key handles: none of the bytes the handler switches on. */
  predicate IsStandard(c: byte)
  {
    c != CLI_ASCII_ESC && c != CLI_ASCII_LF && c != CLI_ASCII_CR && c != CLI_ASCII_BS && c != CLI_ASCII_DEL
  }

  /** standard_key: at capacity the line is dropped with an error; otherwise `c` is inserted at the cursor. */
  function StandardKey(s: State, c: byte): (State, seq<Event>)
    requires Valid(s.line)
  {
    if Full(s.line) then (Reset(s), Out(s.echo, [NewLine, TooLong, NewLine]))
    else (s.(line := Insert(s.line, c)), Out(s.echo, InsertRedraw(s.line, c)))
  }

  /** backspace(bs). */
  function BackspaceKey(s: State, bs: byte): (State, seq<Event>)
    requires Valid(s.line)
  {
    (s.(line := Backspace(s.line)), Out(s.echo, BackspaceRedraw(s.line, bs)))
  }

  /** esc_key: a second ESC right after the first requests exit; the ESC is stored either way. */
  function EscKey(s: State): State
    requires |s.esc| < ESC_BUF_SIZE
  {
    s.(exit := s.exit || |s.esc| == 1, esc := s.esc + [CLI_ASCII_ESC])
  }

  /** check_esc_cmd's actions: the arrows and the Delete key edit the line; up and unknown sequences do nothing. */
  function Execute(s: State, cmd: EscCommand): (State, seq<Event>)
    requires Valid(s.line)
  {
    match cmd
    case EscLeft => (s.(line := Left(s.line)), Out(s.echo, LeftRedraw(s.line)))
    case EscRight => (s.(line := Right(s.line)), Out(s.echo, RightRedraw(s.line)))
    case EscDel => (s.(line := Delete(s.line)), Out(s.echo, DeleteRedraw(s.line)))
    case EscUp => (s, [])
    case EscUnknown => (s, [])
  }

  /**
   * handle_esc_cmd_char: an ESC goes to esc_key; any other byte is fed to
   * the decoder, and a completed sequence is executed and the accumulator
   * and extended flag cleared.
   */
  function EscChar(s: State, c: byte): (State, seq<Event>)
    requires Valid(s.line) && Fits(s.esc, s.ext, c)
  {
    if c == CLI_ASCII_ESC then (EscKey(s), [])
    else match FeedByte(s.esc, s.ext, c)
      case Pending(a, e) => (s.(esc := a, ext := e), [])
      case Complete(a) =>
        var r := Execute(s, Classify(a));
        (r.0.(esc := [], ext := false), r.1)
  }

  /** check_esc_cmd's actions depend on the line, echo and nothing of the accumulator. */
  lemma ExecuteIgnoresEsc(s: State, cmd: EscCommand, a: seq<byte>, e: bool)
    requires Valid(s.line)
    ensures Execute(s.(esc := a, ext := e), cmd).0.(esc := [], ext := false)
            == Execute(s, cmd).0.(esc := [], ext := false)
    ensures Execute(s.(esc := a, ext := e), cmd).1 == Execute(s, cmd).1
  {
  }

  /** The C string return_key hands to the parser. */
  function Command(s: State): seq<byte>
  {
    CString(s.line.text)
  }

  /**
   * What return_key needs to stay defined: in a JSON mode a brace-shaped
   * line needs a callback (a NULL _json_func would be called); in the
   * standard mode a non-empty table needs a token (strcmp on a NULL argv[0]).
   */
  predicate ReturnDefined(s: State)
  {
    s.line.text != [] ==>
      if IsJsonMode(s.mode) then JsonShaped(Command(s)) ==> s.json.Some?
      else Dispatchable(s.table, Command(s))
  }

  /**
   * return_key: an empty line only redraws the prompt; otherwise a line
   * break, the line goes to parse_json or parse_std according to the mode,
   * and the buffers are reset.
   */
  function ReturnKey(s: State): (State, seq<Event>)
    requires Valid(s.line) && ReturnDefined(s)
  {
    if s.line.text == [] then (s, Out(s.echo, PromptEvents))
    else (Reset(s), Out(s.echo, [NewLine]) + Parsed(s))
  }

  /** What the parser of the current mode does with the completed line. */
  function Parsed(s: State): seq<Event>
    requires ReturnDefined(s) && s.line.text != []
  {
    if IsJsonMode(s.mode) then JsonEvents(s.json, Command(s))
    else Dispatch(s.table, Command(s), CMD_MAX_ARGS, s.echo)
  }

  /** What handler() needs to stay defined for byte `c`: no write past _esc_cmd, and a defined return_key. */
  predicate StepDefined(s: State, c: byte)
  {
    && (s.esc != [] ==> Fits(s.esc, s.ext, c))
    && (s.esc == [] && c == CLI_ASCII_CR ==> ReturnDefined(s))
  }

  /** handler(): one received byte. Every byte keeps the invariant. */
  function Step(s: State, c: byte): (r: (State, seq<Event>))
    requires Inv(s) && StepDefined(s, c)
    ensures Inv(r.0)
  {
    EditsKeepValid(s.line, c);
    if s.esc != [] && c != CLI_ASCII_ESC then
      FeedAppends(s.esc, s.ext, c);
      EscChar(s, c)
    else if s.esc != [] then EscChar(s, c)
    else if c == CLI_ASCII_ESC then (EscKey(s), [])
    else if c == CLI_ASCII_LF then (s, [])
    else if c == CLI_ASCII_CR then ReturnKey(s)
    else if c == CLI_ASCII_BS || c == CLI_ASCII_DEL then BackspaceKey(s, c)
    else StandardKey(s, c)
  }

  /** mode(m): reset the buffers; echo is off only in CLI_MODE_JSON; the standard (and any unknown) mode redraws the prompt. */
  function SetMode(s: State, m: byte): (r: (State, seq<Event>))
    ensures r.0.mode == m && r.0.line == Empty && r.0.esc == []
    ensures r.0.echo <==> m != CLI_MODE_JSON
    ensures r.0.(line := s.line, esc := s.esc, mode := s.mode, echo := s.echo) == s
    ensures r.1 == [] <==> IsJsonMode(m)
    ensures !IsJsonMode(m) ==> r.1 == PromptEvents
  {
    var r := Reset(s).(mode := m, echo := m != CLI_MODE_JSON);
    (r, if IsJsonMode(m) then [] else PromptEvents)
  }

  /** exit_cli(): report a pending exit request once, clearing it and dropping the line in progress. */
  function ExitCli(s: State): (r: (State, bool))
    ensures r.1 == s.exit && !r.0.exit
    ensures !s.exit ==> r.0 == s
    ensures s.exit ==> r.0.line == Empty && r.0.esc == [] && r.0.(line := s.line, esc := s.esc, exit := true) == s
  {
    if s.exit then (Reset(s).(exit := false), true) else (s, false)
  }

  /** add(name, func). */
  function Add(s: State, name: seq<byte>, handler: nat): (r: State)
    ensures r.(table := s.table) == s
    ensures |r.table| == |s.table| + 1
    ensures Lookup(r.table, CString(name)) == Some(handler)
  {
    LookupAfterRegister(s.table, name, handler, name);
    s.(table := Register(s.table, name, handler))
  }

  /** attach_json_callback(f). */
  function AttachJson(s: State, f: Option<nat>): (r: State)
    ensures r.json == f
    ensures r.(json := s.json) == s
  {
    s.(json := f)
  }

  /** Whether handler() stays defined on every byte of `input`, fed in order from `s`. */
  predicate RunDefined(s: State, input: seq<byte>)
    requires Inv(s)
    decreases |input|
  {
    input != [] ==> StepDefined(s, input[0]) && RunDefined(Step(s, input[0]).0, input[1..])
  }

  /** poll(): the bytes available on the stream, each passed to handler() in order. */
  function Run(s: State, input: seq<byte>): (r: (State, seq<Event>))
    requires Inv(s) && RunDefined(s, input)
    ensures Inv(r.0)
    decreases |input|
  {
    if input == [] then (s, [])
    else
      var first := Step(s, input[0]);
      var rest := Run(first.0, input[1..]);
      (rest.0, first.1 + rest.1)
  }

  /** Feeding `a + b` stays defined exactly when feeding `a` does and feeding `b` from where it ends does. */
  lemma {:induction false} RunDefinedAppend(s: State, a: seq<byte>, b: seq<byte>)
    requires Inv(s)
    ensures RunDefined(s, a + b) <==> RunDefined(s, a) && RunDefined(Run(s, a).0, b)
    decreases |a|
  {
    if a == [] {
      assert a + b == b;
    } else {
      assert (a + b)[0] == a[0];
      assert (a + b)[1..] == a[1..] + b;
      if StepDefined(s, a[0]) {
        RunDefinedAppend(Step(s, a[0]).0, a[1..], b);
      }
    }
  }

  /**
   * How the bytes are split across calls of poll() does not matter: feeding
   * `a` and then `b` ends in the same state, with the same output, as
   * feeding `a + b` at once.
   */
  lemma {:induction false} RunAppend(s: State, a: seq<byte>, b: seq<byte>)
    requires Inv(s) && RunDefined(s, a) && RunDefined(Run(s, a).0, b)
    ensures RunDefined(s, a + b)
    ensures Run(s, a + b) == (Run(Run(s, a).0, b).0, Run(s, a).1 + Run(Run(s, a).0, b).1)
    decreases |a|
  {
    RunDefinedAppend(s, a, b);
    if a == [] {
      assert a + b == b;
      assert Run(s, a) == (s, []);
      assert [] + Run(s, b).1 == Run(s, b).1;
    } else {
      var first := Step(s, a[0]);
      assert (a + b)[0] == a[0] && (a + b)[1..] == a[1..] + b;
      RunAppend(first.0, a[1..], b);
      var mid := Run(first.0, a[1..]);
      var last := Run(mid.0, b);
      assert Run(s, a) == (mid.0, first.1 + mid.1);
      assert Run(s, a + b) == (last.0, first.1 + (mid.1 + last.1));
      AppendAssoc(first.1, mid.1, last.1);
    }
  }

  // ---------------------------------------------------------------------
  // What each handler does

  /**
   * standard_key: a full line is dropped and the error printed between line
   * breaks; otherwise `c` lands at the cursor, the cursor moves past it, and
   * at the end of the line `c` alone is echoed. Only the line and the
   * accumulator can change.
   */
  lemma StandardKeyEffect(s: State, c: byte)
    requires Valid(s.line)
    ensures var r := StandardKey(s, c);
      && r.0.(line := s.line, esc := s.esc) == s
      && (Full(s.line) ==> r.0.line == Empty && r.0.esc == [])
      && (Full(s.line) && s.echo ==> r.1 == [NewLine, TooLong, NewLine])
      && (!Full(s.line) ==>
            && r.0.esc == s.esc && |r.0.line.text| == |s.line.text| + 1
            && r.0.line.cursor == s.line.cursor + 1 && r.0.line.text[s.line.cursor] == c)
      && (!Full(s.line) && s.echo && s.line.cursor == |s.line.text| ==> r.1 == [Echo(c)])
      && (!s.echo ==> r.1 == [])
  {
  }

  /**
   * backspace: nothing at the start of the line; elsewhere one byte fewer
   * and the cursor one to the left, with the erase byte echoed at the end of
   * the line. Only the line can change.
   */
  lemma BackspaceKeyEffect(s: State, bs: byte)
    requires Valid(s.line)
    ensures var r := BackspaceKey(s, bs);
      && r.0.(line := s.line) == s
      && (s.line.cursor == 0 ==> r == (s, []))
      && (s.line.cursor > 0 ==> r.0.line.cursor == s.line.cursor - 1 && |r.0.line.text| == |s.line.text| - 1)
      && (s.echo && 0 < s.line.cursor == |s.line.text| ==> r.1 == [Rubout(bs)])
      && (!s.echo ==> r.1 == [])
  {
  }

  /** esc_key: ESC is appended to the accumulator; it raises the exit request exactly when it follows a lone ESC. */
  lemma EscKeyEffect(s: State)
    requires |s.esc| < ESC_BUF_SIZE
    ensures var r := EscKey(s);
      && r.(esc := s.esc, exit := s.exit) == s
      && |r.esc| == |s.esc| + 1 && r.esc[..|s.esc|] == s.esc && r.esc[|s.esc|] == CLI_ASCII_ESC
      && (|s.esc| == 1 ==> r.exit)
      && (|s.esc| != 1 ==> r.exit == s.exit)
  {
  }

  /**
   * check_esc_cmd's actions: only the line can change, only the Delete key
   * changes its text, up and unknown sequences do nothing, and the line
   * stays valid.
   */
  lemma ExecuteEffect(s: State, cmd: EscCommand)
    requires Valid(s.line)
    ensures var r := Execute(s, cmd);
      && r.0.(line := s.line) == s
      && Valid(r.0.line)
      && (!cmd.EscDel? ==> r.0.line.text == s.line.text)
      && (cmd.EscUp? || cmd.EscUnknown? ==> r == (s, []))
      && (!s.echo ==> r.1 == [])
  {
    EditsKeepValid(s.line, 0);
  }

  /**
   * handle_esc_cmd_char: ESC is stored and writes nothing; another byte that
   * leaves the sequence pending is stored and writes nothing; a byte that
   * completes it empties the accumulator and clears the extended flag. The
   * table, mode, echo and callback never change.
   */
  lemma EscCharEffect(s: State, c: byte)
    requires Valid(s.line) && Fits(s.esc, s.ext, c)
    ensures var r := EscChar(s, c);
      && r.0.table == s.table && r.0.mode == s.mode && r.0.echo == s.echo && r.0.json == s.json
      && (c == CLI_ASCII_ESC ==> r.0.line == s.line && r.0.esc == s.esc + [c] && r.1 == [])
      && (c != CLI_ASCII_ESC ==> r.0.exit == s.exit)
      && (c != CLI_ASCII_ESC && FeedByte(s.esc, s.ext, c).Pending? ==>
            r.0.line == s.line && r.0.esc == s.esc + [c] && r.1 == [])
      && (c != CLI_ASCII_ESC && FeedByte(s.esc, s.ext, c).Complete? ==> r.0.esc == [] && !r.0.ext)
  {
  }

  /**
   * return_key: an empty line changes nothing; any other line resets the
   * buffers (nothing else changes) and its parser's output follows a line
   * break, which is left out only while echo is off.
   */
  lemma ReturnKeyEffect(s: State)
    requires Valid(s.line) && ReturnDefined(s)
    ensures var r := ReturnKey(s);
      && (s.line.text == [] ==> r.0 == s)
      && (s.line.text == [] && !s.echo ==> r.1 == [])
      && (s.line.text != [] ==> r.0.line == Empty && r.0.esc == [] && r.0.(line := s.line, esc := s.esc) == s)
      && (s.line.text != [] && s.echo ==> r.1 == [NewLine] + Parsed(s))
      && (s.line.text != [] && !s.echo ==> r.1 == Parsed(s))
  {
  }

  /**
   * What the parsers make of a line: in a JSON mode at most one callback
   * call, made exactly for a brace-shaped line and with the line itself; in
   * the standard mode a call of the handler the first word names, or only
   * output when no command has that name.
   */
  lemma ParsedEffect(s: State)
    requires ReturnDefined(s) && s.line.text != []
    ensures IsJsonMode(s.mode) ==> |Parsed(s)| <= 1 && (Parsed(s) != [] <==> JsonShaped(Command(s)))
    ensures IsJsonMode(s.mode) && Parsed(s) != [] ==> Parsed(s)[0] == JsonMessage(s.json.value, Command(s))
    ensures !IsJsonMode(s.mode) && Target(s.table, Command(s)).Some? ==>
              Parsed(s) != [] && Parsed(s)[0].Invoke? && Parsed(s)[0].handler == Target(s.table, Command(s)).value
    ensures !IsJsonMode(s.mode) && Target(s.table, Command(s)).None? ==>
              Parsed(s) == Out(s.echo, [NotRecognised, NewLine] + DisplayEvents)
  {
  }

  // ---------------------------------------------------------------------
  // The invariant

  lemma InitInv()
    ensures Inv(Init)
  {
  }

  /** Every public operation keeps the invariant (every byte does too: see the contract of Step). */
  lemma OperationsPreserveInv(s: State, m: byte, name: seq<byte>, h: nat, f: Option<nat>)
    requires Inv(s)
    ensures Inv(SetMode(s, m).0) && Inv(ExitCli(s).0) && Inv(Add(s, name, h)) && Inv(AttachJson(s, f))
  {
  }

  // ---------------------------------------------------------------------
  // The exit request

  /** A byte sets the exit flag exactly when it is an ESC following a lone ESC; nothing but exit_cli clears it. */
  lemma ExitFlag(s: State, c: byte)
    requires Inv(s) && StepDefined(s, c)
    ensures Step(s, c).0.exit <==> s.exit || (c == CLI_ASCII_ESC && |s.esc| == 1)
  {
  }

  /** exit_cli reports a request once: a second call without a new double ESC answers false. */
  lemma ExitCliOnce(s: State)
    ensures ExitCli(s).1 == s.exit
    ensures !ExitCli(ExitCli(s).0).1
    ensures ExitCli(s).1 ==> ExitCli(s).0.line == Empty && ExitCli(s).0.esc == []
  {
  }

  // ---------------------------------------------------------------------
  // Escape sequences across several bytes

  /** ESC on an idle accumulator starts a sequence and writes nothing. */
  lemma EscStarts(s: State)
    requires Inv(s) && s.esc == []
    ensures StepDefined(s, CLI_ASCII_ESC) && Step(s, CLI_ASCII_ESC) == (s.(esc := [CLI_ASCII_ESC]), [])
  {
    assert [] + [CLI_ASCII_ESC] == [CLI_ASCII_ESC];
  }

  /** '[' after ESC opens a control sequence and writes nothing. */
  lemma CsiOpens(s: State)
    requires Inv(s) && s.esc == [CLI_ASCII_ESC]
    ensures StepDefined(s, 0x5B) && Step(s, 0x5B) == (s.(esc := [CLI_ASCII_ESC, 0x5B]), [])
  {
    assert FeedByte([CLI_ASCII_ESC], s.ext, 0x5B) == Pending([CLI_ASCII_ESC, 0x5B], s.ext);
  }

  /** A digit after ESC [ is collected and announces the extended form. */
  lemma CsiDigitPending(s: State)
    requires Inv(s) && s.esc == [CLI_ASCII_ESC, 0x5B] && !s.ext
    ensures StepDefined(s, 0x33) && Step(s, 0x33) == (s.(esc := [CLI_ASCII_ESC, 0x5B, 0x33], ext := true), [])
  {
    assert FeedByte(s.esc, false, 0x33) == Pending([CLI_ASCII_ESC, 0x5B, 0x33], true);
  }

  /** ESC [ D moves the cursor left, ESC [ C right, ESC [ A does nothing; no byte of them reaches the line. */
  lemma {:induction false} ArrowKeys(s: State)
    requires Inv(s) && s.esc == []
    ensures var s1 := Step(s, CLI_ASCII_ESC).0;
            && s1.esc == [CLI_ASCII_ESC] && Step(s, CLI_ASCII_ESC).1 == []
            && StepDefined(s1, 0x5B)
            && var s2 := Step(s1, 0x5B).0;
            && s2.esc == [CLI_ASCII_ESC, 0x5B] && Step(s1, 0x5B).1 == []
            && StepDefined(s2, 0x44) && StepDefined(s2, 0x43) && StepDefined(s2, 0x41)
            && Step(s2, 0x44) == (s.(line := Left(s.line), ext := false), Out(s.echo, LeftRedraw(s.line)))
            && Step(s2, 0x43) == (s.(line := Right(s.line), ext := false), Out(s.echo, RightRedraw(s.line)))
            && Step(s2, 0x41) == (s.(ext := false), [])
  {
    KnownSequences();
    EscStarts(s);
    var s1 := s.(esc := [CLI_ASCII_ESC]);
    CsiOpens(s1);
    var s2 := s.(esc := [CLI_ASCII_ESC, 0x5B]);
    assert FeedByte(s2.esc, s.ext, 0x44) == Complete(ESC_CMD_LEFT);
    assert FeedByte(s2.esc, s.ext, 0x43) == Complete(ESC_CMD_RIGHT);
    assert FeedByte(s2.esc, s.ext, 0x41) == Complete(ESC_CMD_UP);
  }

  /** ESC [ 3 ~ deletes the byte at the cursor, provided the extended flag is clear. */
  lemma {:induction false} DeleteKey(s: State)
    requires Inv(s) && s.esc == [] && !s.ext
    ensures var s1 := Step(s, CLI_ASCII_ESC).0;
            && StepDefined(s1, 0x5B)
            && var s2 := Step(s1, 0x5B).0;
            && StepDefined(s2, 0x33)
            && var s3 := Step(s2, 0x33).0;
            && StepDefined(s3, 0x7E)
            && Step(s, CLI_ASCII_ESC).1 + Step(s1, 0x5B).1 + Step(s2, 0x33).1 == []
            && Step(s3, 0x7E) == (s.(line := Delete(s.line)), Out(s.echo, DeleteRedraw(s.line)))
  {
    KnownSequences();
    EscStarts(s);
    CsiOpens(s.(esc := [CLI_ASCII_ESC]));
    CsiDigitPending(s.(esc := [CLI_ASCII_ESC, 0x5B]));
  }

  /**
   * Two ESCs request exit and swallow the next byte: ESC ESC x with x not a
   * digit completes an unknown three-byte sequence, leaving the line as it was.
   */
  lemma {:induction false} DoubleEscapeSwallowsNextByte(s: State, x: byte)
    requires Inv(s) && s.esc == [] && x != CLI_ASCII_ESC && x != 0 && !IsDigit(x)
    ensures var s1 := Step(s, CLI_ASCII_ESC).0;
            && StepDefined(s1, CLI_ASCII_ESC)
            && var s2 := Step(s1, CLI_ASCII_ESC).0;
            && s2.exit
            && StepDefined(s2, x)
            && Step(s2, x) == (s.(exit := true, ext := false), [])
  {
    EscStarts(s);
    var s1 := s.(esc := [CLI_ASCII_ESC]);
    var s2 := s.(esc := [CLI_ASCII_ESC, CLI_ASCII_ESC], exit := true);
    assert Step(s1, CLI_ASCII_ESC).0 == s2;
    var a := [CLI_ASCII_ESC, CLI_ASCII_ESC, x];
    assert FeedByte(s2.esc, s2.ext, x) == Complete(a);
    NotCsiUnknown(a);
    assert Execute(s2, Classify(a)) == (s2, []);
  }

  /**
   * While a sequence is being collected, CR, backspace and printable bytes
   * are consumed by it: the text changes only when the byte completes
   * exactly ESC [ 3 ~.
   */
  lemma EscapeBytesNeverEditText(s: State, c: byte)
    requires Inv(s) && s.esc != [] && StepDefined(s, c)
    ensures Step(s, c).0.line.text != s.line.text ==> s.esc + [c] == ESC_CMD_DEL
  {
    if c != CLI_ASCII_ESC {
      match FeedByte(s.esc, s.ext, c)
      case Pending(_, _) =>
      case Complete(a) =>
        FeedAppends(s.esc, s.ext, c);
        if Classify(a) == EscDel {
          DeleteIsExact(s.esc, s.ext, c);
        }
    }
  }

  /**
   * The accumulator has no length check on ESC: five ESCs in a row fill it,
   * after which no byte can be stored without writing past _esc_cmd.
   */
  lemma EscOverrunReachable()
    ensures var s1 := Step(Init, CLI_ASCII_ESC).0;
            && StepDefined(s1, CLI_ASCII_ESC)
            && var s2 := Step(s1, CLI_ASCII_ESC).0;
            && StepDefined(s2, CLI_ASCII_ESC)
            && var s3 := Step(s2, CLI_ASCII_ESC).0;
            && StepDefined(s3, CLI_ASCII_ESC)
            && var s4 := Step(s3, CLI_ASCII_ESC).0;
            && StepDefined(s4, CLI_ASCII_ESC)
            && var s5 := Step(s4, CLI_ASCII_ESC).0;
            && |s5.esc| == ESC_BUF_SIZE
            && forall c: byte :: !StepDefined(s5, c)
  {
    var s5 := Init.(esc := [CLI_ASCII_ESC, CLI_ASCII_ESC, CLI_ASCII_ESC, CLI_ASCII_ESC, CLI_ASCII_ESC], exit := true);
    forall c: byte ensures !StepDefined(s5, c) {
      FullAccumulatorOverruns(s5.esc, false, c);
    }
  }

  // ---------------------------------------------------------------------
  // Editing across bytes

  /** A standard byte followed by backspace (or DEL) restores the line when there was room for the byte. */
  lemma KeyThenBackspace(s: State, c: byte, bs: byte)
    requires Inv(s) && s.esc == [] && IsStandard(c) && !Full(s.line)
    requires bs == CLI_ASCII_BS || bs == CLI_ASCII_DEL
    ensures var s1 := Step(s, c).0;
            && Inv(s1) && StepDefined(s1, bs)
            && Step(s1, bs).0 == s
  {
    EditsKeepValid(s.line, c);
    InsertThenBackspace(s.line, c);
  }

  /** Enter on an empty line changes nothing and only redraws the prompt. */
  lemma EmptyReturn(s: State)
    requires Inv(s) && s.esc == [] && s.line.text == []
    ensures StepDefined(s, CLI_ASCII_CR)
    ensures Step(s, CLI_ASCII_CR) == (s, Out(s.echo, PromptEvents))
  {
  }

  /** A standard byte typed at the end of a line with room is appended and echoed alone. */
  lemma AppendAtEnd(s: State, c: byte)
    requires Inv(s) && s.esc == [] && IsStandard(c) && !Full(s.line) && s.line.cursor == |s.line.text|
    ensures Step(s, c) == (s.(line := Line(s.line.text + [c], s.line.cursor + 1)), Out(s.echo, [Echo(c)]))
  {
    assert s.line.text[..s.line.cursor] + [c] + s.line.text[s.line.cursor..] == s.line.text + [c];
  }

  /** A standard byte on a full line drops the whole line and reports it. */
  lemma OverflowResets(s: State, c: byte)
    requires Inv(s) && s.esc == [] && IsStandard(c) && Full(s.line)
    ensures Step(s, c) == (s.(line := Empty), Out(s.echo, [NewLine, TooLong, NewLine]))
  {
  }

  /** With echo off nothing is written to the stream; handler calls still happen. */
  lemma SilentWhenEchoOff(s: State, c: byte)
    requires Inv(s) && StepDefined(s, c) && !s.echo
    ensures forall k :: 0 <= k < |Step(s, c).1| ==> !IsOutput(Step(s, c).1[k])
  {
  }

  /**
   * Every byte except Enter and an overflowing byte moves the terminal's
   * cursor exactly as it moves the buffer cursor, so with echo on the two
   * stay in step.
   */
  lemma StepKeepsTerminalInSync(s: State, c: byte)
    requires Inv(s) && StepDefined(s, c) && s.echo
    requires s.esc == [] ==> c != CLI_ASCII_CR && (IsStandard(c) ==> !Full(s.line))
    ensures Moves(Step(s, c).1) == Step(s, c).0.line.cursor - s.line.cursor
  {
    if s.esc != [] {
      EscCharInSync(s, c);
    } else if c == CLI_ASCII_BS || c == CLI_ASCII_DEL {
      BackspaceRedrawInSync(s.line, c);
    } else if IsStandard(c) {
      InsertRedrawInSync(s.line, c);
    }
  }

  /** A byte of an escape sequence moves the terminal cursor as it moves the buffer cursor. */
  lemma EscCharInSync(s: State, c: byte)
    requires Valid(s.line) && Fits(s.esc, s.ext, c) && s.echo
    ensures Moves(EscChar(s, c).1) == EscChar(s, c).0.line.cursor - s.line.cursor
  {
    if c != CLI_ASCII_ESC {
      match FeedByte(s.esc, s.ext, c)
      case Pending(_, _) =>
      case Complete(a) => ExecuteInSync(s, Classify(a));
    }
  }

  /** Each action of check_esc_cmd moves the terminal cursor as it moves the buffer cursor. */
  lemma ExecuteInSync(s: State, cmd: EscCommand)
    requires Valid(s.line) && s.echo
    ensures Moves(Execute(s, cmd).1) == Execute(s, cmd).0.line.cursor - s.line.cursor
  {
    match cmd
    case EscLeft => ArrowRedrawInSync(s.line);
    case EscRight => ArrowRedrawInSync(s.line);
    case EscDel => DeleteRedrawInSync(s.line);
    case EscUp =>
    case EscUnknown =>
  }

  // ---------------------------------------------------------------------
  // Modes and completed lines

  /**
   * mode(m) empties the buffers; echo is on except in CLI_MODE_JSON; the two
   * JSON modes write nothing, and every other mode, unknown ones included,
   * writes exactly the prompt.
   */
  lemma ModeEffects(s: State, m: byte)
    ensures SetMode(s, m).0.line == Empty && SetMode(s, m).0.esc == []
    ensures SetMode(s, m).0.echo <==> m != CLI_MODE_JSON
    ensures SetMode(s, m).1 == [] <==> (m == CLI_MODE_JSON || m == CLI_MODE_JSON_MAN)
    ensures m != CLI_MODE_JSON && m != CLI_MODE_JSON_MAN ==> SetMode(s, m).1 == [NewLine, Prompt]
  {
  }

  /** A non-empty line in a JSON mode reaches the callback exactly when it has the brace shape. */
  lemma JsonLineForwarded(s: State)
    requires Inv(s) && s.esc == [] && s.line.text != [] && IsJsonMode(s.mode)
    requires StepDefined(s, CLI_ASCII_CR)
    ensures Step(s, CLI_ASCII_CR).0.line == Empty
    ensures (exists k :: 0 <= k < |Step(s, CLI_ASCII_CR).1| && Step(s, CLI_ASCII_CR).1[k].JsonMessage?)
            <==> JsonShaped(Command(s))
    ensures forall k :: 0 <= k < |Step(s, CLI_ASCII_CR).1| && Step(s, CLI_ASCII_CR).1[k].JsonMessage? ==>
              Some(Step(s, CLI_ASCII_CR).1[k].callback) == s.json && Step(s, CLI_ASCII_CR).1[k].msg == Command(s)
  {
    var out := Step(s, CLI_ASCII_CR).1;
    var pre := Out(s.echo, [NewLine]);
    var je := JsonEvents(s.json, Command(s));
    assert out == pre + je;
    if JsonShaped(Command(s)) {
      assert out[|pre|] == je[0];
    } else {
      assert je == [];
      assert forall k :: 0 <= k < |out| ==> !out[k].JsonMessage?;
    }
  }

  /** A non-empty line in the standard mode is dispatched through the command table and the buffers are reset. */
  lemma StdLineDispatched(s: State)
    requires Inv(s) && s.esc == [] && s.line.text != [] && !IsJsonMode(s.mode)
    requires StepDefined(s, CLI_ASCII_CR)
    ensures Step(s, CLI_ASCII_CR) ==
              (Reset(s), Out(s.echo, [NewLine]) + Dispatch(s.table, Command(s), CMD_MAX_ARGS, s.echo))
  {
  }

  // ---------------------------------------------------------------------
  // The extended flag survives rst_msg_ptr

  /**
   * rst_msg_ptr clears the accumulator but not _ext_esc_cmd: after
   * ESC [ 3 and a mode switch, the next ESC [ 3 completes at its third
   * byte as an unknown sequence, and the '~' of the Delete key is inserted
   * into the line as text.
   */
  lemma {:induction false} StaleExtendedFlag(s: State, m: byte)
    requires Inv(s) && s.esc == [CLI_ASCII_ESC, 0x5B] && !s.ext && !Full(s.line)
    ensures var s3 := Step(s, 0x33).0;
            && s3.ext
            && var t := SetMode(s3, m).0;
            && t.ext && Inv(t) && t.esc == []
            && var t1 := Step(t, CLI_ASCII_ESC).0;
            && StepDefined(t1, 0x5B)
            && var t2 := Step(t1, 0x5B).0;
            && StepDefined(t2, 0x33)
            && var t3 := Step(t2, 0x33).0;
            && t3.esc == [] && t3.line == Empty
            && StepDefined(t3, 0x7E)
            && Step(t3, 0x7E).0.line == Line([0x7E], 1)
  {
    CsiDigitPending(s);
    var t := SetMode(s.(esc := [CLI_ASCII_ESC, 0x5B, 0x33], ext := true), m).0;
    EscStarts(t);
    CsiOpens(t.(esc := [CLI_ASCII_ESC]));
    var t2 := t.(esc := [CLI_ASCII_ESC, 0x5B]);
    var a: seq<byte> := [CLI_ASCII_ESC, 0x5B, 0x33];
    assert FeedByte(t2.esc, true, 0x33) == Complete(a);
    CStringNulFree(a);
    assert Classify(a) == EscUnknown;
    assert Step(t2, 0x33).0 == t.(ext := false);
  }

  /** rst_msg_ptr as evidently intended: the extended flag is part of the escape state it resets. */
  function ResetAll(s: State): (r: State)
    ensures r.line == Empty && r.esc == [] && !r.ext
  {
    Reset(s).(ext := false)
  }

  /** With the flag cleared on reset, the Delete key decodes after any interrupted sequence. */
  lemma {:induction false} DeleteKeyAfterResetAll(s: State)
    requires Inv(s)
    ensures Inv(ResetAll(s))
    ensures var t := ResetAll(s);
            var t1 := Step(t, CLI_ASCII_ESC).0;
            var t2 := Step(t1, 0x5B).0;
            var t3 := Step(t2, 0x33).0;
            Step(t3, 0x7E).0 == t.(line := Delete(Empty))
  {
    DeleteKey(ResetAll(s));
  }
}
