/**
 * What happens to a completed line: parse_std splits it into argv and
 * calls the handler registered under argv[0] (or reports the command as
 * not recognised), then redraws banner and prompt; parse_json forwards a
 * brace-shaped line to the JSON callback.
 */
module Parsing {
  import opened Defs
  import opened Terminal
  import opened Tokenizer
  import opened Registry
  import opened JsonShape

  /** display(): a line break, the banner on its own line, the prompt. */
  const DisplayEvents: seq<Event> := [NewLine, Banner, NewLine, Prompt]

  /** display_prompt(): a line break and the prompt. */
  const PromptEvents: seq<Event> := [NewLine, Prompt]

  /**
   * parse_std compares argv[0] with the first node's name, so with a
   * non-empty table the line must hold a token: strcmp on the NULL argv[0]
   * of an all-space line is undefined behaviour.
   */
  predicate Dispatchable(table: seq<Entry>, line: seq<byte>)
  {
    table != [] ==> |Tokens(line)| > 0
  }

  /** The handler a line reaches: the one registered under its first token. */
  function Target(table: seq<Entry>, line: seq<byte>): Option<nat>
  {
    var ts := Tokens(line);
    if table == [] || ts == [] then None else Lookup(table, ts[0])
  }

  /**
   * parse_std on the C string `line` with argument limit `cap`: one call of
   * the matching handler with (argc, argv) followed by display(), or the
   * "not recognised" message followed by display(). Terminal output is
   * gated by `echo`; the handler call is not.
   */
  function Dispatch(table: seq<Entry>, line: seq<byte>, cap: nat, echo: bool): (r: seq<Event>)
    requires cap >= 1 && Dispatchable(table, line)
    ensures Target(table, line).Some? ==>
              && |r| >= 1
              && r[0] == Invoke(Target(table, line).value, ArgCount(|Tokens(line)|, cap), ArgvOf(Tokens(line), cap))
              && r[1..] == Out(echo, DisplayEvents)
    ensures Target(table, line).None? ==> r == Out(echo, [NotRecognised, NewLine] + DisplayEvents)
    ensures Target(table, line).None? ==> forall k :: 0 <= k < |r| ==> IsOutput(r[k])
    ensures !echo ==> forall k :: 0 <= k < |r| ==> !IsOutput(r[k])
  {
    var ts := Tokens(line);
    var argv := ArgvOf(ts, cap);
    match Target(table, line)
    case Some(h) => [Invoke(h, ArgCount(|ts|, cap), argv)] + Out(echo, DisplayEvents)
    case None => Out(echo, [NotRecognised, NewLine] + DisplayEvents)
  }

  /**
   * The handler receives argv[0] = the command name it was registered
   * under, then the remaining tokens, and argc counts them.
   */
  lemma {:induction false} HandlerSeesItsName(adds: seq<Entry>, line: seq<byte>, cap: nat, echo: bool)
    requires cap >= 1 && Dispatchable(RegisterAll(adds), line)
    requires Target(RegisterAll(adds), line).Some?
    ensures var e := Dispatch(RegisterAll(adds), line, cap, echo)[0];
            && e.argc == |e.argv| >= 1
            && e.argv[0].Some?
            && (exists k :: 0 <= k < |adds| && CString(adds[k].name) == e.argv[0].value)
  {
    var ts := Tokens(line);
    ArgvHoldsTokens(ts, cap);
    LookupMeansAdded(adds, ts[0]);
  }

  /** parse_json: the callback gets the line when it has the brace shape, otherwise nothing happens. */
  function JsonEvents(json: Option<nat>, line: seq<byte>): (r: seq<Event>)
    requires JsonShaped(line) ==> json.Some?
    ensures |r| <= 1
    ensures r != [] <==> JsonShaped(line)
    ensures r != [] ==> r[0] == JsonMessage(json.value, line)
  {
    if JsonShaped(line) then [JsonMessage(json.value, line)] else []
  }

  /** Registering "add" and entering "add 3 4" calls its handler with argc 3 and argv "add", "3", "4", then redraws. */
  lemma AddThreeFourExample(h: nat)
    ensures var add: seq<byte> := [0x61, 0x64, 0x64];
            var line: seq<byte> := [0x61, 0x64, 0x64, SPACE, 0x33, SPACE, 0x34];
            Dispatch(Register([], add, h), line, CMD_MAX_ARGS, true)
              == [Invoke(h, 3, [Some(add), Some([0x33]), Some([0x34])]), NewLine, Banner, NewLine, Prompt]
  {
    var add: seq<byte> := [0x61, 0x64, 0x64];
    var line: seq<byte> := [0x61, 0x64, 0x64, SPACE, 0x33, SPACE, 0x34];
    AddExample();
    CStringNulFree(add);
    LookupAfterRegister([], add, h, add);
    var ts := Tokens(line);
    assert ArgvOf(ts, CMD_MAX_ARGS) == [Some(add), Some([0x33]), Some([0x34])];
  }

  /** An unknown command calls nothing and reports itself. */
  lemma UnknownCommandExample(h: nat)
    ensures var add: seq<byte> := [0x61, 0x64, 0x64];
            Dispatch(Register([], add, h), [0x73, 0x75, 0x62], CMD_MAX_ARGS, true)
              == [NotRecognised, NewLine, NewLine, Banner, NewLine, Prompt]
  {
    var add: seq<byte> := [0x61, 0x64, 0x64];
    var sub: seq<byte> := [0x73, 0x75, 0x62];
    TokensWord(sub);
    CStringNulFree(add);
    assert Register([], add, h) == [Entry(add, h)];
    assert Tokens(sub)[0] != add;
  }
}
