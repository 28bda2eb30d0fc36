/**
 * What the command line sends to its stream, and the calls it makes into
 * user code, as a trace of events; plus a model of the terminal's cursor
 * column, used to state that redraws keep the terminal in step with the
 * line buffer's cursor.
 */
module Terminal {
  import opened Defs

  /**
   * One observable effect. Echo, Rubout and Control are bytes written to the
   * stream; NewLine, Banner, Prompt, NotRecognised and TooLong stand for the
   * fixed texts (the line break of println, the banner, the prompt, the
   * "command not recognized" message and the "command too long" error);
   * Invoke and JsonMessage record a call of a user handler (by an opaque
   * handler identity) with the arguments it received.
   */
  datatype Event =
    | Echo(b: byte)
    | Rubout(b: byte)
    | Control(s: seq<byte>)
    | NewLine
    | Banner
    | Prompt
    | NotRecognised
    | TooLong
    | Invoke(handler: nat, argc: nat, argv: seq<Option<seq<byte>>>)
    | JsonMessage(callback: nat, msg: seq<byte>)

  /** A terminal write: reaches the stream only while echo is on (cli_print). */
  predicate IsOutput(e: Event) { !e.Invoke? && !e.JsonMessage? }

  /** The gate of cli_print/cli_println: writes happen only while echo is on. */
  function Out(echo: bool, es: seq<Event>): (r: seq<Event>)
    ensures r == es <==> echo || es == []
    ensures r == [] <==> !echo || es == []
  {
    if echo then es else []
  }

  /** Gating a sequence of writes is gating each of them. */
  lemma OutAppend(echo: bool, a: seq<Event>, b: seq<Event>)
    ensures Out(echo, a + b) == Out(echo, a) + Out(echo, b)
  {
  }

  /** Appending to a trace, grouped either way. */
  lemma AppendAssoc(x: seq<Event>, y: seq<Event>, z: seq<Event>)
    ensures x + y + z == x + (y + z)
  {
  }

  /** Two gated writes in a row extend a trace as one gated write of both. */
  lemma WriteThen(t: seq<Event>, echo: bool, a: seq<Event>, b: seq<Event>)
    ensures t + Out(echo, a) + Out(echo, b) == t + Out(echo, a + b)
  {
    OutAppend(echo, a, b);
    AppendAssoc(t, Out(echo, a), Out(echo, b));
  }

  /** Each byte of `s` printed back, in order. */
  function EchoAll(s: seq<byte>): (r: seq<Event>)
    ensures |r| == |s|
  {
    if s == [] then [] else [Echo(s[0])] + EchoAll(s[1..])
  }

  /** `n` cursor-left sequences. */
  function Lefts(n: nat): (r: seq<Event>)
    ensures |r| == n
  {
    if n == 0 then [] else [Control(ESC_CMD_LEFT)] + Lefts(n - 1)
  }

  /** Printing one more byte extends the echo at its end. */
  lemma {:induction false} EchoAllAppend(s: seq<byte>, b: byte)
    ensures EchoAll(s + [b]) == EchoAll(s) + [Echo(b)]
  {
    if s != [] {
      assert (s + [b])[1..] == s[1..] + [b];
      EchoAllAppend(s[1..], b);
    }
  }

  /** Echoing the byte at `j` after the slice before it, into a trace. */
  lemma EchoThen(t: seq<Event>, echo: bool, s: seq<byte>, i: nat, j: nat)
    requires i <= j < |s|
    ensures t + Out(echo, EchoAll(s[i..j])) + Out(echo, [Echo(s[j])]) == t + Out(echo, EchoAll(s[i..j + 1]))
  {
    assert s[i..j + 1] == s[i..j] + [s[j]];
    EchoAllAppend(s[i..j], s[j]);
    WriteThen(t, echo, EchoAll(s[i..j]), [Echo(s[j])]);
  }

  /** One more cursor-left at the end. */
  lemma {:induction false} LeftsAppend(n: nat)
    ensures Lefts(n + 1) == Lefts(n) + [Control(ESC_CMD_LEFT)]
  {
    if n > 0 {
      LeftsAppend(n - 1);
    }
  }

  /** One more cursor-left written after `i` of them. */
  lemma LeftThen(t0: seq<Event>, t1: seq<Event>, t2: seq<Event>, echo: bool, i: nat)
    requires t1 == t0 + Out(echo, Lefts(i))
    requires t2 == t1 + Out(echo, [Control(ESC_CMD_LEFT)])
    ensures t2 == t0 + Out(echo, Lefts(i + 1))
  {
    LeftsAppend(i);
    WriteThen(t0, echo, Lefts(i), [Control(ESC_CMD_LEFT)]);
  }

  /**
   * How many columns an event moves the terminal's cursor: a printed byte
   * one to the right, a rubout or a cursor-left one to the left, a
   * cursor-right one to the right; clearing to the end of the line does not
   * move it. Two assumptions about the terminal are built in: every echoed
   * byte advances one column (control bytes and bytes from 0x80 up
   * included), and an echoed erase byte, BS or DEL, steps one column back.
   */
  function Move(e: Event): int
  {
    match e
    case Echo(_) => 1
    case Rubout(_) => -1
    case Control(s) => if s == ESC_CMD_LEFT then -1 else if s == ESC_CMD_RIGHT then 1 else 0
    case _ => 0
  }

  /** Net movement of the terminal's cursor over a trace of edits. */
  function Moves(es: seq<Event>): int
  {
    if es == [] then 0 else Move(es[0]) + Moves(es[1..])
  }

  /** Number of cursor-left sequences in a trace. */
  function CountLefts(es: seq<Event>): nat
  {
    if es == [] then 0 else (if es[0] == Control(ESC_CMD_LEFT) then 1 else 0) + CountLefts(es[1..])
  }

  lemma {:induction false} MovesAppend(a: seq<Event>, b: seq<Event>)
    ensures Moves(a + b) == Moves(a) + Moves(b)
    ensures CountLefts(a + b) == CountLefts(a) + CountLefts(b)
  {
    if a == [] {
      assert a + b == b;
    } else {
      assert (a + b)[0] == a[0];
      assert (a + b)[1..] == a[1..] + b;
      MovesAppend(a[1..], b);
    }
  }

  /** Printing `s` moves the cursor |s| columns right and emits no cursor-left. */
  lemma {:induction false} MovesEchoAll(s: seq<byte>)
    ensures Moves(EchoAll(s)) == |s|
    ensures CountLefts(EchoAll(s)) == 0
  {
    if s != [] {
      MovesEchoAll(s[1..]);
      MovesAppend([Echo(s[0])], EchoAll(s[1..]));
    }
  }

  /** `n` cursor-left sequences move the cursor `n` columns left. */
  lemma {:induction false} MovesLefts(n: nat)
    ensures Moves(Lefts(n)) == -(n as int)
    ensures CountLefts(Lefts(n)) == n
  {
    if n > 0 {
      MovesLefts(n - 1);
      MovesAppend([Control(ESC_CMD_LEFT)], Lefts(n - 1));
    }
  }
}
