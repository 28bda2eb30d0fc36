/**
 * The line buffer of the command line as values: the text typed so far and
 * the cursor inside it, the edits standard_key, esc_cmd_del, backspace,
 * esc_cmd_left and esc_cmd_right make to them (src/cmdArduino.cpp), and the
 * bytes each edit writes to redraw the terminal line.
 */
module LineEdit {
  import opened Defs
  import opened Terminal

  /** The valid part of `msg` (length = msg_ptr - msg) and the cursor (_cursor_ptr - msg). */
  datatype Line = Line(text: seq<byte>, cursor: nat)

  /** The buffer invariant 0 <= cursor <= length <= CMD_MAX_MSG_SIZE - 1. */
  predicate Valid(l: Line)
  {
    l.cursor <= |l.text| <= CMD_MAX_MSG_SIZE - 1
  }

  const Empty: Line := Line([], 0)

  /** standard_key refuses a byte when the line holds CMD_MAX_MSG_SIZE - 1 bytes. */
  predicate Full(l: Line)
  {
    |l.text| == CMD_MAX_MSG_SIZE - 1
  }

  /** standard_key below capacity: `c` goes in at the cursor and the cursor moves past it. */
  function Insert(l: Line, c: byte): (r: Line)
    requires l.cursor <= |l.text|
    ensures |r.text| == |l.text| + 1 && r.cursor == l.cursor + 1
  {
    Line(l.text[..l.cursor] + [c] + l.text[l.cursor..], l.cursor + 1)
  }

  /**
   * What standard_key writes: the byte alone at the end of the line;
   * otherwise clear to end of line, reprint from the old cursor to the new
   * end, then one cursor-left fewer than the bytes reprinted.
   */
  function InsertRedraw(l: Line, c: byte): (r: seq<Event>)
    requires l.cursor <= |l.text|
    ensures l.cursor == |l.text| ==> r == [Echo(c)]
    ensures l.cursor < |l.text| ==> |r| == 2 * (|l.text| - l.cursor) + 2
  {
    if l.cursor == |l.text| then [Echo(c)]
    else
      var r := Insert(l, c);
      var printed := |r.text| - l.cursor;
      [Control(ESC_CMD_CLR_LINE_RIGHT)] + EchoAll(r.text[l.cursor..]) + Lefts(printed - 1)
  }

  /** esc_cmd_del: the byte at the cursor goes; at the end of the line nothing changes. */
  function Delete(l: Line): (r: Line)
    requires l.cursor <= |l.text|
    ensures r.cursor == l.cursor
    ensures l.cursor < |l.text| ==> |r.text| == |l.text| - 1
    ensures l.cursor == |l.text| ==> r == l
  {
    if l.cursor < |l.text| then Line(l.text[..l.cursor] + l.text[l.cursor + 1..], l.cursor) else l
  }

  /** What esc_cmd_del writes: clear to end of line, reprint the rest, walk back over all of it. */
  function DeleteRedraw(l: Line): (r: seq<Event>)
    requires l.cursor <= |l.text|
    ensures |r| == 2 * (|Delete(l).text| - l.cursor) + 1
  {
    var r := Delete(l);
    var printed := |r.text| - r.cursor;
    [Control(ESC_CMD_CLR_LINE_RIGHT)] + EchoAll(r.text[r.cursor..]) + Lefts(printed)
  }

  /**
   * backspace: nothing at the start of the line; at the end the last byte
   * goes; in the middle the cursor steps left and the byte there is deleted.
   */
  function Backspace(l: Line): (r: Line)
    requires l.cursor <= |l.text|
    ensures l.cursor == 0 ==> r == l
    ensures l.cursor > 0 ==> r.cursor == l.cursor - 1 && |r.text| == |l.text| - 1
  {
    if l.cursor == 0 then l
    else if l.cursor == |l.text| then Line(l.text[..|l.text| - 1], l.cursor - 1)
    else Delete(Line(l.text, l.cursor - 1))
  }

  /** What backspace writes: the erase byte `bs` at the end of the line, otherwise a cursor-left and the delete redraw. */
  function BackspaceRedraw(l: Line, bs: byte): (r: seq<Event>)
    requires l.cursor <= |l.text|
    ensures r == [] <==> l.cursor == 0
    ensures 0 < l.cursor == |l.text| ==> r == [Rubout(bs)]
    ensures 0 < l.cursor < |l.text| ==> |r| == 2 * (|l.text| - l.cursor) + 2
  {
    if l.cursor == 0 then []
    else if l.cursor == |l.text| then [Rubout(bs)]
    else [Control(ESC_CMD_LEFT)] + DeleteRedraw(Line(l.text, l.cursor - 1))
  }

  /** esc_cmd_left: one step left unless at the start. */
  function Left(l: Line): (r: Line)
    ensures r.text == l.text
    ensures l.cursor > 0 ==> r.cursor + 1 == l.cursor
    ensures l.cursor == 0 ==> r == l
  {
    if l.cursor > 0 then l.(cursor := l.cursor - 1) else l
  }

  /** esc_cmd_left writes one cursor-left exactly when it moves. */
  function LeftRedraw(l: Line): (r: seq<Event>)
    ensures r == [] <==> Left(l) == l
    ensures r != [] ==> r == [Control(ESC_CMD_LEFT)]
  {
    if l.cursor > 0 then [Control(ESC_CMD_LEFT)] else []
  }

  /** esc_cmd_right: one step right unless at the end. */
  function Right(l: Line): (r: Line)
    ensures r.text == l.text
    ensures l.cursor != |l.text| ==> r.cursor == l.cursor + 1
    ensures l.cursor == |l.text| ==> r == l
  {
    if |l.text| != l.cursor then l.(cursor := l.cursor + 1) else l
  }

  /** esc_cmd_right writes one cursor-right exactly when it moves. */
  function RightRedraw(l: Line): (r: seq<Event>)
    ensures r == [] <==> Right(l) == l
    ensures r != [] ==> r == [Control(ESC_CMD_RIGHT)]
  {
    if |l.text| != l.cursor then [Control(ESC_CMD_RIGHT)] else []
  }

  // ---------------------------------------------------------------------
  // The buffer invariant

  /** Every edit keeps 0 <= cursor <= length <= CMD_MAX_MSG_SIZE - 1 (Insert only below capacity). */
  lemma EditsKeepValid(l: Line, c: byte)
    requires Valid(l)
    ensures !Full(l) ==> Valid(Insert(l, c)) && |Insert(l, c).text| == |l.text| + 1
    ensures Valid(Delete(l)) && Valid(Backspace(l)) && Valid(Left(l)) && Valid(Right(l))
  {
  }

  // ---------------------------------------------------------------------
  // What the edits mean

  /** Insertion puts exactly `c` at the old cursor and keeps every other byte in order. */
  lemma InsertAt(l: Line, c: byte)
    requires l.cursor <= |l.text|
    ensures |Insert(l, c).text| == |l.text| + 1
    ensures Insert(l, c).text[l.cursor] == c
    ensures forall i :: 0 <= i < l.cursor ==> Insert(l, c).text[i] == l.text[i]
    ensures forall i :: l.cursor <= i < |l.text| ==> Insert(l, c).text[i + 1] == l.text[i]
  {
  }

  /**
   * How each redraw starts: an insertion inside the line clears to the end
   * of the line and prints `c` first; a deletion clears first; a backspace
   * inside the line steps left and then clears.
   */
  lemma RedrawOpenings(l: Line, c: byte, bs: byte)
    requires l.cursor <= |l.text|
    ensures l.cursor < |l.text| ==>
              InsertRedraw(l, c)[0] == Control(ESC_CMD_CLR_LINE_RIGHT) && InsertRedraw(l, c)[1] == Echo(c)
    ensures DeleteRedraw(l)[0] == Control(ESC_CMD_CLR_LINE_RIGHT)
    ensures 0 < l.cursor < |l.text| ==>
              BackspaceRedraw(l, bs)[0] == Control(ESC_CMD_LEFT) && BackspaceRedraw(l, bs)[1] == Control(ESC_CMD_CLR_LINE_RIGHT)
  {
  }

  /** A sequence that agrees with the inserted text at every index is the inserted text. */
  lemma InsertByIndex(l: Line, c: byte, t: seq<byte>)
    requires l.cursor <= |l.text| && |t| == |l.text| + 1
    requires forall i :: 0 <= i < l.cursor ==> t[i] == l.text[i]
    requires t[l.cursor] == c
    requires forall i :: l.cursor < i < |t| ==> t[i] == l.text[i - 1]
    ensures t == Insert(l, c).text
  {
  }

  /** A sequence that agrees with the text after deletion at every index is that text. */
  lemma DeleteByIndex(l: Line, t: seq<byte>)
    requires l.cursor < |l.text| && |t| == |l.text| - 1
    requires forall i :: 0 <= i < l.cursor ==> t[i] == l.text[i]
    requires forall i :: l.cursor <= i < |t| ==> t[i] == l.text[i + 1]
    ensures t == Delete(l).text
  {
  }

  /** Deletion drops exactly the byte at the cursor; the cursor stays. */
  lemma DeleteAt(l: Line)
    requires l.cursor <= |l.text|
    ensures Delete(l).cursor == l.cursor
    ensures l.cursor < |l.text| ==> |Delete(l).text| == |l.text| - 1
    ensures l.cursor < |l.text| ==> forall i :: 0 <= i < |l.text| - 1 ==>
              Delete(l).text[i] == (if i < l.cursor then l.text[i] else l.text[i + 1])
    ensures l.cursor == |l.text| ==> Delete(l) == l
  {
  }

  /** Backspace removes the byte before the cursor and moves the cursor onto it. */
  lemma BackspaceAt(l: Line)
    requires l.cursor <= |l.text|
    ensures l.cursor == 0 ==> Backspace(l) == l
    ensures l.cursor > 0 ==> Backspace(l) == Delete(Line(l.text, l.cursor - 1))
  {
  }

  /** A key followed by backspace restores text and cursor. */
  lemma InsertThenBackspace(l: Line, c: byte)
    requires l.cursor <= |l.text|
    ensures Backspace(Insert(l, c)) == l
  {
    var r := Insert(l, c);
    if l.cursor == |l.text| {
      assert r.text[..|r.text| - 1] == l.text;
    } else {
      assert r.text[..l.cursor] + r.text[l.cursor + 1..] == l.text;
    }
  }

  /** Inserting then deleting at the old cursor position restores text and length. */
  lemma InsertThenDelete(l: Line, c: byte)
    requires l.cursor <= |l.text|
    ensures Delete(Line(Insert(l, c).text, l.cursor)) == l
  {
    var r := Insert(l, c);
    assert r.text[..l.cursor] + r.text[l.cursor + 1..] == l.text;
  }

  /** Right undoes Left and Left undoes Right wherever the move happens. */
  lemma LeftRightInverse(l: Line)
    requires l.cursor <= |l.text|
    ensures l.cursor > 0 ==> Right(Left(l)) == l
    ensures l.cursor < |l.text| ==> Left(Right(l)) == l
    ensures Left(l).text == l.text && Right(l).text == l.text
  {
  }

  // ---------------------------------------------------------------------
  // The terminal cursor stays in step with the buffer cursor

  /** After an insertion's redraw the terminal cursor has moved exactly as the buffer cursor did. */
  lemma {:induction false} InsertRedrawInSync(l: Line, c: byte)
    requires l.cursor <= |l.text|
    ensures Moves(InsertRedraw(l, c)) == Insert(l, c).cursor - l.cursor
  {
    if l.cursor < |l.text| {
      var r := Insert(l, c);
      var tail := r.text[l.cursor..];
      MovesEchoAll(tail);
      MovesLefts(|tail| - 1);
      MovesAppend([Control(ESC_CMD_CLR_LINE_RIGHT)], EchoAll(tail));
      MovesAppend([Control(ESC_CMD_CLR_LINE_RIGHT)] + EchoAll(tail), Lefts(|tail| - 1));
    }
  }

  /** After a delete's redraw the terminal cursor is back where it was, like the buffer cursor. */
  lemma {:induction false} DeleteRedrawInSync(l: Line)
    requires l.cursor <= |l.text|
    ensures Moves(DeleteRedraw(l)) == 0 == Delete(l).cursor - l.cursor
  {
    var r := Delete(l);
    var tail := r.text[r.cursor..];
    MovesEchoAll(tail);
    MovesLefts(|tail|);
    MovesAppend([Control(ESC_CMD_CLR_LINE_RIGHT)], EchoAll(tail));
    MovesAppend([Control(ESC_CMD_CLR_LINE_RIGHT)] + EchoAll(tail), Lefts(|tail|));
  }

  /** Backspace moves the terminal cursor exactly as it moves the buffer cursor. */
  lemma {:induction false} BackspaceRedrawInSync(l: Line, bs: byte)
    requires l.cursor <= |l.text|
    ensures Moves(BackspaceRedraw(l, bs)) == Backspace(l).cursor - l.cursor
  {
    if 0 < l.cursor < |l.text| {
      var m := Line(l.text, l.cursor - 1);
      DeleteRedrawInSync(m);
      MovesAppend([Control(ESC_CMD_LEFT)], DeleteRedraw(m));
    }
  }

  /** The arrow keys move the terminal cursor exactly as they move the buffer cursor. */
  lemma ArrowRedrawInSync(l: Line)
    ensures Moves(LeftRedraw(l)) == Left(l).cursor - l.cursor
    ensures Moves(RightRedraw(l)) == Right(l).cursor - l.cursor
  {
  }

  /**
   * After a mid-line insert or delete the redraw walks back with exactly
   * length - cursor cursor-left sequences, counted after the edit.
   */
  lemma {:induction false} RedrawLeftCount(l: Line, c: byte)
    requires l.cursor < |l.text|
    ensures CountLefts(InsertRedraw(l, c)) == |Insert(l, c).text| - Insert(l, c).cursor
    ensures CountLefts(DeleteRedraw(l)) == |Delete(l).text| - Delete(l).cursor
  {
    var r := Insert(l, c);
    var tail := r.text[l.cursor..];
    MovesEchoAll(tail);
    MovesLefts(|tail| - 1);
    MovesAppend([Control(ESC_CMD_CLR_LINE_RIGHT)], EchoAll(tail));
    MovesAppend([Control(ESC_CMD_CLR_LINE_RIGHT)] + EchoAll(tail), Lefts(|tail| - 1));
    var d := Delete(l);
    var rest := d.text[d.cursor..];
    MovesEchoAll(rest);
    MovesLefts(|rest|);
    MovesAppend([Control(ESC_CMD_CLR_LINE_RIGHT)], EchoAll(rest));
    MovesAppend([Control(ESC_CMD_CLR_LINE_RIGHT)] + EchoAll(rest), Lefts(|rest|));
  }

  // ---------------------------------------------------------------------
  // The cursor-left loops as written count with a uint8_t

  /** The value of a uint8_t loop counter after `k` increments from 0. */
  function Uint8Counter(k: nat): (r: nat)
    ensures r == k % 256
  {
    if k == 0 then 0 else (Uint8Counter(k - 1) + 1) % 256
  }

  /**
   * Such bounds occur on valid lines: inserting with 256 or more bytes
   * after the cursor asks for 256 or more cursor-left sequences (a line of
   * at most CMD_MAX_MSG_SIZE - 1 = 1023 bytes allows it).
   */
  lemma {:induction false} LongTailOverflowsUint8(l: Line, c: byte)
    requires Valid(l) && !Full(l)
    requires |l.text| - l.cursor >= 256
    ensures CountLefts(InsertRedraw(l, c)) >= 256
  {
    RedrawLeftCount(l, c);
  }

  /**
   * The same holds for the Delete key (and a backspace in the middle of
   * the line): with 257 or more bytes from the cursor on, 256 or more
   * bytes are reprinted and walked back over.
   */
  lemma {:induction false} LongTailOverflowsUint8OnDelete(l: Line)
    requires Valid(l)
    requires |l.text| - l.cursor >= 257
    ensures CountLefts(DeleteRedraw(l)) >= 256
  {
    RedrawLeftCount(l, 0);
  }

  /**
   * standard_key's walk-back loop as written: with 256 or more bytes after
   * the cursor, a uint8_t counter is below the number of cursor-left
   * writes the redraw needs after any number of iterations, so the loop
   * `for (uint8_t i = 0; i < chars_printed - 1; i++)` never ends.
   */
  lemma InsertWalkBackNeverEnds(l: Line, c: byte)
    requires Valid(l) && !Full(l) && |l.text| - l.cursor >= 256
    ensures forall k: nat :: Uint8Counter(k) < CountLefts(InsertRedraw(l, c))
  {
    LongTailOverflowsUint8(l, c);
  }

  /** esc_cmd_del's walk-back loop as written never ends once 256 or more bytes follow the deleted one. */
  lemma DeleteWalkBackNeverEnds(l: Line)
    requires Valid(l) && |l.text| - l.cursor >= 257
    ensures forall k: nat :: Uint8Counter(k) < CountLefts(DeleteRedraw(l))
  {
    LongTailOverflowsUint8OnDelete(l);
  }

  /** A valid, not full line with 256 bytes after the cursor exists. */
  lemma LongTailExists()
    ensures var l := Line(seq(256, i => 0x61), 0); Valid(l) && !Full(l) && |l.text| - l.cursor >= 256
  {
  }

  // ---------------------------------------------------------------------
  // The redraws as written, one write after the other

  /** The writes standard_key makes in the middle of the line, in the order it makes them. */
  lemma InsertWrites(t0: seq<Event>, t1: seq<Event>, t2: seq<Event>, echo: bool, l: Line, c: byte, tail: seq<byte>)
    requires l.cursor < |l.text| && tail == Insert(l, c).text[l.cursor..]
    requires t1 == t0 + Out(echo, [Control(ESC_CMD_CLR_LINE_RIGHT)] + EchoAll(tail))
    requires t2 == t1 + Out(echo, Lefts(|tail| - 1))
    ensures t2 == t0 + Out(echo, InsertRedraw(l, c))
  {
    var a := [Control(ESC_CMD_CLR_LINE_RIGHT)] + EchoAll(tail);
    InsertRedrawParts(l, c, tail);
    WriteThen(t0, echo, a, Lefts(|tail| - 1));
  }

  /** After an insertion inside the line, at least the new byte and the one it pushed right follow the old cursor. */
  lemma InsertTail(l: Line, c: byte, text: seq<byte>)
    requires l.cursor < |l.text| && text == Insert(l, c).text
    ensures l.cursor <= |text| && |text[l.cursor..]| > 1
  {
  }

  /** The redraw of an insertion inside the line is the reprint of `tail` followed by the walk back. */
  lemma InsertRedrawParts(l: Line, c: byte, tail: seq<byte>)
    requires l.cursor < |l.text| && tail == Insert(l, c).text[l.cursor..]
    ensures |tail| >= 1
    ensures InsertRedraw(l, c) == [Control(ESC_CMD_CLR_LINE_RIGHT)] + EchoAll(tail) + Lefts(|tail| - 1)
  {
    assert |tail| - 1 == |Insert(l, c).text| - l.cursor - 1;
  }

  /** The writes esc_cmd_del makes, in the order it makes them. */
  lemma DeleteWrites(t0: seq<Event>, t1: seq<Event>, t2: seq<Event>, echo: bool, l: Line, printed: nat)
    requires l.cursor <= |l.text| && printed == |Delete(l).text| - l.cursor
    requires t1 == t0 + Out(echo, [Control(ESC_CMD_CLR_LINE_RIGHT)] + EchoAll(Delete(l).text[l.cursor..]))
    requires t2 == t1 + Out(echo, Lefts(printed))
    ensures t2 == t0 + Out(echo, DeleteRedraw(l))
  {
    var a := [Control(ESC_CMD_CLR_LINE_RIGHT)] + EchoAll(Delete(l).text[l.cursor..]);
    OutAppend(echo, a, Lefts(printed));
    AppendAssoc(t0, Out(echo, a), Out(echo, Lefts(printed)));
  }
}
