/**
 * The escape-sequence decoder of the command line as values: how a byte
 * other than ESC extends the accumulator `_esc_cmd` (handle_esc_cmd_char),
 * and how a completed sequence is classified (check_esc_cmd) by exact
 * match against cursor up, left, right and the Delete key.
 */
module EscapeSeq {
  import opened Defs

  /** The outcome of check_esc_cmd. */
  datatype EscCommand = EscUp | EscLeft | EscRight | EscDel | EscUnknown

  /**
   * check_esc_cmd: a C string of ESC_CMD_SIZE bytes is compared with the
   * three cursor sequences, any other with the Delete report. The result
   * names the one sequence the accumulated C string equals, if any.
   */
  function Classify(acc: seq<byte>): (r: EscCommand)
    ensures r == EscUp <==> CString(acc) == ESC_CMD_UP
    ensures r == EscLeft <==> CString(acc) == ESC_CMD_LEFT
    ensures r == EscRight <==> CString(acc) == ESC_CMD_RIGHT
    ensures r == EscDel <==> CString(acc) == ESC_CMD_DEL
  {
    var s := CString(acc);
    if |s| == ESC_CMD_SIZE then
      if s == ESC_CMD_UP then EscUp
      else if s == ESC_CMD_LEFT then EscLeft
      else if s == ESC_CMD_RIGHT then EscRight
      else EscUnknown
    else if s == ESC_CMD_DEL then EscDel
    else EscUnknown
  }

  /** Where a byte leaves the decoder: still collecting, or a completed sequence to classify. */
  datatype Fed = Pending(acc: seq<byte>, ext: bool) | Complete(acc: seq<byte>)

  /**
   * handle_esc_cmd_char for a byte other than ESC: append it; from
   * ESC_CMD_SIZE bytes on, a digit while the extended flag is clear sets
   * the flag and collection goes on, anything else completes the sequence.
   */
  function FeedByte(acc: seq<byte>, ext: bool, c: byte): (r: Fed)
    ensures r.acc == acc + [c]
    ensures r.Pending? && |acc| + 1 >= ESC_CMD_SIZE ==> !ext && r.ext
    ensures r.Pending? && |acc| + 1 < ESC_CMD_SIZE ==> r.ext == ext
  {
    var a := acc + [c];
    if |a| >= ESC_CMD_SIZE then
      if !ext && IsDigit(c) then Pending(a, true) else Complete(a)
    else Pending(a, ext)
  }

  /**
   * The bytes handle_esc_cmd_char stores stay inside the ESC_BUF_SIZE-byte
   * accumulator: the byte itself at index |acc| (an ESC too, via esc_key),
   * and the NUL written after a completed sequence.
   */
  predicate Fits(acc: seq<byte>, ext: bool, c: byte)
  {
    && |acc| < ESC_BUF_SIZE
    && (c != CLI_ASCII_ESC && FeedByte(acc, ext, c).Complete? ==> |acc| + 1 < ESC_BUF_SIZE)
  }

  /** The decoder appends, never drops, and completes only from ESC_CMD_SIZE bytes on. */
  lemma FeedAppends(acc: seq<byte>, ext: bool, c: byte)
    ensures FeedByte(acc, ext, c).acc == acc + [c]
    ensures FeedByte(acc, ext, c).Complete? ==> |acc| + 1 >= ESC_CMD_SIZE
    ensures FeedByte(acc, ext, c).Complete? <==>
              |acc| + 1 >= ESC_CMD_SIZE && !(!ext && IsDigit(c))
  {
  }

  /**
   * Each known sequence, fed byte by byte after its ESC with the extended
   * flag clear, is pending until its last byte and completes exactly there
   * with its own classification.
   */
  lemma KnownSequences()
    ensures FeedByte([CLI_ASCII_ESC], false, 0x5B) == Pending([CLI_ASCII_ESC, 0x5B], false)
    ensures FeedByte([CLI_ASCII_ESC, 0x5B], false, 0x41) == Complete(ESC_CMD_UP)
    ensures FeedByte([CLI_ASCII_ESC, 0x5B], false, 0x44) == Complete(ESC_CMD_LEFT)
    ensures FeedByte([CLI_ASCII_ESC, 0x5B], false, 0x43) == Complete(ESC_CMD_RIGHT)
    ensures FeedByte([CLI_ASCII_ESC, 0x5B], false, 0x33) == Pending([CLI_ASCII_ESC, 0x5B, 0x33], true)
    ensures FeedByte([CLI_ASCII_ESC, 0x5B, 0x33], true, 0x7E) == Complete(ESC_CMD_DEL)
    ensures Classify(ESC_CMD_UP) == EscUp && Classify(ESC_CMD_LEFT) == EscLeft
    ensures Classify(ESC_CMD_RIGHT) == EscRight && Classify(ESC_CMD_DEL) == EscDel
  {
    CStringNulFree(ESC_CMD_UP);
    CStringNulFree(ESC_CMD_LEFT);
    CStringNulFree(ESC_CMD_RIGHT);
    CStringNulFree(ESC_CMD_DEL);
  }

  /**
   * A completed sequence whose last byte is none of 'A', 'C', 'D', '~'
   * matches nothing: the byte that closes a sequence decides whether it is
   * a known one.
   */
  lemma {:induction false} UnknownUnlessKnownFinal(acc: seq<byte>, c: byte)
    requires 0 !in acc && c != 0
    requires c != 0x41 && c != 0x43 && c != 0x44 && c != 0x7E
    ensures Classify(acc + [c]) == EscUnknown
  {
    CStringNulFree(acc + [c]);
    var s := acc + [c];
    assert s[|s| - 1] == c;
  }

  /** A sequence that does not start with ESC [ matches nothing. */
  lemma NotCsiUnknown(acc: seq<byte>)
    requires 0 !in acc && |acc| >= 2 && acc[1] != 0x5B
    ensures Classify(acc) == EscUnknown
  {
    CStringNulFree(acc);
  }

  /**
   * While at most one ESC has been collected, the accumulator never needs
   * more than ESC_EXT_CMD_SIZE bytes: from a tame state (at most two bytes,
   * or three with the extended flag set) every non-ESC byte fits and leads
   * to a tame state or a completed sequence of at most four bytes.
   */
  lemma FeedTame(acc: seq<byte>, ext: bool, c: byte)
    requires |acc| <= 2 || (|acc| == 3 && ext)
    requires c != CLI_ASCII_ESC
    ensures Fits(acc, ext, c)
    ensures match FeedByte(acc, ext, c)
            case Pending(a, e) => |a| <= 2 || (|a| == 3 && e)
            case Complete(a) => |a| <= ESC_EXT_CMD_SIZE
  {
  }

  /**
   * A sequence that fits the accumulator is classified as the Delete key
   * only when it is exactly ESC [ 3 ~: no longer sequence with a NUL
   * after those bytes can reach check_esc_cmd.
   */
  lemma {:induction false} DeleteIsExact(acc: seq<byte>, ext: bool, c: byte)
    requires c != CLI_ASCII_ESC && Fits(acc, ext, c) && FeedByte(acc, ext, c).Complete?
    requires Classify(FeedByte(acc, ext, c).acc) == EscDel
    ensures acc + [c] == ESC_CMD_DEL
  {
    var a := acc + [c];
    assert FeedByte(acc, ext, c).acc == a;
    assert |a| <= ESC_EXT_CMD_SIZE;
    assert CString(a) == ESC_CMD_DEL;
    assert CString(a) <= a;
  }

  /**
   * Repeated ESCs are stored without a length check: once the accumulator
   * holds ESC_BUF_SIZE bytes no byte fits any more.
   */
  lemma FullAccumulatorOverruns(acc: seq<byte>, ext: bool, c: byte)
    requires |acc| == ESC_BUF_SIZE
    ensures !Fits(acc, ext, c)
  {
  }
}
