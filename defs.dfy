/**
 * Bytes, buffer sizes, control characters and escape sequences of the
 * command line (src/cmdArduino.h), and the C-string view of a byte buffer.
 */
module Defs {

  /** An unsigned 8-bit value: a byte of the serial stream or of a buffer. */
  newtype byte = x: int | 0 <= x < 256

  datatype Option<T> = None | Some(value: T)

  function Min(a: nat, b: nat): nat { if a <= b then a else b }

  // Buffer sizes: the library defaults (a sketch may define others before
  // including the header; this model fixes the defaults).
  const CMD_MAX_MSG_SIZE: nat := 1024
  const CMD_MAX_ARGS: nat := 128

  // Control bytes.
  const CLI_ASCII_CR: byte := 0x0D
  const CLI_ASCII_LF: byte := 0x0A
  const CLI_ASCII_BS: byte := 0x08
  const CLI_ASCII_DEL: byte := 0x7F
  const CLI_ASCII_ESC: byte := 0x1B
  /** The only token delimiter of the command parser. */
  const SPACE: byte := 0x20

  // Escape sequences (ECMA-48 control sequences introduced by ESC [).
  const ESC_CMD_SIZE: nat := 3
  const ESC_EXT_CMD_SIZE: nat := 4
  /** Size of the escape accumulator: the longest sequence plus its NUL terminator. */
  const ESC_BUF_SIZE: nat := ESC_EXT_CMD_SIZE + 1

  /** CUU, cursor up: ESC [ A. */
  const ESC_CMD_UP: seq<byte> := [CLI_ASCII_ESC, 0x5B, 0x41]
  /** CUF, cursor forward: ESC [ C. */
  const ESC_CMD_RIGHT: seq<byte> := [CLI_ASCII_ESC, 0x5B, 0x43]
  /** CUB, cursor backward: ESC [ D. */
  const ESC_CMD_LEFT: seq<byte> := [CLI_ASCII_ESC, 0x5B, 0x44]
  /** The VT220-style report of the Delete key: ESC [ 3 ~. */
  const ESC_CMD_DEL: seq<byte> := [CLI_ASCII_ESC, 0x5B, 0x33, 0x7E]
  /** EL with parameter 0, erase to the end of the line: ESC [ 0 K. */
  const ESC_CMD_CLR_LINE_RIGHT: seq<byte> := [CLI_ASCII_ESC, 0x5B, 0x30, 0x4B]

  // Interface modes.
  const CLI_MODE_STD: byte := 0
  const CLI_MODE_JSON: byte := 1
  const CLI_MODE_JSON_MAN: byte := 2

  /** The modes whose completed lines go to the JSON shape check. */
  predicate IsJsonMode(m: byte) { m == CLI_MODE_JSON || m == CLI_MODE_JSON_MAN }

  /** isdigit: an ASCII decimal digit. */
  predicate IsDigit(b: byte) { 0x30 <= b <= 0x39 }

  /**
   * The C string a NUL-terminated buffer holds: its bytes up to, not
   * including, the first NUL (all of them if there is none). This is what
   * strlen, strcmp, strchr and strtok see.
   */
  function CString(s: seq<byte>): (r: seq<byte>)
    ensures r <= s
    ensures 0 !in r
    ensures |r| < |s| ==> s[|r|] == 0
  {
    if s == [] || s[0] == 0 then [] else [s[0]] + CString(s[1..])
  }

  /** The three cursor sequences are ESC_CMD_SIZE bytes long, the Delete report ESC_EXT_CMD_SIZE. */
  lemma SequenceSizes()
    ensures |ESC_CMD_UP| == |ESC_CMD_RIGHT| == |ESC_CMD_LEFT| == ESC_CMD_SIZE
    ensures |ESC_CMD_DEL| == ESC_EXT_CMD_SIZE < ESC_BUF_SIZE
    ensures 0 !in ESC_CMD_UP && 0 !in ESC_CMD_LEFT && 0 !in ESC_CMD_RIGHT && 0 !in ESC_CMD_DEL
  {
  }

  /** A buffer without NUL is its own C string. */
  lemma CStringNulFree(s: seq<byte>)
    requires 0 !in s
    ensures CString(s) == s
  {
  }

  /** A NUL ends the C string: what follows it is invisible. */
  lemma {:induction false} CStringTerminated(s: seq<byte>, t: seq<byte>)
    ensures CString(s + [0] + t) == CString(s)
  {
    if s != [] && s[0] != 0 {
      assert (s + [0] + t)[1..] == s[1..] + [0] + t;
      CStringTerminated(s[1..], t);
    }
  }
}
