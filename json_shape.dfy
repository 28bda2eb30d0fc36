/**
 * The shape test parse_json applies to a completed line before handing it
 * to the JSON callback. It does not parse JSON: it only looks at where the
 * braces are, with strchr on the line as a C string.
 */
module JsonShape {
  import opened Defs

  const LBRACE: byte := 0x7B
  const RBRACE: byte := 0x7D

  /** strchr on a NUL-free string: the index of the first `b`, or NULL. */
  function Strchr(s: seq<byte>, b: byte): (r: Option<nat>)
    ensures r.None? <==> b !in s
    ensures r.Some? ==> r.value < |s| && s[r.value] == b && b !in s[..r.value]
  {
    if s == [] then None
    else if s[0] == b then Some(0)
    else match Strchr(s[1..], b)
      case None => None
      case Some(i) =>
        assert s[..i + 1] == [s[0]] + s[1..][..i];
        Some(i + 1)
  }

  /**
   * The three strchr tests of parse_json, in the order C evaluates them:
   * the first '{' is the first byte, there is no '{' after it, and the
   * first '}' is the last byte.
   */
  predicate JsonShaped(s: seq<byte>)
    ensures JsonShaped(s) ==> |s| >= 2 && s[0] == LBRACE && s[|s| - 1] == RBRACE
  {
    && Strchr(s, LBRACE) == Some(0)
    && Strchr(s[1..], LBRACE) == None
    && Strchr(s, RBRACE) == Some(|s| - 1)
  }

  /**
   * What the test accepts: at least two bytes, '{' first and '}' last, and
   * no other brace anywhere. A '}' before the end is rejected as well as a
   * second '{', so "{}}" is dropped although it starts with '{', ends with
   * '}' and has no second '{'.
   */
  lemma {:induction false} JsonShapedIff(s: seq<byte>)
    ensures JsonShaped(s) <==>
              && |s| >= 2
              && s[0] == LBRACE && s[|s| - 1] == RBRACE
              && LBRACE !in s[1..] && RBRACE !in s[..|s| - 1]
  {
    if |s| >= 1 && s[0] == LBRACE {
      assert s[..0] == [];
      if |s| == 1 {
        assert RBRACE !in s;
      }
    }
  }

  /** A flat object, {"k":1}, is forwarded. */
  lemma FlatObjectForwarded()
    ensures JsonShaped([LBRACE, 0x22, 0x6B, 0x22, 0x3A, 0x31, RBRACE])
  {
    var flat: seq<byte> := [LBRACE, 0x22, 0x6B, 0x22, 0x3A, 0x31, RBRACE];
    JsonShapedIff(flat);
    assert flat[1..] == [0x22, 0x6B, 0x22, 0x3A, 0x31, RBRACE];
    assert flat[..|flat| - 1] == [LBRACE, 0x22, 0x6B, 0x22, 0x3A, 0x31];
  }

  /** A nested object, {"k":{"x":1}}, is dropped: it has a second '{'. */
  lemma NestedObjectDropped()
    ensures !JsonShaped([LBRACE, 0x22, 0x6B, 0x22, 0x3A, LBRACE, 0x22, 0x78, 0x22, 0x3A, 0x31, RBRACE, RBRACE])
  {
    var nested: seq<byte> := [LBRACE, 0x22, 0x6B, 0x22, 0x3A, LBRACE, 0x22, 0x78, 0x22, 0x3A, 0x31, RBRACE, RBRACE];
    assert nested[1..][4] == LBRACE;
    assert Strchr(nested[1..], LBRACE).Some?;
  }

  /** Plain text, "not json", is dropped. */
  lemma PlainTextDropped()
    ensures !JsonShaped([0x6E, 0x6F, 0x74, SPACE, 0x6A, 0x73, 0x6F, 0x6E])
  {
    JsonShapedIff([0x6E, 0x6F, 0x74, SPACE, 0x6A, 0x73, 0x6F, 0x6E]);
  }

  /** "{}}" is dropped although it starts with '{', ends with '}' and has no second '{'. */
  lemma EarlyCloseDropped()
    ensures !JsonShaped([LBRACE, RBRACE, RBRACE])
  {
    var closing: seq<byte> := [LBRACE, RBRACE, RBRACE];
    JsonShapedIff(closing);
    assert closing[..2][1] == RBRACE;
  }
}
