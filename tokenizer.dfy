/**
 * The tokenizer of parse_std / parse: successive strtok(…, " ") calls
 * split a completed line at single spaces, and a do-while loop stores the
 * tokens into `argv` until a NULL comes back or the argument limit is
 * reached (src/cmdArduino.cpp, cmdArduino.cpp).
 */
module Tokenizer {
  import opened Defs

  /** The first index at or after `i` that is a space (or |s|). */
  function TokenEnd(s: seq<byte>, i: nat): (j: nat)
    requires i <= |s|
    ensures i <= j <= |s|
    ensures j < |s| ==> s[j] == SPACE
    ensures forall k :: i <= k < j ==> s[k] != SPACE
    decreases |s| - i
  {
    if i == |s| || s[i] == SPACE then i else TokenEnd(s, i + 1)
  }

  /**
   * One strtok(…, " ") call on what is left of the string: leading spaces
   * are skipped; if nothing is left, NULL (and nothing is left afterwards
   * either); otherwise the token runs to the next space, which is
   * overwritten by the terminator, and the next call starts after it.
   */
  function Strtok(s: seq<byte>): (r: (Option<seq<byte>>, seq<byte>))
    ensures r.0.None? ==> r.1 == []
    ensures r.0.Some? ==> r.0.value != [] && SPACE !in r.0.value && |r.1| < |s|
    decreases |s|
  {
    if s == [] then (None, [])
    else if s[0] == SPACE then Strtok(s[1..])
    else
      var j := TokenEnd(s, 0);
      (Some(s[..j]), if j < |s| then s[j + 1..] else [])
  }

  /** All the tokens successive strtok calls return, in order. */
  function Tokens(s: seq<byte>): (r: seq<seq<byte>>)
    ensures |r| <= |s|
    decreases |s|
  {
    var r := Strtok(s);
    if r.0.None? then [] else [r.0.value] + Tokens(r.1)
  }

  /** Every token is a non-empty run of non-space bytes. */
  lemma {:induction false} TokensAreWords(s: seq<byte>)
    ensures forall k :: 0 <= k < |Tokens(s)| ==> Tokens(s)[k] != [] && SPACE !in Tokens(s)[k]
    decreases |s|
  {
    var r := Strtok(s);
    if r.0.Some? {
      TokensAreWords(r.1);
      assert Tokens(s) == [r.0.value] + Tokens(r.1);
    }
  }

  // ---------------------------------------------------------------------
  // What Tokens means: words split at single spaces, empty runs dropped

  /** A leading space changes nothing. */
  lemma TokensLeadingSpace(b: seq<byte>)
    ensures Tokens([SPACE] + b) == Tokens(b)
  {
    assert ([SPACE] + b)[1..] == b;
  }

  /** A token that ends before the end of `a` ends at the same place in `a + t`, and one that reaches the end of `a` stops at a space that follows. */
  lemma {:induction false} TokenEndPrefix(a: seq<byte>, t: seq<byte>, i: nat)
    requires i <= |a|
    requires TokenEnd(a, i) < |a| || (t != [] && t[0] == SPACE)
    ensures TokenEnd(a + t, i) == TokenEnd(a, i)
    decreases |a| - i
  {
    if i < |a| && a[i] != SPACE {
      assert (a + t)[i] == a[i];
      TokenEndPrefix(a, t, i + 1);
    } else if i == |a| {
      assert (a + t)[i] == t[0];
    } else {
      assert (a + t)[i] == a[i];
    }
  }

  /** A line made only of spaces has no tokens. */
  lemma TokensBlank(s: seq<byte>)
    requires forall k :: 0 <= k < |s| ==> s[k] == SPACE
    ensures Tokens(s) == []
  {
  }

  /** A non-empty word without spaces is one token. */
  lemma {:induction false} TokensWord(w: seq<byte>)
    requires w != [] && SPACE !in w
    ensures Tokens(w) == [w]
  {
    assert w[0] != SPACE;
    assert TokenEnd(w, 0) == |w|;
    assert w[0..|w|] == w;
    assert Strtok(w) == (Some(w), []);
    assert Tokens([]) == [];
  }

  /** The first token of a word-initial `a` is the same in `a + [SPACE] + b`; the rest follows it. */
  lemma {:induction false} TokensWordPrefix(a: seq<byte>, b: seq<byte>, e: nat)
    requires a != [] && a[0] != SPACE && e == TokenEnd(a, 0)
    ensures e < |a| ==> Tokens(a) == [a[..e]] + Tokens(a[e + 1..])
    ensures e < |a| ==> Tokens(a + [SPACE] + b) == [a[..e]] + Tokens(a[e + 1..] + [SPACE] + b)
    ensures e == |a| ==> Tokens(a) == [a]
    ensures e == |a| ==> Tokens(a + [SPACE] + b) == [a] + Tokens(b)
  {
    var s := a + [SPACE] + b;
    assert s[0] == a[0];
    assert s == a + ([SPACE] + b);
    TokenEndPrefix(a, [SPACE] + b, 0);
    assert s[0..e] == a[..e];
    if e < |a| {
      assert s[e + 1..] == a[e + 1..] + [SPACE] + b;
    } else {
      assert a[..e] == a;
      assert s[e + 1..] == b;
      assert Tokens([]) == [];
    }
  }

  /** A leading space of `a` is dropped, with or without a tail. */
  lemma TokensDropSpace(a: seq<byte>, b: seq<byte>)
    requires a != [] && a[0] == SPACE
    ensures Tokens(a) == Tokens(a[1..])
    ensures Tokens(a + [SPACE] + b) == Tokens(a[1..] + [SPACE] + b)
  {
    assert a + [SPACE] + b == [SPACE] + (a[1..] + [SPACE] + b);
    assert a == [SPACE] + a[1..];
    TokensLeadingSpace(a[1..] + [SPACE] + b);
    TokensLeadingSpace(a[1..]);
  }

  /** Splitting at a space: the tokens of `a`, then those of `b`. */
  lemma {:induction false} TokensSplit(a: seq<byte>, b: seq<byte>)
    ensures Tokens(a + [SPACE] + b) == Tokens(a) + Tokens(b)
    decreases |a|, 1
  {
    if a == [] {
      assert a + [SPACE] + b == [SPACE] + b;
      TokensLeadingSpace(b);
      assert Tokens(a) == [];
    } else if a[0] == SPACE {
      TokensDropSpace(a, b);
      TokensSplit(a[1..], b);
    } else {
      TokensSplitWord(a, b);
    }
  }

  /** Putting a token in front of two lists, grouped either way. */
  lemma ConsAssoc(t: seq<byte>, x: seq<seq<byte>>, y: seq<seq<byte>>)
    ensures [t] + (x + y) == [t] + x + y
  {
  }

  /** TokensSplit when `a` starts with a token. */
  lemma {:induction false} TokensSplitWord(a: seq<byte>, b: seq<byte>)
    requires a != [] && a[0] != SPACE
    ensures Tokens(a + [SPACE] + b) == Tokens(a) + Tokens(b)
    decreases |a|, 0
  {
    var e := TokenEnd(a, 0);
    TokensWordPrefix(a, b, e);
    if e < |a| {
      TokensSplit(a[e + 1..], b);
      ConsAssoc(a[..e], Tokens(a[e + 1..]), Tokens(b));
    }
  }

  // ---------------------------------------------------------------------
  // The argv loop

  /**
   * The argc the do-while loop leaves: the number of tokens capped at
   * `cap`, except that a line without tokens still counts one (a NULL
   * argv[0]).
   */
  function ArgCount(n: nat, cap: nat): (r: nat)
    ensures cap >= 1 ==> 1 <= r <= cap
    ensures 0 < n <= cap ==> r == n
    ensures n == 0 ==> r == 1
    ensures n > cap ==> r == cap
  {
    if n == 0 then 1 else Min(n, cap)
  }

  /** argv slot `j`: the j-th token, or NULL past the last one. */
  function Nth(ts: seq<seq<byte>>, j: int): Option<seq<byte>>
  {
    if 0 <= j < |ts| then Some(ts[j]) else None
  }

  /** The first argc slots of argv. */
  function ArgvOf(ts: seq<seq<byte>>, cap: nat): (r: seq<Option<seq<byte>>>)
    ensures |r| == ArgCount(|ts|, cap)
    ensures forall j :: 0 <= j < |r| ==> (r[j].Some? <==> j < |ts|)
    ensures forall j :: 0 <= j < |r| && j < |ts| ==> r[j] == Some(ts[j])
  {
    seq(ArgCount(|ts|, cap), j => Nth(ts, j))
  }

  /** With at least one token, argv holds the first argc tokens in order; otherwise a single NULL. */
  lemma ArgvHoldsTokens(ts: seq<seq<byte>>, cap: nat)
    requires cap >= 1
    ensures |ts| > 0 ==> |ArgvOf(ts, cap)| == Min(|ts|, cap)
    ensures |ts| > 0 ==> forall j :: 0 <= j < Min(|ts|, cap) ==> ArgvOf(ts, cap)[j] == Some(ts[j])
    ensures |ts| == 0 ==> ArgvOf(ts, cap) == [None]
    ensures 1 <= |ArgvOf(ts, cap)| <= cap
  {
  }

  /** strtok on a remainder holding tokens k.. of `ts` returns token k (NULL past the end) and leaves the ones after it. */
  lemma StrtokNext(rest: seq<byte>, ts: seq<seq<byte>>, k: nat)
    requires Tokens(rest) == ts[Min(k, |ts|)..]
    ensures Strtok(rest).0 == Nth(ts, k)
    ensures Tokens(Strtok(rest).1) == ts[Min(k + 1, |ts|)..]
  {
    var r := Strtok(rest);
    if r.0.None? {
      assert Tokens([]) == [];
    } else {
      assert ts[k..][1..] == ts[k + 1..];
    }
  }

  /**
   * parse_std's argv loop over an argv array of `size` slots: argv[0] is
   * the first strtok result; the do-while stores further results until one
   * is NULL or `cap` is reached. Slot argc is always written, so the array
   * needs argc + 1 slots.
   */
  method SplitArgs(line: seq<byte>, cap: nat, size: nat) returns (argc: nat, argv: seq<Option<seq<byte>>>)
    requires cap >= 1
    requires ArgCount(|Tokens(line)|, cap) < size
    ensures argc == ArgCount(|Tokens(line)|, cap)
    ensures argv == ArgvOf(Tokens(line), cap)
  {
    ghost var ts := Tokens(line);
    var slots: seq<Option<seq<byte>>> := seq(size, _ => None);
    assert ts[Min(0, |ts|)..] == ts;
    StrtokNext(line, ts, 0);
    var r := Strtok(line);
    slots := slots[0 := r.0];
    var rest := r.1;
    var i := 0;
    // do { argv[++i] = strtok(NULL, " "); } while (i < cap && argv[i] != NULL);
    i := i + 1;
    StrtokNext(rest, ts, i);
    r := Strtok(rest);
    slots := slots[i := r.0];
    rest := r.1;
    ghost var n := ArgCount(|ts|, cap);
    while i < cap && slots[i].Some?
      invariant 1 <= i <= n < size == |slots|
      invariant forall j :: 0 <= j <= i ==> slots[j] == Nth(ts, j)
      invariant Tokens(rest) == ts[Min(i + 1, |ts|)..]
      decreases cap - i
    {
      assert i < |ts| && i + 1 <= n;
      i := i + 1;
      StrtokNext(rest, ts, i);
      r := Strtok(rest);
      assert r.0 == Nth(ts, i);
      slots := slots[i := r.0];
      rest := r.1;
    }
    assert i == n;
    argc := i;
    argv := slots[..argc];
  }

  // ---------------------------------------------------------------------
  // The argv array as declared is one slot short

  /**
   * With `cap` or more tokens the loop stops at argc == cap and has written
   * argv[cap]. That is `SplitArgs`'s requirement `argc < size` failing for
   * size == cap: the store lands outside an argv of `cap` slots, the size
   * the source declares.
   */
  lemma ArgvOverrun(line: seq<byte>, cap: nat)
    requires cap >= 1 && |Tokens(line)| >= cap
    ensures ArgCount(|Tokens(line)|, cap) == cap
    ensures !(ArgCount(|Tokens(line)|, cap) < cap)
  {
  }

  /** "a a a …": a line of `n` one-byte tokens. */
  function RepeatWord(n: nat): seq<byte>
  {
    if n == 0 then [] else [0x61, SPACE] + RepeatWord(n - 1)
  }

  /** RepeatWord(n) has exactly n tokens, so lines with CMD_MAX_ARGS (or 30) tokens exist. */
  lemma {:induction false} RepeatWordTokens(n: nat)
    ensures |Tokens(RepeatWord(n))| == n
  {
    if n > 0 {
      var w: seq<byte> := [0x61];
      var tail := RepeatWord(n - 1);
      assert RepeatWord(n) == w + [SPACE] + tail;
      TokensSplit(w, tail);
      TokensWord(w);
      RepeatWordTokens(n - 1);
      assert |Tokens(RepeatWord(n))| == |[w] + Tokens(tail)| == 1 + |Tokens(tail)|;
    } else {
      assert Tokens([]) == [];
    }
  }

  /** The line "add 3 4" gives argc 3 and argv "add", "3", "4". */
  lemma AddExample()
    ensures Tokens([0x61, 0x64, 0x64, SPACE, 0x33, SPACE, 0x34]) == [[0x61, 0x64, 0x64], [0x33], [0x34]]
    ensures ArgCount(3, CMD_MAX_ARGS) == 3
  {
    var add: seq<byte> := [0x61, 0x64, 0x64];
    var three: seq<byte> := [0x33];
    var four: seq<byte> := [0x34];
    assert [0x61, 0x64, 0x64, SPACE, 0x33, SPACE, 0x34] == add + [SPACE] + (three + [SPACE] + four);
    TokensSplit(add, three + [SPACE] + four);
    TokensSplit(three, four);
    TokensWord(add);
    TokensWord(three);
    TokensWord(four);
  }
}
