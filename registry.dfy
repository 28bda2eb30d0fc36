/**
 * The command table: a singly linked list of cmd_t nodes (name, handler)
 * that add() extends at its head, and the lookup parse_std performs by
 * walking it with strcmp. The list is a sequence from head to tail; a
 * handler is an opaque identity.
 */
module Registry {
  import opened Defs

  /** One cmd_t node: the copied command name and its handler. */
  datatype Entry = Entry(name: seq<byte>, handler: nat)

  /**
   * add: the name is copied up to its terminator into a new node, which
   * becomes the head of the list.
   */
  function Register(table: seq<Entry>, name: seq<byte>, handler: nat): (t: seq<Entry>)
    ensures |t| == |table| + 1
    ensures 0 !in t[0].name
  {
    [Entry(CString(name), handler)] + table
  }

  /** The position of the first node, from the head, whose name equals `name`. */
  function Find(table: seq<Entry>, name: seq<byte>): (r: Option<nat>)
    ensures r.None? <==> forall k :: 0 <= k < |table| ==> table[k].name != name
    ensures r.Some? ==> r.value < |table| && table[r.value].name == name
    ensures r.Some? ==> forall k :: 0 <= k < r.value ==> table[k].name != name
  {
    if table == [] then None
    else if table[0].name == name then Some(0)
    else match Find(table[1..], name)
      case None => None
      case Some(i) => Some(i + 1)
  }

  /** The handler parse_std calls for the command name `name`, if any. */
  function Lookup(table: seq<Entry>, name: seq<byte>): (r: Option<nat>)
    ensures r.Some? <==> exists k :: 0 <= k < |table| && table[k].name == name
  {
    match Find(table, name)
    case None => None
    case Some(i) => Some(table[i].handler)
  }

  /**
   * The for loop of parse_std over the list: strcmp against each node's
   * name from the head on, stopping at the first match.
   */
  method FindCommand(table: seq<Entry>, name: seq<byte>) returns (r: Option<nat>)
    ensures r == Find(table, name)
  {
    var i := 0;
    while i < |table|
      invariant 0 <= i <= |table|
      invariant forall k :: 0 <= k < i ==> table[k].name != name
    {
      if table[i].name == name {
        return Some(i);
      }
      i := i + 1;
    }
    return None;
  }

  /**
   * The most recently added command answers to its name, and every other
   * name resolves as it did before: a later add of the same name shadows
   * the earlier one.
   */
  lemma LookupAfterRegister(table: seq<Entry>, name: seq<byte>, handler: nat, other: seq<byte>)
    ensures Lookup(Register(table, name, handler), CString(name)) == Some(handler)
    ensures other != CString(name) ==>
              Lookup(Register(table, name, handler), other) == Lookup(table, other)
  {
    var t := Register(table, name, handler);
    assert t[1..] == table;
    if other != CString(name) {
      match Find(table, other)
      case None =>
      case Some(i) => assert t[i + 1] == table[i];
    }
  }

  /** A name that was never added is not found; one that was, is. */
  lemma {:induction false} LookupMeansAdded(adds: seq<Entry>, name: seq<byte>)
    ensures Lookup(RegisterAll(adds), name).Some? <==> exists k :: 0 <= k < |adds| && CString(adds[k].name) == name
    decreases |adds|
  {
    if adds != [] {
      var last := adds[|adds| - 1];
      var init := adds[..|adds| - 1];
      LookupAfterRegister(RegisterAll(init), last.name, last.handler, name);
      LookupMeansAdded(init, name);
      if name != CString(last.name) {
        if exists k :: 0 <= k < |adds| && CString(adds[k].name) == name {
          var k :| 0 <= k < |adds| && CString(adds[k].name) == name;
          assert k < |adds| - 1 && init[k] == adds[k];
        }
      }
    }
  }

  /** The table after add() was called for each (name, handler) of `adds` in order. */
  function RegisterAll(adds: seq<Entry>): seq<Entry>
  {
    if adds == [] then []
    else
      var last := adds[|adds| - 1];
      Register(RegisterAll(adds[..|adds| - 1]), last.name, last.handler)
  }

  /** Adding "add" twice: the second handler wins. */
  lemma AddedTwiceExample()
    ensures Lookup(RegisterAll([Entry([0x61, 0x64, 0x64], 1), Entry([0x61, 0x64, 0x64], 2)]), [0x61, 0x64, 0x64]) == Some(2)
  {
    var add: seq<byte> := [0x61, 0x64, 0x64];
    var adds := [Entry(add, 1), Entry(add, 2)];
    CStringNulFree(add);
    assert adds[..1] == [Entry(add, 1)];
    assert [Entry(add, 1)][..0] == [];
    LookupAfterRegister(RegisterAll([Entry(add, 1)]), add, 2, add);
  }
}
