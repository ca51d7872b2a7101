/** The storage interface MgStorage (core/include/shape/mgstorage.h).

    A backend is given by its two integer primitives: `readInt` (a function of
    the backend's read state) and `writeInt` (a transformer of its write state).
    The width-specific readers and writers are the interface's default bodies,
    which only delegate to those two with a cast.  The node begin/end protocol
    that every backend and every shape's save/load follow is stated over the
    sequence of calls made to the interface. */
module Storage {
  import opened Ints
  import opened Options

  /** A field or node name; `NullName` is a null `const char*`. */
  datatype Name = NullName | Name(text: string)

  /** `readInt(name, defvalue)` of a backend whose read state is S. */
  type IntReader<!S> = (S, Name, Int32) -> Int32

  /** `writeInt(name, value)` of a backend whose write state is S. */
  type IntWriter<!S> = (S, Name, Int32) -> S

  // ---- The default primitives ----

  /** The interface's own `readInt`: both branches of `name ? defvalue : defvalue`
      give the default. */
  function DefaultReadInt<S>(st: S, name: Name, defvalue: Int32): (r: Int32)
    ensures r == defvalue
  {
    if name.Name? then defvalue else defvalue
  }

  /** The interface's own `writeInt`: it only reassigns its own parameter, so the
      backend's state is what it was. */
  function DefaultWriteInt<S>(st: S, name: Name, value: Int32): (st': S)
    ensures st' == st
  {
    st
  }

  // ---- The width-specific readers ----

  /** `readInt8`: readInt's result truncated to 8 bits. */
  function ReadInt8<S>(readInt: IntReader<S>, st: S, name: Name, defvalue: Int8): (r: Int8)
    ensures (r - readInt(st, name, defvalue)) % 0x100 == 0
  {
    ToInt8(readInt(st, name, defvalue))
  }

  /** `readInt16`: readInt's result truncated to 16 bits. */
  function ReadInt16<S>(readInt: IntReader<S>, st: S, name: Name, defvalue: Int16): (r: Int16)
    ensures (r - readInt(st, name, defvalue)) % 0x1_0000 == 0
  {
    ToInt16(readInt(st, name, defvalue))
  }

  /** `readInt32`: readInt's result as it is. */
  function ReadInt32<S>(readInt: IntReader<S>, st: S, name: Name, defvalue: Int32): (r: Int32)
  {
    readInt(st, name, defvalue)
  }

  /** `readUInt8`: readInt's result truncated to its low 8 bits. */
  function ReadUInt8<S>(readInt: IntReader<S>, st: S, name: Name, defvalue: UInt8): (r: UInt8)
    ensures (r - readInt(st, name, defvalue)) % 0x100 == 0
  {
    ToUInt8(readInt(st, name, defvalue))
  }

  /** `readUInt16`: readInt's result truncated to its low 16 bits. */
  function ReadUInt16<S>(readInt: IntReader<S>, st: S, name: Name, defvalue: UInt16): (r: UInt16)
    ensures (r - readInt(st, name, defvalue)) % 0x1_0000 == 0
  {
    ToUInt16(readInt(st, name, defvalue))
  }

  /** `readUInt32`: the default goes in through the implicit conversion to
      `int`, and readInt's result comes back reinterpreted as unsigned. */
  function ReadUInt32<S>(readInt: IntReader<S>, st: S, name: Name, defvalue: UInt32): (r: UInt32)
    ensures (r - readInt(st, name, ToInt32(defvalue))) % 0x1_0000_0000 == 0
  {
    ToUInt32(readInt(st, name, ToInt32(defvalue)))
  }

  // ---- The width-specific writers ----

  /** `writeInt8` … `writeUInt32`: the same name and the value widened to `int`
      (for UInt32, converted to `int`) go to writeInt. */
  function WriteInt8<S>(writeInt: IntWriter<S>, st: S, name: Name, value: Int8): S
  {
    writeInt(st, name, value)
  }

  function WriteInt16<S>(writeInt: IntWriter<S>, st: S, name: Name, value: Int16): S
  {
    writeInt(st, name, value)
  }

  function WriteInt32<S>(writeInt: IntWriter<S>, st: S, name: Name, value: Int32): S
  {
    writeInt(st, name, value)
  }

  function WriteUInt8<S>(writeInt: IntWriter<S>, st: S, name: Name, value: UInt8): S
  {
    writeInt(st, name, value)
  }

  function WriteUInt16<S>(writeInt: IntWriter<S>, st: S, name: Name, value: UInt16): S
  {
    writeInt(st, name, value)
  }

  function WriteUInt32<S>(writeInt: IntWriter<S>, st: S, name: Name, value: UInt32): S
  {
    writeInt(st, name, ToInt32(value))
  }

  // ---- Properties of the wrappers ----

  /** readInt32 passes readInt's result through, and readUInt32 is its
      unsigned reinterpretation: equal when it is non-negative, 2^32 more
      when it is negative. */
  lemma ReadInt32And32Unsigned<S>(readInt: IntReader<S>, st: S, name: Name, d: Int32, u: UInt32)
    ensures ReadInt32(readInt, st, name, d) == readInt(st, name, d)
    ensures var v := readInt(st, name, ToInt32(u));
            ReadUInt32(readInt, st, name, u) == if v < 0 then v + 0x1_0000_0000 else v
  {
  }

  /** With the interface's default readInt every reader returns its own
      default exactly: widening and then narrowing is the identity. */
  lemma DefaultReadersReturnDefaults<S>(st: S, name: Name,
      d8: Int8, d16: Int16, d32: Int32, u8: UInt8, u16: UInt16, u32: UInt32)
    ensures ReadInt8(DefaultReadInt, st, name, d8) == d8
    ensures ReadInt16(DefaultReadInt, st, name, d16) == d16
    ensures ReadInt32(DefaultReadInt, st, name, d32) == d32
    ensures ReadUInt8(DefaultReadInt, st, name, u8) == u8
    ensures ReadUInt16(DefaultReadInt, st, name, u16) == u16
    ensures ReadUInt32(DefaultReadInt, st, name, u32) == u32
  {
    UInt32RoundTrip(u32);
  }

  /** With the interface's default writeInt no writer has an effect. */
  lemma DefaultWritersHaveNoEffect<S>(st: S, name: Name,
      v8: Int8, v16: Int16, v32: Int32, w8: UInt8, w16: UInt16, w32: UInt32)
    ensures WriteInt8(DefaultWriteInt, st, name, v8) == st
    ensures WriteInt16(DefaultWriteInt, st, name, v16) == st
    ensures WriteInt32(DefaultWriteInt, st, name, v32) == st
    ensures WriteUInt8(DefaultWriteInt, st, name, w8) == st
    ensures WriteUInt16(DefaultWriteInt, st, name, w16) == st
    ensures WriteUInt32(DefaultWriteInt, st, name, w32) == st
  {
  }

  /** A backend whose readInt gives back what writeInt stored under the same name. */
  ghost predicate ReadsBackWrites<S(!new)>(readInt: IntReader<S>, writeInt: IntWriter<S>)
  {
    forall st, name, value, defvalue :: readInt(writeInt(st, name, value), name, defvalue) == value
  }

  /** Over such a backend each width-specific writer and its reader form a
      round trip: the value comes back in its own width, whatever the default. */
  lemma WidthRoundTrip<S(!new)>(readInt: IntReader<S>, writeInt: IntWriter<S>, st: S, name: Name,
      v8: Int8, v16: Int16, v32: Int32, w8: UInt8, w16: UInt16, w32: UInt32,
      d8: Int8, d16: Int16, d32: Int32, e8: UInt8, e16: UInt16, e32: UInt32)
    requires ReadsBackWrites(readInt, writeInt)
    ensures ReadInt8(readInt, WriteInt8(writeInt, st, name, v8), name, d8) == v8
    ensures ReadInt16(readInt, WriteInt16(writeInt, st, name, v16), name, d16) == v16
    ensures ReadInt32(readInt, WriteInt32(writeInt, st, name, v32), name, d32) == v32
    ensures ReadUInt8(readInt, WriteUInt8(writeInt, st, name, w8), name, e8) == w8
    ensures ReadUInt16(readInt, WriteUInt16(writeInt, st, name, w16), name, e16) == w16
    ensures ReadUInt32(readInt, WriteUInt32(writeInt, st, name, w32), name, e32) == w32
  {
    assert readInt(writeInt(st, name, v8), name, d8) == v8;
    assert readInt(writeInt(st, name, v16), name, d16) == v16;
    assert readInt(writeInt(st, name, w8), name, e8) == w8;
    assert readInt(writeInt(st, name, w16), name, e16) == w16;
    assert readInt(writeInt(st, name, ToInt32(w32)), name, ToInt32(e32)) == ToInt32(w32);
    UInt32RoundTrip(w32);
  }

  /** A narrow reader does not read back a value that does not fit its width:
      reading 8 bits of a stored 300 gives 44. */
  lemma NarrowReaderTruncates<S(!new)>(readInt: IntReader<S>, writeInt: IntWriter<S>, st: S, name: Name)
    requires ReadsBackWrites(readInt, writeInt)
    ensures ReadUInt8(readInt, WriteInt32(writeInt, st, name, 300), name, 0) == 44
    ensures ReadInt8(readInt, WriteInt32(writeInt, st, name, 200), name, 0) == -56
  {
    assert readInt(writeInt(st, name, 300), name, 0) == 300;
    assert readInt(writeInt(st, name, 200), name, 0) == 200;
  }

  // ---- The node protocol of readNode / writeNode ----

  /** What a node's index selects: below 0 the node is the only child of
      that name, otherwise it is one of several same-named siblings. */
  datatype NodeKey = OnlyChild(name: Name) | Sibling(name: Name, index: nat)

  function KeyOf(name: Name, index: int): (k: NodeKey)
    ensures k.name == name
    ensures k.OnlyChild? <==> index < 0
    ensures k.Sibling? ==> k.index == index
  {
    if index < 0 then OnlyChild(name) else Sibling(name, index)
  }

  /** One call on the interface: `readNode`/`writeNode(name, index, ended)`,
      or a field read or write (any readX / writeX). */
  datatype StorageCall = NodeCall(name: Name, index: int, ended: bool) | FieldCall(field: Name)

  /** Replays calls over the stack of open nodes: a begin call (ended=false)
      opens a node, an end call (ended=true) must close the innermost open one,
      and a field access needs an open node.  None when the protocol is broken. */
  function Replay(calls: seq<StorageCall>, open: seq<NodeKey>): Option<seq<NodeKey>>
    decreases |calls|
  {
    if calls == [] then Some(open)
    else match calls[0]
      case NodeCall(n, i, ended) =>
        if !ended then Replay(calls[1..], open + [KeyOf(n, i)])
        else if open != [] && open[|open| - 1] == KeyOf(n, i) then Replay(calls[1..], open[..|open| - 1])
        else None
      case FieldCall(_) =>
        if open == [] then None else Replay(calls[1..], open)
  }

  /** A complete sequence of calls: every node visited twice, first with
      ended=false and then with ended=true, properly nested, and no field
      outside a node. */
  ghost predicate WellBracketed(calls: seq<StorageCall>)
  {
    Replay(calls, []) == Some([])
  }

  /** What a node writer emits: the begin call, the body, the end call. */
  function WriteNode(name: Name, index: int, body: seq<StorageCall>): (calls: seq<StorageCall>)
    ensures |calls| == |body| + 2
    ensures calls[0] == NodeCall(name, index, false) && calls[|calls| - 1] == NodeCall(name, index, true)
    ensures calls[1..|calls| - 1] == body
  {
    [NodeCall(name, index, false)] + body + [NodeCall(name, index, true)]
  }

  /** Fields only. */
  function FieldCalls(fields: seq<Name>): (calls: seq<StorageCall>)
    ensures |calls| == |fields|
    ensures forall j :: 0 <= j < |fields| ==> calls[j] == FieldCall(fields[j])
  {
    seq(|fields|, j requires 0 <= j < |fields| => FieldCall(fields[j]))
  }

  lemma {:induction false} ReplayAppend(a: seq<StorageCall>, b: seq<StorageCall>, open: seq<NodeKey>)
    ensures Replay(a + b, open) == match Replay(a, open) case None => None case Some(o) => Replay(b, o)
    decreases |a|
  {
    if a == [] {
      assert a + b == b;
    } else {
      assert (a + b)[0] == a[0];
      assert (a + b)[1..] == a[1..] + b;
      match a[0]
      case NodeCall(n, i, ended) =>
        if !ended {
          ReplayAppend(a[1..], b, open + [KeyOf(n, i)]);
        } else if open != [] && open[|open| - 1] == KeyOf(n, i) {
          ReplayAppend(a[1..], b, open[..|open| - 1]);
        }
      case FieldCall(_) =>
        if open != [] {
          ReplayAppend(a[1..], b, open);
        }
    }
  }

  /** Calls that replay from one stack of open nodes replay the same way
      beneath any further enclosing nodes. */
  lemma {:induction false} ReplayUnderEnclosing(calls: seq<StorageCall>, open: seq<NodeKey>,
      after: seq<NodeKey>, outer: seq<NodeKey>)
    requires Replay(calls, open) == Some(after)
    ensures Replay(calls, outer + open) == Some(outer + after)
    decreases |calls|
  {
    if calls != [] {
      match calls[0]
      case NodeCall(n, i, ended) =>
        if !ended {
          assert (outer + open) + [KeyOf(n, i)] == outer + (open + [KeyOf(n, i)]);
          ReplayUnderEnclosing(calls[1..], open + [KeyOf(n, i)], after, outer);
        } else {
          var o := outer + open;
          assert o[|o| - 1] == open[|open| - 1];
          assert o[..|o| - 1] == outer + open[..|open| - 1];
          ReplayUnderEnclosing(calls[1..], open[..|open| - 1], after, outer);
        }
      case FieldCall(_) =>
        ReplayUnderEnclosing(calls[1..], open, after, outer);
    }
  }

  lemma {:induction false} FieldsKeepOpenNodes(fields: seq<Name>, open: seq<NodeKey>)
    requires open != []
    ensures Replay(FieldCalls(fields), open) == Some(open)
    decreases |fields|
  {
    if fields != [] {
      assert FieldCalls(fields)[1..] == FieldCalls(fields[1..]);
      FieldsKeepOpenNodes(fields[1..], open);
    }
  }

  /** A node whose body holds only fields (none at all included) is well
      bracketed: this is why a writer must emit the end call even when it
      wrote no field. */
  lemma FieldNodeWellBracketed(name: Name, index: int, fields: seq<Name>)
    ensures WellBracketed(WriteNode(name, index, FieldCalls(fields)))
    ensures !WellBracketed([NodeCall(name, index, false)] + FieldCalls(fields))
  {
    var k := KeyOf(name, index);
    var begin, body, end := [NodeCall(name, index, false)], FieldCalls(fields), [NodeCall(name, index, true)];
    assert WriteNode(name, index, body) == begin + (body + end);
    ReplayAppend(begin, body + end, []);
    assert Replay(begin, []) == Some([k]) by { assert [] + [k] == [k]; }
    ReplayAppend(body, end, [k]);
    FieldsKeepOpenNodes(fields, [k]);
    ReplayAppend(begin, body, []);
    assert Replay(end, [k]) == Some([]);
  }

  /** A well-bracketed body nested in a node keeps the whole well bracketed,
      and well-bracketed sequences may follow one another. */
  lemma NestingWellBracketed(name: Name, index: int, child: seq<StorageCall>, next: seq<StorageCall>)
    requires WellBracketed(child) && WellBracketed(next)
    ensures WellBracketed(WriteNode(name, index, child))
    ensures WellBracketed(child + next)
  {
    var k := KeyOf(name, index);
    var begin, end := [NodeCall(name, index, false)], [NodeCall(name, index, true)];
    assert Replay(begin, []) == Some([k]) by { assert [] + [k] == [k]; }
    assert Replay(child, [k]) == Some([k]) by {
      ReplayUnderEnclosing(child, [], [], [k]);
      assert [k] + [] == [k];
    }
    assert Replay(end, [k]) == Some([]);
    assert Replay(child + end, [k]) == Some([]) by { ReplayAppend(child, end, [k]); }
    assert WriteNode(name, index, child) == begin + (child + end);
    assert Replay(begin + (child + end), []) == Some([]) by { ReplayAppend(begin, child + end, []); }
    assert Replay(child + next, []) == Some([]) by { ReplayAppend(child, next, []); }
  }
}
