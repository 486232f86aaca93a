/** The flat command tree of a DeclareCommands packet: its nodes and how they are read. */
module CommandTree {
  import opened Wire
  import opened VarInt
  import opened Fields

  /**
   * Where the properties of an argument parser end, for every parser id: the table a client has.
   * Only its behaviour matters, so it is an arbitrary function with two laws: it looks only
   * at the bytes it spans, and the properties of a string argument are one VarInt.
   */
  datatype Layout = Layout(end: (i32, Bytes, nat) -> Option<nat>) {
    ghost predicate Lawful()
    {
      && (forall id: i32, b: Bytes, pos: nat, c: Bytes, at: nat ::
            PropertiesEnd(id, b, pos).Some? && Copied(b, pos, PropertiesEnd(id, b, pos).value, c, at) ==>
              PropertiesEnd(id, c, at) == Some(at + PropertiesEnd(id, b, pos).value - pos))
      && (forall b: Bytes, pos: nat :: DecodeVarInt(b, pos).Ok? ==>
            PropertiesEnd(BRIGADIER_STRING, b, pos) == Some(DecodeVarInt(b, pos).value.1))
    }

    function PropertiesEnd(id: i32, b: Bytes, pos: nat): (e: Option<nat>)
      ensures e.Some? ==> pos <= e.value <= |b|
    {
      match end(id, b, pos)
      case Some(e) => if pos <= e <= |b| then Some(e) else None
      case None => None
    }
  }

  /** A layout that obeys the laws: strings have one VarInt, every other parser has no properties. */
  lemma LawfulLayoutsExist()
    ensures exists layout: Layout :: layout.Lawful()
  {
    hide DecodeVarInt, Copied;
    var layout := Layout((id: i32, b: Bytes, pos: nat) =>
      if id != BRIGADIER_STRING then Some(pos)
      else if DecodeVarInt(b, pos).Ok? then Some(DecodeVarInt(b, pos).value.1) else None);
    forall id: i32, b: Bytes, pos: nat, c: Bytes, at: nat
      | layout.PropertiesEnd(id, b, pos).Some? && Copied(b, pos, layout.PropertiesEnd(id, b, pos).value, c, at)
      ensures layout.PropertiesEnd(id, c, at) == Some(at + layout.PropertiesEnd(id, b, pos).value - pos)
    {
      CopiedFits(b, pos, layout.PropertiesEnd(id, b, pos).value, c, at);
      if id == BRIGADIER_STRING {
        VarIntLocal(b, pos, c, at);
      }
    }
    assert layout.Lawful();
  }

  lemma CopiedFits(b: Bytes, from: nat, to: nat, c: Bytes, pos: nat)
    requires Copied(b, from, to, c, pos)
    ensures pos + to - from <= |c|
  {}

  const BRIGADIER_STRING: i32 := 5

  datatype Argument = Argument(parser: i32, properties: Bytes, suggestions: Option<Bytes>)

  datatype Node = Node(flags: byte, children: seq<i32>, redirect: Option<i32>, name: Bytes, argument: Option<Argument>)

  datatype Tree = Tree(nodes: seq<Node>, root: i32)

  /** Root, literal or argument: the two low bits of the flags. */
  function Kind(flags: byte): nat { flags % 4 }

  predicate HasRedirect(flags: byte) { flags / 8 % 2 == 1 }

  predicate HasSuggestions(flags: byte) { flags / 16 % 2 == 1 }

  // ----- Readers -----

  function ReadVarInts(b: Bytes, pos: nat, n: nat): (r: Result<(seq<i32>, nat)>)
    ensures r.Ok? ==> |r.value.0| == n && pos + n <= r.value.1 && (pos <= |b| ==> r.value.1 <= |b|)
    decreases n
  {
    if n == 0 then Ok(([], pos))
    else
      var (v, next) :- DecodeVarInt(b, pos);
      var (vs, end) :- ReadVarInts(b, next, n - 1);
      Ok(([v] + vs, end))
  }

  function ReadChildren(b: Bytes, pos: nat): (r: Result<(seq<i32>, nat)>)
    ensures r.Ok? ==> pos < r.value.1 <= |b|
  {
    var (count, next) :- DecodeVarInt(b, pos);
    if count < 0 then Err(InvalidData) else ReadVarInts(b, next, count)
  }

  function ReadRedirect(flags: byte, b: Bytes, pos: nat): (r: Result<(Option<i32>, nat)>)
    ensures r.Ok? ==> pos <= r.value.1 && (pos <= |b| ==> r.value.1 <= |b|)
  {
    if !HasRedirect(flags) then Ok((None, pos))
    else
      var (target, next) :- DecodeVarInt(b, pos);
      Ok((Some(target), next))
  }

  function ReadName(flags: byte, b: Bytes, pos: nat): (r: Result<(Bytes, nat)>)
    ensures r.Ok? ==> pos <= r.value.1 && (pos <= |b| ==> r.value.1 <= |b|)
  {
    if Kind(flags) == 0 then Ok(([], pos))
    else if Kind(flags) == 3 then Err(InvalidData)
    else TakeChunk(b, pos)
  }

  function ReadSuggestions(flags: byte, b: Bytes, pos: nat): (r: Result<(Option<Bytes>, nat)>)
    ensures r.Ok? ==> pos <= r.value.1 && (pos <= |b| ==> r.value.1 <= |b|)
  {
    if !HasSuggestions(flags) then Ok((None, pos))
    else
      var (s, next) :- TakeChunk(b, pos);
      Ok((Some(s), next))
  }

  /** Parser id (a VarInt), its properties and the optional suggestion provider. */
  function ReadArgument(layout: Layout, flags: byte, b: Bytes, pos: nat): (r: Result<(Option<Argument>, nat)>)
    ensures r.Ok? ==> pos <= r.value.1 && (pos <= |b| ==> r.value.1 <= |b|)
  {
    hide DecodeVarInt, TakeChunk;
    if Kind(flags) != 2 then Ok((None, pos))
    else
      var (parser, p1) :- DecodeVarInt(b, pos);
      match layout.PropertiesEnd(parser, b, p1)
      case None => Err(InvalidData)
      case Some(p2) =>
        var (suggestions, p3) :- ReadSuggestions(flags, b, p2);
        Ok((Some(Argument(parser, b[p1..p2], suggestions)), p3))
  }

  function ReadNode(layout: Layout, b: Bytes, pos: nat): (r: Result<(Node, nat)>)
    ensures r.Ok? ==> pos + 2 <= r.value.1 <= |b|
  {
    hide ReadChildren, ReadRedirect, ReadName, ReadArgument;
    var (flags, p1) :- TakeByte(b, pos);
    var (children, p2) :- ReadChildren(b, p1);
    var (redirect, p3) :- ReadRedirect(flags, b, p2);
    var (name, p4) :- ReadName(flags, b, p3);
    var (argument, p5) :- ReadArgument(layout, flags, b, p4);
    Ok((Node(flags, children, redirect, name, argument), p5))
  }

  function ReadNodes(layout: Layout, b: Bytes, pos: nat, n: nat): (r: Result<(seq<Node>, nat)>)
    ensures r.Ok? ==> |r.value.0| == n && pos + n <= r.value.1 && (pos <= |b| ==> r.value.1 <= |b|)
    decreases n
  {
    hide ReadNode;
    if n == 0 then Ok(([], pos))
    else
      var (node, next) :- ReadNode(layout, b, pos);
      var (nodes, end) :- ReadNodes(layout, b, next, n - 1);
      Ok(([node] + nodes, end))
  }

  /** The whole packet: node count, nodes, and the root index at the very end. */
  function ReadTree(layout: Layout, b: Bytes): (r: Result<Tree>)
  {
    hide DecodeVarInt, ReadNodes;
    var (count, p1) :- DecodeVarInt(b, 0);
    if count < 0 then Err(InvalidData)
    else
      var (nodes, p2) :- ReadNodes(layout, b, p1, count);
      var (root, p3) :- DecodeVarInt(b, p2);
      if p3 != |b| then Err(InvalidData) else Ok(Tree(nodes, root))
  }

  // ----- Every reader depends only on the bytes it consumes -----

  lemma {:induction false} ReadVarIntsLocal(b: Bytes, pos: nat, c: Bytes, at: nat, n: nat)
    requires ReadVarInts(b, pos, n).Ok? && Copied(b, pos, ReadVarInts(b, pos, n).value.1, c, at)
    ensures var (vs, end) := ReadVarInts(b, pos, n).value; ReadVarInts(c, at, n) == Ok((vs, at + end - pos))
    decreases n
  {
    hide DecodeVarInt, Copied;
    if n > 0 {
      var next := DecodeVarInt(b, pos).value.1;
      CopiedSplit(b, pos, next, ReadVarInts(b, pos, n).value.1, c, at);
      VarIntLocal(b, pos, c, at);
      ReadVarIntsLocal(b, next, c, at + next - pos, n - 1);
    }
  }

  lemma ReadChildrenLocal(b: Bytes, pos: nat, c: Bytes, at: nat)
    requires ReadChildren(b, pos).Ok? && Copied(b, pos, ReadChildren(b, pos).value.1, c, at)
    ensures var (vs, end) := ReadChildren(b, pos).value; ReadChildren(c, at) == Ok((vs, at + end - pos))
  {
    hide DecodeVarInt, ReadVarInts, Copied;
    var (count, next) := DecodeVarInt(b, pos).value;
    CopiedSplit(b, pos, next, ReadChildren(b, pos).value.1, c, at);
    VarIntLocal(b, pos, c, at);
    ReadVarIntsLocal(b, next, c, at + next - pos, count);
  }

  lemma ReadRedirectLocal(flags: byte, b: Bytes, pos: nat, c: Bytes, at: nat)
    requires ReadRedirect(flags, b, pos).Ok? && Copied(b, pos, ReadRedirect(flags, b, pos).value.1, c, at)
    ensures var (v, end) := ReadRedirect(flags, b, pos).value; ReadRedirect(flags, c, at) == Ok((v, at + end - pos))
  {
    hide DecodeVarInt, Copied;
    if HasRedirect(flags) {
      VarIntLocal(b, pos, c, at);
    }
  }

  lemma ReadNameLocal(flags: byte, b: Bytes, pos: nat, c: Bytes, at: nat)
    requires ReadName(flags, b, pos).Ok? && Copied(b, pos, ReadName(flags, b, pos).value.1, c, at)
    ensures var (v, end) := ReadName(flags, b, pos).value; ReadName(flags, c, at) == Ok((v, at + end - pos))
  {
    hide TakeChunk, Copied;
    if Kind(flags) != 0 {
      ChunkLocal(b, pos, c, at);
    }
  }

  lemma ReadSuggestionsLocal(flags: byte, b: Bytes, pos: nat, c: Bytes, at: nat)
    requires ReadSuggestions(flags, b, pos).Ok? && Copied(b, pos, ReadSuggestions(flags, b, pos).value.1, c, at)
    ensures var (v, end) := ReadSuggestions(flags, b, pos).value;
            ReadSuggestions(flags, c, at) == Ok((v, at + end - pos))
  {
    hide TakeChunk, Copied;
    if HasSuggestions(flags) {
      ChunkLocal(b, pos, c, at);
    }
  }

  lemma ReadArgumentLocal(layout: Layout, flags: byte, b: Bytes, pos: nat, c: Bytes, at: nat)
    requires layout.Lawful()
    requires ReadArgument(layout, flags, b, pos).Ok?
    requires Copied(b, pos, ReadArgument(layout, flags, b, pos).value.1, c, at)
    ensures var (v, end) := ReadArgument(layout, flags, b, pos).value;
            ReadArgument(layout, flags, c, at) == Ok((v, at + end - pos))
  {
    hide DecodeVarInt, ReadSuggestions, Copied;
    if Kind(flags) == 2 {
      var end := ReadArgument(layout, flags, b, pos).value.1;
      var (parser, p1) := DecodeVarInt(b, pos).value;
      var p2 := layout.PropertiesEnd(parser, b, p1).value;
      CopiedSplit(b, pos, p1, end, c, at);
      CopiedSplit(b, p1, p2, end, c, at + p1 - pos);
      VarIntLocal(b, pos, c, at);
      PropertiesLocal(layout, parser, b, p1, p2, c, at + p1 - pos);
      ReadSuggestionsLocal(flags, b, p2, c, at + p2 - pos);
    }
  }

  lemma PropertiesLocal(layout: Layout, parser: i32, b: Bytes, p1: nat, p2: nat, c: Bytes, at: nat)
    requires layout.Lawful() && layout.PropertiesEnd(parser, b, p1) == Some(p2) && Copied(b, p1, p2, c, at)
    ensures layout.PropertiesEnd(parser, c, at) == Some(at + p2 - p1)
    ensures c[at..at + p2 - p1] == b[p1..p2]
  {}

  lemma ReadNodeLocal(layout: Layout, b: Bytes, pos: nat, c: Bytes, at: nat)
    requires layout.Lawful()
    requires ReadNode(layout, b, pos).Ok? && Copied(b, pos, ReadNode(layout, b, pos).value.1, c, at)
    ensures var (v, end) := ReadNode(layout, b, pos).value; ReadNode(layout, c, at) == Ok((v, at + end - pos))
  {
    hide ReadChildren, ReadRedirect, ReadName, ReadArgument, Copied;
    var end := ReadNode(layout, b, pos).value.1;
    var flags := b[pos];
    var shift := at - pos;
    var p2 := ReadChildren(b, pos + 1).value.1;
    var p3 := ReadRedirect(flags, b, p2).value.1;
    var p4 := ReadName(flags, b, p3).value.1;
    CopiedSplit(b, pos, pos + 1, end, c, at);
    CopiedSplit(b, pos + 1, p2, end, c, at + 1);
    CopiedSplit(b, p2, p3, end, c, p2 + shift);
    CopiedSplit(b, p3, p4, end, c, p3 + shift);
    ByteLocal(b, pos, c, at);
    ReadChildrenLocal(b, pos + 1, c, at + 1);
    ReadRedirectLocal(flags, b, p2, c, p2 + shift);
    ReadNameLocal(flags, b, p3, c, p3 + shift);
    ReadArgumentLocal(layout, flags, b, p4, c, p4 + shift);
  }

  lemma {:induction false} ReadNodesLocal(layout: Layout, b: Bytes, pos: nat, c: Bytes, at: nat, n: nat)
    requires layout.Lawful()
    requires ReadNodes(layout, b, pos, n).Ok? && Copied(b, pos, ReadNodes(layout, b, pos, n).value.1, c, at)
    ensures var (vs, end) := ReadNodes(layout, b, pos, n).value; ReadNodes(layout, c, at, n) == Ok((vs, at + end - pos))
    decreases n
  {
    hide ReadNode, Copied;
    if n > 0 {
      var next := ReadNode(layout, b, pos).value.1;
      CopiedSplit(b, pos, next, ReadNodes(layout, b, pos, n).value.1, c, at);
      ReadNodeLocal(layout, b, pos, c, at);
      ReadNodesLocal(layout, b, next, c, at + next - pos, n - 1);
    }
  }

  /** Two runs of nodes, one after the other. */
  lemma {:induction false} ReadNodesJoin(layout: Layout, b: Bytes, pos: nat, n: nat, mid: nat, xs: seq<Node>, m: nat, end: nat, ys: seq<Node>)
    requires ReadNodes(layout, b, pos, n) == Ok((xs, mid)) && ReadNodes(layout, b, mid, m) == Ok((ys, end))
    ensures ReadNodes(layout, b, pos, n + m) == Ok((xs + ys, end))
    decreases n
  {
    hide ReadNode;
    if n == 0 {
      assert xs + ys == ys;
    } else {
      var (x, next) := ReadNode(layout, b, pos).value;
      ReadNodesJoin(layout, b, next, n - 1, mid, xs[1..], m, end, ys);
      assert xs + ys == [x] + (xs[1..] + ys);
    }
  }

  /** The first of two runs of nodes. */
  lemma {:induction false} ReadNodesPrefix(layout: Layout, b: Bytes, pos: nat, n: nat, m: nat)
    requires ReadNodes(layout, b, pos, n + m).Ok?
    ensures ReadNodes(layout, b, pos, n).Ok? && ReadNodes(layout, b, pos, n).value.0 == ReadNodes(layout, b, pos, n + m).value.0[..n]
    decreases n
  {
    hide ReadNode;
    if n > 0 {
      ReadNodesPrefix(layout, b, ReadNode(layout, b, pos).value.1, n - 1, m);
    }
  }

  /** The node behind a run of nodes is read where that run ends. */
  lemma {:induction false} NodeBehind(layout: Layout, b: Bytes, pos: nat, n: nat, m: nat)
    requires m >= 1 && ReadNodes(layout, b, pos, n).Ok? && ReadNodes(layout, b, pos, n + m).Ok?
    ensures var mid := ReadNodes(layout, b, pos, n).value.1;
            ReadNode(layout, b, mid).Ok? && ReadNodes(layout, b, pos, n + m).value.0[n] == ReadNode(layout, b, mid).value.0
    decreases n
  {
    hide ReadNode;
    if n > 0 {
      NodeBehind(layout, b, ReadNode(layout, b, pos).value.1, n - 1, m);
    }
  }

  /** The flags of a node are its first byte. */
  lemma FlagsComeFirst(layout: Layout, b: Bytes, pos: nat)
    requires ReadNode(layout, b, pos).Ok?
    ensures ReadNode(layout, b, pos).value.0.flags == b[pos]
  {
    hide ReadChildren, ReadRedirect, ReadName, ReadArgument;
  }

  /** The children and the name of every node that is read have lengths a 32-bit field can hold. */
  ghost predicate Small(node: Node) { |node.children| < 0x8000_0000 && |node.name| < 0x8000_0000 }

  lemma NodeIsSmall(layout: Layout, b: Bytes, pos: nat)
    requires ReadNode(layout, b, pos).Ok?
    ensures Small(ReadNode(layout, b, pos).value.0)
  {
    hide DecodeVarInt, ReadVarInts, ReadRedirect, TakeChunk, ReadArgument;
  }

  lemma {:induction false} NodesAreSmall(layout: Layout, b: Bytes, pos: nat, n: nat)
    requires ReadNodes(layout, b, pos, n).Ok?
    ensures forall i :: 0 <= i < n ==> Small(ReadNodes(layout, b, pos, n).value.0[i])
    decreases n
  {
    hide ReadNode, Small;
    if n > 0 {
      NodeIsSmall(layout, b, pos);
      NodesAreSmall(layout, b, ReadNode(layout, b, pos).value.1, n - 1);
    }
  }

  lemma TreeIsSmall(layout: Layout, b: Bytes)
    requires ReadTree(layout, b).Ok?
    ensures var nodes := ReadTree(layout, b).value.nodes;
            |nodes| < 0x8000_0000 && forall i :: 0 <= i < |nodes| ==> Small(nodes[i])
  {
    hide ReadNodes, DecodeVarInt, Small;
    var (count, p1) := DecodeVarInt(b, 0).value;
    NodesAreSmall(layout, b, p1, count);
  }

  // ----- Nodes that lose their last bytes are read differently -----

  /** The bytes of `b` from `cut` to `end` all have the high bit set. */
  predicate HighRun(b: Bytes, cut: nat, end: nat)
  {
    cut < end <= |b| && forall i :: cut <= i < end ==> b[i] >= 128
  }

  /** `c` at `at` agrees with `b` at `pos` up to `cut`, where it goes on with a byte whose high bit is clear. */
  predicate Diverges(b: Bytes, pos: nat, cut: nat, c: Bytes, at: nat)
  {
    Copied(b, pos, cut, c, at) && at + cut - pos < |c| && c[at + cut - pos] < 128
  }

  lemma DivergesLater(b: Bytes, pos: nat, mid: nat, cut: nat, c: Bytes, at: nat)
    requires Diverges(b, pos, cut, c, at) && pos <= mid <= cut
    ensures Copied(b, pos, mid, c, at) && Diverges(b, mid, cut, c, at + mid - pos)
  {
    CopiedSplit(b, pos, mid, cut, c, at);
  }

  /** A position behind a byte with the high bit clear lies before the run. */
  lemma LowIsBefore(b: Bytes, p: nat, cut: nat, end: nat)
    requires HighRun(b, cut, end) && 0 < p <= end && b[p - 1] < 128
    ensures p <= cut
  {}

  lemma {:induction false} VarIntsEndLow(b: Bytes, pos: nat, n: nat)
    requires n > 0 && ReadVarInts(b, pos, n).Ok? && pos <= |b|
    ensures b[ReadVarInts(b, pos, n).value.1 - 1] < 128
    decreases n
  {
    hide DecodeVarInt;
    VarIntEndsLow(b, pos);
    if n > 1 {
      VarIntsEndLow(b, DecodeVarInt(b, pos).value.1, n - 1);
    }
  }

  lemma ChildrenEndLow(b: Bytes, pos: nat)
    requires ReadChildren(b, pos).Ok?
    ensures b[ReadChildren(b, pos).value.1 - 1] < 128
  {
    hide DecodeVarInt;
    var (count, next) := DecodeVarInt(b, pos).value;
    VarIntEndsLow(b, pos);
    if count > 0 {
      VarIntsEndLow(b, next, count);
    }
  }

  /** Two slices that differ at one place. */
  lemma SlicesDiffer(b: Bytes, from: nat, end: nat, cut: nat, c: Bytes, at: nat, end': nat)
    requires from <= cut < end <= |b| && at <= end' <= |c| && Diverges(b, from, cut, c, at) && b[cut] >= 128
    ensures b[from..end] != c[at..end']
  {
    if end - from == end' - at {
      assert b[from..end][cut - from] != c[at..end'][cut - from];
    }
  }

  lemma ChunkDiffers(b: Bytes, pos: nat, cut: nat, c: Bytes, at: nat)
    requires TakeChunk(b, pos).Ok? && HighRun(b, cut, TakeChunk(b, pos).value.1) && Diverges(b, pos, cut, c, at)
    ensures TakeChunk(c, at).Ok? ==> TakeChunk(c, at).value.0 != TakeChunk(b, pos).value.0
  {
    hide DecodeVarInt, Copied;
    var (len, next) := DecodeVarInt(b, pos).value;
    VarIntEndsLow(b, pos);
    LowIsBefore(b, next, cut, next + len);
    DivergesLater(b, pos, next, cut, c, at);
    VarIntLocal(b, pos, c, at);
    if TakeChunk(c, at).Ok? {
      var at' := at + next - pos;
      SlicesDiffer(b, next, next + len, cut, c, at', at' + len);
    }
  }

  lemma ArgumentDiffers(layout: Layout, flags: byte, b: Bytes, pos: nat, cut: nat, c: Bytes, at: nat)
    requires layout.Lawful() && Kind(flags) == 2 && ReadArgument(layout, flags, b, pos).Ok?
    requires HighRun(b, cut, ReadArgument(layout, flags, b, pos).value.1) && Diverges(b, pos, cut, c, at)
    ensures var r := ReadArgument(layout, flags, c, at); r.Ok? ==> r.value.0 != ReadArgument(layout, flags, b, pos).value.0
  {
    hide DecodeVarInt, TakeChunk, Copied;
    var end := ReadArgument(layout, flags, b, pos).value.1;
    var (parser, p1) := DecodeVarInt(b, pos).value;
    var p2 := layout.PropertiesEnd(parser, b, p1).value;
    VarIntEndsLow(b, pos);
    LowIsBefore(b, p1, cut, end);
    DivergesLater(b, pos, p1, cut, c, at);
    VarIntLocal(b, pos, c, at);
    if ReadArgument(layout, flags, c, at).Ok? {
      var q1 := at + p1 - pos;
      if HasSuggestions(flags) {
        ChunkStartsLow(b, p2, cut, end);
        DivergesLater(b, p1, p2, cut, c, q1);
        PropertiesLocal(layout, parser, b, p1, p2, c, q1);
        ChunkDiffers(b, p2, cut, c, q1 + p2 - p1);
      } else {
        SlicesDiffer(b, p1, p2, cut, c, q1, layout.PropertiesEnd(parser, c, q1).value);
      }
    }
  }

  /** The run at the end of a chunk lies behind its length. */
  lemma ChunkStartsLow(b: Bytes, pos: nat, cut: nat, end: nat)
    requires TakeChunk(b, pos).Ok? && TakeChunk(b, pos).value.1 <= end && HighRun(b, cut, end)
    ensures pos < cut
  {
    hide DecodeVarInt;
    VarIntEndsLow(b, pos);
    LowIsBefore(b, DecodeVarInt(b, pos).value.1, cut, end);
  }

  /** Flags, children and redirect of a node lie before the run at its end. */
  lemma NodeStartsLow(layout: Layout, b: Bytes, pos: nat, cut: nat, end: nat)
    requires ReadNode(layout, b, pos).Ok? && ReadNode(layout, b, pos).value.1 <= end && HighRun(b, cut, end)
    ensures var p2 := ReadChildren(b, pos + 1).value.1; pos < p2 <= ReadRedirect(b[pos], b, p2).value.1 <= cut
  {
    hide DecodeVarInt, ReadChildren, ReadName, ReadArgument;
    var p2 := ReadChildren(b, pos + 1).value.1;
    ChildrenEndLow(b, pos + 1);
    LowIsBefore(b, p2, cut, end);
    if HasRedirect(b[pos]) {
      VarIntEndsLow(b, p2);
      LowIsBefore(b, DecodeVarInt(b, p2).value.1, cut, end);
    }
  }

  /** A node whose last bytes are replaced is not read as the same node. */
  lemma NodeDiffers(layout: Layout, b: Bytes, pos: nat, cut: nat, c: Bytes, at: nat)
    requires layout.Lawful() && ReadNode(layout, b, pos).Ok?
    requires HighRun(b, cut, ReadNode(layout, b, pos).value.1) && Diverges(b, pos, cut, c, at)
    ensures ReadNode(layout, c, at).Ok? ==> ReadNode(layout, c, at).value.0 != ReadNode(layout, b, pos).value.0
  {
    hide ReadChildren, ReadRedirect, TakeChunk, ReadArgument, Copied, HighRun;
    var end := ReadNode(layout, b, pos).value.1;
    var flags := b[pos];
    var p2 := ReadChildren(b, pos + 1).value.1;
    var p3 := ReadRedirect(flags, b, p2).value.1;
    NodeStartsLow(layout, b, pos, cut, end);
    DivergesLater(b, pos, pos + 1, cut, c, at);
    DivergesLater(b, pos + 1, p2, cut, c, at + 1);
    DivergesLater(b, p2, p3, cut, c, at + p2 - pos);
    ByteLocal(b, pos, c, at);
    ReadChildrenLocal(b, pos + 1, c, at + 1);
    ReadRedirectLocal(flags, b, p2, c, at + p2 - pos);
    NameOrArgumentDiffers(layout, flags, b, p3, cut, end, c, at + p3 - pos);
  }

  lemma NameOrArgumentDiffers(layout: Layout, flags: byte, b: Bytes, pos: nat, cut: nat, end: nat, c: Bytes, at: nat)
    requires layout.Lawful() && ReadName(flags, b, pos).Ok? && HighRun(b, cut, end) && Diverges(b, pos, cut, c, at)
    requires var r := ReadArgument(layout, flags, b, ReadName(flags, b, pos).value.1); r.Ok? && r.value.1 == end
    ensures var n, m := ReadName(flags, b, pos), ReadName(flags, c, at);
            m.Ok? && m.value.0 == n.value.0 && ReadArgument(layout, flags, c, m.value.1).Ok? ==>
              ReadArgument(layout, flags, c, m.value.1).value.0 != ReadArgument(layout, flags, b, n.value.1).value.0
  {
    hide TakeChunk, Copied, DecodeVarInt, HighRun, ReadSuggestions;
    if Kind(flags) == 0 {
      assert end == pos && pos <= cut by { assert Diverges(b, pos, cut, c, at); CopiedOrder(b, pos, cut, c, at); }
      RunIsNotEmpty(b, cut, end);
    } else if Kind(flags) == 1 {
      ChunkDiffers(b, pos, cut, c, at);
    } else {
      var p4 := TakeChunk(b, pos).value.1;
      VarIntEndsLow(b, p4);
      LowIsBefore(b, DecodeVarInt(b, p4).value.1, cut, end);
      DivergesLater(b, pos, p4, cut, c, at);
      ChunkLocal(b, pos, c, at);
      ArgumentDiffers(layout, flags, b, p4, cut, c, at + p4 - pos);
    }
  }

  lemma CopiedOrder(b: Bytes, from: nat, to: nat, c: Bytes, pos: nat)
    requires Copied(b, from, to, c, pos)
    ensures from <= to
  {}

  lemma RunIsNotEmpty(b: Bytes, cut: nat, end: nat)
    requires HighRun(b, cut, end)
    ensures cut < end <= |b|
  {}

  /** Neither is a sequence of nodes that loses its last bytes. */
  lemma {:induction false} NodesDiffer(layout: Layout, b: Bytes, pos: nat, n: nat, cut: nat, c: Bytes, at: nat)
    requires layout.Lawful() && n >= 1 && ReadNodes(layout, b, pos, n).Ok? && pos <= |b|
    requires HighRun(b, cut, ReadNodes(layout, b, pos, n).value.1) && Diverges(b, pos, cut, c, at)
    ensures ReadNodes(layout, c, at, n).Ok? ==> ReadNodes(layout, c, at, n).value.0 != ReadNodes(layout, b, pos, n).value.0
    decreases n
  {
    hide ReadNode, Diverges, HighRun, Copied;
    var (node, next) := ReadNode(layout, b, pos).value;
    if n == 1 {
      NodeDiffers(layout, b, pos, cut, c, at);
      assert ReadNodes(layout, b, pos, n).value.0[0] == node;
      assert ReadNodes(layout, c, at, n).Ok? ==> ReadNodes(layout, c, at, n).value.0[0] == ReadNode(layout, c, at).value.0;
    } else {
      NodeStartsLow(layout, b, next, cut, ReadNodes(layout, b, pos, n).value.1);
      DivergesLater(b, pos, next, cut, c, at);
      ReadNodeLocal(layout, b, pos, c, at);
      var at' := at + next - pos;
      NodesDiffer(layout, b, next, n - 1, cut, c, at');
      assert ReadNodes(layout, b, pos, n).value.0[1..] == ReadNodes(layout, b, next, n - 1).value.0;
      if ReadNodes(layout, c, at, n).Ok? {
        assert ReadNodes(layout, c, at, n).value.0[1..] == ReadNodes(layout, c, at', n - 1).value.0;
      }
    }
  }
}
