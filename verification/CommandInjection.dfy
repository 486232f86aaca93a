/** Grafting the proxy's own commands into the command tree a backend declares. */
module CommandInjection {
  import opened Wire
  import opened VarInt
  import opened Fields
  import opened CommandTree
  import opened RootIndex

  /** `is_declare_commands_packet`. */
  predicate IsDeclareCommands(id: int, version: int)
  {
    if version >= 776 then id == 0x10
    else if version >= 764 then id == 0x11
    else if version >= 762 then id == 0x0F
    else if version >= 759 then id == 0x0E
    else if version >= 755 then id == 0x12
    else if version >= 735 then id == 0x10
    else if version >= 393 then id == 0x11
    else false
  }

  // ----- Names: "server", "name", "minecraft:ask_server", "hub", "lobby", "steel" -----

  const SERVER: Bytes := [0x73, 0x65, 0x72, 0x76, 0x65, 0x72]
  const NAME: Bytes := [0x6E, 0x61, 0x6D, 0x65]
  const ASK_SERVER: Bytes :=
    [0x6D, 0x69, 0x6E, 0x65, 0x63, 0x72, 0x61, 0x66, 0x74, 0x3A, 0x61, 0x73, 0x6B, 0x5F, 0x73, 0x65, 0x72, 0x76, 0x65, 0x72]
  const BUILT_IN: seq<Bytes> :=
    [[0x68, 0x75, 0x62], [0x6C, 0x6F, 0x62, 0x62, 0x79], [0x73, 0x74, 0x65, 0x65, 0x6C]]

  /** Adds a normalized server name unless it is empty, "server" or already there. */
  function AddLiteral(literals: seq<Bytes>, name: Bytes): seq<Bytes>
  {
    if name != [] && name != SERVER && name !in literals then literals + [name] else literals
  }

  /** `literals` extended with the servers from the `i`-th on; `normalize` is trim and lower-case. */
  function AddLiterals(literals: seq<Bytes>, servers: seq<Bytes>, normalize: Bytes -> Bytes): seq<Bytes>
    decreases |servers|
  {
    if servers == [] then literals
    else AddLiterals(AddLiteral(literals, normalize(servers[0])), servers[1..], normalize)
  }

  function Literals(servers: seq<Bytes>, normalize: Bytes -> Bytes): seq<Bytes>
  {
    AddLiterals(BUILT_IN, servers, normalize)
  }

  // ----- Bytes and nodes that are injected -----

  function EncodeVarInts(vs: seq<i32>): (b: Bytes)
  {
    if vs == [] then [] else EncodeVarInt(vs[0]) + EncodeVarInts(vs[1..])
  }

  function ServerBytes(argument: i32): Bytes
  {
    [0x05] + (EncodeVarInt(1) + (EncodeVarInt(argument) + PutString(SERVER)))
  }

  function ArgumentBytes(): Bytes
  {
    [0x16] + (EncodeVarInt(0) + (PutString(NAME)
    + (EncodeVarInt(BRIGADIER_STRING) + (EncodeVarInt(0) + PutString(ASK_SERVER)))))
  }

  function LiteralBytes(literal: Bytes): Bytes
  {
    [0x05] + (EncodeVarInt(0) + PutString(literal))
  }

  function LiteralsBytes(literals: seq<Bytes>): Bytes
  {
    if literals == [] then [] else LiteralBytes(literals[0]) + LiteralsBytes(literals[1..])
  }

  function InjectedBytes(count: i32, literals: seq<Bytes>): Bytes
  {
    ServerBytes(AsI32(count + 1)) + (ArgumentBytes() + LiteralsBytes(literals))
  }

  function ServerNode(argument: i32): Node { Node(0x05, [argument], None, SERVER, None) }

  function ArgumentNode(): Node
  {
    Node(0x16, [], None, NAME, Some(Argument(BRIGADIER_STRING, EncodeVarInt(0), Some(ASK_SERVER))))
  }

  function LiteralNode(literal: Bytes): Node { Node(0x05, [], None, literal, None) }

  function LiteralNodes(literals: seq<Bytes>): (nodes: seq<Node>)
    ensures |nodes| == |literals|
    ensures forall i :: 0 <= i < |literals| ==> nodes[i] == LiteralNode(literals[i])
  {
    if literals == [] then [] else [LiteralNode(literals[0])] + LiteralNodes(literals[1..])
  }

  function InjectedNodes(count: i32, literals: seq<Bytes>): seq<Node>
  {
    [ServerNode(AsI32(count + 1)), ArgumentNode()] + LiteralNodes(literals)
  }

  /** Indices first, first+1, ... of `n` consecutive nodes. */
  function Range(first: int, n: nat): (r: seq<i32>)
    ensures |r| == n
    ensures forall i :: 0 <= i < n ==> r[i] == AsI32(first + i)
  {
    if n == 0 then [] else Range(first, n - 1) + [AsI32(first + n - 1)]
  }

  /** The root children that are added: "server" and every literal, but not the argument node. */
  function NewChildren(count: i32, literals: seq<Bytes>): seq<i32>
  {
    [count] + Range(count + 2, |literals|)
  }

  // ----- The rewriting -----

  /** The declared tree, cut where the rewriting needs it. */
  datatype Cut = Cut(count: i32, children: seq<i32>, rest: Bytes, root: Bytes)

  /** Leading count, root node and trailing root index; None when the packet is to be left alone. */
  function CutPayload(b: Bytes): Result<Option<Cut>>
  {
    hide DecodeVarInt, ReadVarInts, Scan;
    var (count, p1) :- DecodeVarInt(b, 0);
    if count <= 0 || p1 == |b| || b[p1] != 0 then Ok(None)
    else
      var (childCount, p2) :- DecodeVarInt(b, p1 + 1);
      if childCount < 0 || |b| - p2 < childCount then Ok(None)
      else
        var (children, p3) :- ReadVarInts(b, p2, childCount);
        if |b| - p3 < 1 then Ok(None)
        else
          match Scan(b[p3..], count)
          case None => Ok(None)
          case Some((len, val)) =>
            PickedTailIsCanonical(b[p3..], count);
            Ok(Some(Cut(count, children, b[p3..|b| - len], EncodeVarInt(val))))
  }

  function Reassemble(cut: Cut, literals: seq<Bytes>): Bytes
  {
    var children := cut.children + NewChildren(cut.count, literals);
    (EncodeVarInt(AsI32(cut.count + 2 + |literals|)) + ([0x00] + (EncodeVarInt(AsI32(|children|)) + EncodeVarInts(children))))
    + (cut.rest + (InjectedBytes(cut.count, literals) + cut.root))
  }

  /** `inject_proxy_commands_into_declare_commands`. */
  function Inject(p: RawPacket, version: int, servers: seq<Bytes>, normalize: Bytes -> Bytes): (r: Result<RawPacket>)
    ensures r.Ok? ==> r.value.id == p.id
  {
    hide CutPayload, Reassemble, Literals;
    if version < 393 || !IsDeclareCommands(p.id, version) then Ok(p)
    else
      var cut :- CutPayload(p.payload);
      match cut
      case None => Ok(p)
      case Some(c) => Ok(RawPacket(p.id, Reassemble(c, Literals(servers, normalize))))
  }

  // ----- The literals -----

  ghost predicate Distinct(literals: seq<Bytes>)
  {
    forall i, j :: 0 <= i < j < |literals| ==> literals[i] != literals[j]
  }

  ghost predicate ProperLiterals(literals: seq<Bytes>)
  {
    Distinct(literals) && forall i :: 0 <= i < |literals| ==> literals[i] != SERVER && literals[i] != []
  }

  lemma {:induction false} AddLiteralsProper(literals: seq<Bytes>, servers: seq<Bytes>, normalize: Bytes -> Bytes)
    requires ProperLiterals(literals)
    ensures ProperLiterals(AddLiterals(literals, servers, normalize))
    ensures literals <= AddLiterals(literals, servers, normalize)
    ensures forall s :: s in servers && normalize(s) != [] && normalize(s) != SERVER ==>
              normalize(s) in AddLiterals(literals, servers, normalize)
    ensures forall l :: l in AddLiterals(literals, servers, normalize) ==>
              l in literals || exists i :: 0 <= i < |servers| && l == normalize(servers[i])
    decreases |servers|
  {
    if servers != [] {
      var next := AddLiteral(literals, normalize(servers[0]));
      AddLiteralsProper(next, servers[1..], normalize);
      forall l | l in AddLiterals(literals, servers, normalize)
        ensures l in literals || exists i :: 0 <= i < |servers| && l == normalize(servers[i])
      {
        if l !in next {
          var i :| 0 <= i < |servers[1..]| && l == normalize(servers[1..][i]);
          assert l == normalize(servers[i + 1]);
        }
      }
      forall s | s in servers && normalize(s) != [] && normalize(s) != SERVER
        ensures normalize(s) in AddLiterals(literals, servers, normalize)
      {
        if s == servers[0] {
          assert normalize(s) in next;
        } else {
          assert s in servers[1..];
        }
      }
    }
  }

  /** The bytes are the characters of an ASCII text. */
  ghost predicate Reads(b: Bytes, text: string) { |b| == |text| && forall i :: 0 <= i < |b| ==> b[i] == text[i] as int }

  lemma NamesSpelled()
    ensures Reads(SERVER, "server") && Reads(NAME, "name") && Reads(ASK_SERVER, "minecraft:ask_server")
    ensures |BUILT_IN| == 3 && Reads(BUILT_IN[0], "hub") && Reads(BUILT_IN[1], "lobby") && Reads(BUILT_IN[2], "steel")
  {}

  /**
   * The injected literals are pairwise distinct, never empty, never "server", start with the built-in ones,
   * cover every server, and contain nothing else.
   */
  lemma LiteralsAreProper(servers: seq<Bytes>, normalize: Bytes -> Bytes)
    ensures ProperLiterals(Literals(servers, normalize))
    ensures BUILT_IN <= Literals(servers, normalize)
    ensures forall l :: l in Literals(servers, normalize) ==>
              l in BUILT_IN || exists i :: 0 <= i < |servers| && l == normalize(servers[i])
    ensures forall s :: s in servers && normalize(s) != [] && normalize(s) != SERVER ==>
              normalize(s) in Literals(servers, normalize)
  {
    assert BUILT_IN[1][0] != BUILT_IN[2][0];
    AddLiteralsProper(BUILT_IN, servers, normalize);
  }

  // ----- What was injected parses as intended -----

  lemma {:induction false} VarIntsRoundTrip(b: Bytes, pos: nat, vs: seq<i32>)
    requires At(b, pos, EncodeVarInts(vs))
    ensures ReadVarInts(b, pos, |vs|) == Ok((vs, pos + |EncodeVarInts(vs)|))
    decreases |vs|
  {
    hide At, EncodeVarInt, DecodeVarInt;
    if vs != [] {
      AtSplit(b, pos, EncodeVarInt(vs[0]), EncodeVarInts(vs[1..]));
      VarIntRoundTrip(b, pos, vs[0]);
      VarIntsRoundTrip(b, pos + |EncodeVarInt(vs[0])|, vs[1..]);
      assert vs == [vs[0]] + vs[1..];
    }
  }

  /** A literal node with the given children. */
  lemma LiteralParses(layout: Layout, b: Bytes, pos: nat, children: seq<i32>, name: Bytes)
    requires |children| < 0x8000_0000 && |name| < 0x8000_0000
    requires At(b, pos, [0x05] + (EncodeVarInt(|children|) + (EncodeVarInts(children) + PutString(name))))
    ensures ReadNode(layout, b, pos)
         == Ok((Node(0x05, children, None, name, None),
                pos + 1 + |EncodeVarInt(|children|)| + |EncodeVarInts(children)| + |PutString(name)|))
  {
    hide At, EncodeVarInt, DecodeVarInt, EncodeVarInts, ReadVarInts, PutString, TakeChunk;
    var n := EncodeVarInt(|children|);
    var tail := EncodeVarInts(children) + PutString(name);
    AtSplit(b, pos, [0x05], n + tail);
    AtSplit(b, pos + 1, n, tail);
    AtSplit(b, pos + 1 + |n|, EncodeVarInts(children), PutString(name));
    AtByte(b, pos, [0x05], 0);
    VarIntRoundTrip(b, pos + 1, |children|);
    VarIntsRoundTrip(b, pos + 1 + |n|, children);
    ChunkRoundTrip(b, pos + 1 + |n| + |EncodeVarInts(children)|, name);
  }

  lemma ServerParses(layout: Layout, b: Bytes, pos: nat, argument: i32)
    requires At(b, pos, ServerBytes(argument))
    ensures ReadNode(layout, b, pos) == Ok((ServerNode(argument), pos + |ServerBytes(argument)|))
  {
    hide At, EncodeVarInt, PutString, ReadNode;
    assert EncodeVarInts([argument]) == EncodeVarInt(argument) by {
      assert EncodeVarInts([argument][1..]) == [];
    }
    LiteralParses(layout, b, pos, [argument], SERVER);
  }

  lemma PlainLiteralParses(layout: Layout, b: Bytes, pos: nat, literal: Bytes)
    requires At(b, pos, LiteralBytes(literal)) && |literal| < 0x8000_0000
    ensures ReadNode(layout, b, pos) == Ok((LiteralNode(literal), pos + |LiteralBytes(literal)|))
  {
    hide At, EncodeVarInt, PutString, ReadNode;
    assert EncodeVarInts([]) + PutString(literal) == PutString(literal);
    LiteralParses(layout, b, pos, [], literal);
  }

  lemma ArgumentParses(layout: Layout, b: Bytes, pos: nat)
    requires layout.Lawful() && At(b, pos, ArgumentBytes())
    ensures ReadNode(layout, b, pos) == Ok((ArgumentNode(), pos + |ArgumentBytes()|))
  {
    hide At, EncodeVarInt, DecodeVarInt, PutString, TakeChunk;
    var zero, five := EncodeVarInt(0), EncodeVarInt(BRIGADIER_STRING);
    var t3 := zero + PutString(ASK_SERVER);
    var t2 := five + t3;
    var t1 := PutString(NAME) + t2;
    var p1 := pos + 1 + |zero|;
    var p2 := p1 + |PutString(NAME)|;
    var p3 := p2 + |five|;
    AtSplit(b, pos, [0x16], zero + t1);
    AtSplit(b, pos + 1, zero, t1);
    AtSplit(b, p1, PutString(NAME), t2);
    AtSplit(b, p2, five, t3);
    AtSplit(b, p3, zero, PutString(ASK_SERVER));
    AtByte(b, pos, [0x16], 0);
    VarIntRoundTrip(b, pos + 1, 0);
    ChunkRoundTrip(b, p1, NAME);
    VarIntRoundTrip(b, p2, BRIGADIER_STRING);
    VarIntRoundTrip(b, p3, 0);
    ChunkRoundTrip(b, p3 + |zero|, ASK_SERVER);
    assert b[p3..p3 + |zero|] == zero by { Unfold(b, p3, zero); }
    assert ReadArgument(layout, 0x16, b, p2)
        == Ok((Some(Argument(BRIGADIER_STRING, zero, Some(ASK_SERVER))), p3 + |zero| + |PutString(ASK_SERVER)|));
  }

  lemma Unfold(b: Bytes, pos: nat, x: Bytes)
    requires At(b, pos, x)
    ensures pos + |x| <= |b| && b[pos..pos + |x|] == x
  {}

  lemma {:induction false} LiteralsParse(layout: Layout, b: Bytes, pos: nat, literals: seq<Bytes>)
    requires At(b, pos, LiteralsBytes(literals))
    requires forall i :: 0 <= i < |literals| ==> |literals[i]| < 0x8000_0000
    ensures ReadNodes(layout, b, pos, |literals|) == Ok((LiteralNodes(literals), pos + |LiteralsBytes(literals)|))
    decreases |literals|
  {
    hide At, LiteralBytes, ReadNode;
    if literals != [] {
      AtSplit(b, pos, LiteralBytes(literals[0]), LiteralsBytes(literals[1..]));
      PlainLiteralParses(layout, b, pos, literals[0]);
      LiteralsParse(layout, b, pos + |LiteralBytes(literals[0])|, literals[1..]);
    }
  }

  lemma InjectedParse(layout: Layout, b: Bytes, pos: nat, count: i32, literals: seq<Bytes>)
    requires layout.Lawful() && At(b, pos, InjectedBytes(count, literals))
    requires forall i :: 0 <= i < |literals| ==> |literals[i]| < 0x8000_0000
    ensures ReadNodes(layout, b, pos, 2 + |literals|)
         == Ok((InjectedNodes(count, literals), pos + |InjectedBytes(count, literals)|))
  {
    hide At, ServerBytes, ArgumentBytes, LiteralsBytes, ReadNode, LiteralNodes;
    var argument := AsI32(count + 1);
    var p1 := pos + |ServerBytes(argument)|;
    var p2 := p1 + |ArgumentBytes()|;
    AtSplit(b, pos, ServerBytes(argument), ArgumentBytes() + LiteralsBytes(literals));
    AtSplit(b, p1, ArgumentBytes(), LiteralsBytes(literals));
    ServerParses(layout, b, pos, argument);
    ArgumentParses(layout, b, p1);
    LiteralsParse(layout, b, p2, literals);
    assert InjectedNodes(count, literals) == [ServerNode(argument)] + ([ArgumentNode()] + LiteralNodes(literals));
  }

  lemma RootParses(layout: Layout, b: Bytes, pos: nat, children: seq<i32>)
    requires |children| < 0x8000_0000
    requires At(b, pos, [0x00] + (EncodeVarInt(|children|) + EncodeVarInts(children)))
    ensures ReadNode(layout, b, pos)
         == Ok((Node(0, children, None, [], None), pos + 1 + |EncodeVarInt(|children|)| + |EncodeVarInts(children)|))
  {
    hide At, EncodeVarInt, DecodeVarInt, EncodeVarInts, ReadVarInts;
    var n := EncodeVarInt(|children|);
    AtSplit(b, pos, [0x00], n + EncodeVarInts(children));
    AtSplit(b, pos + 1, n, EncodeVarInts(children));
    AtByte(b, pos, [0x00], 0);
    VarIntRoundTrip(b, pos + 1, |children|);
    VarIntsRoundTrip(b, pos + 1 + |n|, children);
  }

  // ----- The tree is preserved -----

  /** The tree after grafting: old nodes at their old indices, new ones behind them. */
  function Graft(tree: Tree, literals: seq<Bytes>): Tree
    requires 1 <= |tree.nodes| < 0x8000_0000
  {
    var n := |tree.nodes|;
    var root := tree.nodes[0];
    Tree([root.(children := root.children + NewChildren(n, literals))]
         + (tree.nodes[1..] + InjectedNodes(n, literals)), tree.root)
  }

  /** The payload `b` spells `tree`: where its first and second node begin, and where its root index begins. */
  ghost predicate Declares(layout: Layout, b: Bytes, tree: Tree, first: nat, second: nat, end: nat)
  {
    && 1 <= |tree.nodes| < 0x8000_0000
    && DecodeVarInt(b, 0) == Ok((|tree.nodes|, first))
    && ReadNode(layout, b, first) == Ok((tree.nodes[0], second))
    && ReadNodes(layout, b, second, |tree.nodes| - 1) == Ok((tree.nodes[1..], end))
    && DecodeVarInt(b, end) == Ok((tree.root, |b|))
  }

  /** Every such packet is one the client reads as that tree. */
  lemma DeclaredTreeReads(layout: Layout, b: Bytes, tree: Tree, first: nat, second: nat, end: nat)
    requires Declares(layout, b, tree, first, second, end)
    ensures ReadTree(layout, b) == Ok(tree)
  {
    hide DecodeVarInt, ReadNode;
    assert tree.nodes == [tree.nodes[0]] + tree.nodes[1..];
  }

  lemma DeclaredHasNodes(layout: Layout, b: Bytes, tree: Tree, first: nat, second: nat, end: nat)
    requires Declares(layout, b, tree, first, second, end)
    ensures 1 <= |tree.nodes| < 0x8000_0000 && second <= end < |b|
  {
    hide ReadNode, DecodeVarInt;
  }

  /** And every packet the client reads as a tree with nodes is such a packet. */
  lemma ReadTreeIsDeclared(layout: Layout, b: Bytes, tree: Tree) returns (first: nat, second: nat, end: nat)
    requires ReadTree(layout, b) == Ok(tree) && tree.nodes != []
    ensures Declares(layout, b, tree, first, second, end)
  {
    hide DecodeVarInt, ReadNode;
    first := DecodeVarInt(b, 0).value.1;
    second := ReadNode(layout, b, first).value.1;
    end := ReadNodes(layout, b, first, |tree.nodes|).value.1;
  }

  // ----- Trees of literals -----

  /** A root without children, and one literal node per name. */
  function LiteralTree(names: seq<Bytes>, root: i32): Tree { Tree([Node(0, [], None, [], None)] + LiteralNodes(names), root) }

  function LiteralTreeBytes(names: seq<Bytes>, root: i32): Bytes
  {
    EncodeVarInt(AsI32(|names| + 1)) + (([0x00] + (EncodeVarInt(0) + EncodeVarInts([]))) + (LiteralsBytes(names) + EncodeVarInt(root)))
  }

  /** These are declared trees, whatever the parser layouts. */
  lemma LiteralTreeIsDeclared(layout: Layout, names: seq<Bytes>, root: i32) returns (first: nat, second: nat, end: nat)
    requires |names| + 1 < 0x8000_0000 && 0 <= root <= |names| && forall i :: 0 <= i < |names| ==> |names[i]| < 0x8000_0000
    ensures var b := LiteralTreeBytes(names, root);
            && Declares(layout, b, LiteralTree(names, root), first, second, end)
            && b[second..end] == LiteralsBytes(names) && b[end..] == EncodeVarInt(root)
  {
    hide At, EncodeVarInt, DecodeVarInt, EncodeVarInts, ReadNode, ReadNodes, LiteralsBytes, LiteralNodes;
    var b, tree := LiteralTreeBytes(names, root), LiteralTree(names, root);
    var count, node0, rest := EncodeVarInt(|names| + 1), [0x00] + (EncodeVarInt(0) + EncodeVarInts([])), LiteralsBytes(names);
    first, second, end := |count|, |count| + |node0|, |count| + |node0| + |rest|;
    AtPieces(count, node0, rest, EncodeVarInt(root));
    VarIntRoundTrip(b, 0, |names| + 1);
    RootParses(layout, b, first, []);
    LiteralsParse(layout, b, second, names);
    assert tree.nodes[1..] == LiteralNodes(names);
    Unfold(b, second, rest);
    VarIntRoundTrip(b, end, root);
    assert b[end..] == b[end..end + |EncodeVarInt(root)|] by { Unfold(b, end, EncodeVarInt(root)); }
  }

  /** The counts and lengths that are written still fit the 32-bit fields. */
  predicate WithinRange(tree: Tree, literals: seq<Bytes>)
  {
    && |tree.nodes| + 2 + |literals| < 0x8000_0000
    && (|tree.nodes| > 0 ==> |tree.nodes[0].children| + 1 + |literals| < 0x8000_0000)
    && (forall i :: 0 <= i < |literals| ==> |literals[i]| < 0x8000_0000)
  }

  /** The cut of a declared tree is where the scan says. */
  lemma CutIsScanned(layout: Layout, b: Bytes, tree: Tree, first: nat, second: nat, end: nat, len: nat, val: nat)
    requires Declares(layout, b, tree, first, second, end) && tree.nodes[0].flags == 0
    requires second < |b| && Scan(b[second..], |tree.nodes|) == Some((len, val))
    ensures len <= |b| - second && 1 <= len && val < |tree.nodes| && EncodeVarInt(val) == b[|b| - len..]
    ensures CutPayload(b) == Ok(Some(Cut(|tree.nodes|, tree.nodes[0].children, b[second..|b| - len], EncodeVarInt(val))))
  {
    hide DecodeVarInt, ReadVarInts, Scan, ReadNodes, EncodeVarInt;
    PickedTailIsCanonical(b[second..], |tree.nodes|);
  }

  /** Without a plain root node, or when the scan finds nothing, the packet is left alone. */
  lemma NothingIsCut(layout: Layout, b: Bytes, tree: Tree, first: nat, second: nat, end: nat)
    requires Declares(layout, b, tree, first, second, end) && second < |b|
    requires tree.nodes[0].flags != 0 || Scan(b[second..], |tree.nodes|) == None
    ensures CutPayload(b) == Ok(None)
  {
    hide DecodeVarInt, ReadVarInts, Scan, ReadNodes, EncodeVarInt, ReadRedirect, ReadName, ReadArgument;
    FlagsComeFirst(layout, b, first);
    if tree.nodes[0].flags == 0 {
      RootNodeEnds(layout, b, first);
    }
  }

  /** A node with no flags ends with its children. */
  lemma RootNodeEnds(layout: Layout, b: Bytes, pos: nat)
    requires ReadNode(layout, b, pos).Ok? && b[pos] == 0
    ensures ReadChildren(b, pos + 1).Ok? && ReadNode(layout, b, pos).value.1 == ReadChildren(b, pos + 1).value.1
  {
    hide DecodeVarInt, ReadVarInts;
  }

  lemma ReassembledReads(layout: Layout, b: Bytes, tree: Tree, first: nat, second: nat, end: nat, literals: seq<Bytes>)
    requires layout.Lawful() && Declares(layout, b, tree, first, second, end) && WithinRange(tree, literals)
    requires tree.nodes[0].flags == 0
    ensures var cut := Cut(|tree.nodes|, tree.nodes[0].children, b[second..end], EncodeVarInt(tree.root));
            ReadTree(layout, Reassemble(cut, literals)) == Ok(Graft(tree, literals))
  {
    hide At, EncodeVarInt, DecodeVarInt, EncodeVarInts, InjectedBytes, InjectedNodes, NewChildren, ReadNode, ReadNodes;
    var n, l := |tree.nodes|, |literals|;
    var rest, injected, root := b[second..end], InjectedBytes(n, literals), EncodeVarInt(tree.root);
    var cut := Cut(n, tree.nodes[0].children, rest, root);
    var children := cut.children + NewChildren(n, literals);
    assert |NewChildren(n, literals)| == 1 + l by { NewChildrenCount(n, literals); }
    var total := EncodeVarInt(n + 2 + l);
    var node0 := [0x00] + (EncodeVarInt(|children|) + EncodeVarInts(children));
    var head := total + node0;
    var out := Reassemble(cut, literals);
    AtPieces(head, rest, injected, root);
    AtSplit(out, 0, total, node0);
    VarIntRoundTrip(out, 0, n + 2 + l);
    RootParses(layout, out, |total|, children);
    SecondHalf(layout, b, second, end, tree, literals, out, |head|);
    OneMoreNode(layout, out, |total|, |head|);
    RootNodeIsPlain(layout, b, first);
    VarIntRoundTrip(out, |head| + |rest| + |injected|, tree.root);
  }

  /** A node with no flags has nothing but its children. */
  lemma RootNodeIsPlain(layout: Layout, b: Bytes, pos: nat)
    requires ReadNode(layout, b, pos).Ok? && ReadNode(layout, b, pos).value.0.flags == 0
    ensures var node := ReadNode(layout, b, pos).value.0; node == Node(0, node.children, None, [], None)
  {
    hide ReadChildren, DecodeVarInt, TakeChunk;
  }

  lemma NewChildrenCount(count: i32, literals: seq<Bytes>)
    ensures |NewChildren(count, literals)| == 1 + |literals|
  {}

  /** Prepending the node read at `pos` to the nodes read at `next`. */
  lemma OneMoreNode(layout: Layout, b: Bytes, pos: nat, next: nat)
    requires ReadNode(layout, b, pos).Ok? && ReadNode(layout, b, pos).value.1 == next
    ensures forall n: nat :: ReadNodes(layout, b, next, n).Ok? ==>
              ReadNodes(layout, b, pos, n + 1) ==
                Ok(([ReadNode(layout, b, pos).value.0] + ReadNodes(layout, b, next, n).value.0, ReadNodes(layout, b, next, n).value.1))
  {
    hide ReadNode;
  }

  lemma SecondHalf(layout: Layout, b: Bytes, second: nat, end: nat, tree: Tree, literals: seq<Bytes>, out: Bytes, at: nat)
    requires layout.Lawful() && 1 <= |tree.nodes| && WithinRange(tree, literals)
    requires second <= end <= |b| && ReadNodes(layout, b, second, |tree.nodes| - 1) == Ok((tree.nodes[1..], end))
    requires At(out, at, b[second..end]) && At(out, at + end - second, InjectedBytes(|tree.nodes|, literals))
    ensures ReadNodes(layout, out, at, |tree.nodes| + 1 + |literals|)
         == Ok((tree.nodes[1..] + InjectedNodes(|tree.nodes|, literals),
                at + end - second + |InjectedBytes(|tree.nodes|, literals)|))
  {
    hide At, InjectedBytes, InjectedNodes, ReadNodes;
    var n := |tree.nodes|;
    var mid := at + end - second;
    ReadNodesLocal(layout, b, second, out, at, n - 1);
    InjectedParse(layout, out, mid, n, literals);
    ReadNodesJoin(layout, out, at, n - 1, mid, tree.nodes[1..], 2 + |literals|,
                  mid + |InjectedBytes(n, literals)|, InjectedNodes(n, literals));
  }

  // ----- A misread root index spoils the tree -----

  /** What is read of a reassembled packet behind its first node. */
  lemma ReassembledTail(layout: Layout, tree: Tree, rest: Bytes, root: Bytes, literals: seq<Bytes>) returns (at: nat)
    requires 1 <= |tree.nodes| < 0x8000_0000 && WithinRange(tree, literals)
    ensures var out := Reassemble(Cut(|tree.nodes|, tree.nodes[0].children, rest, root), literals);
            && At(out, at, rest) && At(out, at + |rest|, InjectedBytes(|tree.nodes|, literals))
            && (ReadTree(layout, out) == Ok(Graft(tree, literals)) ==>
                  var r := ReadNodes(layout, out, at, |tree.nodes| + 1 + |literals|);
                  r.Ok? && r.value.0 == tree.nodes[1..] + InjectedNodes(|tree.nodes|, literals))
  {
    hide At, EncodeVarInt, DecodeVarInt, EncodeVarInts, InjectedBytes, InjectedNodes, NewChildren, ReadNode;
    var n, l := |tree.nodes|, |literals|;
    var injected := InjectedBytes(n, literals);
    var children := tree.nodes[0].children + NewChildren(n, literals);
    assert |NewChildren(n, literals)| == 1 + l by { NewChildrenCount(n, literals); }
    var total := EncodeVarInt(n + 2 + l);
    var node0 := [0x00] + (EncodeVarInt(|children|) + EncodeVarInts(children));
    var head := total + node0;
    var out := Reassemble(Cut(n, tree.nodes[0].children, rest, root), literals);
    at := |head|;
    AtPieces(head, rest, injected, root);
    AtSplit(out, 0, total, node0);
    VarIntRoundTrip(out, 0, n + 2 + l);
    RootParses(layout, out, |total|, children);
    if ReadTree(layout, out) == Ok(Graft(tree, literals)) {
      var nodes := ReadNodes(layout, out, |total|, n + 2 + l).value.0;
      assert nodes[1..] == tree.nodes[1..] + InjectedNodes(n, literals);
      assert nodes[1..] == ReadNodes(layout, out, at, n + 1 + l).value.0;
    }
  }

  /** Cut too early, inside the last node: that node is read differently. */
  lemma EarlyCutReadsDifferently(layout: Layout, b: Bytes, tree: Tree, first: nat, second: nat, end: nat, cut: nat, root: Bytes,
                                 literals: seq<Bytes>)
    requires layout.Lawful() && Declares(layout, b, tree, first, second, end) && WithinRange(tree, literals)
    requires second <= cut && HighRun(b, cut, end)
    ensures ReadTree(layout, Reassemble(Cut(|tree.nodes|, tree.nodes[0].children, b[second..cut], root), literals))
         != Ok(Graft(tree, literals))
  {
    hide At, DecodeVarInt, InjectedBytes, ReadNode, ReadTree, HighRun, Reassemble, Graft;
    RunIsNotEmpty(b, cut, end);
    var n, rest := |tree.nodes|, b[second..cut];
    var out := Reassemble(Cut(n, tree.nodes[0].children, rest, root), literals);
    var at := ReassembledTail(layout, tree, rest, root, literals);
    assert Diverges(b, second, cut, out, at) by {
      InjectedStartsLow(n, literals);
      AtByte(out, at + |rest|, InjectedBytes(n, literals), 0);
    }
    NodesDiffer(layout, b, second, n - 1, cut, out, at);
    if ReadTree(layout, out) == Ok(Graft(tree, literals)) {
      ReadNodesPrefix(layout, out, at, n - 1, |literals| + 2);
    }
  }

  /** Cut too late, inside the root index: the node behind the old ones has other flags than the injected one. */
  lemma LateCutReadsDifferently(layout: Layout, b: Bytes, tree: Tree, first: nat, second: nat, end: nat, cut: nat, root: Bytes,
                                literals: seq<Bytes>)
    requires layout.Lawful() && Declares(layout, b, tree, first, second, end) && WithinRange(tree, literals)
    requires end < cut <= |b| && b[end] >= 128
    ensures second <= cut
    ensures ReadTree(layout, Reassemble(Cut(|tree.nodes|, tree.nodes[0].children, b[second..cut], root), literals))
         != Ok(Graft(tree, literals))
  {
    hide At, DecodeVarInt, InjectedBytes, ReadNode, ReadNodes, ReadTree, Reassemble, Graft;
    var n, rest := |tree.nodes|, b[second..cut];
    var out := Reassemble(Cut(n, tree.nodes[0].children, rest, root), literals);
    var at := ReassembledTail(layout, tree, rest, root, literals);
    CopiedSplit(b, second, end, cut, out, at);
    ReadNodesLocal(layout, b, second, out, at, n - 1);
    if ReadTree(layout, out) == Ok(Graft(tree, literals)) {
      NodeBehind(layout, out, at, n - 1, 2 + |literals|);
      FlagsComeFirst(layout, out, at + end - second);
      CopiedByte(b, end, cut, out, at + end - second);
    }
  }

  lemma InjectedStartsLow(count: i32, literals: seq<Bytes>)
    ensures InjectedBytes(count, literals) != [] && InjectedBytes(count, literals)[0] == 5
  {
    hide EncodeVarInt;
  }

  /** All bytes of the picked tail but the last have the high bit. */
  lemma PickedTailIsHigh(b: Bytes, cut: nat, end: nat, val: nat)
    requires val < 0x8000_0000 && cut < end < |b| && EncodeVarInt(val) == b[cut..]
    ensures HighRun(b, cut, end)
  {
    LebShape(val);
    forall i | cut <= i < end ensures b[i] >= 128 {
      assert b[i] == b[cut..][i - cut];
    }
  }

  /** What a scan that does not locate the root index makes of the packet. */
  lemma MissedRootReadsDifferently(layout: Layout, b: Bytes, tree: Tree, first: nat, second: nat, end: nat, len: nat, val: nat,
                                   literals: seq<Bytes>)
    requires layout.Lawful() && Declares(layout, b, tree, first, second, end) && WithinRange(tree, literals)
    requires tree.nodes[0].flags == 0 && second <= end < |b|
    requires Scan(b[second..], |tree.nodes|) == Some((len, val)) && !Locates(b[second..], end - second, tree.root, |tree.nodes|)
    ensures CutPayload(b).Ok? && CutPayload(b).value.Some?
    ensures ReadTree(layout, Reassemble(CutPayload(b).value.value, literals)) != Ok(Graft(tree, literals))
  {
    hide DecodeVarInt, ReadNode, ReadNodes, ReadTree, Scan, EncodeVarInt, CutPayload, Reassemble, Graft, HighRun, WithinRange;
    CutIsScanned(layout, b, tree, first, second, end, len, val);
    var cut := |b| - len;
    if cut < end {
      PickedTailIsHigh(b, cut, end, val);
      EarlyCutReadsDifferently(layout, b, tree, first, second, end, cut, EncodeVarInt(val), literals);
    } else if cut > end {
      VarIntStartsHigh(b, end);
      LateCutReadsDifferently(layout, b, tree, first, second, end, cut, EncodeVarInt(val), literals);
    } else {
      assert b[end..end + |EncodeVarInt(val)|] == b[end..];
      VarIntRoundTrip(b, end, val);
    }
  }

  /** The packet survives the rewriting: a plain root node, a locatable root index, and counts that fit their fields. */
  predicate Graftable(b: Bytes, tree: Tree, second: nat, end: nat, literals: seq<Bytes>)
    requires tree.nodes != [] && second <= end < |b|
  {
    && tree.nodes[0].flags == 0 && WithinRange(tree, literals)
    && b[end..] == EncodeVarInt(tree.root) && 0 <= tree.root < |tree.nodes|
    && Unambiguous(b[second..end], tree.root, |tree.nodes|)
  }

  lemma GraftableIff(layout: Layout, b: Bytes, tree: Tree, first: nat, second: nat, end: nat, literals: seq<Bytes>)
    requires Declares(layout, b, tree, first, second, end) && second <= end < |b|
    ensures Graftable(b, tree, second, end, literals) <==>
              && tree.nodes[0].flags == 0 && WithinRange(tree, literals)
              && Locates(b[second..], end - second, tree.root, |tree.nodes|)
  {
    hide ReadNode, ReadNodes, EncodeVarInt, DecodeVarInt, Unambiguous, WithinRange, Locates;
    var tail := b[second..];
    assert tail[..end - second] == b[second..end] && tail[end - second..] == b[end..];
    RootIndexLies(b, second, end);
    ScanIsExactIff(tail, end - second, tree.root, |tree.nodes|);
  }

  lemma RootIndexLies(b: Bytes, second: nat, end: nat)
    requires second <= end && DecodeVarInt(b, end).Ok? && DecodeVarInt(b, end).value.1 == |b|
    ensures DecodeVarInt(b[second..], end - second) == Ok((DecodeVarInt(b, end).value.0, |b| - second))
  {
    hide DecodeVarInt;
    assert b[second..][end - second..] == b[end..|b|];
    VarIntLocal(b, end, b[second..], end - second);
  }

  /** A graft that does not fit the 32-bit fields has too many nodes or one that is too large. */
  lemma OversizeIsNotSmall(tree: Tree, literals: seq<Bytes>)
    requires 1 <= |tree.nodes| < 0x8000_0000 && !WithinRange(tree, literals)
    ensures var nodes := Graft(tree, literals).nodes;
            |nodes| >= 0x8000_0000 || exists i :: 0 <= i < |nodes| && !Small(nodes[i])
  {
    var nodes, n := Graft(tree, literals).nodes, |tree.nodes|;
    NewChildrenCount(n, literals);
    if |tree.nodes[0].children| + 1 + |literals| >= 0x8000_0000 {
      assert !Small(nodes[0]);
    } else if i :| 0 <= i < |literals| && |literals[i]| >= 0x8000_0000 {
      assert nodes[n + 2 + i] == InjectedNodes(n, literals)[2 + i];
      assert !Small(nodes[n + 2 + i]);
    }
  }

  /** So it is read from no packet at all. */
  lemma OversizeIsNeverRead(layout: Layout, b: Bytes, tree: Tree, literals: seq<Bytes>)
    requires 1 <= |tree.nodes| < 0x8000_0000 && !WithinRange(tree, literals)
    ensures ReadTree(layout, b) != Ok(Graft(tree, literals))
  {
    hide ReadTree, Graft, Small;
    OversizeIsNotSmall(tree, literals);
    if ReadTree(layout, b).Ok? {
      TreeIsSmall(layout, b);
    }
  }

  /**
   * For every DeclareCommands packet a client can read as a tree with nodes, and every table of
   * argument-parser layouts: the client reads the rewritten packet as the grafted tree if and only if
   * node 0 is a plain root, the root index is canonical, points to a node and is unambiguous, and the
   * new counts and lengths fit their 32-bit fields.
   */
  lemma InjectionGraftsTheTreeIff(layout: Layout, p: RawPacket, version: int, servers: seq<Bytes>, normalize: Bytes -> Bytes,
                                  tree: Tree, first: nat, second: nat, end: nat)
    requires layout.Lawful() && version >= 393 && IsDeclareCommands(p.id, version)
    requires Declares(layout, p.payload, tree, first, second, end)
    ensures var r := Inject(p, version, servers, normalize); var literals := Literals(servers, normalize);
            && second <= end < |p.payload| && r.Ok? && r.value.id == p.id
            && (ReadTree(layout, r.value.payload) == Ok(Graft(tree, literals))
                <==> Graftable(p.payload, tree, second, end, literals))
  {
    hide CutPayload, Reassemble, Literals, ReadTree, Graftable, WithinRange, IsDeclareCommands, ReadNode, ReadNodes, DecodeVarInt, Scan, Graft,
         EncodeVarInt;
    var b, literals := p.payload, Literals(servers, normalize);
    DeclaredTreeReads(layout, b, tree, first, second, end);
    GraftableIff(layout, b, tree, first, second, end, literals);
    GraftIsLarger(tree, literals);
    if tree.nodes[0].flags != 0 || Scan(b[second..], |tree.nodes|) == None {
      NothingIsCut(layout, b, tree, first, second, end);
    } else {
      var (len, val) := Scan(b[second..], |tree.nodes|).value;
      CutIsScanned(layout, b, tree, first, second, end, len, val);
      if !WithinRange(tree, literals) {
        OversizeIsNeverRead(layout, Reassemble(CutPayload(b).value.value, literals), tree, literals);
      } else if Locates(b[second..], end - second, tree.root, |tree.nodes|) {
        ReassembledReads(layout, b, tree, first, second, end, literals);
      } else {
        MissedRootReadsDifferently(layout, b, tree, first, second, end, len, val, literals);
      }
    }
  }

  lemma GraftIsLarger(tree: Tree, literals: seq<Bytes>)
    requires 1 <= |tree.nodes| < 0x8000_0000
    ensures |Graft(tree, literals).nodes| > |tree.nodes|
  {}

  lemma {:induction false} LiteralsEndWithName(names: seq<Bytes>)
    requires names != [] && names[|names| - 1] != []
    ensures LiteralsBytes(names) != []
    ensures LiteralsBytes(names)[|LiteralsBytes(names)| - 1] == names[|names| - 1][|names[|names| - 1]| - 1]
    decreases |names|
  {
    hide EncodeVarInt;
    if |names| > 1 {
      LiteralsEndWithName(names[1..]);
    } else {
      assert LiteralsBytes(names[1..]) == [];
    }
  }

  /** 198 nodes named "a" and one named by the UTF-8 bytes of an accented e. */
  function AccentedNames(): seq<Bytes> { seq(198, _ => [0x61]) + [[0xC3, 0xA9]] }

  /** A packet whose root index is misread: the client does not get the tree it was to be sent. */
  lemma MisreadTree(layout: Layout, id: i32, version: int, servers: seq<Bytes>, normalize: Bytes -> Bytes)
    requires layout.Lawful() && version >= 393 && IsDeclareCommands(id, version)
    ensures var p, tree := RawPacket(id, LiteralTreeBytes(AccentedNames(), 1)), LiteralTree(AccentedNames(), 1);
            var r := Inject(p, version, servers, normalize);
            && ReadTree(layout, p.payload) == Ok(tree) && |tree.nodes| == 200
            && r.Ok? && ReadTree(layout, r.value.payload) != Ok(Graft(tree, Literals(servers, normalize)))
  {
    hide LiteralTreeBytes, Literals, ReadTree, WithinRange, IsDeclareCommands, Declares, LiteralsBytes, Inject;
    var names := AccentedNames();
    assert names[198] == [0xC3, 0xA9];
    var p := RawPacket(id, LiteralTreeBytes(names, 1));
    var first, second, end := LiteralTreeIsDeclared(layout, names, 1);
    DeclaredTreeReads(layout, p.payload, LiteralTree(names, 1), first, second, end);
    LiteralsEndWithName(names);
    InjectionGraftsTheTreeIff(layout, p, version, servers, normalize, LiteralTree(names, 1), first, second, end);
  }

  /** A root without children whose root index, zero, is padded to two bytes. */
  const PADDED: Bytes := [0x01, 0x00, 0x00, 0x80, 0x00]

  /** A packet of one node whose padded root index is misread. */
  lemma MisreadPadding(layout: Layout, id: i32, version: int, servers: seq<Bytes>, normalize: Bytes -> Bytes)
    requires layout.Lawful() && version >= 393 && IsDeclareCommands(id, version)
    ensures var tree, r := LiteralTree([], 0), Inject(RawPacket(id, PADDED), version, servers, normalize);
            && ReadTree(layout, PADDED) == Ok(tree) && |tree.nodes| == 1
            && r.Ok? && ReadTree(layout, r.value.payload) != Ok(Graft(tree, Literals(servers, normalize)))
  {
    hide ReadNode, Literals, IsDeclareCommands, Inject, ReadTree;
    var tree := LiteralTree([], 0);
    assert EncodeVarInt(0) == [0] && EncodeVarInt(1) == [1] && EncodeVarInts([]) == [];
    assert PADDED[0..1] == [1] && PADDED[1..3] == [0x00] + (EncodeVarInt(0) + EncodeVarInts([])) && PADDED[3..] == [0x80, 0x00];
    VarIntRoundTrip(PADDED, 0, 1);
    RootParses(layout, PADDED, 1, []);
    assert tree.nodes[1..] == [] && ReadNodes(layout, PADDED, 3, 0) == Ok(([], 3));
    assert ReadLeb(PADDED, 4, 4, 16) == Ok((0, 5)) && ReadLeb(PADDED, 3, 5, 16) == Ok((0, 5));
    DeclaredTreeReads(layout, PADDED, tree, 1, 3, 3);
    InjectionGraftsTheTreeIff(layout, RawPacket(id, PADDED), version, servers, normalize, tree, 1, 3, 3);
  }

  /**
   * What grafting means: N+2+L nodes; nodes 1..N-1 untouched; the root keeps its children and gains
   * N, N+2, ..., N+1+L; the root index stays. Node N is the executable literal "server" with one child,
   * node N+1 its argument "name" (one word, completions asked from the server), and an executable literal
   * follows for each name.
   */
  lemma GraftMeaning(tree: Tree, literals: seq<Bytes>)
    requires 1 <= |tree.nodes| && WithinRange(tree, literals)
    ensures var g := Graft(tree, literals); var n := |tree.nodes|;
            && |g.nodes| == n + 2 + |literals| && g.root == tree.root
            && (forall i :: 1 <= i < n ==> g.nodes[i] == tree.nodes[i])
            && g.nodes[0] == tree.nodes[0].(children := tree.nodes[0].children + [n] + Range(n + 2, |literals|))
            && g.nodes[n] == Node(0x05, [n + 1], None, SERVER, None)
            && g.nodes[n + 1] == Node(0x16, [], None, NAME, Some(Argument(5, [0], Some(ASK_SERVER))))
            && (forall i :: n + 2 <= i < |g.nodes| ==> g.nodes[i] == Node(0x05, [], None, literals[i - n - 2], None))
  {
    assert EncodeVarInt(0) == [0];
    hide LiteralNodes, Range;
    var n := |tree.nodes|;
    assert tree.nodes[0].children + NewChildren(n, literals) == tree.nodes[0].children + [n] + Range(n + 2, |literals|);
  }

  /** Every child index stays in range. */
  lemma GraftKeepsChildrenInRange(tree: Tree, literals: seq<Bytes>)
    requires 1 <= |tree.nodes| && WithinRange(tree, literals) && ChildrenInRange(tree)
    ensures ChildrenInRange(Graft(tree, literals))
  {
    hide Graft;
    GraftMeaning(tree, literals);
    var g, n := Graft(tree, literals), |tree.nodes|;
    forall i, j | 0 <= i < |g.nodes| && 0 <= j < |g.nodes[i].children|
      ensures 0 <= g.nodes[i].children[j] < |g.nodes|
    {
      if 0 < i < n {
        assert g.nodes[i] == tree.nodes[i];
      }
    }
  }

  ghost predicate ChildrenInRange(tree: Tree)
  {
    forall i, j :: 0 <= i < |tree.nodes| && 0 <= j < |tree.nodes[i].children| ==>
      0 <= tree.nodes[i].children[j] < |tree.nodes|
  }

  // ----- The code -----

  /** The loop that reads the root's children. */
  method TakeVarInts(b: Bytes, start: nat, n: nat) returns (r: Result<(seq<i32>, nat)>)
    ensures r == ReadVarInts(b, start, n)
  {
    hide DecodeVarInt;
    var vs: seq<i32> := [];
    var pos: nat := start;
    ghost var all := ReadVarInts(b, start, n);
    assert all.Ok? ==> [] + all.value.0 == all.value.0;
    for i := 0 to n
      invariant all == Prepend(vs, ReadVarInts(b, pos, n - i))
    {
      var v := TakeVarInt(b, pos);
      if v.Err? {
        return Err(v.error);
      }
      PrependStep(vs, b, pos, n - i);
      vs, pos := vs + [v.value.0], v.value.1;
    }
    assert vs + [] == vs;
    return Ok((vs, pos));
  }

  ghost function Prepend(vs: seq<i32>, r: Result<(seq<i32>, nat)>): Result<(seq<i32>, nat)>
  {
    match r
    case Ok((more, end)) => Ok((vs + more, end))
    case Err(e) => Err(e)
  }

  lemma PrependStep(vs: seq<i32>, b: Bytes, pos: nat, n: nat)
    requires n > 0 && DecodeVarInt(b, pos).Ok?
    ensures var (v, next) := DecodeVarInt(b, pos).value;
            Prepend(vs, ReadVarInts(b, pos, n)) == Prepend(vs + [v], ReadVarInts(b, next, n - 1))
  {
    hide DecodeVarInt;
    var (v, next) := DecodeVarInt(b, pos).value;
    var rest := ReadVarInts(b, next, n - 1);
    if rest.Ok? {
      assert vs + ([v] + rest.value.0) == (vs + [v]) + rest.value.0;
    }
  }

  /** The loop over the configured servers. */
  method CollectLiterals(servers: seq<Bytes>, normalize: Bytes -> Bytes) returns (literals: seq<Bytes>)
    ensures literals == Literals(servers, normalize)
  {
    literals := BUILT_IN;
    for i := 0 to |servers|
      invariant AddLiterals(literals, servers[i..], normalize) == Literals(servers, normalize)
    {
      assert servers[i..][1..] == servers[i + 1..];
      var name := normalize(servers[i]);
      if name != [] && name != SERVER && name !in literals {
        literals := literals + [name];
      }
    }
  }

  /** A loop that writes node indices. */
  method PutVarInts(vs: seq<i32>, buf: Bytes) returns (out: Bytes)
    ensures out == buf + EncodeVarInts(vs)
  {
    hide EncodeVarInt;
    out := buf;
    for i := 0 to |vs|
      invariant out + EncodeVarInts(vs[i..]) == buf + EncodeVarInts(vs)
    {
      assert vs[i..][1..] == vs[i + 1..];
      assert out + (EncodeVarInt(vs[i]) + EncodeVarInts(vs[i + 1..])) == (out + EncodeVarInt(vs[i])) + EncodeVarInts(vs[i + 1..]);
      out := PutVarInt(vs[i], out);
    }
    assert out + [] == out;
  }

  /** The loop that writes one literal node per name and collects the indices given out. */
  method PutLiterals(count: i32, literals: seq<Bytes>, buf: Bytes, roots: seq<i32>) returns (out: Bytes, children: seq<i32>)
    ensures out == buf + LiteralsBytes(literals)
    ensures children == roots + Range(count + 2, |literals|)
  {
    hide LiteralBytes;
    out, children := buf, roots;
    for i := 0 to |literals|
      invariant out + LiteralsBytes(literals[i..]) == buf + LiteralsBytes(literals)
      invariant children == roots + Range(count + 2, i)
    {
      assert literals[i..][1..] == literals[i + 1..];
      assert out + (LiteralBytes(literals[i]) + LiteralsBytes(literals[i + 1..]))
          == (out + LiteralBytes(literals[i])) + LiteralsBytes(literals[i + 1..]);
      children := children + [AsI32(count + 2 + i)];
      out := out + LiteralBytes(literals[i]);
    }
    assert out + [] == out;
  }

  /** Cuts the payload, reading the children and scanning for the root index. */
  method CutDeclared(b: Bytes) returns (r: Result<Option<Cut>>)
    ensures r == CutPayload(b)
  {
    hide DecodeVarInt, ReadVarInts, Scan, EncodeVarInt;
    var count := TakeVarInt(b, 0);
    if count.Err? {
      return Err(count.error);
    }
    var (n, p1) := count.value;
    if n <= 0 || p1 == |b| || b[p1] != 0 {
      return Ok(None);
    }
    var childCount := TakeVarInt(b, p1 + 1);
    if childCount.Err? {
      return Err(childCount.error);
    }
    var (k, p2) := childCount.value;
    if k < 0 || |b| - p2 < k {
      return Ok(None);
    }
    var children := TakeVarInts(b, p2, k);
    if children.Err? {
      return Err(children.error);
    }
    var p3 := children.value.1;
    if |b| - p3 < 1 {
      return Ok(None);
    }
    var found := ScanBackwards(b[p3..], n);
    if found.None? {
      return Ok(None);
    }
    PickedTailIsCanonical(b[p3..], n);
    var (len, val) := found.value;
    return Ok(Some(Cut(n, children.value.0, b[p3..|b| - len], EncodeVarInt(val))));
  }

  /** `inject_proxy_commands_into_declare_commands`. */
  method InjectProxyCommands(p: RawPacket, version: int, servers: seq<Bytes>, normalize: Bytes -> Bytes)
    returns (r: Result<RawPacket>)
    ensures r == Inject(p, version, servers, normalize)
  {
    hide CutPayload, Literals, IsDeclareCommands;
    if version < 393 || !IsDeclareCommands(p.id, version) {
      return Ok(p);
    }
    var found := CutDeclared(p.payload);
    if found.Err? {
      return Err(found.error);
    }
    if found.value.None? {
      return Ok(p);
    }
    var literals := CollectLiterals(servers, normalize);
    var payload := AssemblePayload(found.value.value, literals);
    r := Ok(RawPacket(p.id, payload));
  }

  /** Writes the new nodes, then the whole payload around them. */
  method AssemblePayload(cut: Cut, literals: seq<Bytes>) returns (out: Bytes)
    ensures out == Reassemble(cut, literals)
  {
    hide EncodeVarInt, EncodeVarInts, LiteralsBytes, ServerBytes, ArgumentBytes;
    var nodes := ServerBytes(AsI32(cut.count + 1)) + ArgumentBytes();
    var added: seq<i32>;
    nodes, added := PutLiterals(cut.count, literals, nodes, [cut.count]);
    Associative(ServerBytes(AsI32(cut.count + 1)), ArgumentBytes(), LiteralsBytes(literals));
    var children := cut.children + added;
    var total := EncodeVarInt(AsI32(cut.count + 2 + |literals|));
    out := PutVarInt(AsI32(cut.count + 2 + |literals|), []);
    out := out + [0x00];
    out := PutVarInt(AsI32(|children|), out);
    out := PutVarInts(children, out);
    Associative4(total, [0x00], EncodeVarInt(AsI32(|children|)), EncodeVarInts(children));
    ghost var head := out;
    out := out + cut.rest;
    out := out + nodes;
    out := out + cut.root;
    Associative4(head, cut.rest, nodes, cut.root);
  }
}
