/** What a flattened device tree is, after sections 5.3 to 5.6 of the Devicetree Specification:
  * a tree becomes a sequence of tokens, and tokens become bytes, padded to words and with NOP
  * tokens anywhere. And what a tree means: the nodes, with the cell counts that they inherit.
  */
module FlattenedTree {
  import opened ByteScanner
  import opened DeviceTree
  import opened Wrappers

  /** The length of a value is a word. */
  type Value = v: seq<Byte> | |v| < 0x1_0000_0000

  datatype Tree = Tree(name: Name, parts: seq<Part>)

  /** What is inside a node, in the order of the blob. Section 5.4.2 demands that properties come
    * before the subnodes, but a parser may meet them in any order. */
  datatype Part = Property(name: Name, value: Value) | Subnode(tree: Tree)

  datatype Item = BeginNode(name: Name) | Prop(name: Name, value: Value) | EndNode

  /** A token in the structure block. The name of a property is at an offset in the strings. */
  datatype Token = Nop | Token(item: Item, nameOffset: Word32, padding: seq<Byte>)

  /** By how much an item changes the depth. */
  function ItemDelta(item: Item): int {
    match item
    case BeginNode(_) => 1
    case EndNode => -1
    case Prop(_, _) => 0
  }

  // ----- flattening

  function Flatten(t: Tree): seq<Item>
    decreases t, 1
  {
    [BeginNode(t.name)] + FlattenParts(t.parts) + [EndNode]
  }

  function FlattenParts(ps: seq<Part>): seq<Item>
    decreases ps, 0
  {
    if ps == [] then [] else FlattenParts(ps[..|ps| - 1]) + FlattenPart(ps[|ps| - 1])
  }

  function FlattenPart(p: Part): seq<Item>
    decreases p, 0
  {
    match p
    case Property(name, value) => [Prop(name, value)]
    case Subnode(t) => Flatten(t)
  }

  /** The tokens without their layout. */
  function Items(tokens: seq<Token>): seq<Item> {
    if tokens == [] then []
    else (match tokens[0] case Nop => [] case Token(item, _, _) => [item]) + Items(tokens[1..])
  }

  function TokenBytes(token: Token): seq<Byte> {
    match token
    case Nop => ToBe32(4)
    case Token(BeginNode(name), _, padding) => ToBe32(1) + name + [0] + padding
    case Token(EndNode, _, _) => ToBe32(2)
    case Token(Prop(_, value), nameOffset, padding) =>
      ToBe32(3) + ToBe32(|value|) + ToBe32(nameOffset) + value + padding
  }

  function StructureBytes(tokens: seq<Token>): seq<Byte> {
    if tokens == [] then [] else TokenBytes(tokens[0]) + StructureBytes(tokens[1..])
  }

  predicate IsName(name: Name) {
    forall k :: 0 <= k < |name| ==> name[k] != 0
  }

  /** The zero-terminated name is in the strings at the offset. */
  predicate NameAt(strings: seq<Byte>, offset: nat, name: Name) {
    IsName(name) && offset + |name| < |strings| && strings[offset..offset + |name|] == name
    && strings[offset + |name|] == 0
  }

  /** Padding, of any content, fills the last word. */
  predicate Padded(token: Token) {
    match token
    case Nop => true
    case Token(BeginNode(name), _, padding) => |padding| < 4 && (|name| + 1 + |padding|) % 4 == 0
    case Token(EndNode, _, _) => true
    case Token(Prop(_, value), _, padding) => |padding| < 4 && (|value| + |padding|) % 4 == 0
  }

  predicate TokenOk(strings: seq<Byte>, token: Token) {
    Padded(token) &&
    match token
    case Nop => true
    case Token(BeginNode(name), _, _) => IsName(name)
    case Token(EndNode, _, _) => true
    case Token(Prop(name, value), nameOffset, _) => NameAt(strings, nameOffset, name)
  }

  predicate TokensOk(strings: seq<Byte>, tokens: seq<Token>) {
    forall k :: 0 <= k < |tokens| ==> TokenOk(strings, tokens[k])
  }

  // ----- meaning

  /** The value of the last property with the name, if there is one. */
  function Definition(ps: seq<Part>, name: Name): Option<seq<Byte>> {
    if ps == [] then None
    else
      var last := ps[|ps| - 1];
      if last.Property? && last.name == name then Some(last.value) else Definition(ps[..|ps| - 1], name)
  }

  /** The number in a cell count; a short one, which is no number, stands for 0. */
  function Cells(value: seq<Byte>): Word32 {
    if |value| < 4 then 0 else Be32(value[..4])
  }

  function CellCount(ps: seq<Part>, name: Name, inherited: Word32): Word32 {
    match Definition(ps, name)
    case None => inherited
    case Some(value) => Cells(value)
  }

  function SpaceOf(ps: seq<Part>, inherited: AddressSpace): AddressSpace {
    AddressSpace(CellCount(ps, SizeCells(), inherited.sizeCells), CellCount(ps, AddressCells(), inherited.addressCells))
  }

  function PropertyMap(ps: seq<Part>): map<Name, seq<Byte>> {
    if ps == [] then map[]
    else
      var last := ps[|ps| - 1];
      var before := PropertyMap(ps[..|ps| - 1]);
      if last.Property? then before[last.name := last.value] else before
  }

  /** The node of a tree whose parent has the given address space when the tree begins. */
  function Meaning(t: Tree, inherited: AddressSpace): DeviceTreeNode
    decreases t, 1
  {
    DeviceTreeNode(ChildMap(t.parts, inherited), PropertyMap(t.parts), SpaceOf(t.parts, inherited))
  }

  /** A subnode inherits the cell counts in force where it begins: those of the parts before it. */
  function ChildMap(ps: seq<Part>, inherited: AddressSpace): map<Name, DeviceTreeNode>
    decreases ps, 0
  {
    if ps == [] then map[]
    else
      var before := ps[..|ps| - 1];
      WithPart(ChildMap(before, inherited), ps[|ps| - 1], SpaceOf(before, inherited))
  }

  function WithPart(children: map<Name, DeviceTreeNode>, p: Part, space: AddressSpace): map<Name, DeviceTreeNode>
    decreases p, 0
  {
    match p
    case Property(_, _) => children
    case Subnode(t) => children[t.name := Meaning(t, space)]
  }

  /** Cell counts, at any depth, have at least the four bytes that are read. */
  predicate TreeOk(t: Tree)
    decreases t
  {
    forall k :: 0 <= k < |t.parts| ==> PartOk(t.parts[k])
  }

  predicate PartOk(p: Part)
    decreases p
  {
    match p
    case Property(name, value) => name == SizeCells() || name == AddressCells() ==> |value| >= 4
    case Subnode(t) => TreeOk(t)
  }

  /** Names, at any depth, are valid UTF-8. */
  predicate NamesOk(t: Tree)
    decreases t, 1
  {
    Utf8(t.name) && forall k :: 0 <= k < |t.parts| ==> PartNamesOk(t.parts[k])
  }

  predicate PartNamesOk(p: Part)
    decreases p, 0
  {
    match p
    case Property(name, _) => Utf8(name)
    case Subnode(t) => NamesOk(t)
  }
}
