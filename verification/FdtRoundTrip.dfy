/** The parser reads back every flattened tree: tokens are read as they were laid out, NOP
  * tokens and padding change nothing, and the items of a tree build the node that it means.
  */
module FdtRoundTrip {
  import opened ByteScanner
  import opened DeviceTree
  import opened Fdt
  import opened FlattenedTree
  import opened Wrappers

  // ----- what an item does to the open nodes

  function Apply(item: Item, s: Building): Result<Building, Error> {
    match item
    case BeginNode(name) => if Utf8(name) then Ok(s.Begin(name)) else Err(NotUtf8)
    case EndNode => if s.parents == [] then Err(UnmatchedEnd) else Ok(s.End())
    case Prop(name, value) =>
      if !Utf8(name) then Err(NotUtf8)
      else
        var current := s.current.AddProperty(name, value);
        if current.Ok? then Ok(s.(current := current.value)) else Panic
  }

  function Exec(items: seq<Item>, s: Building): Result<Building, Error> {
    if items == [] then Ok(s)
    else
      match Apply(items[0], s)
      case Ok(next) => Exec(items[1..], next)
      case Err(error) => Err(error)
      case Panic => Panic
  }

  // ----- a token is read as it was laid out

  /** The bytes are in the data at the place. */
  ghost predicate At(data: seq<Byte>, o: nat, bytes: seq<Byte>) {
    o + |bytes| <= |data| && data[o..o + |bytes|] == bytes
  }

  lemma AtConcat(data: seq<Byte>, o: nat, a: seq<Byte>, b: seq<Byte>)
    requires At(data, o, a + b)
    ensures At(data, o, a) && At(data, o + |a|, b)
  {
    var s := data[o..o + |a + b|];
    assert s[..|a|] == a && s[|a|..] == b;
    assert data[o..o + |a|] == s[..|a|] && data[o + |a|..o + |a| + |b|] == s[|a|..];
  }

  lemma WordAt(data: seq<Byte>, o: nat, x: Word32)
    requires At(data, o, ToBe32(x))
    ensures o + 4 <= |data| && Be32(data[o..o + 4]) == x
  {
    Be32RoundTrip(x, ToBe32(x));
  }

  lemma NameEnds(data: seq<Byte>, o: nat, name: Name)
    requires At(data, o, name) && At(data, o + |name|, [0]) && IsName(name)
    ensures FirstZero(data, o) == o + |name| < |data| && data[o..o + |name|] == name
  {
    assert data[o + |name|] == [0][0];
    assert forall k :: o <= k < o + |name| ==> data[k] == name[k - o];
  }

  lemma PaddingEnds(p: nat, padding: seq<Byte>)
    requires |padding| < 4 && (p + |padding|) % 4 == 0
    ensures NextMultiple(p, 4) == p + |padding|
  {
  }

  /** What reading the token comes to. */
  ghost predicate Reads(strings: seq<Byte>, data: seq<Byte>, o: nat, token: Token, s: Building) {
    var step := StepAt(data, strings, o, s);
    match token
    case Nop => step == Next(o + 4, s)
    case Token(item, _, _) =>
      match Apply(item, s)
      case Ok(next) => step == Next(o + |TokenBytes(token)|, next)
      case Err(error) => step == Stop(Err(error))
      case Panic => step == Stop(Panic)
  }

  /** Where the parts of a laid out BEGIN_NODE token are. */
  lemma BeginLayout(strings: seq<Byte>, data: seq<Byte>, o: nat, token: Token)
    requires TokenOk(strings, token) && token.Token? && token.item.BeginNode?
    requires At(data, o, TokenBytes(token)) && o % 4 == 0
    ensures var name := token.item.name; var zero := o + 4 + |name|;
      && zero < |data| && Be32(data[o..o + 4]) == 1
      && FirstZero(data, o + 4) == zero && data[o + 4..zero] == name
      && NextMultiple(zero + 1, 4) == o + |TokenBytes(token)|
  {
    hide *;
    var name, padding := token.item.name, token.padding;
    BeginParts(strings, token);
    AtConcat(data, o, ToBe32(1) + name + [0], padding);
    AtConcat(data, o, ToBe32(1) + name, [0]);
    AtConcat(data, o, ToBe32(1), name);
    WordAt(data, o, 1);
    NameEnds(data, o + 4, name);
    PaddingEnds(o + 4 + |name| + 1, padding);
  }

  lemma BeginParts(strings: seq<Byte>, token: Token)
    requires TokenOk(strings, token) && token.Token? && token.item.BeginNode?
    ensures TokenBytes(token) == ToBe32(1) + token.item.name + [0] + token.padding
    ensures IsName(token.item.name) && |token.padding| < 4 && (|token.item.name| + 1 + |token.padding|) % 4 == 0
  {
  }

  lemma PropertyName(strings: seq<Byte>, token: Token)
    requires TokenOk(strings, token) && token.Token? && token.item.Prop?
    ensures var name, off := token.item.name, token.nameOffset;
      off + |name| < |strings| && FirstZero(strings, off) == off + |name| && strings[off..off + |name|] == name
  {
    NameEnds(strings, token.nameOffset, token.item.name);
  }

  /** Where the parts of a laid out PROP token are. */
  lemma PropertyLayout(strings: seq<Byte>, data: seq<Byte>, o: nat, token: Token)
    requires TokenOk(strings, token) && token.Token? && token.item.Prop?
    requires At(data, o, TokenBytes(token)) && o % 4 == 0
    ensures var value := token.item.value;
      && o + 12 + |value| <= |data| && Be32(data[o..o + 4]) == 3
      && Be32(data[o + 4..o + 8]) == |value| && Be32(data[o + 8..o + 12]) == token.nameOffset
      && data[o + 12..o + 12 + |value|] == value
      && NextMultiple(o + 12 + |value|, 4) == o + |TokenBytes(token)|
  {
    hide *;
    PropertyParts(strings, token);
    var value, off, padding := token.item.value, token.nameOffset, token.padding;
    var head := ToBe32(3) + ToBe32(|value|) + ToBe32(off);
    AtConcat(data, o, head + value, padding);
    AtConcat(data, o, head, value);
    ThreeWords(data, o, 3, |value|, off);
    BytesAt(data, o + 12, value);
    PaddingEnds(o + 12 + |value|, padding);
  }

  lemma PropertyParts(strings: seq<Byte>, token: Token)
    requires TokenOk(strings, token) && token.Token? && token.item.Prop?
    ensures TokenBytes(token) ==
      ToBe32(3) + ToBe32(|token.item.value|) + ToBe32(token.nameOffset) + token.item.value + token.padding
    ensures |token.padding| < 4 && (|token.item.value| + |token.padding|) % 4 == 0
  {
  }

  lemma BytesAt(data: seq<Byte>, o: nat, bytes: seq<Byte>)
    requires At(data, o, bytes)
    ensures o + |bytes| <= |data| && data[o..o + |bytes|] == bytes
  {
  }

  lemma ThreeWords(data: seq<Byte>, o: nat, x: Word32, y: Word32, z: Word32)
    requires At(data, o, ToBe32(x) + ToBe32(y) + ToBe32(z))
    ensures o + 12 <= |data|
    ensures Be32(data[o..o + 4]) == x && Be32(data[o + 4..o + 8]) == y && Be32(data[o + 8..o + 12]) == z
  {
    hide At, Be32, ToBe32;
    AtConcat(data, o, ToBe32(x) + ToBe32(y), ToBe32(z));
    AtConcat(data, o, ToBe32(x), ToBe32(y));
    WordAt(data, o, x);
    WordAt(data, o + 4, y);
    WordAt(data, o + 8, z);
  }

  lemma ReadToken(strings: seq<Byte>, data: seq<Byte>, o: nat, token: Token, s: Building)
    requires TokenOk(strings, token)
    requires At(data, o, TokenBytes(token)) && o % 4 == 0 && o + |TokenBytes(token)| < |data|
    ensures Reads(strings, data, o, token, s)
  {
    hide At, Be32, Building.Begin, Building.End, Building.Finish, DeviceTreeNode.AddProperty, FirstZero, NextMultiple,
      ToBe32, TokenBytes, TokenOk;
    match token
    case Nop =>
      NopBytes();
      WordAt(data, o, 4);
    case Token(BeginNode(_), _, _) =>
      BeginLayout(strings, data, o, token);
    case Token(EndNode, _, _) =>
      EndBytes(token);
      WordAt(data, o, 2);
    case Token(Prop(_, _), _, _) =>
      PropertyName(strings, token);
      PropertyLayout(strings, data, o, token);
  }

  lemma NopBytes()
    ensures TokenBytes(Nop) == ToBe32(4)
  {
  }

  lemma EndBytes(token: Token)
    requires token.Token? && token.item.EndNode?
    ensures TokenBytes(token) == ToBe32(2)
  {
  }

  lemma TokenIsWords(strings: seq<Byte>, token: Token)
    requires TokenOk(strings, token)
    ensures |TokenBytes(token)| % 4 == 0 && |TokenBytes(token)| >= 4
  {
    hide *;
    match token
    case Nop => NopBytes();
    case Token(BeginNode(_), _, _) => BeginParts(strings, token);
    case Token(EndNode, _, _) => EndBytes(token);
    case Token(Prop(_, _), _, _) => PropertyParts(strings, token);
  }

  lemma RunToken(strings: seq<Byte>, data: seq<Byte>, o: nat, token: Token, s: Building)
    requires TokenOk(strings, token)
    requires At(data, o, TokenBytes(token)) && o % 4 == 0 && o + |TokenBytes(token)| < |data|
    ensures Run(data, strings, o, s) ==
      match Exec(Items([token]), s)
      case Ok(t) => Run(data, strings, o + |TokenBytes(token)|, t)
      case Err(error) => Err(error)
      case Panic => Panic
    ensures (o + |TokenBytes(token)|) % 4 == 0
  {
    hide TokenOk, TokenBytes, StepAt, Apply;
    ReadToken(strings, data, o, token, s);
    TokenIsWords(strings, token);
    if token.Token? {
      assert Items([token]) == [token.item];
      ExecOne(token.item, s);
    } else {
      NopBytes();
    }
  }

  lemma NoTokens(s: Building)
    ensures StructureBytes([]) == [] && Exec(Items([]), s) == Ok(s)
  {
  }

  lemma FirstToken(strings: seq<Byte>, tokens: seq<Token>)
    requires tokens != [] && TokensOk(strings, tokens)
    ensures TokenOk(strings, tokens[0]) && TokensOk(strings, tokens[1..])
    ensures StructureBytes(tokens) == TokenBytes(tokens[0]) + StructureBytes(tokens[1..])
    ensures Items(tokens) == Items([tokens[0]]) + Items(tokens[1..])
  {
  }

  /** The parser on the bytes of tokens does what their items do. */
  lemma {:induction false} RunTokens(strings: seq<Byte>, data: seq<Byte>, o: nat, tokens: seq<Token>, s: Building)
    requires TokensOk(strings, tokens)
    requires At(data, o, StructureBytes(tokens)) && o % 4 == 0 && o + |StructureBytes(tokens)| < |data|
    ensures Run(data, strings, o, s) ==
      match Exec(Items(tokens), s)
      case Ok(t) => Run(data, strings, o + |StructureBytes(tokens)|, t)
      case Err(error) => Err(error)
      case Panic => Panic
    decreases |tokens|
  {
    hide *;
    if tokens == [] {
      NoTokens(s);
    } else {
      var token, rest := tokens[0], tokens[1..];
      FirstToken(strings, tokens);
      AtConcat(data, o, TokenBytes(token), StructureBytes(rest));
      RunToken(strings, data, o, token, s);
      ExecConcat(Items([token]), Items(rest), s);
      if Exec(Items([token]), s).Ok? {
        RunTokens(strings, data, o + |TokenBytes(token)|, rest, Exec(Items([token]), s).value);
      }
    }
  }

  // ----- the items of a tree build the node that it means

  lemma {:induction false} ExecConcat(a: seq<Item>, b: seq<Item>, s: Building)
    ensures Exec(a + b, s) ==
      match Exec(a, s)
      case Ok(t) => Exec(b, t)
      case Err(error) => Err(error)
      case Panic => Panic
  {
    hide Apply;
    if a == [] {
      assert a + b == b;
    } else {
      assert (a + b)[0] == a[0] && (a + b)[1..] == a[1..] + b;
      if Apply(a[0], s).Ok? {
        ExecConcat(a[1..], b, Apply(a[0], s).value);
      }
    }
  }

  lemma ExecOne(item: Item, s: Building)
    ensures Exec([item], s) == Apply(item, s)
  {
  }

  predicate PartsOk(ps: seq<Part>) {
    forall k :: 0 <= k < |ps| ==> PartOk(ps[k])
  }

  lemma PartsSplit(ps: seq<Part>)
    requires ps != []
    ensures PartsOk(ps) <==> PartsOk(ps[..|ps| - 1]) && PartOk(ps[|ps| - 1])
  {
    assert ps == ps[..|ps| - 1] + [ps[|ps| - 1]];
  }

  /** The open node with these parts added. */
  function Filled(ps: seq<Part>, s: Building): Building {
    s.(current := DeviceTreeNode(ChildMap(ps, s.current.addressSpace), PropertyMap(ps),
                                 SpaceOf(ps, s.current.addressSpace)))
  }

  /** The items of a tree add its node to the node that is open. */
  lemma {:induction false} ExecTree(t: Tree, s: Building)
    requires NamesOk(t)
    ensures Exec(Flatten(t), s) ==
      if TreeOk(t) then Ok(s.(current := s.current.AddChild(t.name, Meaning(t, s.current.addressSpace)))) else Panic
    decreases t, 1
  {
    var begin, ps := [BeginNode(t.name)], FlattenParts(t.parts);
    var s1 := s.Begin(t.name);
    ExecOne(BeginNode(t.name), s);
    ExecConcat(begin + ps, [EndNode], s);
    ExecConcat(begin, ps, s);
    ExecParts(t.parts, s1);
    if PartsOk(t.parts) {
      ExecOne(EndNode, Filled(t.parts, s1));
    }
  }

  lemma {:induction false} ExecParts(ps: seq<Part>, s: Building)
    requires s.current.children == map[] && s.current.properties == map[]
    requires forall k :: 0 <= k < |ps| ==> PartNamesOk(ps[k])
    ensures Exec(FlattenParts(ps), s) == if PartsOk(ps) then Ok(Filled(ps, s)) else Panic
    decreases ps, 0
  {
    if ps != [] {
      var init, last := ps[..|ps| - 1], ps[|ps| - 1];
      ExecParts(init, s);
      ExecConcat(FlattenParts(init), FlattenPart(last), s);
      PartsSplit(ps);
      if PartsOk(init) {
        ExecPart(last, Filled(init, s));
        FilledMore(ps, s);
      }
    }
  }

  /** One more part. */
  lemma FilledMore(ps: seq<Part>, s: Building)
    requires ps != [] && PartNamesOk(ps[|ps| - 1])
    ensures var before := Filled(ps[..|ps| - 1], s);
      match ps[|ps| - 1]
      case Property(name, value) =>
        Apply(Prop(name, value), before) == if PartOk(ps[|ps| - 1]) then Ok(Filled(ps, s)) else Panic
      case Subnode(t) =>
        Filled(ps, s) ==
          before.(current := before.current.AddChild(t.name, Meaning(t, before.current.addressSpace)))
  {
    assert |SizeCells()| != |AddressCells()|;
    CountMore(ps, SizeCells(), s.current.addressSpace.sizeCells);
    CountMore(ps, AddressCells(), s.current.addressSpace.addressCells);
    var init, inherited := ps[..|ps| - 1], s.current.addressSpace;
    assert ChildMap(ps, inherited) == WithPart(ChildMap(init, inherited), ps[|ps| - 1], SpaceOf(init, inherited));
  }

  lemma CountMore(ps: seq<Part>, name: Name, inherited: Word32)
    requires ps != []
    ensures var last := ps[|ps| - 1];
      CellCount(ps, name, inherited) ==
        if last.Property? && last.name == name then Cells(last.value)
        else CellCount(ps[..|ps| - 1], name, inherited)
  {
  }

  lemma {:induction false} ExecPart(p: Part, s: Building)
    requires PartNamesOk(p)
    ensures Exec(FlattenPart(p), s) ==
      match p
      case Property(name, value) => Apply(Prop(name, value), s)
      case Subnode(t) =>
        if TreeOk(t) then Ok(s.(current := s.current.AddChild(t.name, Meaning(t, s.current.addressSpace)))) else Panic
    decreases p, 0
  {
    match p
    case Property(name, value) => ExecOne(Prop(name, value), s);
    case Subnode(t) => ExecTree(t, s);
  }

  // ----- the whole structure block

  /** Parsing any tokens, with an END token after them, does what their items do. */
  lemma ParseTokens(strings: seq<Byte>, tokens: seq<Token>, tail: seq<Byte>)
    requires TokensOk(strings, tokens)
    ensures Run(StructureBytes(tokens) + ToBe32(9) + tail, strings, 0, Start()) ==
      match Exec(Items(tokens), Start())
      case Ok(t) => t.Finish()
      case Err(error) => Err(error)
      case Panic => Panic
  {
    hide At, Be32, BeginStep, Building.Finish, EndStep, Exec, Items, PropertyStep, Start, StructureBytes, ToBe32,
      TokensOk;
    var bytes := StructureBytes(tokens);
    var data := bytes + ToBe32(9) + tail;
    StructureIsWords(strings, tokens);
    AtStart(bytes, ToBe32(9), tail);
    RunTokens(strings, data, 0, tokens, Start());
    WordAt(data, |bytes|, 9);
  }

  lemma AtStart(a: seq<Byte>, b: seq<Byte>, c: seq<Byte>)
    ensures At(a + b + c, 0, a) && At(a + b + c, |a|, b)
  {
    assert (a + b + c)[..|a|] == a && (a + b + c)[|a|..|a| + |b|] == b;
  }

  lemma {:induction false} StructureIsWords(strings: seq<Byte>, tokens: seq<Token>)
    requires TokensOk(strings, tokens)
    ensures |StructureBytes(tokens)| % 4 == 0
  {
    hide TokenOk, TokenBytes;
    if tokens != [] {
      TokenIsWords(strings, tokens[0]);
      StructureIsWords(strings, tokens[1..]);
    }
  }

  // Which sequences of tokens are refused.

  function Balance(items: seq<Item>): int {
    if items == [] then 0 else ItemDelta(items[0]) + Balance(items[1..])
  }

  /** No prefix ends more nodes than are open. */
  predicate NeverBelow(items: seq<Item>, depth: nat) {
    items == [] || (depth + ItemDelta(items[0]) >= 0 && NeverBelow(items[1..], depth + ItemDelta(items[0])))
  }

  /** The name is valid UTF-8, and a cell count is not short. */
  predicate ItemOk(item: Item) {
    match item
    case BeginNode(name) => Utf8(name)
    case EndNode => true
    case Prop(name, value) => Utf8(name) && (name == SizeCells() || name == AddressCells() ==> |value| >= 4)
  }

  predicate ItemsOk(items: seq<Item>) {
    forall k :: 0 <= k < |items| ==> ItemOk(items[k])
  }

  lemma {:induction false} ExecBalance(items: seq<Item>, s: Building)
    requires ItemsOk(items)
    ensures Exec(items, s).Ok? <==> NeverBelow(items, |s.parents|)
    ensures !Exec(items, s).Ok? ==> Exec(items, s) == Err(UnmatchedEnd)
    ensures Exec(items, s).Ok? ==> |Exec(items, s).value.parents| == |s.parents| + Balance(items)
  {
    if items != [] {
      ItemsOkTail(items);
      ApplyBalance(items[0], s);
      if Apply(items[0], s).Ok? {
        hide Apply, ItemsOk, ItemOk;
        ExecBalance(items[1..], Apply(items[0], s).value);
      }
    }
  }

  lemma ItemsOkTail(items: seq<Item>)
    requires items != [] && ItemsOk(items)
    ensures ItemsOk(items[1..]) && ItemOk(items[0])
  {
    assert forall k :: 0 <= k < |items[1..]| ==> items[1..][k] == items[k + 1];
  }

  lemma ApplyBalance(item: Item, s: Building)
    requires ItemOk(item)
    ensures Apply(item, s).Ok? <==> |s.parents| + ItemDelta(item) >= 0
    ensures !Apply(item, s).Ok? ==> Apply(item, s) == Err(UnmatchedEnd)
    ensures Apply(item, s).Ok? ==> |Apply(item, s).value.parents| == |s.parents| + ItemDelta(item)
  {
  }

  lemma {:induction false} OkItems(items: seq<Item>, s: Building)
    requires Exec(items, s).Ok?
    ensures ItemsOk(items)
  {
    if items != [] {
      assert ItemOk(items[0]);
      OkItems(items[1..], Apply(items[0], s).value);
      assert items == [items[0]] + items[1..];
    }
  }

  /** A node with the empty name begins where `depth` nodes less are open. */
  predicate BeginsRoot(items: seq<Item>, depth: int) {
    items != [] &&
    ((depth == 0 && items[0] == BeginNode([])) || BeginsRoot(items[1..], depth + ItemDelta(items[0])))
  }

  /** A root has been read, or is open. */
  predicate HasRoot(s: Building) {
    if s.parents == [] then [] in s.current.children
    else [] in s.parents[0].1.children || s.parents[0].0 == []
  }

  lemma {:induction false} ExecRoot(items: seq<Item>, s: Building)
    requires Exec(items, s).Ok?
    ensures HasRoot(Exec(items, s).value) <==> HasRoot(s) || BeginsRoot(items, |s.parents|)
  {
    if items != [] {
      ApplyRoot(items[0], s);
      ExecRoot(items[1..], Apply(items[0], s).value);
    }
  }

  lemma ApplyRoot(item: Item, s: Building)
    requires Apply(item, s).Ok?
    ensures HasRoot(Apply(item, s).value) <==> HasRoot(s) || (s.parents == [] && item == BeginNode([]))
    ensures |Apply(item, s).value.parents| == |s.parents| + ItemDelta(item)
  {
  }

  /** Tokens with an END token after them are accepted exactly if all names are valid and all cell
    * counts long enough, nodes are ended as often as begun and never before, and an outermost node
    * has the empty name. */
  lemma ParseRefuses(strings: seq<Byte>, tokens: seq<Token>, tail: seq<Byte>)
    requires TokensOk(strings, tokens)
    ensures var items := Items(tokens);
      var r := Run(StructureBytes(tokens) + ToBe32(9) + tail, strings, 0, Start());
      && (r.Ok? <==> ItemsOk(items) && NeverBelow(items, 0) && Balance(items) == 0 && BeginsRoot(items, 0))
      && (ItemsOk(items) ==>
           && (r == Err(UnmatchedEnd) <==> !NeverBelow(items, 0))
           && (r == Err(UnfinishedNodes) <==> NeverBelow(items, 0) && Balance(items) > 0)
           && (r == Err(NoRoot) <==> NeverBelow(items, 0) && Balance(items) == 0 && !BeginsRoot(items, 0)))
  {
    hide Run, Exec, Items, StructureBytes, ToBe32, TokensOk, ItemsOk, NeverBelow, Balance, BeginsRoot;
    ParseTokens(strings, tokens, tail);
    if Exec(Items(tokens), Start()).Ok? {
      OkItems(Items(tokens), Start());
      ExecRoot(Items(tokens), Start());
    }
    if ItemsOk(Items(tokens)) {
      ExecBalance(Items(tokens), Start());
    }
  }

  /** The round trip: whatever the padding, the NOP tokens, the places of the names and the
    * bytes after the END token, the parser returns the tree that was flattened. It panics
    * exactly if some cell count is shorter than a word. */
  lemma ParseRoundTrip(t: Tree, strings: seq<Byte>, tokens: seq<Token>, tail: seq<Byte>)
    requires TokensOk(strings, tokens) && Items(tokens) == Flatten(t) && NamesOk(t)
    ensures Run(StructureBytes(tokens) + ToBe32(9) + tail, strings, 0, Start()) ==
      if !TreeOk(t) then Panic
      else if t.name == [] then Ok(Meaning(t, AddressSpace(1, 1)))
      else Err(NoRoot)
  {
    ParseTokens(strings, tokens, tail);
    ExecTree(t, Start());
  }

  // ----- paths, and where cell counts come from

  /** Part `i` is the subnode, and no later one has its name, so that the parser keeps it. */
  ghost predicate Kept(ps: seq<Part>, i: nat, t: Tree) {
    && i < |ps| && ps[i] == Subnode(t)
    && forall j :: i < j < |ps| && ps[j].Subnode? ==> ps[j].tree.name != t.name
  }

  /** Each tree is a subnode of the one before it, where `at` says. */
  ghost predicate Chain(chain: seq<Tree>, at: seq<nat>) {
    && |chain| == |at| + 1
    && forall k :: 0 <= k < |at| ==> Kept(chain[k].parts, at[k], chain[k + 1])
  }

  lemma Link(chain: seq<Tree>, at: seq<nat>, k: nat)
    requires Chain(chain, at) && k < |at|
    ensures Kept(chain[k].parts, at[k], chain[k + 1]) && at[k] < |chain[k].parts|
  {
  }

  function Names(chain: seq<Tree>): seq<Name> {
    if chain == [] then [] else Names(chain[..|chain| - 1]) + [chain[|chain| - 1].name]
  }

  /** A cell count in force where the last tree of the chain begins. */
  function CountAt(chain: seq<Tree>, at: seq<nat>, name: Name): Word32
    requires Chain(chain, at)
    decreases |at|
  {
    var n := |at|;
    if n == 0 then 1
    else
      Link(chain, at, n - 1);
      CellCount(chain[n - 1].parts[..at[n - 1]], name, CountAt(chain[..n], at[..n - 1], name))
  }

  function SpaceAt(chain: seq<Tree>, at: seq<nat>): AddressSpace
    requires Chain(chain, at)
  {
    AddressSpace(CountAt(chain, at, SizeCells()), CountAt(chain, at, AddressCells()))
  }

  lemma {:induction false} ChildKept(ps: seq<Part>, i: nat, t: Tree, inherited: AddressSpace)
    requires Kept(ps, i, t)
    ensures t.name in ChildMap(ps, inherited)
    ensures ChildMap(ps, inherited)[t.name] == Meaning(t, SpaceOf(ps[..i], inherited))
  {
    var init := ps[..|ps| - 1];
    if i < |ps| - 1 {
      assert init[..i] == ps[..i];
      ChildKept(init, i, t, inherited);
    }
  }

  lemma {:induction false} ChildIsKept(ps: seq<Part>, name: Name, inherited: AddressSpace)
    returns (i: nat, t: Tree)
    requires name in ChildMap(ps, inherited)
    ensures Kept(ps, i, t) && t.name == name
  {
    var init, last := ps[..|ps| - 1], ps[|ps| - 1];
    if last.Subnode? && last.tree.name == name {
      i, t := |ps| - 1, last.tree;
    } else {
      i, t := ChildIsKept(init, name, inherited);
    }
  }

  lemma {:induction false} FollowOn(node: DeviceTreeNode, path: seq<Name>, name: Name)
    ensures node.Follow(path + [name]) ==
      match node.Follow(path)
      case None => None
      case Some(n) => if name in n.children then Some(n.children[name]) else None
    decreases |path|
  {
    if path == [] {
      assert path + [name] == [name];
    } else {
      assert (path + [name])[0] == path[0] && (path + [name])[1..] == path[1..] + [name];
      if path[0] in node.children {
        FollowOn(node.children[path[0]], path[1..], name);
      }
    }
  }

  /** Following the names of a chain of trees leads to the node of the last one, which begins
    * with the cell counts in force there. */
  lemma {:induction false} FollowChain(chain: seq<Tree>, at: seq<nat>)
    requires Chain(chain, at)
    ensures Meaning(chain[0], AddressSpace(1, 1)).Follow(Names(chain[1..])) ==
      Some(Meaning(chain[|at|], SpaceAt(chain, at)))
    decreases |at|
  {
    var n := |at|;
    if n > 0 {
      var init, last := chain[..n], chain[n];
      FollowChain(init, at[..n - 1]);
      assert chain[1..][..n - 1] == init[1..];
      FollowOn(Meaning(chain[0], AddressSpace(1, 1)), Names(init[1..]), last.name);
      ChildKept(chain[n - 1].parts, at[n - 1], last, SpaceAt(init, at[..n - 1]));
    } else {
      assert chain[1..] == [];
    }
  }

  /** Every path that can be followed is that of a chain. */
  lemma {:induction false} FollowedIsChain(t: Tree, path: seq<Name>) returns (chain: seq<Tree>, at: seq<nat>)
    requires Meaning(t, AddressSpace(1, 1)).Follow(path).Some?
    ensures Chain(chain, at) && chain[0] == t && Names(chain[1..]) == path
    decreases |path|
  {
    if path == [] {
      chain, at := [t], [];
    } else {
      var init, name := path[..|path| - 1], path[|path| - 1];
      assert path == init + [name];
      FollowOn(Meaning(t, AddressSpace(1, 1)), init, name);
      var before, places := FollowedIsChain(t, init);
      FollowChain(before, places);
      var i, child := ChildIsKept(before[|places|].parts, name, SpaceAt(before, places));
      chain, at := before + [child], places + [i];
      assert chain[1..] == before[1..] + [child];
      assert chain[1..][..|chain| - 2] == before[1..];
    }
  }

  /** The definition nearest to the end of the chain, or 1. */
  function Nearest(chain: seq<Tree>, name: Name): Word32 {
    if chain == [] then 1
    else CellCount(chain[|chain| - 1].parts, name, Nearest(chain[..|chain| - 1], name))
  }

  /** The last tree of the chain that defines the name. */
  function Definer(chain: seq<Tree>, name: Name): (d: Option<nat>)
    ensures d.Some? ==> d.value < |chain| && Definition(chain[d.value].parts, name).Some?
    ensures d.Some? ==> forall k :: d.value < k < |chain| ==> Definition(chain[k].parts, name) == None
    ensures d == None ==> forall k :: 0 <= k < |chain| ==> Definition(chain[k].parts, name) == None
  {
    if chain == [] then None
    else if Definition(chain[|chain| - 1].parts, name).Some? then Some(|chain| - 1)
    else Definer(chain[..|chain| - 1], name)
  }

  /** The definition that tree `d` had made when the next tree began, or else the count that `d`
    * began with, has the value of its last definition. */
  predicate InTime(chain: seq<Tree>, at: seq<nat>, name: Name, d: nat)
    requires Chain(chain, at) && d < |at|
  {
    CountAfter(chain, at, name, d) == CellCount(chain[d].parts, name, 0)
  }

  /** The count in force where the tree after tree `d` begins. */
  function CountAfter(chain: seq<Tree>, at: seq<nat>, name: Name, d: nat): Word32
    requires Chain(chain, at) && d < |at|
  {
    Link(chain, at, d);
    CellCount(chain[d].parts[..at[d]], name, CountAt(chain[..d + 1], at[..d], name))
  }

  /** The cell count of the node at the end of a chain is the nearest definition exactly if the node
    * defines it itself, or no tree of the chain does, or the nearest one that does has, when the
    * next tree begins, the value of its last definition. */
  lemma NearestExactly(chain: seq<Tree>, at: seq<nat>, name: Name)
    requires Chain(chain, at)
    ensures var d := Definer(chain[..|at|], name);
      CellCount(chain[|at|].parts, name, CountAt(chain, at, name)) == Nearest(chain, name) <==>
        Definition(chain[|at|].parts, name).Some? || d == None || InTime(chain, at, name, d.value)
  {
    DefinerCounts(chain, at, name);
  }

  /** The trees between the definer and the end of the chain pass on what they got. */
  lemma {:induction false} DefinerCounts(chain: seq<Tree>, at: seq<nat>, name: Name)
    requires Chain(chain, at)
    ensures var n := |at|; var d := Definer(chain[..n], name);
      if d == None then CountAt(chain, at, name) == 1 == Nearest(chain[..n], name)
      else
        && CountAt(chain, at, name) == CountAfter(chain, at, name, d.value)
        && Nearest(chain[..n], name) == CellCount(chain[d.value].parts, name, 0)
    decreases |at|
  {
    hide Chain, CellCount, Definition;
    var n := |at|;
    ShorterChain(chain, at);
    if n > 0 {
      var init := chain[..n];
      assert init[..n - 1] == chain[..n - 1];
      CountDefined(chain[n - 1].parts, name);
      if Definition(chain[n - 1].parts, name) == None {
        Link(chain, at, n - 1);
        DefinitionBefore(chain[n - 1].parts, at[n - 1], name);
        CountDefined(chain[n - 1].parts[..at[n - 1]], name);
        DefinerCounts(init, at[..n - 1], name);
        var d := Definer(chain[..n - 1], name);
        if d.Some? {
          Link(chain, at, d.value);
          SameCountAfter(chain, at, name, d.value);
        }
      }
    }
  }

  lemma ShorterChain(chain: seq<Tree>, at: seq<nat>)
    requires Chain(chain, at)
    ensures |chain| == |at| + 1 && (at != [] ==> Chain(chain[..|at|], at[..|at| - 1]))
  {
  }

  lemma CountDefined(ps: seq<Part>, name: Name)
    ensures Definition(ps, name) == None ==> forall c: Word32 :: CellCount(ps, name, c) == c
    ensures Definition(ps, name).Some? ==> forall c: Word32 :: CellCount(ps, name, c) == CellCount(ps, name, 0)
  {
  }

  lemma SameCountAfter(chain: seq<Tree>, at: seq<nat>, name: Name, d: nat)
    requires Chain(chain, at) && d < |at| - 1
    ensures CountAfter(chain[..|at|], at[..|at| - 1], name, d) == CountAfter(chain, at, name, d)
  {
    assert chain[..|at|][..d + 1] == chain[..d + 1] && at[..|at| - 1][..d] == at[..d];
  }

  lemma {:induction false} DefinitionBefore(ps: seq<Part>, i: nat, name: Name)
    requires i <= |ps| && Definition(ps, name) == None
    ensures Definition(ps[..i], name) == None
  {
    if i < |ps| {
      assert ps[..|ps| - 1][..i] == ps[..i];
      DefinitionBefore(ps[..|ps| - 1], i, name);
    } else {
      assert ps[..i] == ps;
    }
  }

  /** Properties come before the subnodes, as section 5.4.2 demands. */
  predicate PropertiesFirst(ps: seq<Part>) {
    forall i, j :: 0 <= i < j < |ps| && ps[j].Property? ==> ps[i].Property?
  }

  lemma {:induction false} SubnodesDefineNothing(ps: seq<Part>, i: nat, name: Name)
    requires i < |ps| && ps[i].Subnode? && PropertiesFirst(ps)
    ensures Definition(ps[..i], name) == Definition(ps, name)
  {
    var init := ps[..|ps| - 1];
    if i < |init| {
      assert init[..i] == ps[..i];
      SubnodesDefineNothing(init, i, name);
    }
    assert ps[|ps| - 1].Subnode?;
  }

  /** In a tree laid out as the standard demands, cell counts are the nearest definitions. */
  lemma NearestInStandardTrees(chain: seq<Tree>, at: seq<nat>, name: Name)
    requires Chain(chain, at) && forall k :: 0 <= k < |at| ==> PropertiesFirst(chain[k].parts)
    ensures CellCount(chain[|at|].parts, name, CountAt(chain, at, name)) == Nearest(chain, name)
  {
    NearestExactly(chain, at, name);
    var d := Definer(chain[..|at|], name);
    if d.Some? {
      Link(chain, at, d.value);
      SubnodesDefineNothing(chain[d.value].parts, at[d.value], name);
    }
  }

  lemma CellNamesOk()
    ensures Utf8([]) && Utf8(SizeCells()) && Utf8(AddressCells()) && SizeCells() != AddressCells()
  {
    hide Utf8;
    AsciiIsUtf8([]);
    AsciiIsUtf8(SizeCells());
    AsciiIsUtf8(AddressCells());
    assert |SizeCells()| != |AddressCells()|;
  }

  /** The order that the standard demands matters: a node that begins before its parent defines
    * a cell count does not get that count, although no nearer node defines it. */
  lemma LateDefinition(name: Name, value: Value)
    requires |value| >= 4 && Utf8(name)
    ensures var sub := Tree(name, []);
      var t := Tree([], [Subnode(sub), Property(SizeCells(), value)]);
      && NamesOk(t) && TreeOk(t) && Chain([t, sub], [0])
      && Meaning(t, AddressSpace(1, 1)).addressSpace.sizeCells == Be32(value[..4])
      && Meaning(t, AddressSpace(1, 1)).Follow([name]) == Some(Meaning(sub, AddressSpace(1, 1)))
      && Meaning(sub, AddressSpace(1, 1)).addressSpace.sizeCells == 1
      && Nearest([t, sub], SizeCells()) == Be32(value[..4])
  {
    hide SizeCells, AddressCells, Be32, Utf8;
    var sub := Tree(name, []);
    var t := Tree([], [Subnode(sub), Property(SizeCells(), value)]);
    CellNamesOk();
    assert NamesOk(sub) && TreeOk(sub);
    assert PartNamesOk(t.parts[0]) && PartNamesOk(t.parts[1]) && PartOk(t.parts[0]) && PartOk(t.parts[1]);
    assert t.parts[..1] == [Subnode(sub)] && t.parts[..0] == [];
    CountMore(t.parts, SizeCells(), 1);
    ChildKept(t.parts, 0, sub, AddressSpace(1, 1));
    assert [t, sub][..1] == [t];
  }

  /** A root with one property has the cell counts 1, except for one that the property is. */
  lemma RootCounts(name: Name, value: Value, strings: seq<Byte>, tokens: seq<Token>, tail: seq<Byte>)
    requires TokensOk(strings, tokens) && Items(tokens) == [BeginNode([]), Prop(name, value), EndNode] && Utf8(name)
    requires Spells(name, "#size-cells") || Spells(name, "#address-cells") ==> |value| >= 4
    ensures var r := Run(StructureBytes(tokens) + ToBe32(9) + tail, strings, 0, Start());
      && r.Ok? && r.value.children == map[] && r.value.properties == map[name := value]
      && r.value.addressSpace == AddressSpace(
        if Spells(name, "#size-cells") then Be32(value[..4]) else 1,
        if Spells(name, "#address-cells") then Be32(value[..4]) else 1)
  {
    hide Run, SizeCells, AddressCells, Spells, Be32, Utf8, Items, StructureBytes, ToBe32, TokensOk;
    var p := Property(name, value);
    var t := Tree([], [p]);
    CellNames(name);
    CellNamesOk();
    assert t.parts[..0] == [];
    assert FlattenParts([]) == [] && FlattenParts(t.parts) == [Prop(name, value)];
    assert NamesOk(t) && TreeOk(t) by {
      assert PartNamesOk(t.parts[0]) && PartOk(t.parts[0]);
    }
    var space := AddressSpace(1, 1);
    assert PropertyMap([]) == map[] && PropertyMap(t.parts) == map[name := value];
    assert ChildMap(t.parts, space) == WithPart(ChildMap([], space), p, SpaceOf([], space));
    ParseRoundTrip(t, strings, tokens, tail);
    CountMore(t.parts, SizeCells(), 1);
    CountMore(t.parts, AddressCells(), 1);
  }

  // ----- reserved memory and the whole blob

  datatype Entry = Entry(address: Word64, size: Word64)

  function EntryBytes(e: Entry): (b: seq<Byte>)
    ensures |b| == 16
  {
    ToBe64(e.address) + ToBe64(e.size)
  }

  function ReservedBytes(entries: seq<Entry>): seq<Byte> {
    if entries == [] then EntryBytes(Entry(0, 0)) else EntryBytes(entries[0]) + ReservedBytes(entries[1..])
  }

  lemma ReadEntry(data: seq<Byte>, o: nat, e: Entry)
    requires At(data, o, EntryBytes(e))
    ensures o + 16 <= |data| && Be64(data[o..o + 8]) == e.address && Be64(data[o + 8..o + 16]) == e.size
  {
    AtConcat(data, o, ToBe64(e.address), ToBe64(e.size));
    Be64RoundTrip(e.address);
    Be64RoundTrip(e.size);
  }

  /** Each entry, laid out with a final pair of zeros, is read back as the addresses from its
    * address up to the sum of address and size, cut off at the size of a word. */
  lemma {:induction false} ReservedRoundTrip(data: seq<Byte>, o: nat, entries: seq<Entry>)
    requires forall k :: 0 <= k < |entries| ==> entries[k] != Entry(0, 0)
    requires At(data, o, ReservedBytes(entries))
    ensures Reserved(data, o).Ok? && |Reserved(data, o).value| == |entries|
    ensures forall k :: 0 <= k < |entries| ==>
      var range, sum := Reserved(data, o).value[k], entries[k].address as int + entries[k].size;
      && range.begin == entries[k].address
      && range.end == if sum < 0x1_0000_0000_0000_0000 then sum else sum - 0x1_0000_0000_0000_0000
    decreases |entries|
  {
    hide EntryBytes, Be64;
    if entries == [] {
      ReadEntry(data, o, Entry(0, 0));
    } else {
      AtConcat(data, o, EntryBytes(entries[0]), ReservedBytes(entries[1..]));
      ReadEntry(data, o, entries[0]);
      ReservedRoundTrip(data, o + 16, entries[1..]);
    }
  }

  /** The pair of words number `k` is the terminator. */
  predicate Terminates(data: seq<Byte>, o: nat, k: nat) {
    var p := o + 16 * k;
    p + 16 <= |data| && Be64(data[p..p + 8]) == 0 && Be64(data[p + 8..p + 16]) == 0
  }

  /** Reading fails exactly if there is no terminator. */
  lemma {:induction false} ReservedFails(data: seq<Byte>, o: nat)
    ensures Reserved(data, o).Ok? <==> exists k: nat :: Terminates(data, o, k)
    ensures !Reserved(data, o).Ok? ==> Reserved(data, o) == Err(NotEnoughData)
    decreases |data| - o
  {
    hide Be64;
    if Terminates(data, o, 0) {
    } else if o + 16 <= |data| {
      var next := o + 16;
      ReservedFails(data, next);
      if k: nat :| Terminates(data, next, k) {
        assert Terminates(data, o, k + 1);
      }
      if k: nat :| Terminates(data, o, k) {
        assert k > 0 && Terminates(data, next, k - 1);
      }
    }
  }

  /** The header, after section 5.2 of the Devicetree Specification. */
  function HeaderBytes(h: Header): (b: seq<Byte>)
    ensures |b| == 40
  {
    ToBe32(h.magic) + ToBe32(h.totalSize) + ToBe32(h.structOffset) + ToBe32(h.stringsOffset) +
    ToBe32(h.reservedOffset) + ToBe32(h.version) + ToBe32(h.lastCompVersion) + ToBe32(h.bootCpuid) +
    ToBe32(h.stringsSize) + ToBe32(h.structSize)
  }

  /** Word `k` of the data. */
  lemma ReadWord(data: seq<Byte>, k: nat, x: Word32)
    requires At(data, 4 * k, ToBe32(x))
    ensures 4 * k + 4 <= |data| && Word(data, k) == x
  {
    WordAt(data, 4 * k, x);
  }

  lemma ReadHeader(fdt: seq<Byte>, h: Header)
    requires At(fdt, 0, HeaderBytes(h))
    ensures |fdt| >= 40 && HeaderOf(fdt) == h
  {
    hide At, ToBe32, Word;
    var a, b, c, d, e := ToBe32(h.magic), ToBe32(h.totalSize), ToBe32(h.structOffset), ToBe32(h.stringsOffset),
      ToBe32(h.reservedOffset);
    var f, g, i, j, k := ToBe32(h.version), ToBe32(h.lastCompVersion), ToBe32(h.bootCpuid), ToBe32(h.stringsSize),
      ToBe32(h.structSize);
    AtConcat(fdt, 0, a + b + c + d + e + f + g + i + j, k);
    AtConcat(fdt, 0, a + b + c + d + e + f + g + i, j);
    AtConcat(fdt, 0, a + b + c + d + e + f + g, i);
    AtConcat(fdt, 0, a + b + c + d + e + f, g);
    AtConcat(fdt, 0, a + b + c + d + e, f);
    AtConcat(fdt, 0, a + b + c + d, e);
    AtConcat(fdt, 0, a + b + c, d);
    AtConcat(fdt, 0, a + b, c);
    AtConcat(fdt, 0, a, b);
    ReadWord(fdt, 0, h.magic);
    ReadWord(fdt, 1, h.totalSize);
    ReadWord(fdt, 2, h.structOffset);
    ReadWord(fdt, 3, h.stringsOffset);
    ReadWord(fdt, 4, h.reservedOffset);
    ReadWord(fdt, 5, h.version);
    ReadWord(fdt, 6, h.lastCompVersion);
    ReadWord(fdt, 7, h.bootCpuid);
    ReadWord(fdt, 8, h.stringsSize);
    ReadWord(fdt, 9, h.structSize);
  }

  /** Parsing the tree never fails for the header. */
  lemma {:induction false} TreeErrors(structs: seq<Byte>, strings: seq<Byte>, o: nat, s: Building)
    ensures Run(structs, strings, o, s) !in {Err(BadMagic), Err(TooNew), Err(TooSmall)}
    decreases |structs| - o
  {
    hide Be32, NextMultiple, FirstZero, Utf8, Building.Begin, Building.End, DeviceTreeNode.AddProperty;
    var step := StepAt(structs, strings, o, s);
    if step.Next? {
      TreeErrors(structs, strings, step.offset, step.state);
    }
  }

  /** A blob that starts with a header is refused for it exactly in these cases; an offset outside
    * the blob panics. */
  lemma HeaderRefused(fdt: seq<Byte>, h: Header)
    requires At(fdt, 0, HeaderBytes(h))
    ensures BlobOf(fdt) == Err(BadMagic) <==> h.magic != 0xd00dfeed
    ensures BlobOf(fdt) == Err(TooNew) <==> h.magic == 0xd00dfeed && h.lastCompVersion > 17
    ensures BlobOf(fdt) == Err(TooSmall) <==>
      h.magic == 0xd00dfeed && h.lastCompVersion <= 17 && h.totalSize > |fdt|
    ensures h.magic == 0xd00dfeed && h.lastCompVersion <= 17 && h.totalSize <= |fdt| ==>
      && (h.reservedOffset > |fdt| ==> BlobOf(fdt) == Panic)
      && (h.reservedOffset <= |fdt| && Reserved(fdt[h.reservedOffset..], 0).Ok?
            && (h.structOffset + h.structSize > |fdt| || h.stringsOffset + h.stringsSize > |fdt|) ==>
           BlobOf(fdt) == Panic)
  {
    hide HeaderOf, HeaderBytes, Reserved, Run, At, Start;
    ReadHeader(fdt, h);
    if |fdt| >= h.reservedOffset {
      ReservedFails(fdt[h.reservedOffset..], 0);
    }
    if |fdt| >= h.structOffset + h.structSize && |fdt| >= h.stringsOffset + h.stringsSize {
      TreeErrors(fdt[h.structOffset..h.structOffset + h.structSize],
                 fdt[h.stringsOffset..h.stringsOffset + h.stringsSize], 0, Start());
    }
  }

  /** A blob with the reserved memory, the tree and the strings where its header says. */
  ghost predicate Image(fdt: seq<Byte>, h: Header, entries: seq<Entry>, tokens: seq<Token>, tail: seq<Byte>,
                        strings: seq<Byte>)
  {
    && At(fdt, 0, HeaderBytes(h))
    && h.magic == 0xd00dfeed && h.lastCompVersion <= 17 && h.totalSize <= |fdt|
    && At(fdt, h.reservedOffset, ReservedBytes(entries))
    && h.structSize == |StructureBytes(tokens) + ToBe32(9) + tail|
    && At(fdt, h.structOffset, StructureBytes(tokens) + ToBe32(9) + tail)
    && h.stringsSize == |strings| && At(fdt, h.stringsOffset, strings)
  }

  /** Parsing a blob returns the reserved memory and the tree that were put there. */
  lemma BlobRoundTrip(fdt: seq<Byte>, h: Header, entries: seq<Entry>, t: Tree, tokens: seq<Token>, tail: seq<Byte>,
                      strings: seq<Byte>)
    requires Image(fdt, h, entries, tokens, tail, strings)
    requires forall k :: 0 <= k < |entries| ==> entries[k] != Entry(0, 0)
    requires TokensOk(strings, tokens) && Items(tokens) == Flatten(t) && t.name == [] && NamesOk(t) && TreeOk(t)
    ensures BlobOf(fdt).Ok?
    ensures var blob := BlobOf(fdt).value;
      && blob.root == Meaning(t, AddressSpace(1, 1))
      && blob.lastCompVersion == h.lastCompVersion && blob.bootCpuid == h.bootCpuid
      && |blob.reserved| == |entries|
      && forall k :: 0 <= k < |entries| ==>
           var sum := entries[k].address as int + entries[k].size;
           && blob.reserved[k].begin == entries[k].address
           && blob.reserved[k].end == if sum < 0x1_0000_0000_0000_0000 then sum else sum - 0x1_0000_0000_0000_0000
  {
    hide At, Flatten, HeaderOf, HeaderBytes, Items, Meaning, Reserved, ReservedBytes, Run, Start, StructureBytes,
      ToBe32, TokensOk, TreeOk, NamesOk;
    ReadHeader(fdt, h);
    AtSlice(fdt, h.reservedOffset, ReservedBytes(entries));
    ReservedRoundTrip(fdt[h.reservedOffset..], 0, entries);
    ParseRoundTrip(t, strings, tokens, tail);
    BytesAt(fdt, h.structOffset, StructureBytes(tokens) + ToBe32(9) + tail);
    BytesAt(fdt, h.stringsOffset, strings);
  }

  lemma AtSlice(data: seq<Byte>, o: nat, bytes: seq<Byte>)
    requires At(data, o, bytes)
    ensures o <= |data| && At(data[o..], 0, bytes)
  {
    assert data[o..][..|bytes|] == data[o..o + |bytes|];
  }
}
