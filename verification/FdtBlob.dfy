/** Skipping a node in place, `fdt/blob.cc`: the loop over the tokens, and that it stops just
  * past the end of the node.
  */
module FdtBlob {
  import opened ByteScanner
  import opened DeviceTree
  import Fdt
  import opened FdtRoundTrip
  import opened FlattenedTree
  import opened Wrappers

  // ----- one token

  /** The end of a token that was read, and by how much it changes the depth. */
  datatype Move = Move(delta: int, next: nat)

  function Padding(data: seq<Byte>, from: nat, delta: int): Option<Move> {
    var to := NextMultiple(from, 4);
    if to > |data| then None else Some(Move(delta, to))
  }

  function BeginMove(data: seq<Byte>, p: nat): (r: Option<Move>)
    requires p <= |data|
    ensures r.Some? ==> p < r.value.next <= |data| && r.value.delta == 1
  {
    var zero := FirstZero(data, p);
    if zero == |data| then None else Padding(data, zero + 1, 1)
  }

  function PropertyMove(data: seq<Byte>, strings: seq<Byte>, p: nat): (r: Option<Move>)
    requires p <= |data|
    ensures r.Some? ==> p < r.value.next <= |data| && r.value.delta == 0
  {
    if p + 8 > |data| then None
    else
      var size, off := Be32(data[p..p + 4]), Be32(data[p + 4..p + 8]);
      if off >= |strings| || p + 8 + size > |data| || FirstZero(strings, off) == |strings| then None
      else Padding(data, p + 8 + size, 0)
  }

  function MoveAt(data: seq<Byte>, strings: seq<Byte>, o: nat): (r: Option<Move>)
    ensures r.Some? ==> o < r.value.next <= |data| && -1 <= r.value.delta <= 1
  {
    if o + 4 > |data| then None
    else
      match Be32(data[o..o + 4])
      case 1 => BeginMove(data, o + 4)
      case 2 => Some(Move(-1, o + 4))
      case 3 => PropertyMove(data, strings, o + 4)
      case 4 => Some(Move(0, o + 4))
      case _ => None
  }

  /** The end of the node that is open at the depth. */
  function Skip(data: seq<Byte>, strings: seq<Byte>, o: nat, depth: nat): Option<nat>
    requires depth > 0
    decreases |data| - o
  {
    match MoveAt(data, strings, o)
    case None => None
    case Some(Move(delta, next)) =>
      if depth + delta == 0 then Some(next) else Skip(data, strings, next, depth + delta)
  }

  predicate IsToken(x: Word32) {
    x == 1 || x == 2 || x == 3 || x == 4 || x == 9
  }

  /** The token at the place, if there is a valid one. */
  function TokenOf(data: seq<Byte>, o: nat): Option<Word32> {
    if o + 4 <= |data| && IsToken(Be32(data[o..o + 4])) then Some(Be32(data[o..o + 4])) else None
  }

  /** `Scanner::ConsumeToken`. */
  method ConsumeToken(pos: Scanner) returns (r: Option<Word32>)
    requires pos.Valid()
    modifies pos
    ensures pos.Valid() && r == TokenOf(pos.data, old(pos.offset))
    ensures var o := old(pos.offset);
      && (r.Some? <==> o + 4 <= |pos.data| && Be32(pos.data[o..o + 4]) in {1, 2, 3, 4, 9})
      && (r.Some? ==> r.value == Be32(pos.data[o..o + 4]))
    ensures pos.offset == if r.Some? then old(pos.offset) + 4 else old(pos.offset)
  {
    var copy := new Scanner.Copy(pos);
    var val := copy.ConsumeBe32();
    if val.Err? {
      return None;
    }
    if !IsToken(val.value) {
      return None;
    }
    pos.offset := copy.offset;
    return Some(val.value);
  }

  /** Moves past any valid token, even one that is not wanted. */
  method EnsureToken(pos: Scanner, token: Word32) returns (ok: bool)
    requires pos.Valid()
    modifies pos
    ensures pos.Valid() && (ok <==> TokenOf(pos.data, old(pos.offset)) == Some(token))
    ensures pos.offset == old(pos.offset) + if TokenOf(pos.data, old(pos.offset)).Some? then 4 else 0
    ensures var o := old(pos.offset);
      pos.offset == o + 4 <==> o + 4 <= |pos.data| && Be32(pos.data[o..o + 4]) in {1, 2, 3, 4, 9}
  {
    var actual := ConsumeToken(pos);
    return actual == Some(token);
  }

  class Blob {
    const strings: seq<Byte>

    constructor (strings: seq<Byte>)
      ensures this.strings == strings
    {
      this.strings := strings;
    }

    method TokenAt(pos: Scanner) returns (r: Option<Word32>)
      requires pos.Valid()
      ensures r == TokenOf(pos.data, pos.offset)
    {
      var copy := new Scanner.Copy(pos);
      r := ConsumeToken(copy);
    }

    method ConsumeStartNode(pos: Scanner) returns (r: Option<Name>)
      requires pos.Valid()
      modifies pos
      ensures pos.Valid()
      ensures var o := old(pos.offset);
        var move := if TokenOf(pos.data, o) == Some(1) then MoveAt(pos.data, strings, o) else None;
        && (r.Some? <==> move.Some?)
        && pos.offset == (if move.Some? then move.value.next else o)
        && (r.Some? ==> r.value == pos.data[o + 4..FirstZero(pos.data, o + 4)])
    {
      hide FirstZero, NextMultiple, Be32;
      var copy := new Scanner.Copy(pos);
      var ok := EnsureToken(copy, 1);
      if !ok {
        return None;
      }
      var name := copy.ConsumeAnyCstr();
      if name == None {
        return None;
      }
      ok := copy.AlignForwardToEnd(4);
      if !ok {
        return None;
      }
      pos.offset := copy.offset;
      return Some(name.value);
    }

    method ConsumeProperty(pos: Scanner) returns (r: Option<(Name, seq<Byte>)>)
      requires pos.Valid()
      modifies pos
      ensures pos.Valid()
      ensures var o := old(pos.offset);
        var move := if TokenOf(pos.data, o) == Some(3) then MoveAt(pos.data, strings, o) else None;
        && (r.Some? <==> move.Some?)
        && pos.offset == (if move.Some? then move.value.next else o)
        && (r.Some? ==>
              var size, off := Be32(pos.data[o + 4..o + 8]), Be32(pos.data[o + 8..o + 12]);
              r.value == (strings[off..FirstZero(strings, off)], pos.data[o + 12..o + 12 + size]))
    {
      hide FirstZero, NextMultiple, Be32;
      var copy := new Scanner.Copy(pos);
      var ok := EnsureToken(copy, 3);
      if !ok {
        return None;
      }
      var size := copy.ConsumeBe32();
      if size.Err? {
        return None;
      }
      var off := copy.ConsumeBe32();
      if off.Err? {
        return None;
      }
      if off.value >= |strings| {
        return None;
      }
      var data := copy.ConsumeData(size.value);
      if data.Err? {
        return None;
      }
      ok := copy.AlignForwardToEnd(4);
      if !ok {
        return None;
      }
      var name := NameOf(off.value);
      if name == None {
        return None;
      }
      pos.offset := copy.offset;
      return Some((name.value, data.value));
    }

    method NameOf(off: nat) returns (r: Option<Name>)
      requires off < |strings|
      ensures r == if FirstZero(strings, off) < |strings| then Some(strings[off..FirstZero(strings, off)]) else None
    {
      var str := new Scanner(strings[off..]);
      var name := str.ConsumeAnyCstr();
      Fdt.FirstZeroFrom(strings, off, 0);
      if name == None {
        return None;
      }
      assert name.value == strings[off..FirstZero(strings, off)];
      return Some(name.value);
    }

    method ConsumeEndNode(pos: Scanner) returns (ok: bool)
      requires pos.Valid()
      modifies pos
      ensures pos.Valid() && (ok <==> TokenOf(pos.data, old(pos.offset)) == Some(2))
      ensures pos.offset == old(pos.offset) + if TokenOf(pos.data, old(pos.offset)).Some? then 4 else 0
    {
      ok := EnsureToken(pos, 2);
    }

    method ConsumeNop(pos: Scanner) returns (ok: bool)
      requires pos.Valid()
      modifies pos
      ensures pos.Valid() && (ok <==> TokenOf(pos.data, old(pos.offset)) == Some(4))
      ensures pos.offset == old(pos.offset) + if TokenOf(pos.data, old(pos.offset)).Some? then 4 else 0
    {
      ok := EnsureToken(pos, 4);
    }

    /** Moves to the end of the node, or fails and does not move. */
    method SkipNode(pos: Scanner) returns (ok: bool)
      requires pos.Valid()
      modifies pos
      ensures pos.Valid() && (ok <==> Skip(pos.data, strings, old(pos.offset), 1).Some?)
      ensures pos.offset == if ok then Skip(pos.data, strings, old(pos.offset), 1).value else old(pos.offset)
    {
      hide BeginMove, PropertyMove, Be32;
      var copy := new Scanner.Copy(pos);
      var depth: nat := 1;
      while true
        invariant fresh(copy) && copy.Valid() && copy.data == pos.data && depth > 0 && pos.offset == old(pos.offset)
        invariant Skip(pos.data, strings, copy.offset, depth) == Skip(pos.data, strings, old(pos.offset), 1)
        decreases |copy.data| - copy.offset
      {
        var token := TokenAt(copy);
        if token == None {
          return false;
        }
        match token.value {
          case 1 =>
            var node := ConsumeStartNode(copy);
            if node == None {
              return false;
            }
            depth := depth + 1;
          case 2 =>
            ok := ConsumeEndNode(copy);
            if !ok {
              return false;
            }
            depth := depth - 1;
            if depth == 0 {
              pos.offset := copy.offset;
              return true;
            }
          case 3 =>
            var property := ConsumeProperty(copy);
            if property == None {
              return false;
            }
          case 4 =>
            ok := ConsumeNop(copy);
            if !ok {
              return false;
            }
          case _ =>
            return false;
        }
      }
    }
  }

  // ----- where the node ends

  function Delta(token: Token): int {
    if token.Nop? then 0 else ItemDelta(token.item)
  }

  /** The last token, and no token before it, ends the node that is open at the depth. */
  predicate Closes(tokens: seq<Token>, depth: nat)
    requires depth > 0
    decreases |tokens|
  {
    tokens != [] &&
    var d := depth + Delta(tokens[0]);
    if d == 0 then |tokens| == 1 else Closes(tokens[1..], d)
  }

  predicate ItemsClose(items: seq<Item>, depth: nat)
    requires depth > 0
    decreases |items|
  {
    items != [] &&
    var d := depth + ItemDelta(items[0]);
    if d == 0 then |items| == 1 else ItemsClose(items[1..], d)
  }

  /** A token is skipped as it was laid out. */
  lemma MoveToken(data: seq<Byte>, strings: seq<Byte>, o: nat, token: Token)
    requires TokenOk(strings, token) && At(data, o, TokenBytes(token)) && o % 4 == 0
    ensures MoveAt(data, strings, o) == Some(Move(Delta(token), o + |TokenBytes(token)|))
    ensures |TokenBytes(token)| % 4 == 0
  {
    hide At, Be32, FirstZero, NextMultiple, ToBe32, TokenBytes, TokenOk;
    BytesAt(data, o, TokenBytes(token));
    TokenIsWords(strings, token);
    match token
    case Nop =>
      NopBytes();
      WordAt(data, o, 4);
    case Token(BeginNode(_), _, _) =>
      BeginLayout(strings, data, o, token);
    case Token(EndNode, _, _) =>
      EndBytes(token);
      WordAt(data, o, 2);
    case Token(Prop(_, _), _, _) =>
      PropertyName(strings, token);
      PropertyLayout(strings, data, o, token);
  }

  lemma {:induction false} SkipTokens(data: seq<Byte>, strings: seq<Byte>, o: nat, tokens: seq<Token>, depth: nat)
    requires TokensOk(strings, tokens) && At(data, o, StructureBytes(tokens)) && o % 4 == 0
    requires depth > 0 && Closes(tokens, depth)
    ensures Skip(data, strings, o, depth) == Some(o + |StructureBytes(tokens)|)
    decreases |tokens|
  {
    hide TokenBytes, TokenOk, MoveAt;
    var token, rest := tokens[0], tokens[1..];
    AtConcat(data, o, TokenBytes(token), StructureBytes(rest));
    MoveToken(data, strings, o, token);
    if depth + Delta(token) == 0 {
      assert StructureBytes(rest) == [];
    } else {
      SkipTokens(data, strings, o + |TokenBytes(token)|, rest, depth + Delta(token));
    }
  }

  // ----- the node of a tree

  /** The items of a whole tree do not change the depth. */
  lemma {:induction false} TreeStays(t: Tree, rest: seq<Item>, depth: nat)
    requires depth > 0
    ensures ItemsClose(Flatten(t) + rest, depth) == ItemsClose(rest, depth)
    decreases t, 1
  {
    var inside := FlattenParts(t.parts) + ([EndNode] + rest);
    assert Flatten(t) + rest == [BeginNode(t.name)] + inside;
    assert (Flatten(t) + rest)[1..] == inside;
    PartsStay(t.parts, [EndNode] + rest, depth + 1);
    assert ([EndNode] + rest)[1..] == rest;
  }

  lemma {:induction false} PartsStay(ps: seq<Part>, rest: seq<Item>, depth: nat)
    requires depth > 0
    ensures ItemsClose(FlattenParts(ps) + rest, depth) == ItemsClose(rest, depth)
    decreases ps, 0
  {
    if ps == [] {
      assert FlattenParts(ps) + rest == rest;
    } else {
      var init, last := ps[..|ps| - 1], ps[|ps| - 1];
      assert FlattenParts(ps) + rest == FlattenParts(init) + (FlattenPart(last) + rest);
      PartsStay(init, FlattenPart(last) + rest, depth);
      PartStays(last, rest, depth);
    }
  }

  lemma {:induction false} PartStays(p: Part, rest: seq<Item>, depth: nat)
    requires depth > 0
    ensures ItemsClose(FlattenPart(p) + rest, depth) == ItemsClose(rest, depth)
    decreases p, 0
  {
    match p
    case Property(name, value) => assert ([Prop(name, value)] + rest)[1..] == rest;
    case Subnode(t) => TreeStays(t, rest, depth);
  }

  /** NOP tokens, except after the end, do not matter. */
  lemma {:induction false} NopsClose(tokens: seq<Token>, depth: nat)
    requires depth > 0 && ItemsClose(Items(tokens), depth)
    requires tokens != [] && tokens[|tokens| - 1].Token?
    ensures Closes(tokens, depth)
    decreases |tokens|
  {
    hide Items;
    ItemsFirst(tokens);
    var rest := tokens[1..];
    if tokens[0].Nop? {
      NopsClose(rest, depth);
    } else if rest != [] {
      SomeItems(rest);
      NopsClose(rest, depth + Delta(tokens[0]));
    }
  }

  lemma ItemsFirst(tokens: seq<Token>)
    requires tokens != []
    ensures tokens[0].Nop? ==> Items(tokens) == Items(tokens[1..])
    ensures tokens[0].Token? ==>
      Items(tokens) != [] && Items(tokens)[0] == tokens[0].item && Items(tokens)[1..] == Items(tokens[1..])
    ensures Items([]) == []
  {
  }

  lemma {:induction false} SomeItems(tokens: seq<Token>)
    requires tokens != [] && tokens[|tokens| - 1].Token?
    ensures Items(tokens) != []
  {
    if |tokens| > 1 {
      SomeItems(tokens[1..]);
    }
  }

  lemma NodeCloses(t: Tree)
    ensures ItemsClose(Flatten(t)[1..], 1)
  {
    PartsStay(t.parts, [EndNode], 1);
    assert Flatten(t)[1..] == FlattenParts(t.parts) + [EndNode];
  }

  /** From just past the record that begins a node, skipping lands just past its end, whatever
    * comes before and after, and whatever the padding and the NOP tokens are. */
  lemma SkipLandsAfter(data: seq<Byte>, strings: seq<Byte>, o: nat, t: Tree, tokens: seq<Token>)
    requires TokensOk(strings, tokens) && At(data, o, StructureBytes(tokens)) && o % 4 == 0
    requires Items(tokens) == Flatten(t)[1..] && tokens != [] && tokens[|tokens| - 1].Token?
    ensures Skip(data, strings, o, 1) == Some(o + |StructureBytes(tokens)|)
  {
    hide StructureBytes, Flatten, Items, Skip, MoveAt, ItemsClose, TokensOk;
    NodeCloses(t);
    NopsClose(tokens, 1);
    SkipTokens(data, strings, o, tokens, 1);
  }

  // ----- what can be skipped

  lemma Cut(data: seq<Byte>, a: nat, b: nat, c: nat)
    requires a <= b <= c <= |data|
    ensures data[a..c] == data[a..b] + data[b..c]
  {
  }

  lemma BeginMoved(data: seq<Byte>, strings: seq<Byte>, o: nat) returns (token: Token)
    requires o % 4 == 0 && MoveAt(data, strings, o).Some? && Be32(data[o..o + 4]) == 1
    ensures TokenOk(strings, token) && At(data, o, TokenBytes(token))
    ensures MoveAt(data, strings, o).value == Move(Delta(token), o + |TokenBytes(token)|)
  {
    hide FirstZero, NextMultiple, Be32, ToBe32;
    var p, next := o + 4, MoveAt(data, strings, o).value.next;
    Be32RoundTrip(0, data[o..p]);
    var zero := FirstZero(data, p);
    token := Token(BeginNode(data[p..zero]), 0, data[zero + 1..next]);
    assert data[zero..zero + 1] == [0];
    Cut(data, o, p, zero);
    Cut(data, o, zero, zero + 1);
    Cut(data, o, zero + 1, next);
  }

  lemma PropertyMoved(data: seq<Byte>, strings: seq<Byte>, o: nat) returns (token: Token)
    requires o % 4 == 0 && MoveAt(data, strings, o).Some? && Be32(data[o..o + 4]) == 3
    ensures TokenOk(strings, token) && At(data, o, TokenBytes(token))
    ensures MoveAt(data, strings, o).value == Move(Delta(token), o + |TokenBytes(token)|)
  {
    hide FirstZero, NextMultiple, Be32, ToBe32;
    var p, next := o + 4, MoveAt(data, strings, o).value.next;
    Be32RoundTrip(0, data[o..p]);
    Be32RoundTrip(0, data[p..p + 4]);
    Be32RoundTrip(0, data[p + 4..p + 8]);
    var size, off := Be32(data[p..p + 4]), Be32(data[p + 4..p + 8]);
    var value := data[p + 8..p + 8 + size];
    token := Token(Prop(strings[off..FirstZero(strings, off)], value), off, data[p + 8 + size..next]);
    Cut(data, o, p, p + 4);
    Cut(data, o, p + 4, p + 8);
    Cut(data, o, p + 8, p + 8 + size);
    Cut(data, o, p + 8 + size, next);
  }

  /** The bytes that a move passes are a token. */
  lemma TokenMoved(data: seq<Byte>, strings: seq<Byte>, o: nat) returns (token: Token)
    requires o % 4 == 0 && MoveAt(data, strings, o).Some?
    ensures TokenOk(strings, token) && At(data, o, TokenBytes(token))
    ensures MoveAt(data, strings, o).value == Move(Delta(token), o + |TokenBytes(token)|)
  {
    hide FirstZero, NextMultiple, Be32, ToBe32, BeginMove, PropertyMove;
    Be32RoundTrip(0, data[o..o + 4]);
    match Be32(data[o..o + 4]) {
      case 1 => token := BeginMoved(data, strings, o);
      case 2 => token := Token(EndNode, 0, []);
      case 3 => token := PropertyMoved(data, strings, o);
      case 4 => token := Nop;
    }
  }

  /** A node that can be skipped is laid out as tokens, the last of which closes it. */
  lemma {:induction false} SkippedTokens(data: seq<Byte>, strings: seq<Byte>, o: nat, depth: nat)
    returns (tokens: seq<Token>)
    requires o % 4 == 0 && depth > 0 && Skip(data, strings, o, depth).Some?
    ensures TokensOk(strings, tokens) && At(data, o, StructureBytes(tokens)) && Closes(tokens, depth)
    decreases |data| - o
  {
    hide TokenBytes, TokenOk, MoveAt;
    var token := TokenMoved(data, strings, o);
    TokenIsWords(strings, token);
    var Move(delta, next) := MoveAt(data, strings, o).value;
    if depth + delta == 0 {
      tokens := [token];
      assert StructureBytes(tokens) == TokenBytes(token) + [] == TokenBytes(token);
    } else {
      var rest := SkippedTokens(data, strings, next, depth + delta);
      tokens := [token] + rest;
      assert tokens[1..] == rest;
      assert data[o..next + |StructureBytes(rest)|] == data[o..next] + data[next..next + |StructureBytes(rest)|];
    }
  }

  ghost predicate NodeAt(data: seq<Byte>, strings: seq<Byte>, o: nat, tokens: seq<Token>) {
    TokensOk(strings, tokens) && At(data, o, StructureBytes(tokens)) && Closes(tokens, 1)
  }

  /** A node can be skipped exactly if its tokens are there, up to the one that closes it. */
  lemma SkipExact(data: seq<Byte>, strings: seq<Byte>, o: nat, end: nat)
    requires o % 4 == 0
    ensures Skip(data, strings, o, 1) == Some(end) <==>
      exists tokens :: NodeAt(data, strings, o, tokens) && end == o + |StructureBytes(tokens)|
  {
    hide Skip, TokensOk, At, Closes, StructureBytes;
    if Skip(data, strings, o, 1) == Some(end) {
      var tokens := SkippedTokens(data, strings, o, 1);
      SkipTokens(data, strings, o, tokens, 1);
      assert NodeAt(data, strings, o, tokens);
    }
    if tokens :| NodeAt(data, strings, o, tokens) && end == o + |StructureBytes(tokens)| {
      SkipTokens(data, strings, o, tokens, 1);
    }
  }
}
