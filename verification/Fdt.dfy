/** The parser of flattened device trees, `kernel/devicetree/src/fdt.rs`: the loop over the
  * tokens and the stack of open nodes, against a function of the bytes.
  */
module Fdt {
  import opened ByteScanner
  import opened DeviceTree
  import opened Wrappers

  // ----- the open nodes

  /** The nodes begun and not yet ended, outermost first, with the name of the one inside. */
  datatype Building = Building(parents: seq<(Name, DeviceTreeNode)>, current: DeviceTreeNode) {
    function Begin(name: Name): Building {
      Building(parents + [(name, current)], NewChild(current))
    }

    function End(): Building
      requires parents != []
    {
      var (name, parent) := parents[|parents| - 1];
      Building(parents[..|parents| - 1], parent.AddChild(name, current))
    }

    function Finish(): Result<DeviceTreeNode, Error> {
      if parents != [] then Err(UnfinishedNodes)
      else if [] in current.children then Ok(current.children[[]])
      else Err(NoRoot)
    }
  }

  function Start(): Building {
    Building([], NewNode())
  }

  class State {
    var parents: seq<(Name, DeviceTreeNode)>
    var current: DeviceTreeNode

    constructor ()
      ensures Value() == Start()
    {
      parents := [];
      current := NewNode();
    }

    ghost function Value(): Building
      reads this
    {
      Building(parents, current)
    }

    method BeginNode(name: Name)
      modifies this
      ensures Value() == old(Value()).Begin(name)
    {
      var child := NewChild(current);
      var parent := current;
      current := child;
      parents := parents + [(name, parent)];
    }

    method EndNode() returns (r: Outcome<Error>)
      modifies this
      ensures old(parents) != [] ==> r == Pass && Value() == old(Value()).End()
      ensures old(parents) == [] ==> r == Fail(UnmatchedEnd) && Value() == old(Value())
    {
      if parents != [] {
        var (name, parent) := parents[|parents| - 1];
        parents := parents[..|parents| - 1];
        var node := current;
        current := parent;
        current := current.AddChild(name, node);
        return Pass;
      }
      return Fail(UnmatchedEnd);
    }

    /** Returns false where the source panics: a cell count needs four bytes. The last property
      * with a name counts, and a cell count is in force as soon as it is read. */
    method NewProperty(name: Name, value: seq<Byte>) returns (ok: bool)
      modifies this
      ensures ok <==> (Spells(name, "#size-cells") || Spells(name, "#address-cells") ==> |value| >= 4)
      ensures parents == old(parents) && current.children == old(current).children
      ensures !ok ==> current == old(current)
      ensures ok ==> current.properties == old(current).properties[name := value]
      ensures ok ==> current.addressSpace == AddressSpace(
        if Spells(name, "#size-cells") then Be32(value[..4]) else old(current).addressSpace.sizeCells,
        if Spells(name, "#address-cells") then Be32(value[..4]) else old(current).addressSpace.addressCells)
    {
      CellNames(name);
      var node := current.AddProperty(name, value);
      if node.Panic? {
        return false;
      }
      current := node.value;
      return true;
    }

    method Finish() returns (r: Result<DeviceTreeNode, Error>)
      modifies this
      ensures r == old(Value()).Finish()
    {
      if parents != [] {
        return Err(UnfinishedNodes);
      }
      if [] in current.children {
        var root := current.children[[]];
        current := current.(children := current.children - {[]});
        return Ok(root);
      }
      return Err(NoRoot);
    }
  }

  // ----- one token

  datatype Step = Next(offset: nat, state: Building) | Stop(result: Result<DeviceTreeNode, Error>)

  /** Moves past the padding of a token. */
  function Padding(structs: seq<Byte>, from: nat, state: Building): Step {
    var to := NextMultiple(from, 4);
    if to == from || to < |structs| then Next(to, state) else Stop(Err(NotEnoughData))
  }

  function BeginStep(structs: seq<Byte>, p: nat, state: Building): Step
    requires p <= |structs|
  {
    var zero := FirstZero(structs, p);
    if zero == |structs| then Stop(Err(Unterminated))
    else if !Utf8(structs[p..zero]) then Stop(Err(NotUtf8))
    else Padding(structs, zero + 1, state.Begin(structs[p..zero]))
  }

  function EndStep(p: nat, state: Building): Step {
    if state.parents == [] then Stop(Err(UnmatchedEnd)) else Next(p, state.End())
  }

  function PropertyStep(structs: seq<Byte>, strings: seq<Byte>, p: nat, state: Building): Step
    requires p <= |structs|
  {
    if p + 8 > |structs| then Stop(Err(NotEnoughData))
    else
      var len, off := Be32(structs[p..p + 4]), Be32(structs[p + 4..p + 8]);
      if p + 8 + len > |structs| then Stop(Err(NotEnoughData))
      else if off > |strings| then Stop(Panic)
      else
        var zero := FirstZero(strings, off);
        if zero == |strings| then Stop(Err(Unterminated))
        else if !Utf8(strings[off..zero]) then Stop(Err(NotUtf8))
        else
          var current := state.current.AddProperty(strings[off..zero], structs[p + 8..p + 8 + len]);
          if current.Ok? then Padding(structs, p + 8 + len, state.(current := current.value)) else Stop(Panic)
  }

  function StepAt(structs: seq<Byte>, strings: seq<Byte>, o: nat, state: Building): (r: Step)
    ensures r.Next? ==> o < r.offset <= |structs|
  {
    if o + 4 > |structs| then Stop(Err(NotEnoughData))
    else
      match Be32(structs[o..o + 4])
      case 1 => BeginStep(structs, o + 4, state)
      case 2 => EndStep(o + 4, state)
      case 3 => PropertyStep(structs, strings, o + 4, state)
      case 4 => Next(o + 4, state)
      case 9 => Stop(state.Finish())
      case _ => Stop(Err(UnknownToken))
  }

  function Run(structs: seq<Byte>, strings: seq<Byte>, o: nat, state: Building): Result<DeviceTreeNode, Error>
    decreases |structs| - o
  {
    match StepAt(structs, strings, o, state)
    case Stop(result) => result
    case Next(offset, next) => Run(structs, strings, offset, next)
  }

  /** The scanner and the open nodes have taken the step, or the parser stops with its result. */
  ghost predicate Took(step: Step, scanner: Scanner, state: State, stop: Option<Result<DeviceTreeNode, Error>>)
    reads scanner, state
  {
    match step
    case Next(offset, next) => stop == None && scanner.offset == offset && state.Value() == next
    case Stop(result) => stop == Some(result)
  }

  method ParseBegin(scanner: Scanner, state: State) returns (stop: Option<Result<DeviceTreeNode, Error>>)
    requires scanner.Valid()
    modifies scanner, state
    ensures scanner.Valid()
    ensures Took(BeginStep(scanner.data, old(scanner.offset), old(state.Value())), scanner, state, stop)
  {
    hide NextMultiple, FirstZero;
    var name := scanner.ConsumeCstr();
    if name.Err? {
      return Some(Err(name.error));
    }
    state.BeginNode(name.value);
    var aligned := scanner.AlignForward(4);
    if aligned.Fail? {
      return Some(Err(aligned.error));
    }
    return None;
  }

  lemma AddedProperty(node: DeviceTreeNode, name: Name, value: seq<Byte>, now: DeviceTreeNode)
    ensures node.AddProperty(name, value).Ok? <==>
      (Spells(name, "#size-cells") || Spells(name, "#address-cells") ==> |value| >= 4)
    ensures !node.AddProperty(name, value).Ok? ==> node.AddProperty(name, value).Panic?
    ensures
      && node.AddProperty(name, value).Ok?
      && now.children == node.children && now.properties == node.properties[name := value]
      && now.addressSpace == AddressSpace(
        if Spells(name, "#size-cells") then Be32(value[..4]) else node.addressSpace.sizeCells,
        if Spells(name, "#address-cells") then Be32(value[..4]) else node.addressSpace.addressCells) ==>
      now == node.AddProperty(name, value).value
  {
    CellNames(name);
  }

  method ParseProperty(scanner: Scanner, strings: seq<Byte>, state: State)
    returns (stop: Option<Result<DeviceTreeNode, Error>>)
    requires scanner.Valid()
    modifies scanner, state
    ensures scanner.Valid()
    ensures Took(PropertyStep(scanner.data, strings, old(scanner.offset), old(state.Value())), scanner, state, stop)
  {
    hide NextMultiple, FirstZero, Be32, Utf8, SizeCells, AddressCells, Spells, DeviceTreeNode.AddProperty;
    var len := scanner.ConsumeBe32();
    if len.Err? {
      return Some(Err(len.error));
    }
    var off := scanner.ConsumeBe32();
    if off.Err? {
      return Some(Err(off.error));
    }
    var value := scanner.ConsumeData(len.value);
    if value.Err? {
      return Some(Err(value.error));
    }
    if off.value > |strings| {
      return Some(Panic);
    }
    var names := new Scanner(strings[off.value..]);
    var name := names.ConsumeCstr();
    FirstZeroFrom(strings, off.value, 0);
    ghost var zero := FirstZero(strings, off.value);
    assert zero < |strings| ==> strings[off.value..][..zero - off.value] == strings[off.value..zero];
    if name.Err? {
      return Some(Err(name.error));
    }
    ghost var node := state.current;
    var added := state.NewProperty(name.value, value.value);
    AddedProperty(node, name.value, value.value, state.current);
    if !added {
      return Some(Panic);
    }
    var aligned := scanner.AlignForward(4);
    if aligned.Fail? {
      return Some(Err(aligned.error));
    }
    return None;
  }

  lemma {:induction false} FirstZeroFrom(data: seq<Byte>, from: nat, k: nat)
    requires from + k <= |data|
    ensures FirstZero(data, from + k) == from + FirstZero(data[from..], k)
    decreases |data| - k
  {
    if from + k < |data| && data[from + k] != 0 {
      FirstZeroFrom(data, from, k + 1);
    }
  }

  method ParseNodes(structs: seq<Byte>, strings: seq<Byte>) returns (r: Result<DeviceTreeNode, Error>)
    ensures r == Run(structs, strings, 0, Start())
  {
    hide BeginStep, PropertyStep, Be32, Building.Finish, Building.End;
    var scanner := new Scanner(structs);
    var state := new State();
    while true
      invariant scanner.Valid() && scanner.data == structs
      invariant Run(structs, strings, scanner.offset, state.Value()) == Run(structs, strings, 0, Start())
      decreases |structs| - scanner.offset
    {
      ghost var o, was := scanner.offset, state.Value();
      ghost var step := StepAt(structs, strings, o, was);
      var stop: Option<Result<DeviceTreeNode, Error>> := None;
      var token := scanner.ConsumeBe32();
      if token.Err? {
        return Err(token.error);
      }
      match token.value {
        case 1 =>
          stop := ParseBegin(scanner, state);
        case 2 =>
          var ended := state.EndNode();
          stop := if ended.Fail? then Some(Err(ended.error)) else None;
          assert Took(step, scanner, state, stop);
        case 3 =>
          stop := ParseProperty(scanner, strings, state);
        case 4 =>
        case 9 =>
          r := state.Finish();
          return r;
        case _ =>
          return Err(UnknownToken);
      }
      if stop.Some? {
        return stop.value;
      }
    }
  }

  // ----- reserved memory

  /** The addresses from `begin` up to but not including `end`. */
  datatype Range = Range(begin: Word64, end: Word64)

  /** The sum wraps around in the release build that the kernel is. */
  function RangeOf(address: Word64, size: Word64): Range {
    Range(address, (address as int + size) % 0x1_0000_0000_0000_0000)
  }

  /** The ranges up to the terminating pair of zeros. */
  function Reserved(data: seq<Byte>, o: nat): Result<seq<Range>, Error>
    decreases |data| - o
  {
    if o + 16 > |data| then Err(NotEnoughData)
    else
      var addr, size := Be64(data[o..o + 8]), Be64(data[o + 8..o + 16]);
      if addr == 0 && size == 0 then Ok([])
      else
        Prepend([RangeOf(addr, size)], Reserved(data, o + 16))
  }

  function Prepend(first: seq<Range>, rest: Result<seq<Range>, Error>): Result<seq<Range>, Error> {
    if rest.Ok? then Ok(first + rest.value) else rest
  }

  lemma PrependConcat(a: seq<Range>, b: seq<Range>, rest: Result<seq<Range>, Error>)
    ensures Prepend(a, Prepend(b, rest)) == Prepend(a + b, rest)
  {
    if rest.Ok? {
      assert a + (b + rest.value) == a + b + rest.value;
    }
  }

  lemma PrependNothing(rest: Result<seq<Range>, Error>)
    ensures Prepend([], rest) == rest
  {
    if rest.Ok? {
      assert [] + rest.value == rest.value;
    }
  }

  method ParseReserved(data: seq<Byte>) returns (r: Result<seq<Range>, Error>)
    ensures r == Reserved(data, 0)
  {
    var scanner := new Scanner(data);
    var reserved: seq<Range> := [];
    PrependNothing(Reserved(data, 0));
    while true
      invariant scanner.Valid() && scanner.data == data
      invariant Reserved(data, 0) == Prepend(reserved, Reserved(data, scanner.offset))
      decreases |data| - scanner.offset
    {
      var addr := scanner.ConsumeBe64();
      if addr.Err? {
        return Err(addr.error);
      }
      var size := scanner.ConsumeBe64();
      if size.Err? {
        return Err(size.error);
      }
      if addr.value == 0 && size.value == 0 {
        break;
      }
      ghost var first := [RangeOf(addr.value, size.value)];
      PrependConcat(reserved, first, Reserved(data, scanner.offset));
      reserved := reserved + [RangeOf(addr.value, size.value)];
    }
    assert reserved + [] == reserved;
    return Ok(reserved);
  }

  // ----- the blob

  datatype Header = Header(
    magic: Word32, totalSize: Word32, structOffset: Word32, stringsOffset: Word32, reservedOffset: Word32,
    version: Word32, lastCompVersion: Word32, bootCpuid: Word32, stringsSize: Word32, structSize: Word32)

  datatype DeviceTreeBlob = DeviceTreeBlob(
    reserved: seq<Range>, root: DeviceTreeNode, lastCompVersion: Word32, bootCpuid: Word32)

  const MAGIC: Word32 := 0xd00dfeed
  const SPEC_VERSION: Word32 := 17

  function Word(fdt: seq<Byte>, k: nat): Word32
    requires 4 * k + 4 <= |fdt|
  {
    Be32(fdt[4 * k..4 * k + 4])
  }

  function HeaderOf(fdt: seq<Byte>): Header
    requires |fdt| >= 40
  {
    Header(Word(fdt, 0), Word(fdt, 1), Word(fdt, 2), Word(fdt, 3), Word(fdt, 4),
           Word(fdt, 5), Word(fdt, 6), Word(fdt, 7), Word(fdt, 8), Word(fdt, 9))
  }

  method ParseHeader(fdt: seq<Byte>) returns (r: Result<Header, Error>)
    ensures r == if |fdt| < 40 then Err(NotEnoughData) else Ok(HeaderOf(fdt))
  {
    var scanner := new Scanner(fdt);
    var words: seq<Word32> := [];
    for k := 0 to 10
      invariant scanner.Valid() && scanner.data == fdt && scanner.offset == 4 * k && |words| == k
      invariant forall j :: 0 <= j < k ==> words[j] == Word(fdt, j)
    {
      var word := scanner.ConsumeBe32();
      if word.Err? {
        return Err(word.error);
      }
      words := words + [word.value];
    }
    return Ok(Header(words[0], words[1], words[2], words[3], words[4],
                     words[5], words[6], words[7], words[8], words[9]));
  }

  /** A slice outside the blob panics. */
  function BlobOf(fdt: seq<Byte>): Result<DeviceTreeBlob, Error> {
    if |fdt| < 40 then Err(NotEnoughData)
    else
      var h := HeaderOf(fdt);
      if h.magic != MAGIC then Err(BadMagic)
      else if h.lastCompVersion > SPEC_VERSION then Err(TooNew)
      else if h.totalSize > |fdt| then Err(TooSmall)
      else if h.reservedOffset > |fdt| then Panic
      else
        match Reserved(fdt[h.reservedOffset..], 0)
        case Err(error) => Err(error)
        case Panic => Panic
        case Ok(reserved) =>
          if h.structOffset + h.structSize > |fdt| || h.stringsOffset + h.stringsSize > |fdt| then Panic
          else
            var structs := fdt[h.structOffset..h.structOffset + h.structSize];
            var strings := fdt[h.stringsOffset..h.stringsOffset + h.stringsSize];
            match Run(structs, strings, 0, Start())
            case Err(error) => Err(error)
            case Panic => Panic
            case Ok(root) => Ok(DeviceTreeBlob(reserved, root, h.lastCompVersion, h.bootCpuid))
  }

  method Parse(fdt: seq<Byte>) returns (r: Result<DeviceTreeBlob, Error>)
    ensures r == BlobOf(fdt)
  {
    var h := ParseHeader(fdt);
    if h.Err? {
      return Err(h.error);
    }
    var header := h.value;
    if header.magic != MAGIC {
      return Err(BadMagic);
    }
    if header.lastCompVersion > SPEC_VERSION {
      return Err(TooNew);
    }
    if header.totalSize > |fdt| {
      return Err(TooSmall);
    }
    if header.reservedOffset > |fdt| {
      return Panic;
    }
    var reserved := ParseReserved(fdt[header.reservedOffset..]);
    if !reserved.Ok? {
      return if reserved.Err? then Err(reserved.error) else Panic;
    }
    var begin: nat, end: nat := header.structOffset, header.structOffset + header.structSize;
    if end > |fdt| {
      return Panic;
    }
    var structs := fdt[begin..end];
    begin, end := header.stringsOffset, header.stringsOffset + header.stringsSize;
    if end > |fdt| {
      return Panic;
    }
    var strings := fdt[begin..end];
    var root := ParseNodes(structs, strings);
    if !root.Ok? {
      return if root.Err? then Err(root.error) else Panic;
    }
    return Ok(DeviceTreeBlob(reserved.value, root.value, header.lastCompVersion, header.bootCpuid));
  }
}
