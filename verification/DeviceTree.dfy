/** Device tree nodes, of `kernel/devicetree/src/lib.rs`. */
module DeviceTree {
  import opened ByteScanner
  import opened Wrappers

  type Name = seq<Byte>

  datatype AddressSpace = AddressSpace(sizeCells: Word32, addressCells: Word32)

  /** "#size-cells" */
  function SizeCells(): Name {
    [35, 115, 105, 122, 101, 45, 99, 101, 108, 108, 115]
  }

  /** "#address-cells" */
  function AddressCells(): Name {
    [35, 97, 100, 100, 114, 101, 115, 115, 45, 99, 101, 108, 108, 115]
  }

  /** The bytes are the characters of the text. */
  predicate Spells(name: Name, text: string) {
    |name| == |text| && forall k :: 0 <= k < |text| ==> name[k] == text[k] as int
  }

  lemma CellNames(name: Name)
    ensures name == SizeCells() <==> Spells(name, "#size-cells")
    ensures name == AddressCells() <==> Spells(name, "#address-cells")
  {
    var size, address := "#size-cells", "#address-cells";
    assert forall k :: 0 <= k < |size| ==> SizeCells()[k] == size[k] as int;
    assert forall k :: 0 <= k < |address| ==> AddressCells()[k] == address[k] as int;
  }

  datatype DeviceTreeNode = DeviceTreeNode(
    children: map<Name, DeviceTreeNode>,
    properties: map<Name, seq<Byte>>,
    addressSpace: AddressSpace)
  {
    function AddChild(name: Name, child: DeviceTreeNode): DeviceTreeNode {
      this.(children := children[name := child])
    }

    /** The value of a cell count is taken from the property, which panics if it is short. */
    function AddProperty(name: Name, value: seq<Byte>): Result<DeviceTreeNode, Error> {
      if (name == SizeCells() || name == AddressCells()) && |value| < 4 then
        Panic
      else
        var space :=
          if name == SizeCells() then addressSpace.(sizeCells := Be32(value[..4]))
          else if name == AddressCells() then addressSpace.(addressCells := Be32(value[..4]))
          else addressSpace;
        Ok(this.(properties := properties[name := value], addressSpace := space))
    }

    /** `follow`, on a path that is split into names. */
    function Follow(path: seq<Name>): Option<DeviceTreeNode>
      decreases |path|
    {
      if path == [] then Some(this)
      else if path[0] in children then children[path[0]].Follow(path[1..])
      else None
    }
  }

  function NewNode(): DeviceTreeNode {
    DeviceTreeNode(map[], map[], AddressSpace(1, 1))
  }

  /** A child starts with the address space that its parent has at that moment. */
  function NewChild(parent: DeviceTreeNode): DeviceTreeNode {
    DeviceTreeNode(map[], map[], parent.addressSpace)
  }
}
