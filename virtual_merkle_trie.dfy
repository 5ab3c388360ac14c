/** `VirtualMerkleTrie`: a Merkle trie whose reported root is an installed
    value instead of one derived from its nodes. */
module VirtualMerkle {
  import opened SszBase

  /** `Bytes32.leftPad`: zero bytes in front of `b` up to 32 bytes. */
  function LeftPad32(b: seq<byte>): (r: Bytes32)
    requires |b| <= 32
    ensures r[32 - |b|..] == b
    ensures forall i :: 0 <= i < 32 - |b| ==> r[i] == 0
  {
    seq(32 - |b|, _ => 0 as byte) + b
  }

  /** A value that already has 32 bytes is left as it is. */
  lemma LeftPadOfFullWidth(b: Bytes32)
    ensures LeftPad32(b) == b
  {
  }

  class VirtualMerkleTrie {
    /** `MerkleTrie.nodes`: the node array, shared with copies. */
    var nodes: array<seq<byte>>
    /** The overlay root. */
    var root: Bytes32

    /** The stored root is the supplied one left-padded to 32 bytes. */
    constructor (nodes: array<seq<byte>>, root: seq<byte>)
      requires |root| <= 32
      ensures this.nodes == nodes
      ensures this.root == LeftPad32(root)
    {
      this.nodes := nodes;
      this.root := LeftPad32(root);
    }

    /** `getPureRoot`: the overlay root; the nodes are not read. */
    function GetPureRoot(): Bytes32
      reads this`root
    {
      root
    }

    /** `getFinalRoot`: the same overlay root. */
    function GetFinalRoot(): Bytes32
      reads this`root
    {
      root
    }

    /** `setFinalRoot`: installs a new root; the nodes stay as they are. */
    method SetFinalRoot(finalRoot: Bytes32)
      modifies this`root
      ensures GetPureRoot() == finalRoot && GetFinalRoot() == finalRoot
    {
      root := finalRoot;
    }

    /** `copy`: a new trie over the same node array with an equal root. */
    method Copy() returns (c: VirtualMerkleTrie)
      ensures fresh(c)
      ensures c.nodes == nodes
      ensures c.GetFinalRoot() == GetFinalRoot() && c.GetPureRoot() == GetPureRoot()
    {
      LeftPadOfFullWidth(root);
      c := new VirtualMerkleTrie(nodes, root);
    }
  }

  /** A copy and its original keep separate roots: installing a root on one
      leaves the other's root as it was, while both still share the nodes. */
  method CopyKeepsRootsApart(t: VirtualMerkleTrie, r1: Bytes32, r2: Bytes32)
    returns (c: VirtualMerkleTrie, originalRootMeanwhile: Bytes32)
    modifies t
    ensures fresh(c) && c.nodes == t.nodes
    ensures originalRootMeanwhile == old(t.GetFinalRoot())
    ensures c.GetFinalRoot() == r1 && t.GetFinalRoot() == r2
  {
    c := t.Copy();
    c.SetFinalRoot(r1);
    originalRootMeanwhile := t.GetFinalRoot();
    t.SetFinalRoot(r2);
  }
}
