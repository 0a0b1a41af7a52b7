/**
 * The layout model of the `com.github.zthulj.zcopybook.model` package:
 * the node tree a copybook is built into, its leaves (value nodes) and
 * the `ZCopyBook` summary that the positional decoder works from.
 *
 * Ranges in this package are HALF-OPEN: a leaf with coordinates
 * (start, end) occupies the record positions start, start + 1, ..., end - 1,
 * so its size is `end - start`.
 */
module GithubModel {
  import opened Wrappers

  /** The kind of value a leaf holds, inferred from its picture clause. */
  datatype ValueType = String | SignedInt | SignedFloat

  /** A half-open range [start, end) of record positions. */
  datatype Coordinates = Coordinates(start: int, end: int) {
    function Size(): int { end - start }
  }

  /**
   * A leaf field.  Its range and kind never change once built; its value
   * slot is empty until a decode writes the field's slice of a line into it.
   */
  class ValueNode {
    const coordinates: Coordinates
    const valueType: ValueType
    var value: Option<string>

    constructor (coordinates: Coordinates, valueType: ValueType)
      ensures this.coordinates == coordinates && this.valueType == valueType
      ensures value == None
    {
      this.coordinates := coordinates;
      this.valueType := valueType;
      value := None;
    }

    method SetValue(value: string)
      modifies this
      ensures this.value == Some(value)
    {
      this.value := Some(value);
    }
  }

  /** One entry of a parent's name-to-child map, in insertion order. */
  datatype Child = Child(name: string, node: Node)

  /**
   * A node of the copybook tree.  Parents keep their children in insertion
   * order; a leaf refers to its `ValueNode` object, so the same object is
   * shared by the tree and by any list of leaves collected from it.
   */
  datatype Node =
    | Root(childs: seq<Child>)
    | Parent(level: int, childs: seq<Child>)
    | ParentArray(level: int, occurs: int, childs: seq<Child>)
    | Value(valueNode: ValueNode)

  /** `ZCopyBook.from` takes a root node. */
  type RootNode = n: Node | n.Root? witness Root([])

  /** Every leaf under `n`, depth first, children in insertion order. */
  function AllValueNodes(n: Node): seq<ValueNode>
  {
    match n
    case Value(leaf) => [leaf]
    case Root(cs) => ChildrenValueNodes(cs)
    case Parent(_, cs) => ChildrenValueNodes(cs)
    case ParentArray(_, _, cs) => ChildrenValueNodes(cs)
  }

  /** The leaves of each child in turn, concatenated. */
  function ChildrenValueNodes(cs: seq<Child>): seq<ValueNode>
  {
    if cs == [] then [] else AllValueNodes(cs[0].node) + ChildrenValueNodes(cs[1..])
  }

  lemma {:induction false} ChildrenValueNodesAppend(cs: seq<Child>, ds: seq<Child>)
    ensures ChildrenValueNodes(cs + ds) == ChildrenValueNodes(cs) + ChildrenValueNodes(ds)
  {
    if cs == [] {
      assert cs + ds == ds;
    } else {
      assert (cs + ds)[1..] == cs[1..] + ds;
      ChildrenValueNodesAppend(cs[1..], ds);
    }
  }

  /** The sum of the sizes of `leaves`: the record length they occupy. */
  function TotalSize(leaves: seq<ValueNode>): int
  {
    if leaves == [] then 0 else leaves[0].coordinates.Size() + TotalSize(leaves[1..])
  }

  lemma {:induction false} TotalSizeAppend(a: seq<ValueNode>, b: seq<ValueNode>)
    ensures TotalSize(a + b) == TotalSize(a) + TotalSize(b)
  {
    if a == [] {
      assert a + b == b;
    } else {
      assert (a + b)[1..] == a[1..] + b;
      TotalSizeAppend(a[1..], b);
    }
  }

  lemma {:induction false} TotalSizeNonNegative(leaves: seq<ValueNode>)
    requires forall l <- leaves :: l.coordinates.Size() >= 0
    ensures TotalSize(leaves) >= 0
  {
    if leaves != [] {
      assert leaves[0] in leaves;
      TotalSizeNonNegative(leaves[1..]);
    }
  }

  /**
   * The summary of a built copybook: the root, its leaves in order and the
   * length a positional line must have.  None of them changes after `From`.
   */
  datatype ZCopyBook = ZCopyBook(rootNode: RootNode, valueNodes: seq<ValueNode>, waitedLength: int)

  /**
   * Collects the leaves of every child of the root, one child after the
   * other, and sets the expected line length to the sum of their sizes.
   */
  method From(rootNodeCopybook: RootNode) returns (copyBook: ZCopyBook)
    ensures copyBook.rootNode == rootNodeCopybook
    ensures copyBook.valueNodes == ChildrenValueNodes(rootNodeCopybook.childs) == AllValueNodes(rootNodeCopybook)
    ensures copyBook.waitedLength == TotalSize(copyBook.valueNodes)
  {
    var allValueNodes: seq<ValueNode> := [];
    var childs := rootNodeCopybook.childs;
    for i := 0 to |childs|
      invariant allValueNodes == ChildrenValueNodes(childs[..i])
    {
      ChildrenValueNodesAppend(childs[..i], [childs[i]]);
      assert childs[..i + 1] == childs[..i] + [childs[i]];
      allValueNodes := allValueNodes + AllValueNodes(childs[i].node);
    }
    assert childs[..|childs|] == childs;
    var waited := TotalSize(allValueNodes);
    copyBook := ZCopyBook(rootNodeCopybook, allValueNodes, waited);
  }

  /**
   * The leaves follow one another without gap or overlap from position
   * `at`: each starts where the previous one ends and none has a negative
   * size.  This is the layout that offset assignment produces.
   */
  predicate Contiguous(leaves: seq<ValueNode>, at: int)
  {
    leaves == [] ||
    (leaves[0].coordinates.start == at && leaves[0].coordinates.Size() >= 0 &&
     Contiguous(leaves[1..], leaves[0].coordinates.end))
  }

  /** Contiguity stated leaf by leaf: leaf k starts after the sizes of leaves 0..k-1. */
  lemma {:induction false} ContiguousStarts(leaves: seq<ValueNode>, at: int)
    ensures Contiguous(leaves, at) <==>
      forall k :: 0 <= k < |leaves| ==>
        leaves[k].coordinates.start == at + TotalSize(leaves[..k]) && leaves[k].coordinates.Size() >= 0
  {
    if leaves != [] {
      var c := leaves[0].coordinates;
      ContiguousStarts(leaves[1..], c.end);
      forall k | 0 < k < |leaves|
        ensures TotalSize(leaves[..k]) == c.Size() + TotalSize(leaves[1..][..k - 1])
      {
        assert leaves[..k][1..] == leaves[1..][..k - 1];
      }
      assert leaves[..0] == [];
    }
  }

  /** Contiguous leaves lie inside [at, at + total) and do not overlap. */
  lemma {:induction false} ContiguousPartition(leaves: seq<ValueNode>, at: int)
    requires Contiguous(leaves, at)
    ensures TotalSize(leaves) >= 0
    ensures forall k :: 0 <= k < |leaves| ==>
      at <= leaves[k].coordinates.start <= leaves[k].coordinates.end <= at + TotalSize(leaves)
    ensures forall j, k :: 0 <= j < k < |leaves| ==> leaves[j].coordinates.end <= leaves[k].coordinates.start
    ensures leaves != [] ==> leaves[|leaves| - 1].coordinates.end == at + TotalSize(leaves)
  {
    if leaves != [] {
      var c := leaves[0].coordinates;
      ContiguousPartition(leaves[1..], c.end);
      forall k | 0 < k < |leaves|
        ensures c.end <= leaves[k].coordinates.start
      {
        assert leaves[k] == leaves[1..][k - 1];
      }
    }
  }

  /** A copybook built from a root with no children has no leaves and an expected length of 0. */
  method EmptyRoot() returns (copyBook: ZCopyBook)
    ensures copyBook.rootNode == Root([])
    ensures copyBook.valueNodes == [] && copyBook.waitedLength == 0
  {
    copyBook := From(Root([]));
  }

  /**
   * The tree of the fixture with a group CLIENT-COMMON-INFOS holding
   * FIRSTNAME and LASTNAME, followed by SOMETHING and ELSE, all under CLIENT.
   */
  function SameLevelFixture(firstname: ValueNode, lastname: ValueNode, something: ValueNode, otherwise: ValueNode): RootNode
  {
    Root([Child("CLIENT", Parent(1, [
      Child("CLIENT-COMMON-INFOS", Parent(3, [Child("FIRSTNAME", Value(firstname)), Child("LASTNAME", Value(lastname))])),
      Child("SOMETHING", Value(something)),
      Child("ELSE", Value(otherwise))]))])
  }

  /** With ranges [0,18), [18,30), [30,48), [48,66) the expected length is 66, the end of the last leaf. */
  lemma SameLevelFixtureLength(firstname: ValueNode, lastname: ValueNode, something: ValueNode, otherwise: ValueNode)
    requires firstname.coordinates == Coordinates(0, 18) && lastname.coordinates == Coordinates(18, 30)
    requires something.coordinates == Coordinates(30, 48) && otherwise.coordinates == Coordinates(48, 66)
    ensures AllValueNodes(SameLevelFixture(firstname, lastname, something, otherwise)) == [firstname, lastname, something, otherwise]
    ensures TotalSize(AllValueNodes(SameLevelFixture(firstname, lastname, something, otherwise))) == 66 == otherwise.coordinates.end
    ensures Contiguous(AllValueNodes(SameLevelFixture(firstname, lastname, something, otherwise)), 0)
  {
    var group := [Child("FIRSTNAME", Value(firstname)), Child("LASTNAME", Value(lastname))];
    assert ChildrenValueNodes(group[1..]) == [lastname];
    assert ChildrenValueNodes(group) == [firstname, lastname];
    var client := [Child("CLIENT-COMMON-INFOS", Parent(3, group)), Child("SOMETHING", Value(something)), Child("ELSE", Value(otherwise))];
    assert ChildrenValueNodes(client[1..][1..]) == [otherwise];
    assert ChildrenValueNodes(client[1..]) == [something, otherwise];
    assert ChildrenValueNodes(client) == [firstname, lastname, something, otherwise];
    var top := [Child("CLIENT", Parent(1, client))];
    assert ChildrenValueNodes(top[1..]) == [];
    assert ChildrenValueNodes(top) == AllValueNodes(Parent(1, client)) == ChildrenValueNodes(client);
    assert SameLevelFixture(firstname, lastname, something, otherwise) == Root(top);
    var leaves := [firstname, lastname, something, otherwise];
    assert AllValueNodes(SameLevelFixture(firstname, lastname, something, otherwise)) == leaves;
    assert leaves[1..] == [lastname, something, otherwise];
    assert leaves[1..][1..] == [something, otherwise];
    assert leaves[1..][1..][1..] == [otherwise];
    assert TotalSize(leaves[1..][1..][1..]) == 18;
    assert TotalSize(leaves[1..][1..]) == 36;
    assert Contiguous(leaves[1..][1..][1..], 48);
    assert Contiguous(leaves[1..][1..], 30);
  }

  /**
   * The fixture where CLIENT-COMMON-INFOS occurs twice: whatever the shape
   * of the expanded array node, if its leaves are FIRSTNAME [0,18),
   * LASTNAME [18,30) and their copies [30,48), [48,60), then SOMETHING and
   * ELSE at [60,78) and [78,96) give an expected length of 96.
   */
  lemma OccursFixtureLength(arrayChilds: seq<Child>, firstname: ValueNode, lastname: ValueNode,
                            firstnameCopy: ValueNode, lastnameCopy: ValueNode,
                            something: ValueNode, otherwise: ValueNode)
    requires ChildrenValueNodes(arrayChilds) == [firstname, lastname, firstnameCopy, lastnameCopy]
    requires firstname.coordinates == Coordinates(0, 18) && lastname.coordinates == Coordinates(18, 30)
    requires firstnameCopy.coordinates == Coordinates(30, 48) && lastnameCopy.coordinates == Coordinates(48, 60)
    requires something.coordinates == Coordinates(60, 78) && otherwise.coordinates == Coordinates(78, 96)
    ensures var root := Root([Child("CLIENT", Parent(1, [
              Child("CLIENT-COMMON-INFOS", ParentArray(3, 2, arrayChilds)),
              Child("SOMETHING", Value(something)),
              Child("ELSE", Value(otherwise))]))]);
            TotalSize(AllValueNodes(root)) == 96 && Contiguous(AllValueNodes(root), 0)
  {
    var leaves := [firstname, lastname, firstnameCopy, lastnameCopy, something, otherwise];
    var root := Root([Child("CLIENT", Parent(1, [
              Child("CLIENT-COMMON-INFOS", ParentArray(3, 2, arrayChilds)),
              Child("SOMETHING", Value(something)),
              Child("ELSE", Value(otherwise))]))]);
    var client := [Child("CLIENT-COMMON-INFOS", ParentArray(3, 2, arrayChilds)), Child("SOMETHING", Value(something)), Child("ELSE", Value(otherwise))];
    assert ChildrenValueNodes(client[1..][1..]) == [otherwise];
    assert ChildrenValueNodes(client[1..]) == [something, otherwise];
    assert ChildrenValueNodes(client) == leaves;
    var top := [Child("CLIENT", Parent(1, client))];
    assert ChildrenValueNodes(top[1..]) == [];
    assert ChildrenValueNodes(top) == AllValueNodes(Parent(1, client)) == ChildrenValueNodes(client);
    assert root == Root(top);
    assert AllValueNodes(root) == leaves;
    assert leaves[1..] == [lastname, firstnameCopy, lastnameCopy, something, otherwise];
    assert leaves[1..][1..] == [firstnameCopy, lastnameCopy, something, otherwise];
    assert leaves[1..][1..][1..] == [lastnameCopy, something, otherwise];
    assert leaves[1..][1..][1..][1..] == [something, otherwise];
    assert leaves[1..][1..][1..][1..][1..] == [otherwise];
    assert TotalSize(leaves[1..][1..][1..][1..][1..]) == 18;
    assert TotalSize(leaves[1..][1..][1..][1..]) == 36;
    assert TotalSize(leaves[1..][1..][1..]) == 48;
    assert TotalSize(leaves[1..][1..]) == 66;
    assert Contiguous(leaves[1..][1..][1..][1..][1..], 78);
    assert Contiguous(leaves[1..][1..][1..][1..], 60);
    assert Contiguous(leaves[1..][1..][1..], 48);
    assert Contiguous(leaves[1..][1..], 30);
  }
}
