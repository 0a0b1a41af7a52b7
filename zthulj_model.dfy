/**
 * The value node of the `com.zthulj.zcopybook.model` package and the copy
 * step behind OCCURS duplication: a leaf is copied to a cursor position,
 * attached to a destination parent, and the cursor moves past the copy.
 *
 * Ranges in this package are INCLUSIVE: a leaf with coordinates
 * (start, end) occupies the record positions start, ..., end, so its size
 * is `end - start + 1`.  This module does not share ranges with the
 * half-open `GithubModel`; its `TotalSize` and `TotalSizeAppend` have the
 * same shape as the ones there but sum sizes under this convention, over
 * this package's own `ValueNode` class.
 */
module ZthuljModel {
  import opened Wrappers

  /** The kind of value a leaf holds: STRING, SIGNED_INT or SIGNED_FLOAT. */
  datatype ValueType = String | SignedInt | SignedFloat

  /** An inclusive range [start..end] of record positions. */
  datatype Coordinates = Coordinates(start: int, end: int) {
    function Size(): int { end - start + 1 }
  }

  /** A child of a parent node: a nested parent or a leaf. */
  datatype Node = ParentChild(parentNode: ParentNode) | ValueChild(valueNode: ValueNode)

  /** A group node; its children are an insertion-ordered list of (name, node) entries. */
  class ParentNode {
    const parent: ParentNode?
    var childs: seq<(string, Node)>

    constructor (parent: ParentNode?)
      ensures this.parent == parent && childs == []
    {
      this.parent := parent;
      childs := [];
    }

    /** Appends `child` under `name`. */
    method AddChild(child: Node, name: string)
      modifies this
      ensures childs == old(childs) + [(name, child)]
    {
      childs := childs + [(name, child)];
    }
  }

  /** A leaf.  Range, kind and parent are fixed; the value slot starts empty. */
  class ValueNode {
    const parent: ParentNode?
    const coordinates: Coordinates
    const valueType: ValueType
    var value: Option<string>

    constructor (parent: ParentNode?, coordinates: Coordinates, valueType: ValueType)
      ensures this.parent == parent && this.coordinates == coordinates && this.valueType == valueType
      ensures value == None
    {
      this.parent := parent;
      this.coordinates := coordinates;
      this.valueType := valueType;
      value := None;
    }

    method SetValue(value: string)
      modifies this
      ensures this.value == Some(value)
    {
      this.value := Some(value);
    }

    /** The range of `value` moved so that it starts at `nextStart`, keeping its size. */
    static function CalculateCoordinates(value: ValueNode, nextStart: int): (c: Coordinates)
      ensures c.start == nextStart
      ensures c.Size() == value.coordinates.Size()
    {
      Coordinates(nextStart, nextStart + value.coordinates.Size() - 1)
    }

    /**
     * Adds to `destination`, under `name`, a fresh leaf of the same kind
     * as this one whose range starts at `cursorPosition` and has this
     * leaf's size, and returns the cursor moved past it.  This leaf and
     * every earlier child of `destination` are left as they were.
     */
    method CopyInto(destination: ParentNode, cursorPosition: int, name: string) returns (next: int)
      modifies destination
      ensures next == cursorPosition + coordinates.Size()
      ensures |destination.childs| == |old(destination.childs)| + 1
      ensures destination.childs[..|old(destination.childs)|] == old(destination.childs)
      ensures var (n, child) := destination.childs[|destination.childs| - 1];
              n == name && child.ValueChild? && fresh(child.valueNode) &&
              child.valueNode.parent == destination &&
              child.valueNode.coordinates == CalculateCoordinates(this, cursorPosition) &&
              child.valueNode.valueType == valueType &&
              child.valueNode.value == None
      ensures value == old(value)
    {
      var nextCoords := CalculateCoordinates(this, cursorPosition);
      var valueNode := new ValueNode(destination, nextCoords, valueType);
      destination.AddChild(ValueChild(valueNode), name);
      next := cursorPosition + nextCoords.Size();
    }
  }

  /** The sum of the sizes of `leaves`. */
  function TotalSize(leaves: seq<ValueNode>): int
  {
    if leaves == [] then 0 else leaves[0].coordinates.Size() + TotalSize(leaves[1..])
  }

  lemma {:induction false} TotalSizeAppend(a: seq<ValueNode>, b: seq<ValueNode>)
    ensures TotalSize(a + b) == TotalSize(a) + TotalSize(b)
  {
    if a == [] {
      assert a + b == b;
    } else {
      assert (a + b)[1..] == a[1..] + b;
      TotalSizeAppend(a[1..], b);
    }
  }

  /**
   * What `CopyInto` called on each leaf in turn produces, each call taking
   * the cursor the previous one returned: the ranges of the copies and the
   * final cursor.
   */
  function CopyRun(leaves: seq<ValueNode>, cursor: int): (seq<Coordinates>, int)
  {
    if leaves == [] then ([], cursor)
    else
      var c := ValueNode.CalculateCoordinates(leaves[0], cursor);
      var rest := CopyRun(leaves[1..], cursor + c.Size());
      ([c] + rest.0, rest.1)
  }

  /**
   * Copies made in a run keep their originals' sizes, the k-th starts after
   * the sizes of the k copies before it, and the final cursor has moved by
   * the total size of the leaves copied.
   */
  lemma {:induction false} CopyRunLayout(leaves: seq<ValueNode>, cursor: int)
    ensures |CopyRun(leaves, cursor).0| == |leaves|
    ensures CopyRun(leaves, cursor).1 == cursor + TotalSize(leaves)
    ensures forall k :: 0 <= k < |leaves| ==>
      CopyRun(leaves, cursor).0[k].start == cursor + TotalSize(leaves[..k]) &&
      CopyRun(leaves, cursor).0[k].Size() == leaves[k].coordinates.Size()
  {
    if leaves != [] {
      var size := leaves[0].coordinates.Size();
      CopyRunLayout(leaves[1..], cursor + size);
      forall k | 0 < k < |leaves|
        ensures TotalSize(leaves[..k]) == size + TotalSize(leaves[1..][..k - 1])
      {
        assert leaves[..k][1..] == leaves[1..][..k - 1];
      }
      assert leaves[..0] == [];
    }
  }

  /** Moves a range by `offset` positions. */
  function Shift(c: Coordinates, offset: int): Coordinates
  {
    Coordinates(c.start + offset, c.end + offset)
  }

  /**
   * Copying a group whose leaves are laid out one after the other from
   * `base` to the cursor `base + offset` yields exactly the group shifted
   * by `offset`.  With `offset` the group's size this is the next
   * occurrence of a repeated group.
   */
  lemma CopyRunOfLaidOutGroupIsShift(leaves: seq<ValueNode>, base: int, offset: int)
    requires forall k :: 0 <= k < |leaves| ==> leaves[k].coordinates.start == base + TotalSize(leaves[..k])
    ensures |CopyRun(leaves, base + offset).0| == |leaves|
    ensures forall k :: 0 <= k < |leaves| ==>
      CopyRun(leaves, base + offset).0[k] == Shift(leaves[k].coordinates, offset)
  {
    CopyRunLayout(leaves, base + offset);
  }

  /**
   * Calls `CopyInto` on each leaf in turn, under the matching name, each
   * call starting at the cursor the previous one returned.  The copies are
   * appended to `destination` with the ranges `CopyRun` gives, and the
   * returned cursor is the one `CopyRun` ends at.
   */
  method CopyAllInto(leaves: seq<ValueNode>, names: seq<string>, destination: ParentNode, cursor: int)
    returns (next: int)
    requires |names| == |leaves|
    modifies destination
    ensures next == CopyRun(leaves, cursor).1 == cursor + TotalSize(leaves)
    ensures |CopyRun(leaves, cursor).0| == |leaves|
    ensures |destination.childs| == |old(destination.childs)| + |leaves|
    ensures destination.childs[..|old(destination.childs)|] == old(destination.childs)
    ensures forall k :: 0 <= k < |leaves| ==>
      var (n, child) := destination.childs[|old(destination.childs)| + k];
      n == names[k] && child.ValueChild? &&
      child.valueNode.coordinates == CopyRun(leaves, cursor).0[k] &&
      child.valueNode.valueType == leaves[k].valueType &&
      child.valueNode.parent == destination &&
      child.valueNode.value == None
    ensures forall j :: |old(destination.childs)| <= j < |destination.childs| ==>
      destination.childs[j].1.ValueChild? && fresh(destination.childs[j].1.valueNode)
  {
    ghost var before := destination.childs;
    ghost var copies: seq<ValueNode> := [];
    next := cursor;
    for i := 0 to |leaves|
      invariant next == cursor + TotalSize(leaves[..i])
      invariant |copies| == i
      invariant |destination.childs| == |before| + i
      invariant destination.childs[..|before|] == before
      invariant forall k :: 0 <= k < i ==> destination.childs[|before| + k] == (names[k], ValueChild(copies[k]))
      invariant forall k :: 0 <= k < i ==>
        copies[k].coordinates == ValueNode.CalculateCoordinates(leaves[k], cursor + TotalSize(leaves[..k])) &&
        copies[k].valueType == leaves[k].valueType &&
        copies[k].parent == destination && copies[k].value == None
      invariant forall j :: |before| <= j < |destination.childs| ==>
        destination.childs[j].1.ValueChild? && fresh(destination.childs[j].1.valueNode)
    {
      TotalSizeAppend(leaves[..i], [leaves[i]]);
      assert leaves[..i + 1] == leaves[..i] + [leaves[i]];
      assert TotalSize([leaves[i]]) == leaves[i].coordinates.Size();
      ghost var prev := destination.childs;
      next := leaves[i].CopyInto(destination, next, names[i]);
      forall j | 0 <= j < |prev|
        ensures destination.childs[j] == prev[j]
      {
        assert destination.childs[..|prev|][j] == prev[j];
      }
      copies := copies + [destination.childs[|prev|].1.valueNode];
    }
    assert leaves[..|leaves|] == leaves;
    CopyRunLayout(leaves, cursor);
    forall k | 0 <= k < |leaves|
      ensures var (n, child) := destination.childs[|before| + k];
        n == names[k] && child.ValueChild? &&
        child.valueNode.coordinates == CopyRun(leaves, cursor).0[k] &&
        child.valueNode.valueType == leaves[k].valueType &&
        child.valueNode.parent == destination &&
        child.valueNode.value == None
    {
      assert CopyRun(leaves, cursor).0[k] == ValueNode.CalculateCoordinates(leaves[k], cursor + TotalSize(leaves[..k]));
      assert destination.childs[|before| + k] == (names[k], ValueChild(copies[k]));
    }
  }

  /**
   * Copying FIRSTNAME [0..17] and then LASTNAME [18..29] from cursor 30
   * gives the copies [30..47] and [48..59]; the cursor goes to 48, then 60.
   */
  method CopyFixture() returns (firstCursor: int, secondCursor: int, destination: ParentNode)
    ensures firstCursor == 48 && secondCursor == 60
    ensures |destination.childs| == 2
    ensures destination.childs[0].0 == "FIRSTNAME" && destination.childs[0].1.ValueChild?
    ensures destination.childs[0].1.valueNode.coordinates == Coordinates(30, 47)
    ensures destination.childs[1].0 == "LASTNAME" && destination.childs[1].1.ValueChild?
    ensures destination.childs[1].1.valueNode.coordinates == Coordinates(48, 59)
  {
    var group := new ParentNode(null);
    var firstname := new ValueNode(group, Coordinates(0, 17), String);
    var lastname := new ValueNode(group, Coordinates(18, 29), String);
    destination := new ParentNode(null);
    firstCursor := firstname.CopyInto(destination, 30, "FIRSTNAME");
    secondCursor := lastname.CopyInto(destination, firstCursor, "LASTNAME");
  }
}
