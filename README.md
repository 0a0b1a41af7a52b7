# zCopybook positional decode engine in Dafny

zCopybook turns a COBOL copybook into a tree of group nodes and leaf
(value) nodes. Each leaf owns a byte range of a fixed-width record. The
library then decodes positional lines into that tree, which becomes JSON.
This project models three pieces of that pipeline and proves properties of them:

- **Layout summary** (`ZCopyBook.from`, module `GithubModel`). It collects
  every leaf of the root's children, in insertion order. It sets the
  expected line length (`waitedLength`) to the sum of the leaf sizes.
- **Positional decoder** (`ZConverter.convertToJson`, module
  `GithubEngine`). It rejects a null line and a line of the wrong length.
  Otherwise it writes `line[start, end)` into every leaf's value slot, in place.
- **Occurs-copy step** (`ValueNode.copyInto`, module `ZthuljModel`). It
  copies a leaf to a cursor position, attaches the copy to a destination
  parent and returns the cursor moved past the copy. Repeated (OCCURS)
  groups are built from this step.

The two Java packages use different range conventions, so each has its own
module:

- `com.github.zthulj` (`GithubModel`, `GithubEngine`) uses **half-open**
  ranges. The decoder slices `substring(start, end)`, and an 18-byte field
  is `(0, 18)`. So `Size() == end - start`.
- `com.zthulj` (`ZthuljModel`) uses **inclusive** ranges. `copyInto` builds
  `end = start + size - 1`, and an 18-byte field is `(0, 17)`. So
  `Size() == end - start + 1`.

Object structure follows the source:

- Leaves are classes. Their range and kind are `const`; their value slot
  is a `var` that starts empty (`None`, Java's `null`).
- The github tree is a datatype whose leaves refer to those objects. The
  leaf list in a `ZCopyBook` therefore shares objects with the tree, as
  the Java list does, and decoding through the list updates the tree.
- `ZCopyBook` never changes after `from`, so it is a datatype.
- `ZConverter` is a class holding its copybook.
- JSON output is replaced by returning the (leaf, slice) pairs.

Three points of the code's behaviour that the model keeps as written:

- `com.zthulj` ranges are inclusive, and `ZthuljModel` keeps that; only
  the `com.github.zthulj` packages are half-open.
- The decoder writes the leaves of `ZCopyBook.valueNodes`, which `From`
  proves are the tree's leaves in insertion order.
- The converter writes nothing only when one of its two checks fails. A
  range outside the line would throw after earlier leaves were written;
  the model excludes that case with a precondition (see below).

## Model

| member | source | states |
|---|---|---|
| `GithubModel.ValueNode.constructor` | src/test/java/com/github/zthulj/zcopybook/engine/ZLoaderTest.java:85-86 | a new leaf has the given range and kind and no decoded value |
| `GithubModel.ValueNode.SetValue` | src/main/java/com/github/zthulj/zcopybook/engine/ZConverter.java:33 | setting a value replaces whatever the slot held |
| `GithubModel.ChildrenValueNodesAppend` | src/main/java/com/github/zthulj/zcopybook/model/ZCopyBook.java:22-25 | collecting the leaves of the children `cs + ds` gives the leaves of `cs` followed by those of `ds`, so each child's `addAll` keeps insertion order |
| `GithubModel.From` | src/main/java/com/github/zthulj/zcopybook/model/ZCopyBook.java:21-28 | the root is stored unchanged; `valueNodes` is the concatenation of the leaves of the root's children in insertion order; `waitedLength` is the sum of their sizes |
| `GithubModel.TotalSizeAppend` | src/main/java/com/github/zthulj/zcopybook/model/ZCopyBook.java:26 | the length sum is additive over concatenated leaf lists |
| `GithubModel.TotalSizeNonNegative` | src/main/java/com/github/zthulj/zcopybook/model/ZCopyBook.java:26 | `waitedLength` is non-negative when no leaf has a negative size |
| `GithubModel.EmptyRoot` | src/main/java/com/github/zthulj/zcopybook/model/ZCopyBook.java:21-28 | `From` applied to a root with no children keeps that root and gives no leaves and an expected length of 0 |
| `GithubModel.ContiguousStarts` | src/test/java/com/github/zthulj/zcopybook/engine/ZLoaderTest.java:85-91 | leaves are laid out one after another exactly when leaf k starts at the total size of leaves 0..k-1 and no size is negative (both directions) |
| `GithubModel.ContiguousPartition` | src/test/java/com/github/zthulj/zcopybook/engine/ZLoaderTest.java:143-146 | contiguous leaves lie inside `[at, at + total)`, do not overlap, and the last ends at `at + total` |
| `GithubModel.SameLevelFixtureLength` | src/test/java/com/github/zthulj/zcopybook/engine/ZLoaderTest.java:136-146 | for FIRSTNAME `[0,18)`, LASTNAME `[18,30)`, SOMETHING `[30,48)`, ELSE `[48,66)` the leaves come out in that order, are contiguous, and the expected length is 66, the end of ELSE |
| `GithubModel.OccursFixtureLength` | src/test/java/com/github/zthulj/zcopybook/engine/ZLoaderTest.java:157-170 | a group occurring twice (2 x 30 bytes) followed by two 18-byte leaves gives an expected length of 96 with contiguous leaves |
| `GithubEngine.Decode` | src/main/java/com/github/zthulj/zcopybook/engine/ZConverter.java:31-33 | the decoded record has one entry per leaf, in the order of the leaf list, and entry k pairs leaf k with its slice `line[start, end)` |
| `GithubEngine.DecodeSplitsLine` | src/main/java/com/github/zthulj/zcopybook/engine/ZConverter.java:31-33 | when contiguous leaves cover a line from `at`, every slice is in bounds and joining the slices gives back `line[at..]` |
| `GithubEngine.ContiguousCopyBookRoundTrip` | src/main/java/com/github/zthulj/zcopybook/engine/ZConverter.java:28-33 | for a copybook laid out from 0 with `waitedLength` equal to the total size, the decoder's bounds precondition holds, and decoding any line of that length then joining the slices gives back the line |
| `GithubEngine.ZConverter.constructor` | src/main/java/com/github/zthulj/zcopybook/engine/ZConverter.java:11-13 | the converter keeps the copybook it is given |
| `GithubEngine.ZConverter.ConvertToJson` | src/main/java/com/github/zthulj/zcopybook/engine/ZConverter.java:23-36 | a null line fails with `NullLine`; a line of the wrong length fails with `LengthMismatch(waited, actual)`; on failure no leaf's value changes; otherwise every leaf holds exactly its slice `line[start, end)` and the result pairs each leaf with that slice |
| `GithubEngine.ConvertTwice` | src/main/java/com/github/zthulj/zcopybook/engine/ZConverter.java:31-34 | decoding two lines one after the other leaves each leaf holding only its slice of the second line |
| `ZthuljModel.ParentNode.constructor` | src/test/java/com/zthulj/zcopybook/model/ParentNodeTest.java:11-13 | a new parent has the given parent and no children |
| `ZthuljModel.ParentNode.AddChild` | src/main/java/com/zthulj/zcopybook/model/ValueNode.java:39 | the child is appended under the given name and the earlier children are kept |
| `ZthuljModel.ValueNode.constructor` | src/main/java/com/zthulj/zcopybook/model/ValueNode.java:29-33 | a new leaf has the given parent, range and kind and no value, since the constructor never sets one |
| `ZthuljModel.ValueNode.SetValue` | src/main/java/com/zthulj/zcopybook/model/ValueNode.java:20-21 | setting a value replaces whatever the slot held |
| `ZthuljModel.ValueNode.CalculateCoordinates` | src/main/java/com/zthulj/zcopybook/model/ValueNode.java:44-46 | the moved range starts at the cursor and has the original's size under the inclusive convention |
| `ZthuljModel.ValueNode.CopyInto` | src/main/java/com/zthulj/zcopybook/model/ValueNode.java:35-42 | the returned cursor is the incoming one plus the original's size; `destination` gains exactly one new child, under `name`; the new child is a fresh leaf with parent `destination`, the moved range, the original's kind and no value; the earlier children and the original leaf are unchanged |
| `ZthuljModel.CopyRunLayout` | src/main/java/com/zthulj/zcopybook/model/ValueNode.java:36-46 | in a run of copies that threads the cursor, copy k starts at the cursor plus the sizes of the k leaves before it and keeps its original's size; the final cursor has moved by the total size |
| `ZthuljModel.CopyRunOfLaidOutGroupIsShift` | src/test/java/com/zthulj/zcopybook/converter/ZLoaderTest.java:161-170 | copying a contiguous group to its base plus `offset` gives exactly the group's ranges shifted by `offset`; with the group's size as offset, this is the next occurrence |
| `ZthuljModel.CopyAllInto` | src/main/java/com/zthulj/zcopybook/model/ValueNode.java:36-42 | calling `CopyInto` on each leaf in turn appends one copy per leaf, with the names given, the ranges `CopyRun` computes and the originals' kinds; each copy is a fresh leaf with parent `destination` and no value; the earlier children are kept; the cursor ends at its start plus the total size |
| `ZthuljModel.CopyFixture` | src/test/java/com/zthulj/zcopybook/converter/ZLoaderTest.java:164-170 | copying FIRSTNAME `[0..17]` then LASTNAME `[18..29]` from cursor 30 gives `[30..47]` and `[48..59]` and moves the cursor to 48, then 60, where the next sibling starts |

## Left out

- JSON rendering is not modelled: `ObjectMapper.writeValueAsString`, `ParentNodeSerializer` and the `@JsonSerialize` annotations. The decoder returns the (leaf, slice) pairs instead.
- Loading copybooks and lines from files or resources, and every `IOException` path, is I/O.
- `ZLoader` is not part of this model: the line parser, the level-stack tree builder, the 88-level and REDEFINES exclusion, and the picture-clause type inference. The fixture trees are written out by hand instead.
- `ParentArrayNode.duplicateOccurs` and `NodeFactory` are not part of this model.
- The source of `Coordinates`, of the `Node` superclass and of `Node.getAllValueNodes` is not shown. `Coordinates` stands in as a two-field datatype whose size follows each package's convention. `AllValueNodes` stands in for `getAllValueNodes` as a depth-first, insertion-ordered leaf collection.
- The source of the `com.github.zthulj` `ValueNode` class is not shown. `GithubModel.ValueNode` stands in for it by mirroring the `com.zthulj` one: a const range and kind, and a value slot. It keeps no parent reference, because nothing modelled uses one.
- `ZthuljModel.ParentNode.AddChild`: appends under the given name. The renaming of an already used name (`NAME2`, `NAME3`, …) is not part of this model, so names in the modelled child list may repeat.
- The nesting level of a `com.zthulj` parent node and the `isParent` flag of `Node` are not modelled. Neither affects ranges or decoding.
- `GithubEngine.ZConverter.ConvertToJson`: requires every leaf range to lie within `[0, waitedLength]`. With a range outside it, the Java loop would throw `StringIndexOutOfBoundsException` after writing the earlier leaves. Copybooks laid out contiguously from 0 meet the requirement (`ContiguousCopyBookRoundTrip`).
- `GithubModel.From`: `waitedLength` is an unbounded sum. The 32-bit wrap-around of Java's `int` sum is not modelled.
- `ZthuljModel.ValueNode.CopyInto`: cursor and range arithmetic is unbounded. The 32-bit overflow of Java's `int` is not modelled.
- Lines are Dafny strings of Unicode characters. Java's `length()` and `substring` count UTF-16 code units; they agree except for characters outside the Basic Multilingual Plane.
- Lombok-generated `equals`, `hashCode` and `toString`, the generic value type and `serialVersionUID` are left out. The value type is fixed to `string`.
