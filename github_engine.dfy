/**
 * The positional decoder of `com.github.zthulj.zcopybook.engine`: it checks
 * a fixed-width line against the copybook's expected length and writes each
 * leaf's slice of the line into that leaf's value slot, in place.
 */
module GithubEngine {
  import opened Wrappers
  import opened GithubModel

  /** Both are thrown as `IllegalArgumentException` by the converter. */
  datatype ConvertError =
    | NullLine                                 // the line is null
    | LengthMismatch(waited: int, actual: int) // the message carries both lengths

  /** Every leaf's half-open range lies inside a line of the expected length. */
  predicate InBounds(copyBook: ZCopyBook)
  {
    forall l <- copyBook.valueNodes :: 0 <= l.coordinates.start <= l.coordinates.end <= copyBook.waitedLength
  }

  /** Each leaf paired with its slice [start, end) of `line`. */
  function Decode(line: string, leaves: seq<ValueNode>): (decoded: seq<(ValueNode, string)>)
    requires forall l <- leaves :: 0 <= l.coordinates.start <= l.coordinates.end <= |line|
    ensures |decoded| == |leaves|
    ensures forall k :: 0 <= k < |leaves| ==> decoded[k].0 == leaves[k]
    ensures forall k :: 0 <= k < |leaves| ==>
      decoded[k].1 == line[leaves[k].coordinates.start..leaves[k].coordinates.end]
  {
    if leaves == [] then []
    else
      var c := leaves[0].coordinates;
      [(leaves[0], line[c.start..c.end])] + Decode(line, leaves[1..])
  }

  /** The decoded slices written one after the other. */
  function Joined(decoded: seq<(ValueNode, string)>): string
  {
    if decoded == [] then "" else decoded[0].1 + Joined(decoded[1..])
  }

  /**
   * Contiguous leaves covering the rest of a line from `at` split it
   * exactly: joining their slices gives back line[at..].
   */
  lemma {:induction false} DecodeSplitsLine(line: string, leaves: seq<ValueNode>, at: int)
    requires 0 <= at && Contiguous(leaves, at) && at + TotalSize(leaves) == |line|
    ensures forall l <- leaves :: 0 <= l.coordinates.start <= l.coordinates.end <= |line|
    ensures Joined(Decode(line, leaves)) == line[at..]
  {
    ContiguousPartition(leaves, at);
    if leaves == [] {
      assert line[at..] == "";
    } else {
      var c := leaves[0].coordinates;
      DecodeSplitsLine(line, leaves[1..], c.end);
      assert line[at..] == line[c.start..c.end] + line[c.end..];
    }
  }

  /**
   * For a copybook whose leaves are laid out one after the other from 0
   * and whose expected length is their total size: every range is in
   * bounds, and the decoded slices of any line of that length join back
   * to the line.
   */
  lemma ContiguousCopyBookRoundTrip(copyBook: ZCopyBook, line: string)
    requires Contiguous(copyBook.valueNodes, 0)
    requires copyBook.waitedLength == TotalSize(copyBook.valueNodes)
    requires |line| == copyBook.waitedLength
    ensures InBounds(copyBook)
    ensures Joined(Decode(line, copyBook.valueNodes)) == line
  {
    DecodeSplitsLine(line, copyBook.valueNodes, 0);
  }

  class ZConverter {
    const copyBook: ZCopyBook

    constructor (copyBook: ZCopyBook)
      ensures this.copyBook == copyBook
    {
      this.copyBook := copyBook;
    }

    /**
     * Rejects a null line and a line of the wrong length before touching
     * any leaf; otherwise sets every leaf's value to its slice of the line
     * and returns the leaves with their values.
     */
    method ConvertToJson(positionalLine: Option<string>) returns (r: Result<seq<(ValueNode, string)>, ConvertError>)
      requires InBounds(copyBook)
      modifies copyBook.valueNodes
      ensures positionalLine.None? ==> r == Failure(NullLine)
      ensures positionalLine.Some? && |positionalLine.value| != copyBook.waitedLength ==>
                r == Failure(LengthMismatch(copyBook.waitedLength, |positionalLine.value|))
      ensures positionalLine.Some? && |positionalLine.value| == copyBook.waitedLength ==>
                r == Success(Decode(positionalLine.value, copyBook.valueNodes))
      ensures r.Failure? ==> forall l <- copyBook.valueNodes :: l.value == old(l.value)
      ensures r.Success? ==> forall l <- copyBook.valueNodes ::
                l.value == Some(positionalLine.value[l.coordinates.start..l.coordinates.end])
    {
      if positionalLine.None? {
        return Failure(NullLine);
      }
      var line := positionalLine.value;
      if |line| != copyBook.waitedLength {
        return Failure(LengthMismatch(copyBook.waitedLength, |line|));
      }
      var valueNodes := copyBook.valueNodes;
      for i := 0 to |valueNodes|
        invariant forall k :: 0 <= k < i ==>
          valueNodes[k].value == Some(line[valueNodes[k].coordinates.start..valueNodes[k].coordinates.end])
      {
        var c := valueNodes[i].coordinates;
        valueNodes[i].SetValue(line[c.start..c.end]);
      }
      return Success(Decode(line, valueNodes));
    }
  }

  /**
   * The same copybook decoded twice: the second call overwrites every leaf,
   * so each holds only its slice of the second line.
   */
  method ConvertTwice(converter: ZConverter, first: string, second: string)
    requires InBounds(converter.copyBook)
    requires |first| == |second| == converter.copyBook.waitedLength
    modifies converter.copyBook.valueNodes
    ensures forall l <- converter.copyBook.valueNodes ::
      l.value == Some(second[l.coordinates.start..l.coordinates.end])
  {
    var r1 := converter.ConvertToJson(Some(first));
    var r2 := converter.ConvertToJson(Some(second));
  }
}
