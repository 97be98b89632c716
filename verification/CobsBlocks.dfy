/** The meaning of a COBS frame: a list of blocks, each a stretch of data and what follows it. */
module CobsBlocks {
  import opened Arithmetic
  import opened Bytes
  import opened CobsConfig

  /** What a block stands for after its data: a delimiter byte, nothing (the block is full),
      or a replaced run. */
  datatype End = Separator | Full | Run

  datatype Block = Block(data: seq<Byte>, end: End)

  function Tail(c: Config, end: End): seq<Byte> {
    match end
    case Separator => [c.delimiter]
    case Full => []
    case Run => Rep(c.runByte, c.runSize)
  }

  /** The data that a list of blocks stands for. */
  function Expand(c: Config, bs: seq<Block>): seq<Byte> {
    if bs == [] then []
    else Expand(c, bs[..|bs| - 1]) + bs[|bs| - 1].data + Tail(c, bs[|bs| - 1].end)
  }

  /** Blocks that can stand in a frame: no delimiter in the data, a code that fits in a byte, and a length that
      tells full blocks from short ones. A block that ends in a run may be as long as a full one, which the
      readers take although the writers never make it so long. */
  predicate Sound(c: Config, b: Block) {
    && Free(c.delimiter, b.data)
    && match b.end
       case Separator => |b.data| + 1 < c.depth
       case Full => |b.data| + 1 == c.depth
       case Run => c.kind != Plain && |b.data| + 1 <= c.depth && |b.data| + 1 + c.depth <= 255
  }

  predicate AllSound(c: Config, bs: seq<Block>) {
    forall i :: 0 <= i < |bs| ==> Sound(c, bs[i])
  }

  /** The offset a block's code byte carries. */
  function Offset(c: Config, b: Block): (o: Byte)
    requires Accepted(c) && Sound(c, b)
    ensures o != 0
  {
    |b.data| + 1 + if b.end.Run? then c.depth else 0
  }

  function WireBlock(c: Config, b: Block): seq<Byte>
    requires Accepted(c) && Sound(c, b)
  {
    [Swap(c, Offset(c, b))] + b.data
  }

  function Wire(c: Config, bs: seq<Block>): (w: seq<Byte>)
    requires Accepted(c) && AllSound(c, bs)
    ensures Free(c.delimiter, w)
  {
    if bs == [] then [] else Wire(c, bs[..|bs| - 1]) + WireBlock(c, bs[|bs| - 1])
  }

  lemma AppendBlock(c: Config, bs: seq<Block>, b: Block)
    ensures Expand(c, bs + [b]) == Expand(c, bs) + b.data + Tail(c, b.end)
    ensures AllSound(c, bs) && Sound(c, b) ==> AllSound(c, bs + [b])
    ensures Accepted(c) && AllSound(c, bs) && Sound(c, b) ==> Wire(c, bs + [b]) == Wire(c, bs) + WireBlock(c, b)
  {
    assert (bs + [b])[..|bs|] == bs;
  }

  // ---- Lengths ----

  function Count(bs: seq<Block>, end: End): nat {
    if bs == [] then 0 else Count(bs[..|bs| - 1], end) + if bs[|bs| - 1].end == end then 1 else 0
  }

  lemma AppendCount(bs: seq<Block>, b: Block, end: End)
    ensures Count(bs + [b], end) == Count(bs, end) + if b.end == end then 1 else 0
  {
    assert (bs + [b])[..|bs|] == bs;
  }

  /** Full blocks cost a byte each and replaced runs save all but one of theirs; separators are free. */
  lemma {:induction false} WireLength(c: Config, bs: seq<Block>)
    requires Accepted(c) && AllSound(c, bs)
    ensures |Wire(c, bs)| == |Expand(c, bs)| + Count(bs, Full) - Count(bs, Run) * (c.runSize - 1)
    ensures Count(bs, Full) * (c.depth - 1) + Count(bs, Run) * c.runSize <= |Expand(c, bs)|
  {
    if bs == [] {
    } else {
      var init, last := bs[..|bs| - 1], bs[|bs| - 1];
      hide Offset, Swap, Accepted;
      WireLength(c, init);
      Distribute(Count(init, Run), c.runSize);
      Distribute(Count(init, Run), c.runSize - 1);
      Distribute(Count(init, Full), c.depth - 1);
      assert |WireBlock(c, last)| == |last.data| + 1;
      match last.end {
        case Separator =>
        case Full =>
        case Run => assert |Tail(c, Run)| == c.runSize;
      }
    }
  }
}
