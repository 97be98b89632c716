/** The streaming COBS, COBS/GSE and COBS/ZPE writer (src/strategies/cobs/write.cpp) as a function of
    the data written, and what its frames cost. The class StreamWriter is proved to compute this. */
module CobsEncoder {
  import opened Arithmetic
  import opened Bytes
  import opened CobsConfig
  import opened CobsBlocks

  /** The blocks already emitted, the bytes buffered after the reserved code byte, and the number of
      run bytes counted but neither buffered nor replaced yet. */
  datatype Writer = Writer(blocks: seq<Block>, buffer: seq<Byte>, counter: nat)

  const EMPTY := Writer([], [], 0)

  predicate Good(c: Config, w: Writer) {
    && AllSound(c, w.blocks)
    && Free(c.delimiter, w.buffer)
    && |w.buffer| + 1 < c.depth
    && (w.counter > 0 ==> c.kind != Plain && w.counter < c.runSize && |w.buffer| + 1 <= Limit(c))
  }

  /** The data a writer has taken: what its blocks stand for, its buffer, and the counted run bytes. */
  function Taken(c: Config, w: Writer): seq<Byte> {
    Expand(c, w.blocks) + w.buffer + Rep(c.runByte, w.counter)
  }

  function Emit(w: Writer, end: End): Writer {
    Writer(w.blocks + [Block(w.buffer, end)], [], w.counter)
  }

  /** `_encode`. */
  function EncodeByte(c: Config, w: Writer, b: Byte): (w': Writer)
    requires Accepted(c) && Good(c, w) && w.counter == 0
    ensures Good(c, w') && w'.counter == 0
  {
    if b == c.delimiter then Emit(w, Separator)
    else
      var grown := w.(buffer := w.buffer + [b]);
      if |grown.buffer| + 1 < c.depth then grown else Emit(grown, Full)
  }

  function EncodeTimes(c: Config, w: Writer, b: Byte, n: nat): (w': Writer)
    requires Accepted(c) && Good(c, w) && w.counter == 0
    ensures Good(c, w') && w'.counter == 0
  {
    if n == 0 then w else EncodeByte(c, EncodeTimes(c, w, b, n - 1), b)
  }

  /** `_reset_counter_of_the_sequence_to_be_replaced`: the counted bytes are encoded after all. */
  function Flush(c: Config, w: Writer): (w': Writer)
    requires Accepted(c) && Good(c, w)
    ensures Good(c, w') && w'.counter == 0
  {
    EncodeTimes(c, w.(counter := 0), c.runByte, w.counter)
  }

  predicate Counts(c: Config, w: Writer, b: Byte) {
    c.kind != Plain && b == c.runByte && |w.buffer| + 1 <= Limit(c)
  }

  /** `write`. */
  function WriteByte(c: Config, w: Writer, b: Byte): (w': Writer)
    requires Accepted(c) && Good(c, w)
    ensures Good(c, w')
  {
    if Counts(c, w, b) then
      if w.counter + 1 == c.runSize then Emit(w, Run).(counter := 0)
      else w.(counter := w.counter + 1)
    else
      EncodeByte(c, Flush(c, w), b)
  }

  /** The writer after `data`. */
  function WriteAll(c: Config, data: seq<Byte>): (w: Writer)
    requires Accepted(c)
    ensures Good(c, w)
  {
    if data == [] then EMPTY else WriteByte(c, WriteAll(c, data[..|data| - 1]), data[|data| - 1])
  }

  /** The blocks of a finished frame. The separator of the last one is swallowed by the delimiter. */
  function FrameBlocks(c: Config, data: seq<Byte>): (bs: seq<Block>)
    requires Accepted(c)
    ensures AllSound(c, bs) && bs != [] && bs[|bs| - 1].end == Separator
  {
    var w := Flush(c, WriteAll(c, data));
    w.blocks + [Block(w.buffer, Separator)]
  }

  /** A frame without its delimiter. */
  function Body(c: Config, data: seq<Byte>): (body: seq<Byte>)
    requires Accepted(c)
    ensures Free(c.delimiter, body)
  {
    Wire(c, FrameBlocks(c, data))
  }

  lemma WriteOneMore(c: Config, data: seq<Byte>, b: Byte)
    requires Accepted(c)
    ensures WriteAll(c, data + [b]) == WriteByte(c, WriteAll(c, data), b)
    ensures c.kind == Plain ==> WriteAll(c, data).counter == 0
                                && WriteAll(c, data + [b]) == EncodeByte(c, WriteAll(c, data), b)
  {
    assert (data + [b])[..|data|] == data;
  }

  // ---- What the writer has taken ----

  lemma EncodeTakes(c: Config, w: Writer, b: Byte)
    requires Accepted(c) && Good(c, w) && w.counter == 0
    ensures Taken(c, EncodeByte(c, w, b)) == Taken(c, w) + [b]
  {
    hide Expand, Wire, WireBlock, AllSound, Sound, Free;
    AppendBlock(c, w.blocks, Block(w.buffer, Separator));
    AppendBlock(c, w.blocks, Block(w.buffer + [b], Full));
  }

  lemma {:induction false} EncodeTimesTakes(c: Config, w: Writer, b: Byte, n: nat)
    requires Accepted(c) && Good(c, w) && w.counter == 0
    ensures Taken(c, EncodeTimes(c, w, b, n)) == Taken(c, w) + Rep(b, n)
  {
    if n == 0 {
    } else {
      EncodeTimesTakes(c, w, b, n - 1);
      EncodeTakes(c, EncodeTimes(c, w, b, n - 1), b);
      RepSnoc(b, n - 1);
    }
  }

  lemma FlushTakesNothing(c: Config, w: Writer)
    requires Accepted(c) && Good(c, w)
    ensures Taken(c, Flush(c, w)) == Taken(c, w)
  {
    EncodeTimesTakes(c, w.(counter := 0), c.runByte, w.counter);
  }

  lemma WriteTakes(c: Config, w: Writer, b: Byte)
    requires Accepted(c) && Good(c, w)
    ensures Taken(c, WriteByte(c, w, b)) == Taken(c, w) + [b]
  {
    if Counts(c, w, b) {
      RepSnoc(b, w.counter);
      if w.counter + 1 == c.runSize {
        AppendBlock(c, w.blocks, Block(w.buffer, Run));
      }
    } else {
      FlushTakesNothing(c, w);
      EncodeTakes(c, Flush(c, w), b);
    }
  }

  /** The streaming invariant: whatever has been emitted, buffered or only counted, together it stands
      for exactly the data written; the buffer never fills, and a byte is only counted where a run
      could still be replaced. */
  lemma {:induction false} NothingLost(c: Config, data: seq<Byte>)
    requires Accepted(c)
    ensures var w := WriteAll(c, data);
            && Taken(c, w) == data
            && 1 <= |w.buffer| + 1 < c.depth
            && (w.counter > 0 ==> w.counter < c.runSize && |w.buffer| + 1 + c.depth <= 255)
  {
    if data == [] {
    } else {
      hide Taken, WriteByte;
      var init, b := data[..|data| - 1], data[|data| - 1];
      assert data == init + [b];
      NothingLost(c, init);
      WriteTakes(c, WriteAll(c, init), b);
    }
  }

  /** A frame stands for the data and the separator that its delimiter swallows. */
  lemma FrameMeans(c: Config, data: seq<Byte>)
    requires Accepted(c)
    ensures Expand(c, FrameBlocks(c, data)) == data + [c.delimiter]
  {
    hide Expand, Wire, WireBlock, AllSound, Sound, Free, WriteAll;
    NothingLost(c, data);
    FlushTakesNothing(c, WriteAll(c, data));
    var w := Flush(c, WriteAll(c, data));
    AppendBlock(c, w.blocks, Block(w.buffer, Separator));
  }

  // ---- Cost ----

  /** Exact length of a body, and how many full blocks and runs a given length of data can hold. */
  lemma BodyLength(c: Config, data: seq<Byte>)
    requires Accepted(c)
    ensures var f, s := Count(FrameBlocks(c, data), Full), Count(FrameBlocks(c, data), Run);
            && |Body(c, data)| == |data| + 1 + f - s * (c.runSize - 1)
            && f * (c.depth - 1) + s * c.runSize <= |data|
            && (c.kind == Plain ==> s == 0)
  {
    NothingLost(c, data);
    FlushTakesNothing(c, WriteAll(c, data));
    FrameMeans(c, data);
    var w := Flush(c, WriteAll(c, data));
    WireLength(c, w.blocks);
    WireLength(c, FrameBlocks(c, data));
    AppendCount(w.blocks, Block(w.buffer, Separator), Full);
    AppendCount(w.blocks, Block(w.buffer, Separator), Run);
    if c.kind == Plain {
      PlainHasNoRuns(c, FrameBlocks(c, data));
    }
  }

  /** Worst case of every member of the family. */
  lemma WorstCase(c: Config, data: seq<Byte>)
    requires Accepted(c)
    ensures |Body(c, data) + [c.delimiter]| <= |data| + |data| / (c.depth - 1) + 2
  {
    BodyLength(c, data);
    OverheadBound(|data|, Count(FrameBlocks(c, data), Full), Count(FrameBlocks(c, data), Run), c.depth - 1, c.runSize);
  }

  lemma {:induction false} PlainHasNoRuns(c: Config, bs: seq<Block>)
    requires c.kind == Plain && AllSound(c, bs)
    ensures Count(bs, Run) == 0
  {
    if bs == [] {
    } else {
      PlainHasNoRuns(c, bs[..|bs| - 1]);
    }
  }

  /** The data bytes that full blocks and the buffer hold. */
  function Filled(c: Config, w: Writer): nat
    requires c.depth > 0
  {
    Count(w.blocks, Full) * (c.depth - 1) + |w.buffer|
  }

  lemma FilledGrows(c: Config, w: Writer, b: Byte)
    requires Accepted(c) && Good(c, w) && w.counter == 0 && b != c.delimiter
    ensures Filled(c, EncodeByte(c, w, b)) == Filled(c, w) + 1
  {
    hide Count, AllSound, Free;
    AppendCount(w.blocks, Block(w.buffer + [b], Full), Full);
    Distribute(Count(w.blocks, Full), c.depth - 1);
  }

  lemma {:induction false} SteadyFill(c: Config, data: seq<Byte>)
    requires Accepted(c) && c.kind == Plain && Free(c.delimiter, data)
    ensures WriteAll(c, data).counter == 0 && Filled(c, WriteAll(c, data)) == |data|
  {
    if data == [] {
    } else {
      hide Filled, EncodeByte, WriteByte;
      var init, b := data[..|data| - 1], data[|data| - 1];
      SteadyFill(c, init);
      assert data == init + [b];
      WriteOneMore(c, init, b);
      FilledGrows(c, WriteAll(c, init), b);
    }
  }

  /** The worst case is met by plain COBS on data without the delimiter. */
  lemma WorstCaseMet(c: Config, data: seq<Byte>)
    requires Accepted(c) && c.kind == Plain && Free(c.delimiter, data)
    ensures |Body(c, data) + [c.delimiter]| == |data| + |data| / (c.depth - 1) + 2
  {
    BodyLength(c, data);
    SteadyFill(c, data);
    var w := WriteAll(c, data);
    AppendCount(w.blocks, Block(w.buffer, Separator), Full);
    QuotientUnique(|data|, c.depth - 1, Count(w.blocks, Full), |w.buffer|);
  }

  /** How far plain COBS has got with a body. */
  lemma PlainReach(c: Config, data: seq<Byte>)
    requires Accepted(c) && c.kind == Plain
    ensures var w := WriteAll(c, data); |Wire(c, w.blocks)| + |w.buffer| <= |data| + |data| / (c.depth - 1)
  {
    hide WriteAll, Wire, Expand, Count;
    var w := WriteAll(c, data);
    NothingLost(c, data);
    WireLength(c, w.blocks);
    PlainHasNoRuns(c, w.blocks);
    ReachBound(|data| - |w.buffer|, Count(w.blocks, Full), Count(w.blocks, Run), c.depth - 1, c.runSize,
               |Expand(c, w.blocks)|);
    QuotientBound(Count(w.blocks, Full), c.depth - 1, |data|);
  }

  // ---- Run replacement never costs space ----

  function PlainOf(c: Config): (p: Config)
    requires Accepted(c)
    ensures Accepted(p)
  {
    Config(Plain, c.delimiter, c.depth, 0, 0)
  }

  /** `w` is not ahead of `v`: fewer full blocks, or as many and no fuller a buffer. */
  predicate NotAhead(w: Writer, v: Writer) {
    var f, f' := Count(w.blocks, Full), Count(v.blocks, Full);
    f < f' || (f == f' && |w.buffer| <= |v.buffer|)
  }

  lemma EncodeKeepsOrder(c: Config, p: Config, w: Writer, v: Writer, b: Byte)
    requires Accepted(c) && Accepted(p) && c.delimiter == p.delimiter && c.depth == p.depth
    requires Good(c, w) && Good(p, v) && w.counter == v.counter == 0
    requires NotAhead(w, v)
    ensures NotAhead(EncodeByte(c, w, b), EncodeByte(p, v, b))
    ensures Count(w.blocks, Full) <= Count(EncodeByte(c, w, b).blocks, Full)
    ensures Count(v.blocks, Full) <= Count(EncodeByte(p, v, b).blocks, Full)
  {
    AppendCount(w.blocks, Block(w.buffer, Separator), Full);
    AppendCount(v.blocks, Block(v.buffer, Separator), Full);
    AppendCount(w.blocks, Block(w.buffer + [b], Full), Full);
    AppendCount(v.blocks, Block(v.buffer + [b], Full), Full);
  }

  lemma {:induction false} EncodeTimesCounts(c: Config, w: Writer, b: Byte, n: nat)
    requires Accepted(c) && Good(c, w) && w.counter == 0
    ensures Count(w.blocks, Full) <= Count(EncodeTimes(c, w, b, n).blocks, Full)
    ensures Count(w.blocks, Run) == Count(EncodeTimes(c, w, b, n).blocks, Run)
  {
    if n == 0 {
    } else {
      EncodeTimesCounts(c, w, b, n - 1);
      var v := EncodeTimes(c, w, b, n - 1);
      EncodeKeepsOrder(c, c, v, v, b);
      AppendCount(v.blocks, Block(v.buffer, Separator), Run);
      AppendCount(v.blocks, Block(v.buffer + [b], Full), Run);
    }
  }

  lemma WriteKeepsOrder(c: Config, p: Config, w: Writer, v: Writer, b: Byte)
    requires Accepted(c) && p == PlainOf(c) && Good(c, w) && Good(p, v) && v.counter == 0
    requires NotAhead(Flush(c, w), v)
    ensures NotAhead(Flush(c, WriteByte(c, w, b)), WriteByte(p, v, b))
  {
    EncodeKeepsOrder(c, p, Flush(c, w), v, b);
    assert WriteByte(p, v, b) == EncodeByte(p, v, b);
    if Counts(c, w, b) {
      if w.counter + 1 == c.runSize {
        EncodeTimesCounts(c, w.(counter := 0), c.runByte, w.counter);
        AppendCount(w.blocks, Block(w.buffer, Run), Full);
      } else {
        assert Flush(c, WriteByte(c, w, b)) == EncodeByte(c, Flush(c, w), b);
      }
    }
  }

  /** The replacing writer, with its pending bytes flushed, is never ahead of the plain one. */
  lemma {:induction false} NeverAhead(c: Config, data: seq<Byte>)
    requires Accepted(c)
    ensures NotAhead(Flush(c, WriteAll(c, data)), WriteAll(PlainOf(c), data))
  {
    if data == [] {
    } else {
      var init, b := data[..|data| - 1], data[|data| - 1];
      NeverAhead(c, init);
      WriteKeepsOrder(c, PlainOf(c), WriteAll(c, init), WriteAll(PlainOf(c), init), b);
    }
  }

  /** A frame with replaced runs is shorter than the plain frame of the same data by at least what
      the replacements save. */
  lemma ReplacementNeverCosts(c: Config, data: seq<Byte>)
    requires Accepted(c)
    ensures |Body(c, data)| + Count(FrameBlocks(c, data), Run) * (c.runSize - 1) <= |Body(PlainOf(c), data)|
  {
    NeverAhead(c, data);
    BodyLength(c, data);
    BodyLength(PlainOf(c), data);
    var w, v := Flush(c, WriteAll(c, data)), WriteAll(PlainOf(c), data);
    AppendCount(w.blocks, Block(w.buffer, Separator), Full);
    AppendCount(v.blocks, Block(v.buffer, Separator), Full);
  }

  // ---- How many runs are replaced ----

  /** Lengths of the stretches of `b` in `s`, in order; a byte other than `b` ends one and begins the next. */
  function Runs(b: Byte, s: seq<Byte>): (rs: seq<nat>)
    ensures rs != []
  {
    if s == [] then [0]
    else
      var rs := Runs(b, s[..|s| - 1]);
      if s[|s| - 1] == b then rs[..|rs| - 1] + [rs[|rs| - 1] + 1] else rs + [0]
  }

  function WholeRuns(rs: seq<nat>, k: nat): nat
    requires k > 0
  {
    if rs == [] then 0 else WholeRuns(rs[..|rs| - 1], k) + FloorQuotient(rs[|rs| - 1], k)
  }

  lemma EncodeReplacesNothing(c: Config, w: Writer, b: Byte)
    requires Accepted(c) && Good(c, w)
    ensures Count(EncodeByte(c, Flush(c, w), b).blocks, Run) == Count(w.blocks, Run)
  {
    EncodeTimesCounts(c, w.(counter := 0), c.runByte, w.counter);
    var v := Flush(c, w);
    AppendCount(v.blocks, Block(v.buffer, Separator), Run);
    AppendCount(v.blocks, Block(v.buffer + [b], Full), Run);
  }

  lemma LastStretch(rs: seq<nat>, r: nat, k: nat)
    requires k > 0
    ensures WholeRuns(rs + [r], k) == WholeRuns(rs, k) + FloorQuotient(r, k)
  {
    hide FloorQuotient;
    assert (rs + [r])[..|rs|] == rs;
  }

  lemma StretchGrows(rs: seq<nat>, r: nat, k: nat)
    requires k > 1
    ensures var left := FloorRemainder(r, k);
            && WholeRuns(rs + [r + 1], k) == WholeRuns(rs + [r], k) + (if left + 1 == k then 1 else 0)
            && FloorRemainder(r + 1, k) == if left + 1 == k then 0 else left + 1
  {
    hide FloorQuotient, FloorRemainder, WholeRuns;
    LastStretch(rs, r, k);
    LastStretch(rs, r + 1, k);
    QuotientStep(r, k);
  }

  /** The number of replaced runs and the counter are what the stretches `rs` call for. */
  predicate InStep(c: Config, w: Writer, rs: seq<nat>)
    requires c.runSize > 0
  {
    && rs != []
    && Count(w.blocks, Run) == WholeRuns(rs, c.runSize)
    && w.counter == FloorRemainder(rs[|rs| - 1], c.runSize)
  }

  lemma RunsOneMore(c: Config, w: Writer, rs: seq<nat>, b: Byte)
    requires Accepted(c) && c.kind == Gse && Good(c, w) && InStep(c, w, rs)
    ensures var n := |rs| - 1;
            InStep(c, WriteByte(c, w, b), if b == c.runByte then rs[..n] + [rs[n] + 1] else rs + [0])
  {
    hide FloorQuotient, FloorRemainder, WholeRuns, Count, EncodeByte, Flush, AllSound, Free;
    QuotientOfZero(c.runSize);
    if b == c.runByte {
      var n := |rs| - 1;
      assert rs == rs[..n] + [rs[n]];
      StretchGrows(rs[..n], rs[n], c.runSize);
      AppendCount(w.blocks, Block(w.buffer, Run), Run);
    } else {
      EncodeReplacesNothing(c, w, b);
      LastStretch(rs, 0, c.runSize);
    }
  }

  lemma {:induction false} RunsCounted(c: Config, data: seq<Byte>)
    requires Accepted(c) && c.kind == Gse
    ensures InStep(c, WriteAll(c, data), Runs(c.runByte, data))
  {
    hide FloorQuotient, FloorRemainder;
    if data == [] {
      QuotientOfZero(c.runSize);
      LastStretch([], 0, c.runSize);
      assert [] + [0] == [0];
    } else {
      hide InStep, WriteByte;
      var init := data[..|data| - 1];
      RunsCounted(c, init);
      RunsOneMore(c, WriteAll(c, init), Runs(c.runByte, init), data[|data| - 1]);
    }
  }

  /** COBS/GSE replaces as many runs as fit end to end in each stretch of the run byte. */
  lemma GseReplaces(c: Config, data: seq<Byte>)
    requires Accepted(c) && c.kind == Gse
    ensures Count(FrameBlocks(c, data), Run) == WholeRuns(Runs(c.runByte, data), c.runSize)
  {
    RunsCounted(c, data);
    var w := WriteAll(c, data);
    EncodeTimesCounts(c, w.(counter := 0), c.runByte, w.counter);
    AppendCount(Flush(c, w).blocks, Block(Flush(c, w).buffer, Separator), Run);
  }
}
