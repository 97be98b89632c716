/** Writing and reading undo each other. */
module RoundTrip {
  import ByteStuffing
  import opened Bytes
  import opened CobsBlocks
  import opened CobsConfig
  import CobsEncoder
  import CobsReader
  import opened Reading
  import opened Strategies

  // ---- Reading what was written ----

  /** The reader after a list of blocks. */
  function AfterBlocks(c: Config, bs: seq<Block>): ReadState {
    if bs == [] then START
    else ReadState(0, |bs[|bs| - 1].data| + 1 == c.depth, bs[|bs| - 1].end.Run?, false)
  }

  /** What the reader has delivered by then: all but what the last block still owes. */
  function Shown(c: Config, bs: seq<Block>): seq<Byte> {
    if bs == [] then [] else Expand(c, bs[..|bs| - 1]) + bs[|bs| - 1].data
  }

  lemma ShowBlock(c: Config, bs: seq<Block>, b: Block)
    requires AllSound(c, bs)
    ensures Shown(c, bs + [b]) == Shown(c, bs) + Tail(c, CobsReader.Owed(AfterBlocks(c, bs))) + b.data
  {
    assert (bs + [b])[..|bs|] == bs;
  }

  lemma SoundOffset(c: Config, b: Block)
    requires CobsConfig.Accepted(c) && Sound(c, b)
    ensures var code := Unswap(c, Swap(c, Offset(c, b)));
            && CobsReader.Announced(c, code) == |b.data| + 1 <= c.depth
            && CobsReader.MarksRun(c, code) == b.end.Run?
  {
    SwapRoundTrip(c, Offset(c, b));
  }

  lemma BlockRead(c: Config, bs: seq<Block>, b: Block)
    requires CobsConfig.Accepted(c) && AllSound(c, bs) && Sound(c, b) && AllSound(c, bs + [b])
    requires Read(Cobs(c), Wire(c, bs)) == Progress(AfterBlocks(c, bs), Shown(c, bs), false)
    ensures Read(Cobs(c), Wire(c, bs + [b])) == Progress(AfterBlocks(c, bs + [b]), Shown(c, bs + [b]), false)
  {
    hide Feed, Expand, Wire, Swap, Unswap, Shown;
    var p := Progress(AfterBlocks(c, bs), Shown(c, bs), false);
    AppendBlock(c, bs, b);
    SoundOffset(c, b);
    FeedConcat(Cobs(c), BEGIN, Wire(c, bs), WireBlock(c, b));
    assert WireBlock(c, b)[1..] == b.data;
    FeedBlock(c, p, WireBlock(c, b));
    ShowBlock(c, bs, b);
  }

  /** The blocks of a frame are read back as the blocks they were. */
  lemma {:induction false} BlocksRead(c: Config, bs: seq<Block>)
    requires CobsConfig.Accepted(c) && AllSound(c, bs)
    ensures Read(Cobs(c), Wire(c, bs)) == Progress(AfterBlocks(c, bs), Shown(c, bs), false)
  {
    if bs == [] {
      FeedNothing(Cobs(c), BEGIN);
    } else {
      assert bs == bs[..|bs| - 1] + [bs[|bs| - 1]];
      BlocksRead(c, bs[..|bs| - 1]);
      BlockRead(c, bs[..|bs| - 1], bs[|bs| - 1]);
    }
  }

  /** The streaming invariant of the line: the data written so far are what the bytes emitted read back as,
      what their last block still owes, the buffered bytes, and the run bytes that are only counted. */
  lemma NothingLostOnTheLine(c: Config, data: seq<Byte>)
    requires CobsConfig.Accepted(c)
    ensures var w := CobsEncoder.WriteAll(c, data);
            var r := Read(Cobs(c), Wire(c, w.blocks));
            !r.bad && data == r.out + Tail(c, CobsReader.Owed(r.state)) + w.buffer + Rep(c.runByte, w.counter)
  {
    CobsEncoder.NothingLost(c, data);
    BlocksRead(c, CobsEncoder.WriteAll(c, data).blocks);
  }

  lemma StuffedOneMore(c: ByteStuffing.Config, data: seq<Byte>, b: Byte)
    requires ByteStuffing.Accepted(c)
    requires Read(Stuffing(c), ByteStuffing.Stuff(c, data)) == Progress(START, data, false)
    ensures Read(Stuffing(c), ByteStuffing.Stuff(c, data + [b])) == Progress(START, data + [b], false)
  {
    hide Feed, ByteStuffing.Stuff, ByteStuffing.StuffByte, ByteStuffing.CheckConfig;
    ByteStuffing.StuffOneMore(c, data, b);
    FeedConcat(Stuffing(c), BEGIN, ByteStuffing.Stuff(c, data), ByteStuffing.StuffByte(c, b));
    StuffedByteRead(c, Progress(START, data, false), b);
  }

  lemma {:induction false} StuffedRead(c: ByteStuffing.Config, data: seq<Byte>)
    requires ByteStuffing.Accepted(c)
    ensures Read(Stuffing(c), ByteStuffing.Stuff(c, data)) == Progress(START, data, false)
  {
    if data == [] {
      FeedNothing(Stuffing(c), BEGIN);
    } else {
      var n := |data| - 1;
      assert data[..n] + [data[n]] == data;
      StuffedRead(c, data[..n]);
      StuffedOneMore(c, data[..n], data[n]);
    }
  }

  lemma StuffedByteRead(c: ByteStuffing.Config, p: Progress, b: Byte)
    requires ByteStuffing.Accepted(c) && p.state == START && !p.bad
    ensures Feed(Stuffing(c), p, ByteStuffing.StuffByte(c, b)) == Progress(START, p.out + [b], false)
  {
    XorInvolution(b, c.mask);
    if ByteStuffing.Special(c, b) {
      FeedCons(Stuffing(c), p, [c.escape, Xor(b, c.mask)]);
      FeedOne(Stuffing(c), Advance(Stuffing(c), p, c.escape), Xor(b, c.mask));
      assert [c.escape, Xor(b, c.mask)][1..] == [Xor(b, c.mask)];
      assert p.out + [] == p.out;
    } else {
      FeedOne(Stuffing(c), p, b);
    }
  }

  /** For every accepted configuration of every strategy, reading back what was written gives the data
      and leaves the reader ready for the delimiter. */
  lemma ReadsBack(s: Strategy, data: seq<Byte>)
    requires Strategies.Accepted(s)
    ensures var p := Read(s, Body(s, data)); p.out == data && !p.bad && AtRest(p.state)
  {
    match s {
      case Cobs(c) =>
        var bs := CobsEncoder.FrameBlocks(c, data);
        BlocksRead(c, bs);
        CobsEncoder.FrameMeans(c, data);
        var n := |Shown(c, bs)|;
        assert Expand(c, bs) == Shown(c, bs) + [c.delimiter];
        assert Expand(c, bs)[..n] == Shown(c, bs);
        assert (data + [c.delimiter])[..n] == data;
      case Stuffing(c) => StuffedRead(c, data);
    }
  }

  /** Decoding as a whole undoes encoding. */
  lemma DecodeUndoesEncode(s: Strategy, data: seq<Byte>)
    requires Strategies.Accepted(s)
    ensures Decode(s, Body(s, data)) == Decoded(data, Complete)
  {
    ReadsBack(s, data);
    ReadIsDecode(s, Body(s, data));
    assert BEGIN.out + Decode(s, Body(s, data)).out == Decode(s, Body(s, data)).out;
  }

  /** Part of a frame delivers an error-free prefix of the data, and more of it delivers no less. */
  lemma PrefixSafety(s: Strategy, data: seq<Byte>, n: nat, m: nat)
    requires Strategies.Accepted(s) && n <= m <= |Body(s, data)|
    ensures var p, q := Read(s, Body(s, data)[..n]), Read(s, Body(s, data)[..m]);
            !p.bad && !q.bad && p.out <= q.out <= data
  {
    var body := Body(s, data);
    ReadsBack(s, data);
    FeedSplit(s, BEGIN, body, m);
    FeedGrows(s, Read(s, body[..m]), body[m..]);
    FeedSplit(s, BEGIN, body[..m], n);
    assert body[..m][..n] == body[..n];
    FeedGrows(s, Read(s, body[..n]), body[..m][n..]);
  }

  /** The countdown of a reader that nobody else resets never wraps: between delimiters every code byte
      announces at least one, so the decrement after it, and after every payload byte, starts above zero. */
  lemma CountdownNeverWraps(c: Config, st: ReadState, b: Byte)
    requires CobsConfig.Accepted(c) && b != c.delimiter && CobsReader.Step(c, st, b).Accept?
    ensures CobsReader.Step(c, st, b).state.offset
         == (if st.offset != 0 then st.offset else CobsReader.Announced(c, Unswap(c, b))) - 1
  {
    SwapRoundTrip(c, b);
  }

  // ---- Writing what was read ----

  /** How a plain COBS body relates to what writing its output again has emitted and buffered. */
  predicate Rewritten(c: Config, bytes: seq<Byte>, st: ReadState, w: CobsEncoder.Writer)
    requires CobsConfig.Accepted(c)
  {
    && CobsEncoder.Good(c, w) && w.counter == 0 && !st.run && !st.escaped
    && if st.offset == 0 && st.full then
         bytes == Wire(c, w.blocks) && w.buffer == []
       else
         var offset := |w.buffer| + 1 + st.offset;
         && offset <= c.depth && st.full == (offset == c.depth)
         && bytes == Wire(c, w.blocks) + [Swap(c, offset)] + w.buffer
  }

  lemma RewritePayload(c: Config, bytes: seq<Byte>, st: ReadState, w: CobsEncoder.Writer, b: Byte)
    requires CobsConfig.Accepted(c) && b != c.delimiter && st.offset != 0 && Rewritten(c, bytes, st, w)
    ensures Rewritten(c, bytes + [b], st.(offset := st.offset - 1), CobsEncoder.EncodeByte(c, w, b))
  {
    var offset := |w.buffer| + 1 + st.offset;
    assert bytes + [b] == Wire(c, w.blocks) + [Swap(c, offset)] + (w.buffer + [b]);
    if |w.buffer| + 2 == c.depth {
      var full := Block(w.buffer + [b], Full);
      AppendBlock(c, w.blocks, full);
      assert Wire(c, w.blocks) + [Swap(c, offset)] + full.data == Wire(c, w.blocks) + WireBlock(c, full);
    }
  }

  /** A code byte after which nothing is owed. */
  lemma RewriteCode(c: Config, bytes: seq<Byte>, w: CobsEncoder.Writer, b: Byte)
    requires CobsConfig.Accepted(c) && b != c.delimiter && Rewritten(c, bytes, START, w)
    requires 0 < Unswap(c, b) <= c.depth
    ensures var next := Unswap(c, b);
            Rewritten(c, bytes + [b], ReadState(next - 1, next == c.depth, false, false), w)
  {
    SwapRoundTrip(c, b);
    assert bytes + [b] == Wire(c, w.blocks) + [b] + w.buffer;
  }

  /** A short block is emitted once its separator is written. */
  lemma RewriteSeparator(c: Config, bytes: seq<Byte>, st: ReadState, w: CobsEncoder.Writer)
    requires CobsConfig.Accepted(c) && st.offset == 0 && !st.full && Rewritten(c, bytes, st, w)
    ensures Rewritten(c, bytes, START, CobsEncoder.EncodeByte(c, w, c.delimiter))
  {
    var short := Block(w.buffer, Separator);
    AppendBlock(c, w.blocks, short);
    assert bytes == Wire(c, w.blocks) + WireBlock(c, short);
  }

  predicate RewrittenBy(c: Config, bytes: seq<Byte>, p: Progress)
    requires CobsConfig.Accepted(c)
  {
    Rewritten(c, bytes, p.state, CobsEncoder.WriteAll(c, p.out))
  }

  lemma RewritePayloadStep(c: Config, bytes: seq<Byte>, p: Progress, b: Byte)
    requires CobsConfig.Accepted(c) && c.kind == Plain && b != c.delimiter
    requires p.state.offset != 0 && RewrittenBy(c, bytes, p)
    ensures RewrittenBy(c, bytes + [b], Progress(p.state.(offset := p.state.offset - 1), p.out + [b], false))
  {
    CobsEncoder.WriteOneMore(c, p.out, b);
    RewritePayload(c, bytes, p.state, CobsEncoder.WriteAll(c, p.out), b);
  }

  /** Before a code byte: with what the last block owed written as well, nothing is left in the buffer. */
  lemma RewriteOwed(c: Config, bytes: seq<Byte>, p: Progress)
    requires CobsConfig.Accepted(c) && c.kind == Plain
    requires p.state.offset == 0 && RewrittenBy(c, bytes, p)
    ensures RewrittenBy(c, bytes, Progress(START, p.out + Tail(c, CobsReader.Owed(p.state)), false))
  {
    if p.state.full {
      assert p.out + [] == p.out;
    } else {
      CobsEncoder.WriteOneMore(c, p.out, c.delimiter);
      RewriteSeparator(c, bytes, p.state, CobsEncoder.WriteAll(c, p.out));
    }
  }

  lemma RewriteCodeStep(c: Config, bytes: seq<Byte>, p: Progress, b: Byte)
    requires CobsConfig.Accepted(c) && c.kind == Plain && b != c.delimiter
    requires p.state.offset == 0 && RewrittenBy(c, bytes, p) && 0 < Unswap(c, b) <= c.depth
    ensures RewrittenBy(c, bytes + [b], BlockOpened(c, p, b))
  {
    hide CobsEncoder.WriteAll, Wire, Rewritten;
    RewriteOwed(c, bytes, p);
    RewriteCode(c, bytes, CobsEncoder.WriteAll(c, BlockOpened(c, p, b).out), b);
  }

  lemma RewriteStep(c: Config, bytes: seq<Byte>, p: Progress, b: Byte)
    requires CobsConfig.Accepted(c) && c.kind == Plain && b != c.delimiter
    requires !p.bad && RewrittenBy(c, bytes, p)
    ensures var q := Advance(Cobs(c), p, b); !q.bad ==> RewrittenBy(c, bytes + [b], q)
  {
    SwapRoundTrip(c, b);
    if p.state.offset != 0 {
      RewritePayloadStep(c, bytes, p, b);
    } else if Unswap(c, b) <= c.depth {
      OpenBlock(c, p, b);
      RewriteCodeStep(c, bytes, p, b);
    }
  }

  lemma {:induction false} Rewrites(c: Config, body: seq<Byte>)
    requires CobsConfig.Accepted(c) && c.kind == Plain && Free(c.delimiter, body)
    ensures var p := Read(Cobs(c), body);
            !p.bad ==> RewrittenBy(c, body, p)
  {
    if body == [] {
      assert CobsEncoder.WriteAll(c, []) == CobsEncoder.EMPTY;
    } else {
      hide Feed, Step, RewrittenBy;
      var n := |body| - 1;
      var p := Read(Cobs(c), body[..n]);
      Rewrites(c, body[..n]);
      assert body == body[..n] + [body[n]];
      FeedSnoc(Cobs(c), BEGIN, body[..n], body[n]);
      if !p.bad {
        RewriteStep(c, body[..n], p, body[n]);
      }
    }
  }

  lemma PlainBody(c: Config, out: seq<Byte>)
    requires CobsConfig.Accepted(c) && c.kind == Plain
    ensures var w := CobsEncoder.WriteAll(c, out);
            Body(Cobs(c), out) == Wire(c, w.blocks) + ([Swap(c, |w.buffer| + 1)] + w.buffer)
  {
    CobsEncoder.NothingLost(c, out);
    var w := CobsEncoder.WriteAll(c, out);
    assert CobsEncoder.Flush(c, w) == w;
    AppendBlock(c, w.blocks, Block(w.buffer, Separator));
  }

  lemma RewrittenBody(c: Config, body: seq<Byte>, p: Progress)
    requires CobsConfig.Accepted(c) && c.kind == Plain && RewrittenBy(c, body, p) && p.state.offset == 0
    ensures Body(Cobs(c), p.out) == if p.state.full then body + [Swap(c, 1)] else body
  {
    PlainBody(c, p.out);
  }

  /** Plain COBS: writing again what an accepted body delivered gives the body back, with one more block,
      the code for an empty one, exactly when the body is empty or ends with a full block. */
  lemma EncodeUndoesDecode(c: Config, body: seq<Byte>)
    requires CobsConfig.Accepted(c) && c.kind == Plain && Free(c.delimiter, body)
    requires Decode(Cobs(c), body).ending == Complete
    ensures Body(Cobs(c), Decode(Cobs(c), body).out)
         == if CobsReader.LastEnd(c, body, Full) == Full then body + [Swap(c, 1)] else body
  {
    EndsAgree(c, BEGIN, body);
    ReadIsDecode(Cobs(c), body);
    Rewrites(c, body);
    assert BEGIN.out + Decode(Cobs(c), body).out == Decode(Cobs(c), body).out;
    RewrittenBody(c, body, Read(Cobs(c), body));
  }

  /** Where the body does grow: the empty body, and a single full block. */
  lemma WhereRewritingGrows(c: Config, payload: seq<Byte>)
    requires CobsConfig.Accepted(c) && c.kind == Plain && Free(c.delimiter, payload) && |payload| == c.depth - 1
    ensures Decode(Cobs(c), []) == Decoded([], Complete) && Body(Cobs(c), []) == [Swap(c, 1)]
    ensures var body := [Swap(c, c.depth)] + payload;
            && CobsReader.LastEnd(c, body, Full) == Full
            && Decode(Cobs(c), body) == Decoded(payload, Complete)
            && Body(Cobs(c), payload) == body + [Swap(c, 1)]
  {
    var code := Swap(c, c.depth);
    var body := [code] + payload;
    SwapRoundTrip(c, c.depth);
    assert body[1..c.depth] == payload && body[c.depth..] == [];
    assert Tail(c, Full) + payload + [] == payload;
    EncodeUndoesDecode(c, []);
    EncodeUndoesDecode(c, body);
  }

  /** The byte stuffing body read so far is what its output would be written as, plus a pending escape. */
  predicate Restuffed(c: ByteStuffing.Config, bytes: seq<Byte>, p: Progress) {
    && p.state == START.(escaped := p.state.escaped)
    && bytes == ByteStuffing.Stuff(c, p.out) + if p.state.escaped then [c.escape] else []
  }

  lemma RestuffStep(c: ByteStuffing.Config, bytes: seq<Byte>, p: Progress, b: Byte)
    requires ByteStuffing.Accepted(c) && b != c.delimiter && !p.bad && Restuffed(c, bytes, p)
    ensures var q := Advance(Stuffing(c), p, b); !q.bad ==> Restuffed(c, bytes + [b], q)
  {
    hide Xor, ByteStuffing.Stuff;
    XorInvolution(b, c.mask);
    assert p.out + [] == p.out;
    ByteStuffing.StuffOneMore(c, p.out, if p.state.escaped then Xor(b, c.mask) else b);
    if p.state.escaped {
      assert bytes + [b] == ByteStuffing.Stuff(c, p.out) + [c.escape, b];
    }
  }

  lemma {:induction false} Restuffs(c: ByteStuffing.Config, body: seq<Byte>)
    requires ByteStuffing.Accepted(c) && Free(c.delimiter, body)
    ensures var p := Read(Stuffing(c), body); !p.bad ==> Restuffed(c, body, p)
  {
    if body == [] {
      FeedNothing(Stuffing(c), BEGIN);
    } else {
      hide Feed, Step, Restuffed;
      var n := |body| - 1;
      var p := Read(Stuffing(c), body[..n]);
      Restuffs(c, body[..n]);
      assert body == body[..n] + [body[n]];
      FeedSnoc(Stuffing(c), BEGIN, body[..n], body[n]);
      if !p.bad {
        RestuffStep(c, body[..n], p, body[n]);
      }
    }
  }

  /** Byte stuffing: writing again what an accepted body delivered gives the body back. */
  lemma StuffUndoesUnstuff(c: ByteStuffing.Config, body: seq<Byte>)
    requires ByteStuffing.Accepted(c) && Free(c.delimiter, body)
    requires Decode(Stuffing(c), body).ending == Complete
    ensures Body(Stuffing(c), Decode(Stuffing(c), body).out) == body
  {
    ReadIsDecode(Stuffing(c), body);
    Restuffs(c, body);
    var out := Decode(Stuffing(c), body).out;
    assert BEGIN.out + out == out;
  }
}
