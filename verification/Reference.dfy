/** The whole-buffer COBS coder of tests/utils/cobs.cpp, which patches each code byte in after the fact,
    against the streaming strategies with depth 255 and delimiter zero. */
module Reference {
  import opened Bytes
  import opened CobsBlocks
  import opened CobsConfig
  import CobsEncoder
  import CobsReader
  import opened Reading
  import RoundTrip
  import opened Strategies

  const REFERENCE: Config := DefaultConfig(Plain)

  /** What the encoding loop has done with `data`: blocks in place, a gap for the next code byte, and the
      buffered bytes after it. */
  ghost predicate Patched(data: seq<Byte>, dst: seq<Byte>, codeAt: nat, end: nat, code: nat) {
    var w := CobsEncoder.WriteAll(REFERENCE, data);
    && codeAt < end <= |dst| && code == |w.buffer| + 1 == end - codeAt
    && dst[..codeAt] == Wire(REFERENCE, w.blocks) && dst[codeAt + 1..end] == w.buffer
    && w.counter == 0
  }

  /** The reference encoder's room suffices. */
  lemma Room(data: seq<Byte>, dst: seq<Byte>, codeAt: nat, end: nat, code: nat, total: nat)
    requires Patched(data, dst, codeAt, end, code) && |data| <= total
    ensures end <= total + total / 254 + 1
  {
    CobsEncoder.PlainReach(REFERENCE, data);
    var w := CobsEncoder.WriteAll(REFERENCE, data);
    assert |dst[..codeAt]| == codeAt && |dst[codeAt + 1..end]| == end - codeAt - 1;
  }

  /** The bytes of a block that fills its gap. */
  lemma FillGap(dst: seq<Byte>, codeAt: nat, end: nat, bs: seq<Block>, b: Block)
    requires AllSound(REFERENCE, bs) && Sound(REFERENCE, b) && !b.end.Run?
    requires codeAt < end <= |dst| && end - codeAt == |b.data| + 1
    requires dst[..codeAt] == Wire(REFERENCE, bs) && dst[codeAt + 1..end] == b.data
    ensures AllSound(REFERENCE, bs + [b])
    ensures dst[codeAt := |b.data| + 1][..end] == Wire(REFERENCE, bs + [b])
  {
    AppendBlock(REFERENCE, bs, b);
    var patched := dst[codeAt := |b.data| + 1];
    assert patched[..end] == dst[..codeAt] + [patched[codeAt]] + dst[codeAt + 1..end];
  }

  lemma PatchZero(data: seq<Byte>, dst: seq<Byte>, codeAt: nat, end: nat, code: Byte)
    requires Patched(data, dst, codeAt, end, code) && end < |dst|
    ensures Patched(data + [0], dst[codeAt := code], end, end + 1, 1)
  {
    var w := CobsEncoder.WriteAll(REFERENCE, data);
    CobsEncoder.WriteOneMore(REFERENCE, data, 0);
    FillGap(dst, codeAt, end, w.blocks, Block(w.buffer, Separator));
  }

  lemma PatchGrow(data: seq<Byte>, dst: seq<Byte>, codeAt: nat, end: nat, code: Byte, b: Byte)
    requires Patched(data, dst, codeAt, end, code) && end < |dst| && b != 0 && code + 1 < 255
    ensures Patched(data + [b], dst[end := b], codeAt, end + 1, code + 1)
  {
    CobsEncoder.WriteOneMore(REFERENCE, data, b);
    var grown := dst[end := b];
    assert grown[..codeAt] == dst[..codeAt];
    assert grown[codeAt + 1..end + 1] == dst[codeAt + 1..end] + [b];
  }

  lemma PatchFull(data: seq<Byte>, dst: seq<Byte>, codeAt: nat, end: nat, code: Byte, b: Byte)
    requires Patched(data, dst, codeAt, end, code) && end + 1 < |dst| && b != 0 && code + 1 == 255
    ensures Patched(data + [b], dst[end := b][codeAt := 255], end + 1, end + 2, 1)
  {
    var w, grown := CobsEncoder.WriteAll(REFERENCE, data), dst[end := b];
    CobsEncoder.WriteOneMore(REFERENCE, data, b);
    assert grown[..codeAt] == dst[..codeAt];
    assert grown[codeAt + 1..end + 1] == dst[codeAt + 1..end] + [b];
    FillGap(grown, codeAt, end + 1, w.blocks, Block(w.buffer + [b], Full));
  }

  lemma PatchLast(data: seq<Byte>, dst: seq<Byte>, codeAt: nat, end: nat, code: Byte)
    requires Patched(data, dst, codeAt, end, code)
    ensures dst[codeAt := code][..end] + [0] == Frame(Cobs(REFERENCE), data)
  {
    var w := CobsEncoder.WriteAll(REFERENCE, data);
    FillGap(dst, codeAt, end, w.blocks, Block(w.buffer, Separator));
    assert CobsEncoder.Flush(REFERENCE, w) == w;
  }

  /** Room for one more byte of the source, whatever it is. */
  lemma RoomForMore(data: seq<Byte>, dst: seq<Byte>, codeAt: nat, end: nat, code: Byte, b: Byte, total: nat)
    requires Patched(data, dst, codeAt, end, code) && |data| < total && |dst| >= total + total / 254 + 1
    ensures end < |dst| && (b != 0 && code + 1 == 255 ==> end + 1 < |dst|)
  {
    hide CobsEncoder.WriteAll, Wire;
    var long := dst + [0, 0];
    assert Patched(data, long, codeAt, end, code) by {
      assert long[..codeAt] == dst[..codeAt] && long[codeAt + 1..end] == dst[codeAt + 1..end];
    }
    if b == 0 {
      PatchZero(data, long, codeAt, end, code);
      Room(data + [0], long[codeAt := code], end, end + 1, 1, total);
    } else if code + 1 < 255 {
      PatchGrow(data, long, codeAt, end, code, b);
      Room(data + [b], long[end := b], codeAt, end + 1, code + 1, total);
    } else {
      PatchFull(data, long, codeAt, end, code, b);
      Room(data + [b], long[end := b][codeAt := 255], end + 1, end + 2, 1, total);
    }
  }

  /** `cobs_encode`. */
  method CobsEncode(src: array<Byte>, dst: array<Byte>) returns (end: nat)
    requires src != dst && dst.Length >= src.Length + src.Length / 254 + 1
    modifies dst
    ensures end <= dst.Length
    ensures dst[..end] + [0] == Frame(Cobs(REFERENCE), src[..])
  {
    hide Frame, CobsEncoder.WriteAll, Wire;
    var ptr, codeAt, code := 0, 0, 1;
    end := 1;
    NothingPatched(dst[..]);
    assert src[..0] == [];
    while ptr < src.Length
      invariant 0 <= ptr <= src.Length && codeAt < dst.Length
      invariant 1 <= code < 255 && Patched(src[..ptr], dst[..], codeAt, end, code)
      invariant src[..] == old(src[..])
    {
      ghost var before := dst[..];
      RoomForMore(src[..ptr], before, codeAt, end, code, src[ptr], src.Length);
      assert src[..ptr + 1] == src[..ptr] + [src[ptr]];
      if src[ptr] == 0 {
        PatchZero(src[..ptr], before, codeAt, end, code);
        dst[codeAt] := code;
        codeAt, end, code := end, end + 1, 1;
      } else {
        if code + 1 < 255 {
          PatchGrow(src[..ptr], before, codeAt, end, code, src[ptr]);
        } else {
          PatchFull(src[..ptr], before, codeAt, end, code, src[ptr]);
        }
        dst[end] := src[ptr];
        end, code := end + 1, code + 1;
        if code == 255 {
          dst[codeAt] := code;
          codeAt, end, code := end, end + 1, 1;
        }
      }
      ptr := ptr + 1;
    }
    assert src[..ptr] == src[..];
    PatchLast(src[..], dst[..], codeAt, end, code);
    dst[codeAt] := code;
  }

  lemma NothingPatched(dst: seq<Byte>)
    requires dst != []
    ensures Patched([], dst, 0, 1, 1)
  {
  }

  // ---- Decoding ----

  /** What the decoding loop has delivered when it stands between blocks: the output of the streaming reader
      and, if the last block was short, the zero that follows it. */
  predicate Unpacked(body: seq<Byte>, n: nat, got: seq<Byte>) {
    n <= |body| &&
    var p := Read(Cobs(REFERENCE), body[..n]);
    && !p.bad && p.state == START.(full := p.state.full)
    && got == p.out + if p.state.full then [] else [0]
  }

  lemma BlockFits(body: seq<Byte>, n: nat, got: seq<Byte>)
    requires Free(0, body) && Unpacked(body, n, got) && n < |body|
    requires Decode(Cobs(REFERENCE), body).ending == Complete
    ensures n + body[n] <= |body|
  {
    hide Decode, CobsReader.Decode, Feed;
    var p := Read(Cobs(REFERENCE), body[..n]);
    ReadIsDecode(Cobs(REFERENCE), body);
    FeedSplit(Cobs(REFERENCE), BEGIN, body, n);
    if n + body[n] > |body| {
      FeedBlock(REFERENCE, p, body[n..]);
    }
  }

  lemma UnpackBlock(body: seq<Byte>, n: nat, got: seq<Byte>)
    requires Free(0, body) && Unpacked(body, n, got) && n < |body| && n + body[n] <= |body|
    ensures Unpacked(body, n + body[n], got + body[n + 1..n + body[n]] + if body[n] < 255 then [0] else [])
  {
    hide Feed;
    var s, end := Cobs(REFERENCE), n + body[n];
    var p, block := Read(s, body[..n]), body[n..end];
    FeedSplit(s, BEGIN, body[..end], n);
    assert body[..end][..n] == body[..n] && body[..end][n..] == block;
    FeedBlock(REFERENCE, p, block);
    assert block[1..] == body[n + 1..end];
    assert got == p.out + Tail(REFERENCE, CobsReader.Owed(p.state));
  }

  /** `cobs_decode` on a frame. It always takes the last byte back: that is the zero after a short block, but
      a byte of the data if the body ends with a full block, and on a lone delimiter the end is one before the
      start. It agrees with the streaming reader exactly when the body ends with a short block. */
  method CobsDecode(src: array<Byte>, dst: array<Byte>, ghost body: seq<Byte>) returns (end: int)
    requires src != dst && src[..] == body + [0] && dst.Length >= src.Length
    requires Free(0, body) && Decode(Cobs(REFERENCE), body).ending == Complete
    modifies dst
    ensures -1 <= end <= dst.Length && (end == -1 <==> body == [])
    ensures var out, full := Decode(Cobs(REFERENCE), body).out, CobsReader.LastEnd(REFERENCE, body, Full) == Full;
            && (body != [] && full ==> out != [] && dst[..end] == out[..|out| - 1])
            && (end == |out| && dst[..end] == out <==> !full)
  {
    hide Feed, Decode, CobsReader.LastEnd;
    var ptr, d := 0, 0;
    StartUnpacking(body);
    while ptr < src.Length
      invariant 0 <= ptr <= |body| && 0 <= d <= ptr && Unpacked(body, ptr, dst[..d])
      invariant src[..] == body + [0]
      decreases src.Length - ptr
    {
      if src[ptr] == 0 {
        break;
      }
      ghost var start, before := ptr, dst[..d];
      BlockFits(body, ptr, before);
      UnpackBlock(body, ptr, before);
      var code := src[ptr];
      ptr := ptr + 1;
      for i := 1 to code
        invariant ptr == start + i && d == |before| + i - 1
        invariant dst[..d] == before + body[start + 1..ptr]
        invariant src[..] == body + [0]
      {
        dst[d] := src[ptr];
        d, ptr := d + 1, ptr + 1;
      }
      if code < 255 {
        dst[d] := 0;
        d := d + 1;
      }
    }
    assert ptr == |body| && body[..ptr] == body;
    UnpackedAll(body, dst[..d]);
    end := d - 1;
    if body != [] {
      assert dst[..end] == dst[..d][..end];
    }
  }

  lemma StartUnpacking(body: seq<Byte>)
    ensures Unpacked(body, 0, [])
  {
  }

  lemma UnpackedAll(body: seq<Byte>, got: seq<Byte>)
    requires Free(0, body) && Unpacked(body, |body|, got)
    requires Decode(Cobs(REFERENCE), body).ending == Complete
    ensures var out, full := Decode(Cobs(REFERENCE), body).out, CobsReader.LastEnd(REFERENCE, body, Full) == Full;
            got == out + (if full then [] else [0]) && (if body == [] then full && out == [] else full ==> out != [])
  {
    assert body[..|body|] == body;
    ReadIsDecode(Cobs(REFERENCE), body);
    EndsAgree(REFERENCE, BEGIN, body);
    var out := Decode(Cobs(REFERENCE), body).out;
    assert BEGIN.out + out == out;
  }

  /** Where the two disagree: on a single full block the reference decoder loses the last byte. */
  method LosesLastByte(src: array<Byte>, dst: array<Byte>, ghost payload: seq<Byte>) returns (end: int)
    requires src != dst && src[..] == [255] + payload + [0] && dst.Length >= src.Length
    requires Free(0, payload) && |payload| == 254
    modifies dst
    ensures Decode(Cobs(REFERENCE), [255] + payload) == Decoded(payload, Complete)
    ensures end == 253 && dst[..end] == payload[..253]
  {
    RoundTrip.WhereRewritingGrows(REFERENCE, payload);
    hide Decode, CobsReader.LastEnd;
    end := CobsDecode(src, dst, [255] + payload);
  }

  /** A frame that the writer has made ends with a short block, so the two readers agree on it. */
  lemma WrittenEndsShort(c: Config, data: seq<Byte>)
    requires CobsConfig.Accepted(c)
    ensures CobsReader.LastEnd(c, Body(Cobs(c), data), Full) == Separator
  {
    var bs := CobsEncoder.FrameBlocks(c, data);
    RoundTrip.BlocksRead(c, bs);
    RoundTrip.DecodeUndoesEncode(Cobs(c), data);
    EndsAgree(c, BEGIN, Body(Cobs(c), data));
  }
}
