/** Which frame bodies a reader accepts: exactly those that spell a list of blocks, whoever made them. */
module AcceptedBodies {
  import ByteStuffing
  import opened Bytes
  import opened CobsBlocks
  import opened CobsConfig
  import CobsReader
  import opened Reading
  import RoundTrip
  import opened Strategies

  /** `body` is the wire form of `bs`, and no run is owed at its end. */
  predicate Spells(c: Config, bs: seq<Block>, body: seq<Byte>)
    requires CobsConfig.Accepted(c)
  {
    AllSound(c, bs) && Wire(c, bs) == body && (bs != [] ==> !bs[|bs| - 1].end.Run?)
  }

  /** What the last block owes. */
  function Owing(c: Config, bs: seq<Block>): seq<Byte> {
    if bs == [] then [] else Tail(c, bs[|bs| - 1].end)
  }

  lemma {:induction false} WireFront(c: Config, b: Block, bs: seq<Block>)
    requires CobsConfig.Accepted(c) && Sound(c, b) && AllSound(c, bs)
    ensures AllSound(c, [b] + bs) && Wire(c, [b] + bs) == WireBlock(c, b) + Wire(c, bs)
  {
    hide WireBlock;
    if bs == [] {
      assert [b] + bs == [] + [b];
      AppendBlock(c, [], b);
      assert Wire(c, []) == [];
    } else {
      var n := |bs| - 1;
      WireFront(c, b, bs[..n]);
      assert bs == bs[..n] + [bs[n]] && [b] + bs == [b] + bs[..n] + [bs[n]];
      AppendBlock(c, bs[..n], bs[n]);
      AppendBlock(c, [b] + bs[..n], bs[n]);
    }
  }

  /** The block at the front of a body. */
  function FrontBlock(c: Config, body: seq<Byte>): Block
    requires body != []
    requires 0 < CobsReader.Announced(c, Unswap(c, body[0])) <= |body|
  {
    var code := Unswap(c, body[0]);
    Block(body[1..CobsReader.Announced(c, code)], CobsReader.Owes(c, code))
  }

  lemma FrontIsSound(c: Config, body: seq<Byte>)
    requires CobsConfig.Accepted(c) && body != [] && Free(c.delimiter, body)
    requires 0 < CobsReader.Announced(c, Unswap(c, body[0])) <= |body|
    requires CobsReader.Announced(c, Unswap(c, body[0])) <= c.depth
    ensures Sound(c, FrontBlock(c, body))
    ensures WireBlock(c, FrontBlock(c, body)) == body[..CobsReader.Announced(c, Unswap(c, body[0]))]
  {
    SwapRoundTrip(c, body[0]);
    var b := FrontBlock(c, body);
    assert Offset(c, b) == Unswap(c, body[0]);
  }

  lemma {:induction false} SpellOut(c: Config, body: seq<Byte>, owed: End) returns (bs: seq<Block>)
    requires CobsConfig.Accepted(c) && Free(c.delimiter, body)
    requires CobsReader.Decode(c, body, owed).ending == Complete
    ensures Spells(c, bs, body) && (bs == [] ==> !owed.Run?)
    decreases |body|
  {
    if body == [] {
      bs := [];
    } else {
      hide Wire, WireBlock, Sound, FrontBlock;
      var code := Unswap(c, body[0]);
      var next := CobsReader.Announced(c, code);
      FrontIsSound(c, body);
      var rest := SpellOut(c, body[next..], CobsReader.Owes(c, code));
      var b := FrontBlock(c, body);
      WireFront(c, b, rest);
      bs := [b] + rest;
      assert body == body[..next] + body[next..];
      FrontOwes(c, body);
    }
  }

  lemma FrontOwes(c: Config, body: seq<Byte>)
    requires body != [] && 0 < CobsReader.Announced(c, Unswap(c, body[0])) <= |body|
    ensures FrontBlock(c, body).end == CobsReader.Owes(c, Unswap(c, body[0]))
  {
  }

  lemma SpelledIsAccepted(c: Config, bs: seq<Block>, body: seq<Byte>)
    requires CobsConfig.Accepted(c) && Spells(c, bs, body)
    ensures Decode(Cobs(c), body).ending == Complete
    ensures Expand(c, bs) == Decode(Cobs(c), body).out + Owing(c, bs)
  {
    RoundTrip.BlocksRead(c, bs);
    ReadIsDecode(Cobs(c), body);
    var out := Decode(Cobs(c), body).out;
    assert BEGIN.out + out == out;
  }

  /** A COBS reader of any kind accepts exactly the bodies that spell a list of blocks with no run owed, and
      delivers what the blocks stand for except what the last one owes. */
  lemma AcceptedExactly(c: Config, body: seq<Byte>)
    requires CobsConfig.Accepted(c) && Free(c.delimiter, body)
    ensures Decode(Cobs(c), body).ending == Complete <==> exists bs :: Spells(c, bs, body)
    ensures forall bs :: Spells(c, bs, body) ==> Expand(c, bs) == Decode(Cobs(c), body).out + Owing(c, bs)
  {
    if Decode(Cobs(c), body).ending == Complete {
      var bs := SpellOut(c, body, Full);
    }
    forall bs | Spells(c, bs, body)
      ensures Decode(Cobs(c), body).ending == Complete
      ensures Expand(c, bs) == Decode(Cobs(c), body).out + Owing(c, bs)
    {
      SpelledIsAccepted(c, bs, body);
    }
  }

  /** `body` carries `out`: it spells blocks that stand for it, or is its stuffing. */
  ghost predicate Carries(s: Strategy, body: seq<Byte>, out: seq<Byte>)
    requires Strategies.Accepted(s)
  {
    match s
    case Cobs(c) => exists bs :: Spells(c, bs, body) && Expand(c, bs) == out + Owing(c, bs)
    case Stuffing(c) => body == ByteStuffing.Stuff(c, out)
  }

  /** Reading a body to its end without an error means exactly that it carries what was delivered. */
  lemma CompleteExactly(s: Strategy, body: seq<Byte>, out: seq<Byte>)
    requires Strategies.Accepted(s) && Free(Delimiter(s), body)
    ensures Decode(s, body) == Decoded(out, Complete) <==> Carries(s, body, out)
  {
    match s {
      case Cobs(c) =>
        AcceptedExactly(c, body);
        var got := Decode(s, body).out;
        forall bs | Spells(c, bs, body) ensures Expand(c, bs) == out + Owing(c, bs) <==> got == out {
          if Expand(c, bs) == out + Owing(c, bs) {
            assert (out + Owing(c, bs))[..|out|] == out && (got + Owing(c, bs))[..|got|] == got;
          }
        }
      case Stuffing(c) =>
        if Decode(s, body).ending == Complete {
          RoundTrip.StuffUndoesUnstuff(c, body);
        }
        if Carries(s, body, out) {
          RoundTrip.DecodeUndoesEncode(s, out);
        }
    }
  }
}
