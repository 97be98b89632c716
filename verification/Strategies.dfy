/** The four framing strategies under one roof, and a read strategy run over a frame by itself. */
module Strategies {
  import ByteStuffing
  import CobsConfig
  import CobsEncoder
  import CobsReader
  import CobsBlocks
  import opened Bytes
  import opened Reading

  datatype Strategy = Cobs(cobs: CobsConfig.Config) | Stuffing(stuffing: ByteStuffing.Config)

  predicate Accepted(s: Strategy) {
    match s
    case Cobs(c) => CobsConfig.Accepted(c)
    case Stuffing(c) => ByteStuffing.Accepted(c)
  }

  function Delimiter(s: Strategy): Byte {
    match s
    case Cobs(c) => c.delimiter
    case Stuffing(c) => c.delimiter
  }

  /** The frame body that the write strategy produces for `data`. */
  function Body(s: Strategy, data: seq<Byte>): (body: seq<Byte>)
    requires Accepted(s)
    ensures Free(Delimiter(s), body)
  {
    match s
    case Cobs(c) => CobsEncoder.Body(c, data)
    case Stuffing(c) =>
      ByteStuffing.StuffIsFree(c, data);
      ByteStuffing.Stuff(c, data)
  }

  function Frame(s: Strategy, data: seq<Byte>): seq<Byte>
    requires Accepted(s)
  {
    Body(s, data) + [Delimiter(s)]
  }

  /** A body decoded as a whole. */
  function Decode(s: Strategy, body: seq<Byte>): Decoded {
    match s
    case Cobs(c) => CobsReader.Decode(c, body, CobsBlocks.Full)
    case Stuffing(c) => ByteStuffing.Decode(c, body)
  }

  // ---- The read strategy, byte by byte ----

  function Step(s: Strategy, st: ReadState, b: Byte): Reaction {
    match s
    case Cobs(c) => CobsReader.Step(c, st, b)
    case Stuffing(c) => ByteStuffing.Step(c, st, b)
  }

  /** Where the strategy is within a frame and what it has delivered; nothing counts after an error. */
  datatype Progress = Progress(state: ReadState, out: seq<Byte>, bad: bool)

  const BEGIN := Progress(START, [], false)

  function Advance(s: Strategy, p: Progress, b: Byte): Progress {
    if p.bad then p
    else match Step(s, p.state, b)
      case Accept(state, emitted) => Progress(state, p.out + emitted, false)
      case Reject => Progress(START, p.out, true)
  }

  function Feed(s: Strategy, p: Progress, bytes: seq<Byte>): Progress {
    if bytes == [] then p else Advance(s, Feed(s, p, bytes[..|bytes| - 1]), bytes[|bytes| - 1])
  }

  /** The strategy after the first bytes of a frame. */
  function Read(s: Strategy, bytes: seq<Byte>): Progress {
    Feed(s, BEGIN, bytes)
  }

  lemma {:induction false} FeedConcat(s: Strategy, p: Progress, a: seq<Byte>, b: seq<Byte>)
    ensures Feed(s, p, a + b) == Feed(s, Feed(s, p, a), b)
    decreases |b|
  {
    hide Advance;
    if b == [] {
      assert a + b == a;
    } else {
      var n := |b| - 1;
      FeedConcat(s, p, a, b[..n]);
      assert (a + b)[..|a + b| - 1] == a + b[..n];
    }
  }

  lemma FeedNothing(s: Strategy, p: Progress)
    ensures Feed(s, p, []) == p
  {
  }

  lemma FeedOne(s: Strategy, p: Progress, b: Byte)
    ensures Feed(s, p, [b]) == Advance(s, p, b)
  {
    assert [b][..0] == [];
  }

  lemma FeedSnoc(s: Strategy, p: Progress, a: seq<Byte>, b: Byte)
    ensures Feed(s, p, a + [b]) == Advance(s, Feed(s, p, a), b)
  {
    FeedConcat(s, p, a, [b]);
    FeedOne(s, Feed(s, p, a), b);
  }

  /** Output only grows, and an error is final. */
  lemma {:induction false} FeedGrows(s: Strategy, p: Progress, bytes: seq<Byte>)
    ensures var q := Feed(s, p, bytes);
            p.out <= q.out && (p.bad ==> q == p)
    decreases |bytes|
  {
    if bytes == [] {
    } else {
      FeedGrows(s, p, bytes[..|bytes| - 1]);
    }
  }

  // ---- Streaming equals whole-body decoding ----

  /** A strategy that stands between blocks behaves, over the rest of a body, like the whole-body decoder. */
  predicate Agrees(p: Progress, q: Progress, d: Decoded) {
    && q.out == p.out + d.out
    && (q.bad <==> d.ending == Corrupt)
    && (!q.bad ==> (AtRest(q.state) <==> d.ending == Complete))
  }

  lemma {:induction false} FeedPayload(c: CobsConfig.Config, p: Progress, bytes: seq<Byte>)
    requires !p.bad && |bytes| <= p.state.offset
    ensures Feed(Cobs(c), p, bytes)
         == Progress(p.state.(offset := p.state.offset - |bytes|), p.out + bytes, false)
  {
    if bytes == [] {
    } else {
      var n := |bytes| - 1;
      FeedPayload(c, p, bytes[..n]);
      assert bytes == bytes[..n] + [bytes[n]];
    }
  }

  lemma FeedCons(s: Strategy, p: Progress, body: seq<Byte>)
    requires body != []
    ensures Feed(s, p, body) == Feed(s, Advance(s, p, body[0]), body[1..])
  {
    FeedOne(s, p, body[0]);
    FeedConcat(s, p, [body[0]], body[1..]);
    assert body == [body[0]] + body[1..];
  }

  lemma FeedSplit(s: Strategy, p: Progress, body: seq<Byte>, n: nat)
    requires n <= |body|
    ensures Feed(s, p, body) == Feed(s, Feed(s, p, body[..n]), body[n..])
  {
    FeedConcat(s, p, body[..n], body[n..]);
    assert body == body[..n] + body[n..];
  }

  lemma AgreesFrom(p: Progress, emitted: seq<Byte>, q: Progress, r: Progress, d: Decoded)
    requires Agrees(q, r, d) && q.out == p.out + emitted
    ensures Agrees(p, r, Decoded(emitted + d.out, d.ending))
  {
  }

  lemma AgreesOnError(s: Strategy, p: Progress, b: Byte, rest: seq<Byte>)
    requires !p.bad && Step(s, p.state, b).Reject?
    ensures Agrees(p, Feed(s, Advance(s, p, b), rest), Decoded([], Corrupt))
  {
    FeedGrows(s, Advance(s, p, b), rest);
  }

  /** The strategy just after a code byte. */
  function BlockOpened(c: CobsConfig.Config, p: Progress, b: Byte): Progress {
    var code := CobsConfig.Unswap(c, b);
    var next := CobsReader.Announced(c, code);
    Progress(ReadState((next + 255) % 256, next == c.depth, CobsReader.MarksRun(c, code), false),
             p.out + CobsBlocks.Tail(c, CobsReader.Owed(p.state)), false)
  }

  lemma OpenBlock(c: CobsConfig.Config, p: Progress, b: Byte)
    requires !p.bad && p.state.offset == 0 && !p.state.escaped
    requires CobsReader.Announced(c, CobsConfig.Unswap(c, b)) <= c.depth
    ensures Advance(Cobs(c), p, b) == BlockOpened(c, p, b)
  {
  }

  /** One block: its code byte and as much of its payload as there is. */
  lemma FeedBlock(c: CobsConfig.Config, p: Progress, body: seq<Byte>)
    requires !p.bad && p.state.offset == 0 && !p.state.escaped && body != [] && Free(c.delimiter, body)
    requires |body| <= CobsReader.Announced(c, CobsConfig.Unswap(c, body[0])) <= c.depth
    ensures var q := BlockOpened(c, p, body[0]);
            && |body| <= q.state.offset + 1
            && Feed(Cobs(c), p, body)
            == Progress(q.state.(offset := q.state.offset + 1 - |body|), q.out + body[1..], false)
  {
    FeedCons(Cobs(c), p, body);
    OpenBlock(c, p, body[0]);
    FeedPayload(c, BlockOpened(c, p, body[0]), body[1..]);
  }

  lemma BlockOutput(c: CobsConfig.Config, p: Progress, b: Byte, payload: seq<Byte>)
    ensures BlockOpened(c, p, b).out + payload == p.out + (CobsBlocks.Tail(c, CobsReader.Owed(p.state)) + payload)
  {
  }

  lemma {:induction false} CobsAgrees(c: CobsConfig.Config, p: Progress, body: seq<Byte>)
    requires !p.bad && p.state.offset == 0 && !p.state.escaped && Free(c.delimiter, body)
    ensures Agrees(p, Feed(Cobs(c), p, body), CobsReader.Decode(c, body, CobsReader.Owed(p.state)))
    decreases |body|
  {
    hide Feed, CobsBlocks.Tail;
    FeedNothing(Cobs(c), p);
    if body == [] {
      assert p.out + [] == p.out;
    } else {
      var next := CobsReader.Announced(c, CobsConfig.Unswap(c, body[0]));
      if next > c.depth {
        FeedCons(Cobs(c), p, body);
        AgreesOnError(Cobs(c), p, body[0], body[1..]);
      } else if |body| < next {
        FeedBlock(c, p, body);
        BlockOutput(c, p, body[0], body[1..]);
      } else {
        var q := Feed(Cobs(c), p, body[..next]);
        FeedBlock(c, p, body[..next]);
        BlockOutput(c, p, body[0], body[1..next]);
        FeedSplit(Cobs(c), p, body, next);
        CobsAgrees(c, q, body[next..]);
        assert body[..next][1..] == body[1..next];
        var emitted := CobsBlocks.Tail(c, CobsReader.Owed(p.state)) + body[1..next];
        AgreesFrom(p, emitted, q, Feed(Cobs(c), p, body),
                   CobsReader.Decode(c, body[next..], CobsReader.Owed(q.state)));
      }
    }
  }

  /** The reader knows how the last block ended. */
  lemma {:induction false} EndsAgree(c: CobsConfig.Config, p: Progress, body: seq<Byte>)
    requires !p.bad && p.state.offset == 0 && !p.state.escaped && Free(c.delimiter, body)
    requires CobsReader.Decode(c, body, CobsReader.Owed(p.state)).ending == Complete
    ensures CobsReader.Owed(Feed(Cobs(c), p, body).state) == CobsReader.LastEnd(c, body, CobsReader.Owed(p.state))
    decreases |body|
  {
    if body == [] {
    } else {
      var next := CobsReader.Announced(c, CobsConfig.Unswap(c, body[0]));
      FeedBlock(c, p, body[..next]);
      FeedSplit(Cobs(c), p, body, next);
      EndsAgree(c, Feed(Cobs(c), p, body[..next]), body[next..]);
    }
  }

  lemma {:induction false} StuffingAgrees(c: ByteStuffing.Config, p: Progress, body: seq<Byte>)
    requires !p.bad && AtRest(p.state)
    ensures Agrees(p, Feed(Stuffing(c), p, body), ByteStuffing.Decode(c, body))
    decreases |body|
  {
    if body == [] {
      assert p.out + [] == p.out;
    } else {
      var s, q := Stuffing(c), Advance(Stuffing(c), p, body[0]);
      FeedCons(s, p, body);
      if body[0] != c.escape {
        StuffingAgrees(c, q, body[1..]);
        AgreesFrom(p, [body[0]], q, Feed(s, p, body), ByteStuffing.Decode(c, body[1..]));
      } else if |body| == 1 {
        assert body[1..] == [];
      } else {
        FeedCons(s, q, body[1..]);
        assert body[1..][1..] == body[2..];
        StuffingPairAgrees(c, p, q, body);
      }
    }
  }

  lemma StuffingPairAgrees(c: ByteStuffing.Config, p: Progress, q: Progress, body: seq<Byte>)
    requires !p.bad && AtRest(p.state) && |body| > 1 && body[0] == c.escape
    requires q == Progress(p.state.(escaped := true), p.out, false)
    ensures Agrees(p, Feed(Stuffing(c), Advance(Stuffing(c), q, body[1]), body[2..]), ByteStuffing.Decode(c, body))
    decreases |body|, 0
  {
    var r, plain := Advance(Stuffing(c), q, body[1]), Xor(body[1], c.mask);
    if r.bad {
      AgreesOnError(Stuffing(c), q, body[1], body[2..]);
    } else {
      StuffingAgrees(c, r, body[2..]);
      AgreesFrom(p, [plain], r, Feed(Stuffing(c), r, body[2..]), ByteStuffing.Decode(c, body[2..]));
    }
  }

  /** Reading a body byte by byte delivers what decoding it as a whole gives, and ends the same way. */
  lemma ReadIsDecode(s: Strategy, body: seq<Byte>)
    requires Free(Delimiter(s), body)
    ensures Agrees(BEGIN, Read(s, body), Decode(s, body))
  {
    match s {
      case Cobs(c) => CobsAgrees(c, BEGIN, body);
      case Stuffing(c) => StuffingAgrees(c, BEGIN, body);
    }
  }
}
