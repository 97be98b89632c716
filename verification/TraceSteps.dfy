/** How the log of a stream grows by one byte. */
module TraceSteps {
  import opened Bytes
  import opened Framing
  import opened Packets
  import opened Reading
  import opened Strategies
  import opened Trace

  /** Nothing more will come of the frame: its error has been reported. */
  predicate Spoiled(u: Setup, frame: nat, p: Progress) {
    p.bad || Verdict(u, frame, p.out) != []
  }

  /** Events that a byte other than the delimiter adds to a frame that is not spoiled. */
  function Added(u: Setup, frame: nat, p: Progress, b: Byte): seq<Event> {
    match Step(u.strategy, p.state, b)
    case Reject => [Failed(StreamReading)]
    case Accept(_, emitted) => Verdict(u, frame, p.out + emitted)
  }

  /** Events that the delimiter adds. */
  function Closed(u: Setup, frame: nat, p: Progress): seq<Event> {
    if Spoiled(u, frame, p) then [Failed(StreamReading)]
    else if !AtRest(p.state) then [Failed(StreamReading), Failed(StreamReading)]
    else match Parse(RulesAt(u, frame), p.out)
      case Whole(packet) => [if u.hasHandler then Delivered(packet) else Failed(PacketHandlerNotSet)]
      case _ => [Failed(StreamReading)]
  }

  function Open(u: Setup, frame: nat, p: Progress): seq<Event> {
    if Verdict(u, frame, p.out) != [] then Verdict(u, frame, p.out)
    else if p.bad then [Failed(StreamReading)]
    else []
  }

  lemma LogsByProgress(u: Setup, frame: nat, body: seq<Byte>)
    requires Free(Delimiter(u.strategy), body)
    ensures var p := Read(u.strategy, body);
            && OpenLog(u, frame, body) == Open(u, frame, p)
            && FrameLog(u, frame, body) == Open(u, frame, p) + Closed(u, frame, p)
  {
    ReadIsDecode(u.strategy, body);
    var d := Decode(u.strategy, body);
    assert BEGIN.out + d.out == d.out;
  }

  lemma VerdictStays(u: Setup, frame: nat, out: seq<Byte>, more: seq<Byte>)
    requires Verdict(u, frame, out) != []
    ensures Verdict(u, frame, out + more) == Verdict(u, frame, out)
  {
    WrongForGood(RulesAt(u, frame), out, more);
  }

  lemma OpenGrows(u: Setup, frame: nat, p: Progress, b: Byte)
    ensures var q := Advance(u.strategy, p, b);
            if Spoiled(u, frame, p) then Spoiled(u, frame, q) && Open(u, frame, q) == Open(u, frame, p)
            else Open(u, frame, p) == [] && Open(u, frame, q) == Added(u, frame, p, b)
                 && (Spoiled(u, frame, q) <==> Added(u, frame, p, b) != [])
  {
    if Spoiled(u, frame, p) && !p.bad {
      match Step(u.strategy, p.state, b) {
        case Accept(_, emitted) => VerdictStays(u, frame, p.out, emitted);
        case Reject =>
      }
    }
  }

  lemma OpenThenMore(u: Setup, s: seq<Byte>, b: Byte, more: seq<Event>)
    requires b != Delimiter(u.strategy)
    requires var n, rest := |Bodies(Delimiter(u.strategy), s)|, Rest(Delimiter(u.strategy), s);
             OpenLog(u, n, rest + [b]) == OpenLog(u, n, rest) + more
    ensures TraceOf(u, s + [b]) == TraceOf(u, s) + more
  {
    hide FrameLog, OpenLog, Gather, Bodies, Rest;
    var d := Delimiter(u.strategy);
    CutOneMore(d, s, b);
    Assoc(FramesLog(u, Bodies(d, s)), OpenLog(u, |Bodies(d, s)|, Rest(d, s)), more);
  }

  lemma OpenThenClosed(u: Setup, s: seq<Byte>, more: seq<Event>)
    requires var n, rest := |Bodies(Delimiter(u.strategy), s)|, Rest(Delimiter(u.strategy), s);
             FrameLog(u, n, rest) == OpenLog(u, n, rest) + more
    ensures TraceOf(u, s + [Delimiter(u.strategy)]) == TraceOf(u, s) + more
  {
    hide FrameLog, OpenLog, Gather, Bodies, Rest;
    var d := Delimiter(u.strategy);
    CutOneMore(d, s, d);
    GatherClose(LogOf(u), Bodies(d, s), Rest(d, s), OpenLog(u, |Bodies(d, s)|, Rest(d, s)), more);
    EmptyTail(u, |Bodies(d, s)| + 1);
  }

  /** The log after one more byte, in terms of what the strategy has read of the current frame. */
  lemma TraceGrows(u: Setup, s: seq<Byte>, b: Byte)
    ensures var d := Delimiter(u.strategy);
            var n, p := |Bodies(d, s)|, Read(u.strategy, Rest(d, s));
            TraceOf(u, s + [b])
            == TraceOf(u, s)
               + if b == d then Closed(u, n, p) else if Spoiled(u, n, p) then [] else Added(u, n, p, b)
  {
    hide TraceOf, Bodies, Rest, Feed, FrameLog, OpenLog, Verdict, Open, Added, Closed, Spoiled, Advance, AtRest;
    var d := Delimiter(u.strategy);
    var n, rest := |Bodies(d, s)|, Rest(d, s);
    var p := Read(u.strategy, rest);
    LogsByProgress(u, n, rest);
    if b == d {
      OpenThenClosed(u, s, Closed(u, n, p));
    } else {
      FeedSnoc(u.strategy, BEGIN, rest, b);
      LogsByProgress(u, n, rest + [b]);
      OpenGrows(u, n, p, b);
      OpenThenMore(u, s, b, if Spoiled(u, n, p) then [] else Added(u, n, p, b));
    }
  }

  // ---- Packet buffers that the handler keeps ----

  function KeptIn(u: Setup): (nat, seq<Byte>) -> seq<Packet> {
    (i: nat, body: seq<Byte>) => if u.keeps(i) then Carried(u, i, body) else []
  }

  /** The packets of the terminated frames of `s` whose buffers the packet handler keeps. */
  function KeptOf(u: Setup, s: seq<Byte>): seq<Packet> {
    Gather(KeptIn(u), Bodies(Delimiter(u.strategy), s))
  }

  /** Whether the handler is called for the frame that has been read so far, and keeps its buffer. */
  predicate KeepsFrame(u: Setup, frame: nat, p: Progress) {
    && u.hasHandler && u.keeps(frame)
    && !Spoiled(u, frame, p) && AtRest(p.state) && Parse(RulesAt(u, frame), p.out).Whole?
  }

  lemma KeptByProgress(u: Setup, frame: nat, body: seq<Byte>)
    requires Free(Delimiter(u.strategy), body)
    ensures |KeptIn(u)(frame, body)| == if KeepsFrame(u, frame, Read(u.strategy, body)) then 1 else 0
  {
    ReadIsDecode(u.strategy, body);
    var d := Decode(u.strategy, body);
    assert BEGIN.out + d.out == d.out;
    assert KeptIn(u)(frame, body) == if u.keeps(frame) then Carried(u, frame, body) else [];
  }

  lemma KeptGrows(u: Setup, s: seq<Byte>, b: Byte)
    ensures var d := Delimiter(u.strategy);
            |KeptOf(u, s + [b])|
            == |KeptOf(u, s)| + if b == d && KeepsFrame(u, |Bodies(d, s)|, Read(u.strategy, Rest(d, s))) then 1 else 0
  {
    var d := Delimiter(u.strategy);
    var n, rest := |Bodies(d, s)|, Rest(d, s);
    CutOneMore(d, s, b);
    GatherOneMore(KeptIn(u), Bodies(d, s), rest);
    KeptByProgress(u, n, rest);
  }
}
