/** What a stream reader tells its data handler, and the order in which it does. */
module Notices {
  import AcceptedBodies
  import opened Bytes
  import opened Framing
  import opened Reading
  import RoundTrip
  import opened Strategies

  /** A call of the data handler: a byte with status OK, an error, or a delimiter. */
  datatype Notice = Data(byte: Byte) | Broken | End

  function AllData(bytes: seq<Byte>): (ns: seq<Notice>)
    ensures |ns| == |bytes| && forall i :: 0 <= i < |ns| ==> ns[i] == Data(bytes[i])
  {
    seq(|bytes|, i requires 0 <= i < |bytes| => Data(bytes[i]))
  }

  function OpenNotices(s: Strategy, body: seq<Byte>): seq<Notice> {
    var d := Decode(s, body);
    AllData(d.out) + if d.ending.Corrupt? then [Broken] else []
  }

  function FrameNotices(s: Strategy, body: seq<Byte>): seq<Notice> {
    var d := Decode(s, body);
    AllData(d.out) + (if d.ending.Complete? then [] else [Broken]) + [End]
  }

  function NoticesIn(s: Strategy): (nat, seq<Byte>) -> seq<Notice> {
    (i: nat, body: seq<Byte>) => FrameNotices(s, body)
  }

  /** All notices of a stream when nobody interferes with the reader. */
  function NoticesOf(s: Strategy, stream: seq<Byte>): seq<Notice> {
    Gather(NoticesIn(s), Bodies(Delimiter(s), stream)) + OpenNotices(s, Rest(Delimiter(s), stream))
  }

  lemma CutFrame(s: Strategy, data: seq<Byte>)
    requires Strategies.Accepted(s)
    ensures Bodies(Delimiter(s), Frame(s, data)) == [Body(s, data)]
    ensures Rest(Delimiter(s), Frame(s, data)) == []
  {
    hide Body, Bodies, Rest, Decode, Accepted, Delimiter;
    var d, body := Delimiter(s), Body(s, data);
    TerminateOneMore(d, [], body);
    assert [] + [body] == [body] && Terminated(d, []) == [];
    assert Terminated(d, [body]) == Frame(s, data);
    CutTerminated(d, [body]);
  }

  lemma GatherOne(s: Strategy, body: seq<Byte>)
    ensures Gather(NoticesIn(s), [body]) == FrameNotices(s, body)
  {
    hide FrameNotices;
    GatherOneMore(NoticesIn(s), [], body);
    assert [] + [body] == [body];
  }

  /** Reading back a frame tells its data and one delimiter, and no error. */
  lemma FrameTold(s: Strategy, data: seq<Byte>)
    requires Strategies.Accepted(s)
    ensures NoticesOf(s, Frame(s, data)) == AllData(data) + [End]
  {
    hide Body, Frame, Decode, Bodies, Rest, Gather, Accepted, Delimiter;
    CutFrame(s, data);
    GatherOne(s, Body(s, data));
    RoundTrip.DecodeUndoesEncode(s, data);
    EmptyRest(s);
  }

  /** A terminated frame is told an error exactly if it does not carry anything. */
  lemma BrokenExactly(s: Strategy, body: seq<Byte>)
    requires Strategies.Accepted(s) && Free(Delimiter(s), body)
    ensures Broken in FrameNotices(s, body) <==> forall out :: !AcceptedBodies.Carries(s, body, out)
  {
    hide Decode, AcceptedBodies.Carries;
    var d := Decode(s, body);
    AcceptedBodies.CompleteExactly(s, body, d.out);
    forall out ensures Decode(s, body) == Decoded(out, Complete) <==> AcceptedBodies.Carries(s, body, out) {
      AcceptedBodies.CompleteExactly(s, body, out);
    }
    if !d.ending.Complete? {
      assert FrameNotices(s, body)[|d.out|] == Broken;
    }
  }

  lemma EmptyRest(s: Strategy)
    ensures OpenNotices(s, []) == []
  {
  }

  /** After an error nothing is told until the delimiter. Since a delimiter ends every frame, this says that
      the notices form frames of data, at most one error, and a delimiter. */
  predicate Orderly(ns: seq<Notice>) {
    forall i :: 0 <= i < |ns| - 1 && ns[i].Broken? ==> ns[i + 1].End?
  }

  predicate EndsBroken(ns: seq<Notice>) {
    ns != [] && ns[|ns| - 1].Broken?
  }

  /** Notices a byte other than the delimiter adds to a frame without an error so far. */
  function AddedNotices(s: Strategy, p: Progress, b: Byte): seq<Notice> {
    match Step(s, p.state, b)
    case Reject => [Broken]
    case Accept(_, emitted) => AllData(emitted)
  }

  /** Notices the delimiter adds. */
  function ClosedNotices(p: Progress): seq<Notice> {
    (if !p.bad && !AtRest(p.state) then [Broken] else []) + [End]
  }

  lemma NoticesByProgress(s: Strategy, body: seq<Byte>)
    requires Free(Delimiter(s), body)
    ensures var p := Read(s, body);
            && OpenNotices(s, body) == AllData(p.out) + (if p.bad then [Broken] else [])
            && FrameNotices(s, body) == OpenNotices(s, body) + ClosedNotices(p)
  {
    ReadIsDecode(s, body);
    var d := Decode(s, body);
    assert BEGIN.out + d.out == d.out;
  }

  lemma AllDataConcat(a: seq<Byte>, b: seq<Byte>)
    ensures AllData(a + b) == AllData(a) + AllData(b)
  {
  }

  lemma OpenNoticesGrow(s: Strategy, body: seq<Byte>, b: Byte)
    requires Free(Delimiter(s), body) && b != Delimiter(s)
    ensures var p := Read(s, body);
            OpenNotices(s, body + [b]) == OpenNotices(s, body) + if p.bad then [] else AddedNotices(s, p, b)
  {
    hide Feed, Decode, OpenNotices, FrameNotices, Step, AllData;
    var p := Read(s, body);
    NoticesByProgress(s, body);
    NoticesByProgress(s, body + [b]);
    FeedSnoc(s, BEGIN, body, b);
    if !p.bad {
      match Step(s, p.state, b) {
        case Reject =>
        case Accept(_, emitted) => AllDataConcat(p.out, emitted);
      }
    }
  }

  /** The notices after one more byte. */
  lemma NoticesGrow(s: Strategy, stream: seq<Byte>, b: Byte)
    ensures var d := Delimiter(s);
            var p := Read(s, Rest(d, stream));
            NoticesOf(s, stream + [b])
            == NoticesOf(s, stream)
               + if b == d then ClosedNotices(p) else if p.bad then [] else AddedNotices(s, p, b)
  {
    var d := Delimiter(s);
    var bodies, rest := Bodies(d, stream), Rest(d, stream);
    var p := Read(s, rest);
    CutOneMore(d, stream, b);
    if b == d {
      NoticesByProgress(s, rest);
      GatherClose(NoticesIn(s), bodies, rest, OpenNotices(s, rest), ClosedNotices(p));
      assert OpenNotices(s, []) == [];
    } else {
      OpenNoticesGrow(s, rest, b);
      Assoc(Gather(NoticesIn(s), bodies), OpenNotices(s, rest), if p.bad then [] else AddedNotices(s, p, b));
    }
  }

  lemma OrderlyAppend(ns: seq<Notice>, more: seq<Notice>)
    requires Orderly(ns) && Orderly(more)
    requires EndsBroken(ns) && more != [] ==> more[0].End?
    ensures Orderly(ns + more)
    ensures EndsBroken(ns + more) <==> if more == [] then EndsBroken(ns) else EndsBroken(more)
  {
    assert more == [] ==> ns + more == ns;
  }

  /** The notices that one byte adds keep the order. */
  lemma AddedInOrder(s: Strategy, p: Progress, b: Byte)
    ensures var more := AddedNotices(s, p, b); Orderly(more) && (EndsBroken(more) <==> Step(s, p.state, b).Reject?)
    ensures var more := ClosedNotices(p); Orderly(more) && !EndsBroken(more) && (p.bad ==> more[0].End?)
  {
  }

  lemma OrderlyStep(s: Strategy, stream: seq<Byte>, b: Byte)
    requires Orderly(NoticesOf(s, stream))
    requires EndsBroken(NoticesOf(s, stream)) <==> Read(s, Rest(Delimiter(s), stream)).bad
    ensures Orderly(NoticesOf(s, stream + [b]))
    ensures EndsBroken(NoticesOf(s, stream + [b])) <==> Read(s, Rest(Delimiter(s), stream + [b])).bad
  {
    hide NoticesOf, Feed, Bodies, Rest, Delimiter, Orderly;
    var p := Read(s, Rest(Delimiter(s), stream));
    NoticesGrow(s, stream, b);
    FeedNothing(s, BEGIN);
    CutOneMore(Delimiter(s), stream, b);
    FeedSnoc(s, BEGIN, Rest(Delimiter(s), stream), b);
    AddedInOrder(s, p, b);
    OrderlyAppend(NoticesOf(s, stream),
                  if b == Delimiter(s) then ClosedNotices(p) else if p.bad then [] else AddedNotices(s, p, b));
    if !p.bad && b != Delimiter(s) && !EndsBroken(AddedNotices(s, p, b)) {
      assert !EndsBroken(NoticesOf(s, stream));
    }
  }

  lemma NothingTold(s: Strategy)
    ensures NoticesOf(s, []) == [] && Orderly([]) && !EndsBroken([]) && !Read(s, Rest(Delimiter(s), [])).bad
  {
  }

  /** For every byte stream and strategy the notices are orderly, and end with an error exactly when the
      current frame has one. */
  lemma {:induction false} AlwaysOrderly(s: Strategy, stream: seq<Byte>)
    ensures Orderly(NoticesOf(s, stream))
    ensures EndsBroken(NoticesOf(s, stream)) <==> Read(s, Rest(Delimiter(s), stream)).bad
    decreases |stream|
  {
    if stream == [] {
      NothingTold(s);
    } else {
      var init, b := stream[..|stream| - 1], stream[|stream| - 1];
      assert init + [b] == stream;
      AlwaysOrderly(s, init);
      OrderlyStep(s, init, b);
    }
  }
}
