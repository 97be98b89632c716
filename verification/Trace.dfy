/** What a receiver does with a whole byte stream, frame by frame, and the end-to-end theorems.
    The class ReceivePipeline is proved to produce exactly this log. */
module Trace {
  import AcceptedBodies
  import opened Bytes
  import Crc8
  import opened Framing
  import opened Packets
  import opened Reading
  import RoundTrip
  import opened Strategies

  /** What the application sees: a packet handed to its handler, or a call of its error handler. */
  datatype Event = Delivered(packet: Packet) | Failed(error: Error)

  /** A receiver and its surroundings. Which allocations succeed, and which packet buffers the handler
      keeps, may depend on the frame. */
  datatype Setup = Setup(
    strategy: Strategy,
    maxSize: nat,
    checksum: Checksum,
    hasHandler: bool,
    allocates: nat -> bool,
    keeps: nat -> bool)

  function RulesAt(u: Setup, frame: nat): Rules {
    Rules(u.maxSize, u.checksum, u.allocates(frame))
  }

  /** The error that a parse raises, if any. */
  function Complaint(parsed: Parsed): seq<Event> {
    match parsed
    case Wrong(e) => [Failed(e)]
    case _ => []
  }

  /** The error that parsing `out` raises, if any. */
  function Verdict(u: Setup, frame: nat, out: seq<Byte>): seq<Event> {
    Complaint(Parse(RulesAt(u, frame), out))
  }

  /** Events before the delimiter of a frame has arrived. */
  function OpenLog(u: Setup, frame: nat, body: seq<Byte>): seq<Event> {
    var d := Decode(u.strategy, body);
    if Verdict(u, frame, d.out) != [] then Verdict(u, frame, d.out)
    else if d.ending.Corrupt? then [Failed(StreamReading)]
    else []
  }

  /** Events of a terminated frame. Whatever is not a whole packet ends with a stream error. */
  function FrameLog(u: Setup, frame: nat, body: seq<Byte>): seq<Event> {
    var d := Decode(u.strategy, body);
    if OpenLog(u, frame, body) != [] then OpenLog(u, frame, body) + [Failed(StreamReading)]
    else if d.ending.Truncated? then [Failed(StreamReading), Failed(StreamReading)]
    else match Parse(RulesAt(u, frame), d.out)
      case Whole(p) => [if u.hasHandler then Delivered(p) else Failed(PacketHandlerNotSet)]
      case _ => [Failed(StreamReading)]
  }

  function FramesLog(u: Setup, bodies: seq<seq<Byte>>): seq<Event> {
    Gather(LogOf(u), bodies)
  }

  function LogOf(u: Setup): (nat, seq<Byte>) -> seq<Event> {
    (i: nat, body: seq<Byte>) => FrameLog(u, i, body)
  }

  /** Everything that happens while `s` is received. */
  function TraceOf(u: Setup, s: seq<Byte>): seq<Event> {
    var d := Delimiter(u.strategy);
    FramesLog(u, Bodies(d, s)) + OpenLog(u, |Bodies(d, s)|, Rest(d, s))
  }

  lemma EmptyTail(u: Setup, frame: nat)
    ensures OpenLog(u, frame, []) == []
  {
  }

  /** The frame is good: it carries the bytes of packet `p`, and its buffer can be had. */
  ghost predicate Good(u: Setup, frame: nat, body: seq<Byte>, p: Packet)
    requires Accepted(u.strategy)
  {
    exists out :: AcceptedBodies.Carries(u.strategy, body, out) && Forms(u, frame, out, p)
  }

  predicate Forms(u: Setup, frame: nat, out: seq<Byte>, p: Packet) {
    && u.allocates(frame) && out != [] && p.id == IdOf(out[0])
    && IsPacket(RulesAt(u, frame), out, out[0], p.data)
  }

  lemma GoodExactly(u: Setup, frame: nat, body: seq<Byte>, p: Packet)
    requires Accepted(u.strategy) && Free(Delimiter(u.strategy), body)
    ensures var d := Decode(u.strategy, body);
            Good(u, frame, body, p) <==> d.ending.Complete? && Parse(RulesAt(u, frame), d.out) == Whole(p)
  {
    hide Decode, Parse, AcceptedBodies.Carries, IsPacket;
    var d := Decode(u.strategy, body);
    forall out ensures d == Decoded(out, Complete) <==> AcceptedBodies.Carries(u.strategy, body, out) {
      AcceptedBodies.CompleteExactly(u.strategy, body, out);
    }
    WholeExactly(RulesAt(u, frame), d.out, p);
  }

  /** A terminated frame delivers its packet exactly if it is good and there is a handler; every other frame is
      reported, with one error or two and nothing delivered, a good one with the missing handler only. */
  lemma NothingGoesUnreported(u: Setup, frame: nat, body: seq<Byte>, p: Packet)
    requires Accepted(u.strategy) && Free(Delimiter(u.strategy), body)
    ensures FrameLog(u, frame, body) == [Delivered(p)] <==> u.hasHandler && Good(u, frame, body, p)
    ensures Good(u, frame, body, p) && !u.hasHandler ==> FrameLog(u, frame, body) == [Failed(PacketHandlerNotSet)]
    ensures var log := FrameLog(u, frame, body);
            (forall q :: !Good(u, frame, body, q)) ==>
              1 <= |log| <= 2 && log[|log| - 1] == Failed(StreamReading) && log[0].Failed?
  {
    hide Decode, Parse, Good;
    var d := Decode(u.strategy, body);
    forall q ensures Good(u, frame, body, q) <==> d.ending.Complete? && Parse(RulesAt(u, frame), d.out) == Whole(q) {
      GoodExactly(u, frame, body, q);
    }
  }

  /** Which errors a frame is reported with: the one its bytes bring about in the receiver, before or at the
      delimiter, and a stream error for whatever did not become a packet. */
  lemma ReportedErrors(u: Setup, frame: nat, body: seq<Byte>)
    ensures var d := Decode(u.strategy, body);
            match Parse(RulesAt(u, frame), d.out)
            case Wrong(e) =>
              && OpenLog(u, frame, body) == [Failed(e)]
              && FrameLog(u, frame, body) == [Failed(e), Failed(StreamReading)]
            case More =>
              FrameLog(u, frame, body)
              == (if d.ending.Complete? then [] else [Failed(StreamReading)]) + [Failed(StreamReading)]
            case Whole(_) =>
              !d.ending.Complete? ==> FrameLog(u, frame, body) == [Failed(StreamReading), Failed(StreamReading)]
  {
    hide Decode, Parse;
  }

  // ---- Exactly the good packets ----

  /** The packet that a frame carries, if it decodes without error and parses exactly. */
  function Carried(u: Setup, frame: nat, body: seq<Byte>): seq<Packet> {
    var d := Decode(u.strategy, body);
    match Parse(RulesAt(u, frame), d.out)
    case Whole(p) => if u.hasHandler && d.ending.Complete? then [p] else []
    case _ => []
  }

  function AllCarried(u: Setup, bodies: seq<seq<Byte>>): seq<Packet> {
    Gather(CarriedBy(u), bodies)
  }

  function CarriedBy(u: Setup): (nat, seq<Byte>) -> seq<Packet> {
    (i: nat, body: seq<Byte>) => Carried(u, i, body)
  }

  /** The packets handed to the packet handler. */
  function Deliveries(log: seq<Event>): seq<Packet> {
    if log == [] then []
    else Deliveries(log[..|log| - 1]) + match log[|log| - 1] case Delivered(p) => [p] case Failed(_) => []
  }

  lemma {:induction false} DeliveriesConcat(a: seq<Event>, b: seq<Event>)
    ensures Deliveries(a + b) == Deliveries(a) + Deliveries(b)
    decreases |b|
  {
    if b == [] {
      assert a + b == a;
    } else {
      assert (a + b)[..|a + b| - 1] == a + b[..|b| - 1];
      DeliveriesConcat(a, b[..|b| - 1]);
    }
  }

  lemma DeliveriesOfOne(x: Event)
    ensures Deliveries([x]) == match x case Delivered(p) => [p] case Failed(_) => []
  {
    assert [x][..0] == [];
  }

  lemma DeliveredByFrame(u: Setup, frame: nat, body: seq<Byte>)
    ensures Deliveries(FrameLog(u, frame, body)) == Carried(u, frame, body)
    ensures Deliveries(OpenLog(u, frame, body)) == []
  {
    assert Deliveries([]) == [];
    hide Parse, Decode, Deliveries;
    var e := Failed(StreamReading);
    forall x: Event ensures Deliveries([x]) == match x case Delivered(p) => [p] case Failed(_) => [] {
      DeliveriesOfOne(x);
    }
    DeliveriesConcat(OpenLog(u, frame, body), [e]);
    DeliveriesConcat([e], [e]);
    assert [e] + [e] == [e, e];
  }

  lemma {:induction false} DeliveriesGather(f: (nat, seq<Byte>) -> seq<Event>, g: (nat, seq<Byte>) -> seq<Packet>,
                                            bodies: seq<seq<Byte>>)
    requires forall i: nat, body :: Deliveries(f(i, body)) == g(i, body)
    ensures Deliveries(Gather(f, bodies)) == Gather(g, bodies)
    decreases |bodies|
  {
    if bodies == [] {
    } else {
      var n := |bodies| - 1;
      DeliveriesGather(f, g, bodies[..n]);
      DeliveriesConcat(Gather(f, bodies[..n]), f(n, bodies[n]));
    }
  }

  /** For every byte stream, the packets delivered are those of the terminated frames that decode without
      error and parse exactly, in order, once each. */
  lemma ExactlyTheGoodPackets(u: Setup, s: seq<Byte>)
    ensures Deliveries(TraceOf(u, s)) == AllCarried(u, Bodies(Delimiter(u.strategy), s))
  {
    var d := Delimiter(u.strategy);
    forall i: nat, body ensures Deliveries(LogOf(u)(i, body)) == CarriedBy(u)(i, body) {
      DeliveredByFrame(u, i, body);
    }
    DeliveriesGather(LogOf(u), CarriedBy(u), Bodies(d, s));
    DeliveredByFrame(u, |Bodies(d, s)|, Rest(d, s));
    DeliveriesConcat(FramesLog(u, Bodies(d, s)), OpenLog(u, |Bodies(d, s)|, Rest(d, s)));
  }

  // ---- End to end ----

  predicate Sendable(u: Setup, p: Packet) {
    p.id <= 31 && 1 <= |p.data| < 0x10000 && |p.data| <= u.maxSize
  }

  /** A packet and whether it is sent with a checksum. */
  datatype Outgoing = Outgoing(packet: Packet, checked: bool)

  predicate AllSendable(u: Setup, xs: seq<Outgoing>) {
    forall i :: 0 <= i < |xs| ==> Sendable(u, xs[i].packet)
  }

  function SentBody(u: Setup, x: Outgoing): (body: seq<Byte>)
    requires Accepted(u.strategy) && Sendable(u, x.packet)
    ensures Free(Delimiter(u.strategy), body)
  {
    Body(u.strategy, PacketBytes(u.checksum, x.packet, x.checked))
  }

  function SentBodies(u: Setup, xs: seq<Outgoing>): (bodies: seq<seq<Byte>>)
    requires Accepted(u.strategy) && AllSendable(u, xs)
    ensures |bodies| == |xs| && forall i :: 0 <= i < |xs| ==> bodies[i] == SentBody(u, xs[i])
    ensures AllFree(Delimiter(u.strategy), bodies)
  {
    seq(|xs|, i requires 0 <= i < |xs| => SentBody(u, xs[i]))
  }

  /** The bytes of a list of packets on the line. */
  function Sent(u: Setup, xs: seq<Outgoing>): seq<Byte>
    requires Accepted(u.strategy) && AllSendable(u, xs)
  {
    Terminated(Delimiter(u.strategy), SentBodies(u, xs))
  }

  function Arrivals(xs: seq<Outgoing>): seq<Event> {
    seq(|xs|, i requires 0 <= i < |xs| => Delivered(xs[i].packet))
  }

  predicate Reliable(u: Setup) {
    Accepted(u.strategy) && u.hasHandler
  }

  ghost predicate NeverShort(u: Setup) {
    forall i: nat :: u.allocates(i)
  }

  lemma OnePacketArrives(u: Setup, frame: nat, x: Outgoing)
    requires Reliable(u) && u.allocates(frame) && Sendable(u, x.packet)
    ensures FrameLog(u, frame, SentBody(u, x)) == [Delivered(x.packet)]
  {
    hide Decode, Parse, Body, PacketBytes, Accepted;
    RoundTrip.DecodeUndoesEncode(u.strategy, PacketBytes(u.checksum, x.packet, x.checked));
    ParsePacketBytes(RulesAt(u, frame), x.packet, x.checked);
  }

  lemma FramesArrive(u: Setup, xs: seq<Outgoing>)
    requires Reliable(u) && NeverShort(u) && AllSendable(u, xs)
    ensures FramesLog(u, SentBodies(u, xs)) == Arrivals(xs)
  {
    forall i | 0 <= i < |xs| ensures FrameLog(u, i, SentBodies(u, xs)[i]) == [Arrivals(xs)[i]] {
      OnePacketArrives(u, i, xs[i]);
    }
    GatherSingles(LogOf(u), SentBodies(u, xs), Arrivals(xs));
  }

  /** Whatever packets are sent, through any strategy under any accepted configuration, the receiver
      delivers exactly those, in order, and reports no error. */
  lemma EndToEnd(u: Setup, xs: seq<Outgoing>)
    requires Reliable(u) && NeverShort(u) && AllSendable(u, xs)
    ensures TraceOf(u, Sent(u, xs)) == Arrivals(xs)
  {
    CutTerminated(Delimiter(u.strategy), SentBodies(u, xs));
    FramesArrive(u, xs);
    EmptyTail(u, |xs|);
  }

  // ---- Resynchronisation ----

  /** The same receiver, `n` frames later. */
  function Later(u: Setup, n: nat): Setup {
    u.(allocates := (i: nat) => u.allocates(i + n), keeps := (i: nat) => u.keeps(i + n))
  }

  lemma LaterFrame(u: Setup, n: nat, frame: nat, body: seq<Byte>)
    ensures FrameLog(Later(u, n), frame, body) == FrameLog(u, frame + n, body)
    ensures OpenLog(Later(u, n), frame, body) == OpenLog(u, frame + n, body)
  {
    assert RulesAt(Later(u, n), frame) == RulesAt(u, frame + n);
  }

  lemma LogConcat(u: Setup, a: seq<seq<Byte>>, b: seq<seq<Byte>>)
    ensures FramesLog(u, a + b) == FramesLog(u, a) + FramesLog(Later(u, |a|), b)
  {
    hide FrameLog, Gather;
    forall i: nat, body ensures LogOf(Later(u, |a|))(i, body) == LogOf(u)(i + |a|, body) {
      LaterFrame(u, |a|, i, body);
    }
    GatherConcat(LogOf(u), LogOf(Later(u, |a|)), a, b);
  }

  lemma LogSplit(u: Setup, a: seq<seq<Byte>>, b: seq<seq<Byte>>, rest: seq<Byte>)
    ensures FramesLog(u, a + b) + OpenLog(u, |a + b|, rest)
         == FramesLog(u, a) + OpenLog(u, |a|, [])
            + (FramesLog(Later(u, |a|), b) + OpenLog(Later(u, |a|), |b|, rest))
  {
    hide FrameLog, OpenLog, FramesLog;
    LogConcat(u, a, b);
    LaterFrame(u, |a|, |b|, rest);
    EmptyTail(u, |a|);
    Regroup(FramesLog(u, a), FramesLog(Later(u, |a|), b), OpenLog(u, |a| + |b|, rest));
  }

  lemma Regroup(a: seq<Event>, b: seq<Event>, c: seq<Event>)
    ensures (a + b) + c == a + [] + (b + c)
  {
  }

  /** After any delimiter, whatever came before, the rest of the stream is received as by a fresh receiver. */
  lemma Resynchronises(u: Setup, garbage: seq<Byte>, t: seq<Byte>)
    ensures var d := Delimiter(u.strategy);
            TraceOf(u, garbage + [d] + t)
            == TraceOf(u, garbage + [d]) + TraceOf(Later(u, |Bodies(d, garbage)| + 1), t)
  {
    hide FrameLog, OpenLog, FramesLog, Bodies, Rest, Delimiter;
    var d := Delimiter(u.strategy);
    CutOneMore(d, garbage, d);
    CutAfterDelimiter(d, garbage + [d], t);
    LogSplit(u, Bodies(d, garbage + [d]), Bodies(d, t), Rest(d, t));
  }

  lemma SentByAlike(u: Setup, v: Setup, xs: seq<Outgoing>)
    requires v.strategy == u.strategy && v.checksum == u.checksum
    requires Accepted(u.strategy) && AllSendable(u, xs) && AllSendable(v, xs)
    ensures Sent(v, xs) == Sent(u, xs)
  {
    hide Terminated, Body, PacketBytes;
    assert SentBodies(v, xs) == SentBodies(u, xs);
  }

  /** Packets sent after arbitrary garbage and one delimiter all arrive. */
  lemma RecoversFromGarbage(u: Setup, garbage: seq<Byte>, xs: seq<Outgoing>)
    requires Reliable(u) && NeverShort(u) && AllSendable(u, xs)
    ensures var s := garbage + [Delimiter(u.strategy)];
            TraceOf(u, s + Sent(u, xs)) == TraceOf(u, s) + Arrivals(xs)
  {
    hide TraceOf, Sent, Bodies, Delimiter, Arrivals;
    var v := Later(u, |Bodies(Delimiter(u.strategy), garbage)| + 1);
    Resynchronises(u, garbage, Sent(u, xs));
    SentByAlike(u, v, xs);
    EndToEnd(v, xs);
  }

  // ---- Checksum errors ----

  ghost predicate IsCrc(f: Checksum, poly: Byte) {
    forall data: seq<Byte>, c: Byte :: f(data, c) == Crc8.Crc(data, c, poly)
  }

  /** The checksum value from which the data of a packet is continued: it depends on header and size only. */
  function ChecksumStart(f: Checksum, header: Byte, size: nat): Byte {
    var c := f([size % 256], f([header], 255));
    if HasTwoByteSize(header) then f([size / 256 % 256], c) else c
  }

  /** The bytes sent for a checked packet after an error in data and checksum, which are the last of them. */
  function Damaged(f: Checksum, p: Packet, e: seq<Byte>): seq<Byte>
    requires p.id <= 31 && 1 <= |p.data| < 0x10000 && |e| == |p.data| + 1
  {
    var sent := PacketBytes(f, p, true);
    var head := |sent| - |e|;
    sent[..head] + Crc8.XorBytes(sent[head..], e)
  }

  lemma DamagedLayout(f: Checksum, p: Packet, e: seq<Byte>)
    requires p.id <= 31 && 1 <= |p.data| < 0x10000 && |e| == |p.data| + 1
    ensures var header := Header(p.id, |p.data| > 255, true);
            Damaged(f, p, e)
            == [header] + SizeBytes(|p.data|) + Crc8.XorBytes(p.data + [CalcChecksum(f, header, p.data)], e)
  {
    var header := Header(p.id, |p.data| > 255, true);
    var head, tail := [header] + SizeBytes(|p.data|), p.data + [CalcChecksum(f, header, p.data)];
    var sent := PacketBytes(f, p, true);
    assert sent == head + tail;
    assert sent[..|head|] == head && sent[|head|..] == tail;
  }

  lemma ChecksumIsCrc(f: Checksum, poly: Byte, header: Byte, data: seq<Byte>)
    requires IsCrc(f, poly) && HasChecksum(header)
    ensures CalcChecksum(f, header, data) == Crc8.Crc(data, ChecksumStart(f, header, |data|), poly)
  {
  }

  /** The bytes that the checksum covers before the data: header, low size byte, high size byte if there is one. */
  function CheckedHead(header: Byte, size: nat): seq<Byte> {
    [header] + ([size % 256] + if HasTwoByteSize(header) then [size / 256 % 256] else [])
  }

  lemma StartIsCrc(f: Checksum, poly: Byte, header: Byte, size: nat)
    requires IsCrc(f, poly)
    ensures ChecksumStart(f, header, size) == Crc8.Crc(CheckedHead(header, size), 255, poly)
  {
    hide Crc8.Crc;
    var low, high := [size % 256], [size / 256 % 256];
    Crc8.CrcChains([header], low, 255, poly);
    Crc8.CrcChains([header] + low, high, 255, poly);
    assert [header] + (low + high) == [header] + low + high && low + [] == low;
  }

  /** The chained calls of the checksum function amount to one over everything the checksum covers. */
  lemma ChecksumCoversAll(f: Checksum, poly: Byte, header: Byte, data: seq<Byte>)
    requires IsCrc(f, poly) && HasChecksum(header)
    ensures CalcChecksum(f, header, data) == Crc8.Crc(CheckedHead(header, |data|) + data, 255, poly)
  {
    hide *;
    ChecksumIsCrc(f, poly, header, data);
    StartIsCrc(f, poly, header, |data|);
    Crc8.CrcChains(CheckedHead(header, |data|), data, 255, poly);
  }

  lemma ChecksumNotices(f: Checksum, poly: Byte, header: Byte, data: seq<Byte>, e: seq<Byte>)
    requires IsCrc(f, poly) && poly % 2 == 1 && HasChecksum(header)
    requires |e| == |data| + 1 && Crc8.IsBurst(e)
    ensures var received := Crc8.XorBytes(data + [CalcChecksum(f, header, data)], e);
            received[|data|] != CalcChecksum(f, header, received[..|data|])
  {
    ChecksumIsCrc(f, poly, header, data);
    var received := Crc8.XorBytes(data + [CalcChecksum(f, header, data)], e);
    ChecksumIsCrc(f, poly, header, received[..|data|]);
    Crc8.BurstDetected(data, ChecksumStart(f, header, |data|), poly, e);
  }

  lemma DamageIsNoticed(r: Rules, poly: Byte, p: Packet, e: seq<Byte>)
    requires IsCrc(r.checksum, poly) && poly % 2 == 1 && r.canAllocate
    requires p.id <= 31 && 1 <= |p.data| < 0x10000 && |p.data| <= r.maxSize
    requires |e| == |p.data| + 1 && Crc8.IsBurst(e)
    ensures Parse(r, Damaged(r.checksum, p, e)) == Wrong(ChecksumMismatch)
  {
    var size, header := |p.data|, Header(p.id, |p.data| > 255, true);
    HeaderFields(p.id, size > 255, true);
    ChecksumNotices(r.checksum, poly, header, p.data, e);
    var received := Crc8.XorBytes(p.data + [CalcChecksum(r.checksum, header, p.data)], e);
    ParseMismatch(r, header, received);
    DamagedLayout(r.checksum, p, e);
  }

  lemma DamagedFrame(u: Setup, frame: nat, poly: Byte, p: Packet, e: seq<Byte>)
    requires Accepted(u.strategy) && u.allocates(frame) && Sendable(u, p)
    requires IsCrc(u.checksum, poly) && poly % 2 == 1
    requires |e| == |p.data| + 1 && Crc8.IsBurst(e)
    ensures FrameLog(u, frame, Body(u.strategy, Damaged(u.checksum, p, e)))
         == [Failed(ChecksumMismatch), Failed(StreamReading)]
  {
    RoundTrip.DecodeUndoesEncode(u.strategy, Damaged(u.checksum, p, e));
    DamageIsNoticed(RulesAt(u, frame), poly, p, e);
  }

  /** A whole frame that arrives after a delimiter adds its own events, whatever came before. */
  lemma FrameArrives(u: Setup, s: seq<Byte>, body: seq<Byte>)
    requires Free(Delimiter(u.strategy), body) && Rest(Delimiter(u.strategy), s) == []
    ensures var d := Delimiter(u.strategy);
            TraceOf(u, s + body + [d]) == TraceOf(u, s) + FrameLog(u, |Bodies(d, s)|, body)
  {
    hide FrameLog, OpenLog, Gather, Bodies, Rest, Delimiter;
    var d := Delimiter(u.strategy);
    CutFree(d, s, body);
    CutOneMore(d, s + body, d);
    GatherOneMore(LogOf(u), Bodies(d, s), body);
    EmptyTail(u, |Bodies(d, s)|);
    EmptyTail(u, |Bodies(d, s)| + 1);
    assert [] + body == body;
  }

  /** An error burst of at most eight bits in the data and checksum of a packet, for any odd CRC polynomial and
      any strategy, adds a checksum error and no delivery to whatever the stream before it has brought about. */
  lemma BurstNeverDelivered(u: Setup, s: seq<Byte>, poly: Byte, p: Packet, e: seq<Byte>)
    requires Accepted(u.strategy) && Rest(Delimiter(u.strategy), s) == []
    requires u.allocates(|Bodies(Delimiter(u.strategy), s)|) && Sendable(u, p)
    requires IsCrc(u.checksum, poly) && poly % 2 == 1
    requires |e| == |p.data| + 1 && Crc8.IsBurst(e)
    ensures var d := Delimiter(u.strategy);
            TraceOf(u, s + Body(u.strategy, Damaged(u.checksum, p, e)) + [d])
            == TraceOf(u, s) + [Failed(ChecksumMismatch), Failed(StreamReading)]
  {
    hide FrameLog, TraceOf, Bodies, Rest, Body, Damaged, Delimiter;
    DamagedFrame(u, |Bodies(Delimiter(u.strategy), s)|, poly, p, e);
    FrameArrives(u, s, Body(u.strategy, Damaged(u.checksum, p, e)));
  }
}
