/** The objects at work: a transmitter whose bytes are fed to a receiver, and a receiver that is called directly. */
module Loopback {
  import opened Bytes
  import opened Framing
  import opened Packets
  import Pipeline
  import ReceiverCalls
  import Sending
  import opened Strategies
  import opened Trace

  lemma OneMoreSent(u: Setup, xs: seq<Outgoing>, x: Outgoing)
    requires Accepted(u.strategy) && Sendable(u, x.packet) && AllSendable(u, xs)
    ensures AllSendable(u, xs + [x])
    ensures Sent(u, xs + [x]) == Sent(u, xs) + Frame(u.strategy, PacketBytes(u.checksum, x.packet, x.checked))
  {
    hide Body, PacketBytes, Accepted, Delimiter, Terminated;
    assert SentBodies(u, xs + [x]) == SentBodies(u, xs) + [SentBody(u, x)];
    TerminateOneMore(Delimiter(u.strategy), SentBodies(u, xs), SentBody(u, x));
  }

  /** A call of `send_packet`. */
  datatype Request = Request(id: Byte, data: seq<Byte>, usage: Sending.ChecksumUsage)

  /** A transmitter with this maximum size sends the packet: size and id are in range. */
  predicate Admissible(max: nat, q: Request) {
    q.id <= 31 && 1 <= |q.data| < 0x10000 && |q.data| <= max
  }

  /** The packets that a fresh transmitter sends when asked for `qs`; by default it adds a checksum. */
  function Admitted(max: nat, qs: seq<Request>): seq<Outgoing> {
    if qs == [] then []
    else
      var q := qs[|qs| - 1];
      Admitted(max, qs[..|qs| - 1])
      + if Admissible(max, q) then [Outgoing(Packet(q.id, q.data), q.usage != Sending.WithoutChecksum)] else []
  }

  lemma AdmitOneMore(max: nat, qs: seq<Request>, q: Request)
    ensures Admitted(max, qs + [q])
         == Admitted(max, qs)
            + if Admissible(max, q) then [Outgoing(Packet(q.id, q.data), q.usage != Sending.WithoutChecksum)] else []
  {
    assert (qs + [q])[..|qs|] == qs;
  }

  /** Only packets with size and id in range are ever sent. */
  lemma {:induction false} AdmittedAreSendable(u: Setup, qs: seq<Request>)
    ensures AllSendable(u, Admitted(u.maxSize, qs))
  {
    if qs == [] {
    } else {
      AdmittedAreSendable(u, qs[..|qs| - 1]);
    }
  }

  /** If nothing is out of range, everything asked for is sent. */
  lemma {:induction false} AllAdmitted(max: nat, qs: seq<Request>)
    requires forall i :: 0 <= i < |qs| ==> Admissible(max, qs[i])
    ensures |Admitted(max, qs)| == |qs|
    ensures forall i :: 0 <= i < |qs| ==> Admitted(max, qs)[i].packet == Packet(qs[i].id, qs[i].data)
  {
    if qs == [] {
    } else {
      AllAdmitted(max, qs[..|qs| - 1]);
    }
  }

  /** What one request puts on the line: a frame, or nothing. */
  function Answer(s: Strategy, f: Checksum, max: nat, q: Request): seq<Byte>
    requires Accepted(s)
  {
    if Admissible(max, q) then
      Frame(s, PacketBytes(f, Packet(q.id, q.data), q.usage != Sending.WithoutChecksum))
    else []
  }

  method SendOne(transmitter: Sending.Transmitter, q: Request)
    requires transmitter.Valid() && transmitter.writer != null && transmitter.useChecksum && |q.data| < 0x10000
    requires transmitter.writer.out == transmitter.writer.done && Accepted(transmitter.writer.strategy)
    modifies transmitter.writer, transmitter.writer.buffer
    ensures transmitter.Valid() && transmitter.writer.out == transmitter.writer.done
    ensures transmitter.writer.out
         == old(transmitter.writer.out)
            + Answer(transmitter.writer.strategy, transmitter.checksum, transmitter.maxSize, q)
  {
    hide Frame, PacketBytes, Sending.Transmitter.Valid, Accepted;
    var status := transmitter.SendPacket(q.id, q.data, q.usage);
  }

  /** What a fresh transmitter puts on the line for any requests: the frames of those in range, and nothing else. */
  function OnTheLine(u: Setup, qs: seq<Request>): (line: seq<Byte>)
    requires Accepted(u.strategy)
    ensures AllSendable(u, Admitted(u.maxSize, qs)) && line == Sent(u, Admitted(u.maxSize, qs))
  {
    AdmittedAreSendable(u, qs);
    Sent(u, Admitted(u.maxSize, qs))
  }

  lemma NothingSent(u: Setup)
    requires Accepted(u.strategy)
    ensures OnTheLine(u, []) == []
  {
  }

  lemma AnswerOneMore(u: Setup, qs: seq<Request>, q: Request)
    requires Accepted(u.strategy)
    ensures OnTheLine(u, qs + [q]) == OnTheLine(u, qs) + Answer(u.strategy, u.checksum, u.maxSize, q)
  {
    hide Sent, Frame, PacketBytes, Accepted, AllSendable;
    AdmitOneMore(u.maxSize, qs, q);
    AdmittedAreSendable(u, qs);
    if Admissible(u.maxSize, q) {
      OneMoreSent(u, Admitted(u.maxSize, qs), Outgoing(Packet(q.id, q.data), q.usage != Sending.WithoutChecksum));
    } else {
      assert Admitted(u.maxSize, qs + [q]) == Admitted(u.maxSize, qs);
      assert OnTheLine(u, qs) + [] == OnTheLine(u, qs);
    }
  }

  method SendAll(u: Setup, qs: seq<Request>) returns (line: seq<Byte>)
    requires Accepted(u.strategy) && forall i :: 0 <= i < |qs| ==> |qs[i].data| < 0x10000
    ensures AllSendable(u, Admitted(u.maxSize, qs)) && line == Sent(u, Admitted(u.maxSize, qs))
  {
    assert qs[..0] == [] && qs[..|qs|] == qs;
    hide *;
    NothingSent(u);
    var writer := new Sending.StreamWriter(u.strategy);
    var transmitter := new Sending.Transmitter(writer, u.maxSize, u.checksum);
    for i := 0 to |qs|
      invariant transmitter.Valid() && transmitter.writer == writer && fresh(writer) && fresh(writer.buffer)
      invariant transmitter.maxSize == u.maxSize && transmitter.checksum == u.checksum && transmitter.useChecksum
      invariant writer.strategy == u.strategy && writer.out == writer.done == OnTheLine(u, qs[..i])
    {
      assert qs[..i + 1] == qs[..i] + [qs[i]];
      AnswerOneMore(u, qs[..i], qs[i]);
      SendOne(transmitter, qs[i]);
    }
    line := writer.out;
  }

  /** A receiver fed with a stream in pieces of any size. */
  method ReceiveAll(u: Setup, line: seq<Byte>, pieces: seq<nat>) returns (log: seq<Event>)
    ensures log == TraceOf(u, line)
  {
    hide *;
    var receiver := new Pipeline.ReceivePipeline(u, true);
    var fed := 0;
    for i := 0 to |pieces|
      invariant receiver.Valid() && fresh(receiver) && (receiver.buffer != null ==> fresh(receiver.buffer))
      invariant fed <= |line| && receiver.consumed == line[..fed]
    {
      var next := if fed + pieces[i] <= |line| then fed + pieces[i] else |line|;
      var status := receiver.ReadBuffer(line[fed..next]);
      assert line[..next] == line[..fed] + line[fed..next];
      fed := next;
    }
    var status := receiver.ReadBuffer(line[fed..]);
    assert line == line[..fed] + line[fed..];
    receiver.ValidMeans();
    log := receiver.log;
  }

  /** A receiver called directly, with any bytes, statuses and resets, whichever allocations succeed and whichever
      buffers the handler keeps: its events are those of the whole-packet parser, and no buffer is lost. */
  method CallDirectly(u: Setup, calls: seq<ReceiverCalls.Call>)
    returns (log: seq<Event>, allocations: nat, releases: nat, kept: nat, live: bool)
    ensures var s := ReceiverCalls.Run(u, ReceiverCalls.FRESH, calls);
            && log == s.log && kept == s.kept && allocations == s.allocations && live == HasBuffer(s.heard)
    ensures allocations == releases + kept + if live then 1 else 0
  {
    var receiver := new Pipeline.ReceivePipeline(u, true);
    receiver.ReachableIsSound();
    hide *;
    receiver.ObeyAll(calls);
    log, allocations, releases, kept := receiver.log, receiver.allocations, receiver.releases, receiver.kept;
    live := receiver.buffer != null;
  }

  /** Whatever is asked of the send side, the packets it sends are delivered, in order and once each, without an
      error, however the line cuts the stream into pieces. The two sides may have different maximum sizes. */
  method SendAndReceive(u: Setup, max: nat, qs: seq<Request>, pieces: seq<nat>) returns (log: seq<Event>)
    requires Reliable(u) && NeverShort(u) && AllSendable(u, Admitted(max, qs))
    requires forall i :: 0 <= i < |qs| ==> |qs[i].data| < 0x10000
    ensures log == Arrivals(Admitted(max, qs))
  {
    var sender := u.(maxSize := max);
    var line := SendAll(sender, qs);
    SentByAlike(u, sender, Admitted(max, qs));
    log := ReceiveAll(u, line, pieces);
    EndToEnd(u, Admitted(max, qs));
  }
}
