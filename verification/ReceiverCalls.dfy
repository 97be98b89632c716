/** What a receiver does when it is called directly, with any bytes, statuses and resets in any order
    (the public functions of src/receiver.cpp), and what becomes of its packet buffers. */
module ReceiverCalls {
  import opened Bytes
  import opened Packets
  import opened Trace

  /** A call of `parse_packet_byte`, with whether the allocation succeeds and whether the packet handler keeps the
      buffer if this call comes to that, or a call of `reset`. */
  datatype Call =
    | ParseCall(byte: Byte, status: Status, canAllocate: bool, keep: bool)
    | ResetCall(needWaitDelimiter: bool)

  /** The bytes heard since the last event or reset, whether the stream reader has been told to wait for the
      delimiter, and what the outside world has seen. */
  datatype Standing = Standing(heard: seq<Byte>, waiting: bool, log: seq<Event>,
                               allocations: nat, releases: nat, kept: nat)

  const FRESH := Standing([], false, [], 0, 0, 0)

  function Dropped(s: Standing, waiting: bool): Standing {
    s.(heard := [], waiting := waiting, releases := s.releases + if HasBuffer(s.heard) then 1 else 0)
  }

  /** An error makes the reader wait, unless the delimiter has just come. */
  function Failing(s: Standing, e: Error, waiting: bool): Standing {
    Dropped(s, waiting).(log := s.log + [Failed(e)])
  }

  /** The rules for one call: an allocation that has been made cannot fail any more. */
  function RulesFor(u: Setup, heard: seq<Byte>, canAllocate: bool): Rules {
    Rules(u.maxSize, u.checksum, canAllocate || HasBuffer(heard))
  }

  function Hearing(u: Setup, s: Standing, b: Byte, canAllocate: bool): Standing {
    var heard := s.heard + [b];
    match Parse(RulesFor(u, s.heard, canAllocate), heard)
    case Wrong(e) => Failing(s, e, true)
    case _ =>
      s.(heard := heard, allocations := s.allocations + if HasBuffer(heard) && !HasBuffer(s.heard) then 1 else 0)
  }

  function Closing(u: Setup, s: Standing, keep: bool): Standing {
    match Parse(RulesFor(u, s.heard, false), s.heard)
    case Whole(p) =>
      if !u.hasHandler then Failing(s, PacketHandlerNotSet, true)
      else if keep then s.(heard := [], waiting := false, log := s.log + [Delivered(p)], kept := s.kept + 1)
      else Dropped(s, false).(log := s.log + [Delivered(p)])
    case _ => Failing(s, StreamReading, false)
  }

  function After(u: Setup, s: Standing, call: Call): Standing {
    match call
    case ResetCall(needWaitDelimiter) => Dropped(s, needWaitDelimiter)
    case ParseCall(b, ReadOk, canAllocate, _) => Hearing(u, s, b, canAllocate)
    case ParseCall(_, ReadDelimiter, _, keep) => Closing(u, s, keep)
    case ParseCall(_, _, _, _) => Failing(s, StreamReading, true)
  }

  function Run(u: Setup, s: Standing, calls: seq<Call>): Standing {
    if calls == [] then s else After(u, Run(u, s, calls[..|calls| - 1]), calls[|calls| - 1])
  }

  /** Every buffer allocated has been released, is kept by the handler, or belongs to the packet being heard. */
  predicate Settled(s: Standing) {
    s.allocations == s.releases + s.kept + if HasBuffer(s.heard) then 1 else 0
  }

  /** What has been heard is fine so far. */
  predicate Fine(u: Setup, s: Standing) {
    !Parse(Rules(u.maxSize, u.checksum, true), s.heard).Wrong?
  }

  lemma WholeHasBuffer(r: Rules, s: seq<Byte>)
    requires Parse(r, s).Whole?
    ensures HasBuffer(s)
  {
  }

  lemma BufferStays(s: seq<Byte>, b: Byte)
    requires HasBuffer(s)
    ensures HasBuffer(s + [b])
  {
  }

  lemma OneCall(u: Setup, s: Standing, call: Call)
    requires Settled(s) && Fine(u, s)
    ensures Settled(After(u, s, call)) && Fine(u, After(u, s, call))
  {
    match call {
      case ResetCall(_) =>
      case ParseCall(b, status, canAllocate, keep) =>
        if status == ReadOk && HasBuffer(s.heard) {
          BufferStays(s.heard, b);
        } else if status == ReadDelimiter && Parse(RulesFor(u, s.heard, false), s.heard).Whole? {
          WholeHasBuffer(RulesFor(u, s.heard, false), s.heard);
        }
    }
  }

  /** No sequence of calls loses or doubles a buffer. */
  lemma {:induction false} AlwaysSettled(u: Setup, s: Standing, calls: seq<Call>)
    requires Settled(s) && Fine(u, s)
    ensures Settled(Run(u, s, calls)) && Fine(u, Run(u, s, calls))
    decreases |calls|
  {
    if calls == [] {
    } else {
      var n := |calls| - 1;
      AlwaysSettled(u, s, calls[..n]);
      OneCall(u, Run(u, s, calls[..n]), calls[n]);
    }
  }

  lemma RunNothing(u: Setup, s: Standing)
    ensures Run(u, s, []) == s
  {
  }

  lemma RunOneMore(u: Setup, s: Standing, calls: seq<Call>, call: Call)
    ensures Run(u, s, calls + [call]) == After(u, Run(u, s, calls), call)
  {
    assert (calls + [call])[..|calls|] == calls;
  }
}
