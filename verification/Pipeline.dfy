/** The receive side as one object: read strategy, stream reader and receiver. In the C++ code the three
    are objects that call each other back while a byte is being read; the calls are kept, in their order. */
module Pipeline {
  import ByteStuffing
  import CobsBlocks
  import CobsConfig
  import CobsReader
  import opened Bytes
  import opened Framing
  import opened Notices
  import opened Packets
  import opened ReaderStates
  import ReceiverCalls
  import opened Reading
  import opened Receiving
  import opened Strategies
  import opened Trace
  import opened TraceSteps

  /** Fields that a strategy does not have keep their initial value. */
  predicate Shaped(s: Strategy, st: ReadState) {
    match s
    case Cobs(c) => !st.escaped && (c.kind.Plain? ==> !st.run)
    case Stuffing(_) => st.offset == 0 && st.full && !st.run
  }

  /** What the last byte of `t`, not a delimiter, adds. */
  lemma OneByteMore(u: Setup, frame: nat, t: seq<Byte>)
    requires t != [] && t[|t| - 1] != Delimiter(u.strategy)
    requires frame == |Bodies(Delimiter(u.strategy), t[..|t| - 1])|
    ensures var d, s, b := Delimiter(u.strategy), t[..|t| - 1], t[|t| - 1];
            var p, q := Read(u.strategy, Rest(d, s)), Read(u.strategy, Rest(d, t));
            && q == Advance(u.strategy, p, b)
            && Bodies(d, t) == Bodies(d, s)
            && TraceOf(u, t) == TraceOf(u, s) + (if Spoiled(u, frame, p) then [] else Added(u, frame, p, b))
            && NoticesOf(u.strategy, t)
               == NoticesOf(u.strategy, s) + (if p.bad then [] else AddedNotices(u.strategy, p, b))
            && |KeptOf(u, t)| == |KeptOf(u, s)|
            && (Spoiled(u, frame, p) ==> Spoiled(u, frame, q))
  {
    hide TraceOf, NoticesOf, KeptOf, Feed, Parse, Gather, Verdict, Added, Closed, Step;
    var d, s, b := Delimiter(u.strategy), t[..|t| - 1], t[|t| - 1];
    assert t == s + [b];
    TraceGrows(u, s, b);
    NoticesGrow(u.strategy, s, b);
    KeptGrows(u, s, b);
    CutOneMore(d, s, b);
    FeedSnoc(u.strategy, BEGIN, Rest(d, s), b);
    OpenGrows(u, frame, Read(u.strategy, Rest(d, s)), b);
  }

  class ReceivePipeline {
    const setup: Setup
    /** Whether the stream reader's data handler is the receiver, or something that only records. */
    const attached: bool

    // The read strategy.
    var offset: Byte
    var full: bool
    var run: bool
    var escaped: bool

    // The stream reader.
    var waiting: bool

    // The receiver.
    var fsm: FsmState
    var header: Byte
    var size: nat
    var received: nat
    var buffer: array?<Byte>

    // What the handlers were called with, the number of delimiters read, and the fate of packet buffers.
    var log: seq<Event>
    var notices: seq<Notice>
    var frame: nat
    var allocations: nat
    var releases: nat
    var kept: nat

    /** All bytes read, and the data bytes of the current frame that reached the data handler. */
    ghost var consumed: seq<Byte>
    ghost var rx: seq<Byte>

    function State(): ReadState
      reads this
    {
      ReadState(offset, full, run, escaped)
    }

    ghost function Snap(): Snapshot
      reads this, buffer
    {
      Snapshot(fsm, header, size, received, if buffer == null then [] else buffer[..])
    }

    /** A packet buffer is live exactly while data, checksum or end are awaited, is as large as the packet, and
        every buffer allocated has been freed, was kept by the packet handler, or is the live one. */
    ghost predicate Owns()
      reads this
    {
      && Balanced()
      && (buffer != null <==> HoldsBuffer(fsm))
      && (buffer != null ==> buffer.Length == size && received <= size)
      && (buffer == null ==> received == 0)
    }

    ghost predicate Balanced()
      reads this
    {
      allocations == releases + kept + if buffer != null then 1 else 0
    }

    ghost predicate Idle()
      reads this
    {
      fsm == PacketHeader && received == 0 && buffer == null
    }

    /** The current frame is fine so far: strategy and receiver are where its bytes put them. */
    ghost predicate Listening()
      reads this, buffer
    {
      && !waiting && Owns() && Orderly(notices) && !EndsBroken(notices)
      && Shaped(setup.strategy, State())
      && if attached then Holds(RulesAt(setup, frame), rx, Snap()) else Idle()
    }

    /** The current frame is spoiled and everything up to the delimiter is ignored. The strategy may be
        anywhere: it was reset in the middle of reading a byte. */
    ghost predicate Deaf()
      reads this
    {
      waiting && Owns() && Idle() && Orderly(notices) && Shaped(setup.strategy, State())
    }

    /** Error events raised by the first data bytes of the current frame. */
    ghost function Heard(out: seq<Byte>): seq<Event>
      reads this
    {
      if attached then Verdict(setup, frame, out) else []
    }

    /** Between reads: the logs are those of the bytes read, and the state is that of the current frame. */
    ghost predicate Tracks(stream: seq<Byte>)
      reads this, buffer
    {
      var d := Delimiter(setup.strategy);
      var p := Read(setup.strategy, Rest(d, stream));
      && Owns() && Orderly(notices) && (EndsBroken(notices) ==> waiting)
      && frame == |Bodies(d, stream)|
      && log == (if attached then TraceOf(setup, stream) else [])
      && (attached ==> kept == |KeptOf(setup, stream)|)
      && (!attached ==> notices == NoticesOf(setup.strategy, stream))
      && if waiting then Deaf() && (p.bad || Heard(p.out) != [])
         else !p.bad && Listening() && rx == p.out && State() == p.state
    }

    /** The read strategy stands where the stream has left it, also while the delimiter is awaited. */
    ghost predicate Follows(stream: seq<Byte>)
      reads this, buffer
    {
      Tracks(stream) && State() == StateOf(setup, attached, stream)
    }

    ghost predicate Valid()
      reads this, buffer
    {
      Follows(consumed)
    }

    /** What a valid pipeline has told the outside world about the bytes read, and how it treats buffers. */
    ghost predicate Accountable()
      reads this
    {
      && (attached ==> log == TraceOf(setup, consumed) && kept == |KeptOf(setup, consumed)|)
      && (!attached ==> notices == NoticesOf(setup.strategy, consumed))
      && Orderly(notices) && Owns()
      && State() == StateOf(setup, attached, consumed) && waiting == Muted(setup, attached, consumed)
    }

    lemma ValidMeans()
      requires Valid()
      ensures Accountable()
      ensures attached ==> log == TraceOf(setup, consumed)
    {
      WaitingMeans(consumed);
    }

    lemma WaitingMeans(stream: seq<Byte>)
      requires Tracks(stream)
      ensures waiting == Muted(setup, attached, stream)
    {
      hide TraceOf, NoticesOf, KeptOf, Bodies, Rest, Feed, Parse, Holds, Orderly, Delimiter, Gather;
      if !waiting && attached {
        HoldsMeans(RulesAt(setup, frame), rx, Snap());
      }
    }

    constructor (setup: Setup, attached: bool)
      ensures Valid() && consumed == [] && this.setup == setup && this.attached == attached
      ensures buffer == null && Standing() == ReceiverCalls.FRESH
    {
      this.setup, this.attached := setup, attached;
      offset, full, run, escaped := 0, true, false, false;
      waiting := false;
      fsm, header, size, received, buffer := PacketHeader, 0, 0, 0, null;
      log, notices, frame, allocations, releases, kept := [], [], 0, 0, 0, 0;
      consumed, rx := [], [];
    }

    // ---- Receiver ----

    method ResetStrategy()
      modifies this`offset, this`full, this`run, this`escaped
      ensures State() == START
    {
      offset, full, run, escaped := 0, true, false, false;
    }

    /** `reset`: also resets stream reader and strategy, whoever is calling. */
    method Reset(needWaitDelimiter: bool)
      requires Balanced()
      modifies this
      ensures Owns() && Idle() && State() == START && waiting == needWaitDelimiter
      ensures unchanged(this`log, this`notices, this`frame, this`consumed, this`rx, this`allocations, this`kept)
    {
      waiting := needWaitDelimiter;
      ResetStrategy();
      fsm := PacketHeader;
      received := 0;
      if buffer != null {
        buffer := null;
        releases := releases + 1;
      }
    }

    method CauseError(e: Error)
      requires Owns()
      modifies this
      ensures Deafened(e) && Owns() && Idle()
    {
      log := log + [Failed(e)];
      Reset(true);
    }

    /** The receiver reported `e` and reset everything. */
    twostate predicate Deafened(e: Error)
      reads this
    {
      && State() == START && waiting && log == old(log) + [Failed(e)]
      && unchanged(this`notices, this`frame, this`consumed, this`rx, this`allocations, this`kept)
    }

    function Ruled(canAllocate: bool): Rules {
      Rules(setup.maxSize, setup.checksum, canAllocate)
    }

    /** The receiver took a data byte: it reported what the parser finds wrong with the bytes so far and
        reset everything, or it holds one byte more. */
    twostate predicate Took(b: Byte, canAllocate: bool)
      reads this, buffer
    {
      var r, complaint := Ruled(canAllocate), Complaint(Parse(Ruled(canAllocate), rx + [b]));
      && Owns() && unchanged(this`notices, this`frame, this`consumed, this`rx, this`kept)
      && log == old(log) + complaint
      && allocations == old(allocations) + (if old(buffer) == null && buffer != null then 1 else 0)
      && if complaint == [] then waiting == old(waiting) && State() == old(State()) && Holds(r, rx + [b], Snap())
         else waiting && Idle() && State() == START
    }

    /** The part of `parse_packet_byte` after the last size byte. */
    method AcceptSize(ghost s: Snapshot, b: Byte, canAllocate: bool)
      requires Owns() && buffer == null && received == 0
      requires Holds(Ruled(canAllocate), rx, s) && s.header == header && s.received == 0
      requires s.fsm == PacketSizeB || (s.fsm == PacketSizeA && !HasTwoByteSize(header))
      requires size == if s.fsm == PacketSizeB then 256 * s.size + b else b
      modifies this
      ensures Took(b, canAllocate) && (buffer == null || fresh(buffer))
    {
      ghost var r := Ruled(canAllocate);
      if size == 0 || size > setup.maxSize {
        TakeSize(r, rx, s, b, []);
        CauseError(ExceedingMaximumPacketSize);
      } else if !canAllocate {
        TakeSize(r, rx, s, b, []);
        CauseError(NotEnoughRamForPacket);
      } else {
        buffer := new Byte[size];
        allocations := allocations + 1;
        fsm := PacketData;
        TakeSize(r, rx, s, b, buffer[..]);
        HoldsMeans(r, rx + [b], Snap());
      }
    }

    method ParseHeader(b: Byte, ghost canAllocate: bool)
      requires Owns() && Holds(Ruled(canAllocate), rx, Snap()) && fsm == PacketHeader
      modifies this
      ensures Took(b, canAllocate) && buffer == null
    {
      ghost var r := Ruled(canAllocate);
      TakeHeader(r, Snap(), b);
      header := b;
      if IsUnsupported(header) {
        CauseError(UnsupportedProtocol);
      } else {
        size := 0;
        fsm := PacketSizeA;
        HoldsMeans(r, rx + [b], Snap());
      }
    }

    method ParseSize(b: Byte, canAllocate: bool)
      requires Owns() && Holds(Ruled(canAllocate), rx, Snap())
      requires fsm == PacketSizeA || fsm == PacketSizeB
      modifies this
      ensures Took(b, canAllocate) && (buffer == null || fresh(buffer))
    {
      hide Parse;
      ghost var s := Snap();
      if fsm == PacketSizeB {
        size := (256 * size + b) % 0x10000;
        AcceptSize(s, b, canAllocate);
        return;
      }
      size := b;
      if HasTwoByteSize(header) {
        fsm := PacketSizeB;
        HoldsMeans(Ruled(canAllocate), rx + [b], Snap());
      } else {
        AcceptSize(s, b, canAllocate);
      }
    }

    method ParsePayload(b: Byte, ghost canAllocate: bool)
      requires Owns() && Holds(Ruled(canAllocate), rx, Snap()) && fsm == PacketData
      modifies this, buffer
      ensures Took(b, canAllocate) && buffer == old(buffer)
    {
      ghost var r := Ruled(canAllocate);
      TakeData(r, rx, Snap(), b);
      buffer[received] := b;
      received := received + 1;
      if received == size {
        fsm := if HasChecksum(header) then PacketChecksum else WaitEnd;
      }
      HoldsMeans(r, rx + [b], Snap());
    }

    method ParseChecksum(b: Byte, ghost canAllocate: bool)
      requires Owns() && Holds(Ruled(canAllocate), rx, Snap()) && fsm == PacketChecksum
      modifies this
      ensures Took(b, canAllocate) && (buffer == old(buffer) || buffer == null)
    {
      ghost var r := Ruled(canAllocate);
      TakeChecksum(r, rx, Snap(), b);
      if CalcChecksum(setup.checksum, header, buffer[..]) != b {
        CauseError(ChecksumMismatch);
      } else {
        fsm := WaitEnd;
        HoldsMeans(r, rx + [b], Snap());
      }
    }

    /** `parse_packet_byte` with status OK. Whether the stream reader awaits the delimiter is no concern of the
        receiver. */
    method ParseData(b: Byte, canAllocate: bool)
      requires Owns() && Holds(Ruled(canAllocate), rx, Snap())
      modifies this, buffer
      ensures Took(b, canAllocate) && (buffer == old(buffer) || buffer == null || fresh(buffer))
    {
      match fsm {
        case PacketData => ParsePayload(b, canAllocate);
        case PacketHeader => ParseHeader(b, canAllocate);
        case PacketChecksum => ParseChecksum(b, canAllocate);
        case WaitEnd =>
          WholeIsExact(Ruled(canAllocate), rx, [b]);
          CauseError(StreamReading);
        case PacketSizeA => ParseSize(b, canAllocate);
        case PacketSizeB => ParseSize(b, canAllocate);
      }
    }

    /** What the application is told when the delimiter reaches the receiver. */
    ghost function AtDelimiter(): seq<Event>
      reads this, buffer
    {
      if fsm == WaitEnd && buffer != null then
        [if setup.hasHandler then Delivered(Packet(IdOf(header), buffer[..])) else Failed(PacketHandlerNotSet)]
      else [Failed(StreamReading)]
    }

    /** `parse_packet_byte` with status DELIMITER. */
    method ParseDelimiter(keep: bool)
      requires Owns()
      modifies this
      ensures Owns() && Idle()
      ensures log == old(log) + old(AtDelimiter())
      ensures waiting <==> old(fsm) == WaitEnd && !setup.hasHandler
      ensures kept == old(kept) + if old(fsm) == WaitEnd && setup.hasHandler && keep then 1 else 0
      ensures unchanged(this`notices, this`frame, this`consumed, this`rx, this`allocations)
    {
      if fsm != WaitEnd {
        CauseError(StreamReading);
        Reset(false);
        return;
      }
      if !setup.hasHandler {
        CauseError(PacketHandlerNotSet);
        return;
      }
      log := log + [Delivered(Packet(IdOf(header), buffer[..]))];
      if keep {
        buffer := null;
        kept := kept + 1;
      }
      Reset(false);
    }

    // ---- The receiver called directly ----

    /** The bytes heard since the last event or reset. */
    ghost function Heeded(): seq<Byte>
      reads this
    {
      if fsm == PacketHeader then [] else rx
    }

    /** The receiver owns its buffer and agrees with the bytes it has heard, whatever the reader does. */
    ghost predicate Sound()
      reads this, buffer
    {
      Owns() && Holds(Ruled(true), Heeded(), Snap())
    }

    ghost function Standing(): ReceiverCalls.Standing
      reads this
    {
      ReceiverCalls.Standing(Heeded(), waiting, log, allocations, releases, kept)
    }

    /** However the pipeline has been used, its receiver may be called directly. */
    lemma ReachableIsSound()
      requires Valid() && attached
      ensures Sound()
    {
      if !waiting {
        AllocationDecides(RulesAt(setup, frame), rx, Snap(), true);
      }
    }

    method CallWithData(b: Byte, canAllocate: bool)
      requires Sound() && rx == Heeded()
      modifies this, buffer
      ensures buffer == old(buffer) || buffer == null || fresh(buffer)
      ensures Sound() && Standing() == ReceiverCalls.Hearing(setup, old(Standing()), b, canAllocate)
    {
      hide Parse, Holds, HasBuffer;
      ghost var can := canAllocate || HasBuffer(rx);
      AllocationDecides(Ruled(true), rx, Snap(), canAllocate);
      HoldsMeans(Ruled(true), rx, Snap());
      if HasBuffer(rx) {
        ReceiverCalls.BufferStays(rx, b);
      }
      ParseData(b, canAllocate || buffer != null);
      rx := rx + [b];
      if Parse(Ruled(can), rx).Wrong? {
        NothingHeard(Ruled(true), Snap());
      } else {
        AllocationDecides(Ruled(can), rx, Snap(), true);
      }
    }

    method CallWithDelimiter(keep: bool)
      requires Sound()
      modifies this, buffer
      ensures buffer == null
      ensures Sound() && Standing() == ReceiverCalls.Closing(setup, old(Standing()), keep)
    {
      AllocationDecides(Ruled(true), Heeded(), Snap(), false);
      HoldsMeans(Ruled(true), Heeded(), Snap());
      HoldsMeans(ReceiverCalls.RulesFor(setup, Heeded(), false), Heeded(), Snap());
      ParseDelimiter(keep);
    }

    /** `parse_packet_byte` or `reset`, called by anybody at any time. */
    method Obey(call: ReceiverCalls.Call)
      requires Sound()
      modifies this, buffer
      ensures buffer == old(buffer) || buffer == null || fresh(buffer)
      ensures Sound() && Standing() == ReceiverCalls.After(setup, old(Standing()), call)
    {
      rx := Heeded();
      AllocationDecides(Ruled(true), rx, Snap(), true);
      match call {
        case ResetCall(needWaitDelimiter) => Reset(needWaitDelimiter);
        case ParseCall(b, status, canAllocate, keep) =>
          match status {
            case ReadOk => CallWithData(b, canAllocate);
            case ReadDelimiter => CallWithDelimiter(keep);
            case ReadError => CauseError(StreamReading);
            case ReaderNotReady => CauseError(StreamReading);
          }
      }
    }

    /** What a sound receiver has done with its buffers. */
    lemma SoundIsSettled()
      requires Sound()
      ensures ReceiverCalls.Settled(Standing()) && ReceiverCalls.Fine(setup, Standing())
    {
      AllocationDecides(Ruled(true), Heeded(), Snap(), true);
      HoldsMeans(Ruled(true), Heeded(), Snap());
    }

    /** Any calls in any order, from wherever reading or earlier calls have left the receiver. */
    method ObeyAll(calls: seq<ReceiverCalls.Call>)
      requires Sound()
      modifies this, buffer
      ensures buffer == old(buffer) || buffer == null || fresh(buffer)
      ensures Sound() && Owns() && Standing() == ReceiverCalls.Run(setup, old(Standing()), calls)
      ensures ReceiverCalls.Settled(Standing()) && (buffer != null <==> HasBuffer(Standing().heard))
    {
      hide *;
      ReceiverCalls.RunNothing(setup, Standing());
      assert calls[..0] == [];
      for i := 0 to |calls|
        invariant buffer == old(buffer) || buffer == null || fresh(buffer)
        invariant Sound() && Standing() == ReceiverCalls.Run(setup, old(Standing()), calls[..i])
      {
        ReceiverCalls.RunOneMore(setup, old(Standing()), calls[..i], calls[i]);
        assert calls[..i + 1] == calls[..i] + [calls[i]];
        Obey(calls[i]);
      }
      assert calls[..|calls|] == calls;
      SoundIsOwned();
      SoundIsSettled();
    }

    lemma SoundIsOwned()
      requires Sound()
      ensures Owns() && (buffer != null <==> HasBuffer(Standing().heard))
    {
      AllocationDecides(Ruled(true), Heeded(), Snap(), true);
    }

    // ---- Stream reader ----

    /** After the strategy has told the data handler `emitted` since the old state, in which the frame was fine:
        either it still is, with that much more data and the strategy at `st`, or the receiver has found a mistake. */
    twostate predicate Told(emitted: seq<Byte>, st: ReadState)
      reads this, buffer
    {
      && unchanged(this`frame, this`consumed, this`kept)
      && log == old(log) + Heard(old(rx) + emitted)
      && if Heard(old(rx) + emitted) == [] then
           && Listening() && rx == old(rx) + emitted && State() == st
           && (!attached ==> notices == old(notices) + AllData(emitted))
         else Deaf()
    }

    /** `_handler` with status OK. */
    method HandleData(b: Byte)
      requires Deaf() || Listening()
      modifies this, buffer
      ensures buffer == old(buffer) || buffer == null || fresh(buffer)
      ensures if old(waiting) then unchanged(this) else Told([b], old(State()))
      ensures !old(waiting) && waiting ==> State() == START
    {
      hide Parse, Holds, Complaint;
      if waiting {
        return;
      }
      OrderlyAppend(notices, [Data(b)]);
      notices := notices + [Data(b)];
      assert AllData([b]) == [Data(b)];
      if attached {
        ParseData(b, setup.allocates(frame));
      }
      rx := rx + [b];
    }

    /** `_handler` with status ERROR. */
    method HandleError()
      requires Owns() && Orderly(notices) && (waiting || !EndsBroken(notices))
      requires waiting || !attached ==> Idle()
      modifies this
      ensures if old(waiting) then unchanged(this) else
              && unchanged(this`frame, this`consumed, this`rx, this`kept)
              && notices == old(notices) + [Broken] && waiting == attached
              && log == old(log) + (if attached then [Failed(StreamReading)] else [])
      ensures Owns() && Idle() && Orderly(notices)
    {
      if waiting {
        return;
      }
      OrderlyAppend(notices, [Broken]);
      notices := notices + [Broken];
      if attached {
        CauseError(StreamReading);
      }
    }

    /** `_handler` with status DELIMITER: it always gets through. */
    method HandleDelimiter()
      requires Owns() && Orderly(notices) && (!attached ==> Idle())
      modifies this
      ensures Owns() && Idle()
      ensures unchanged(this`frame, this`consumed, this`rx)
      ensures notices == old(notices) + [Notice.End] && Orderly(notices)
      ensures log == old(log) + if attached then old(AtDelimiter()) else []
      ensures kept == old(kept)
              + if attached && old(fsm) == WaitEnd && setup.hasHandler && setup.keeps(frame) then 1 else 0
    {
      waiting := false;
      OrderlyAppend(notices, [Notice.End]);
      notices := notices + [Notice.End];
      if attached {
        ParseDelimiter(setup.keeps(frame));
      }
    }

    // ---- Read strategies ----

    /** `_exec_delimiter` of the three COBS readers and the delimiter branch of the byte stuffing reader. */
    method ExecDelimiter()
      requires Deaf() || Listening()
      modifies this
      ensures Owns() && Idle() && State() == START && unchanged(this`frame, this`consumed)
      ensures Orderly(notices) && !EndsBroken(notices)
      ensures log == old(log) + old(ToldAtDelimiter())
      ensures attached ==>
                kept == old(kept)
                + if old(!waiting && KeepsFrame(setup, frame, Progress(State(), rx, false))) then 1 else 0
      ensures !attached ==>
                notices == old(notices)
                + old(if waiting then [Notice.End] else ClosedNotices(Progress(State(), rx, false)))
    {
      hide Parse, Holds;
      ghost var fine := !waiting;
      if fine && attached {
        HoldsMeans(RulesAt(setup, frame), rx, Snap());
      }
      var midway := match setup.strategy
        case Cobs(c) => if c.kind.Plain? then offset != 0 else offset != 0 || run
        case Stuffing(_) => escaped;
      assert fine ==> midway == !AtRest(State());
      if midway {
        HandleError();
      }
      HandleDelimiter();
      ResetStrategy();
    }

    /** Events the delimiter brings about, given how the current frame stands. */
    ghost function ToldAtDelimiter(): seq<Event>
      reads this
    {
      if !attached then []
      else if waiting then [Failed(StreamReading)]
      else Closed(setup, frame, Progress(State(), rx, false))
    }

    /** What has been told so far, counted from an earlier state. */
    ghost predicate Account(start: seq<Byte>, said: seq<Event>, before: seq<Notice>, st: ReadState, emitted: seq<Byte>)
      reads this, buffer
    {
      && log == said + Heard(start + emitted)
      && if Heard(start + emitted) == [] then
           && Listening() && rx == start + emitted && State() == st
           && (!attached ==> notices == before + AllData(emitted))
         else Deaf()
    }

    /** One turn of the loop below: one data byte told, or none if the frame is spoiled. */
    method TellOne(b: Byte, ghost deaf: bool, ghost start: seq<Byte>, ghost said: seq<Event>,
                   ghost before: seq<Notice>, ghost st: ReadState, ghost emitted: seq<Byte>)
      requires if deaf then Deaf() else Account(start, said, before, st, emitted)
      modifies this, buffer
      ensures buffer == old(buffer) || buffer == null || fresh(buffer)
      ensures unchanged(this`frame, this`consumed, this`kept)
      ensures if deaf then unchanged(this) else Account(start, said, before, st, emitted + [b])
    {
      assert start + (emitted + [b]) == start + emitted + [b];
      assert AllData(emitted + [b]) == AllData(emitted) + AllData([b]);
      if !deaf && Heard(start + emitted) != [] {
        VerdictStays(setup, frame, start + emitted, [b]);
      }
      HandleData(b);
    }

    /** The loop that gives a replaced run back. */
    method RepeatRun(c: CobsConfig.Config)
      requires Deaf() || Listening()
      modifies this, buffer
      ensures buffer == old(buffer) || buffer == null || fresh(buffer)
      ensures if old(waiting) then unchanged(this) else Told(Rep(c.runByte, c.runSize), old(State()))
    {
      ghost var deaf, start, said, before, st := waiting, rx, log, notices, State();
      assert start + [] == start && log + [] == log && notices + AllData([]) == notices;
      if !deaf && attached {
        HoldsMeans(RulesAt(setup, frame), rx, Snap());
      }
      for i := 0 to c.runSize
        invariant buffer == old(buffer) || buffer == null || fresh(buffer)
        invariant unchanged(this`frame, this`consumed, this`kept)
        invariant if deaf then unchanged(this) && Deaf() else Account(start, said, before, st, Rep(c.runByte, i))
      {
        RepSnoc(c.runByte, i);
        TellOne(c.runByte, deaf, start, said, before, st, Rep(c.runByte, i));
      }
    }

    /** Telling nothing. */
    twostate lemma ToldNothing()
      requires old(Listening()) && Listening()
      requires unchanged(this`log, this`notices, this`frame, this`consumed, this`rx, this`kept)
      ensures Told([], State())
    {
      assert rx + [] == rx && log + [] == log && notices + AllData([]) == notices;
      if attached {
        HoldsMeans(RulesAt(setup, frame), rx, Snap());
      }
    }

    /** What the last block owed. */
    method TellOwed(c: CobsConfig.Config)
      requires Deaf() || Listening()
      modifies this, buffer
      ensures buffer == old(buffer) || buffer == null || fresh(buffer)
      ensures if old(waiting) then unchanged(this)
              else Told(CobsBlocks.Tail(c, CobsReader.Owed(old(State()))), old(State()))
    {
      if run {
        RepeatRun(c);
      } else if !full {
        HandleData(c.delimiter);
      } else if !waiting {
        ToldNothing();
      }
    }

    /** The fields of a new block. */
    method BeginBlock(next: Byte, isFull: bool, isRun: bool)
      requires setup.strategy.Cobs? && Shaped(setup.strategy, State().(run := isRun))
      modifies this`offset, this`full, this`run
      ensures State() == ReadState(next, isFull, isRun, old(escaped))
      ensures old(Listening()) ==> Listening()
      ensures old(Deaf()) ==> Deaf()
    {
      run := isRun;
      offset := next;
      full := isFull;
    }

    /** `_exec_new_offset_and_get_success_status` of the three readers: what the last block owed is told,
        then the new block begins, even if telling it has reset everything. */
    method ExecNewOffset(c: CobsConfig.Config, code: Byte) returns (ok: bool)
      requires setup.strategy == Cobs(c) && (Deaf() || (Listening() && offset == 0))
      modifies this, buffer
      ensures buffer == old(buffer) || buffer == null || fresh(buffer)
      ensures ok <==> CobsReader.Announced(c, code) <= c.depth
      ensures !ok ==> unchanged(this) && (old(buffer) != null ==> unchanged(old(buffer)))
      ensures ok ==>
                var next := CobsReader.Announced(c, code);
                State() == ReadState(next, next == c.depth, CobsReader.MarksRun(c, code), false)
      ensures ok && old(waiting) ==> Deaf() && unchanged(this`log, this`notices, this`frame, this`consumed, this`kept)
      ensures ok && !old(waiting) ==>
                var next := CobsReader.Announced(c, code);
                Told(CobsBlocks.Tail(c, CobsReader.Owed(old(State()))),
                     ReadState(next, next == c.depth, CobsReader.MarksRun(c, code), false))
    {
      hide Holds, Parse, Verdict, Orderly;
      var next := code;
      var marked := false;
      if !c.kind.Plain? {
        marked := code > c.depth;
        if marked {
          next := code - c.depth;
        }
      }
      if next > c.depth {
        return false;
      }
      TellOwed(c);
      BeginBlock(next, next == c.depth, marked);
      return true;
    }

    /** The countdown decrement on eight bits. If the receiver has just reset the strategy, it wraps to 255. */
    method CountDown()
      requires setup.strategy.Cobs?
      modifies this`offset
      ensures State() == old(State()).(offset := (old(offset) + 255) % 256)
      ensures old(Listening()) ==> Listening()
      ensures old(Deaf()) ==> Deaf()
    {
      offset := (offset + 255) % 256;
    }

    /** A byte that the strategy cannot accept. */
    twostate predicate Refused()
      reads this
    {
      && Owns() && Idle() && Orderly(notices) && unchanged(this`frame, this`consumed, this`rx, this`kept)
      && State() == START
      && if old(waiting) then waiting && unchanged(this`log, this`notices)
         else
           && waiting == attached && notices == old(notices) + [Broken]
           && log == old(log) + if attached then [Failed(StreamReading)] else []
    }

    method Refuse()
      requires Owns() && Orderly(notices) && (waiting ==> Idle()) && (!waiting ==> !EndsBroken(notices))
      requires !attached ==> Idle()
      modifies this
      ensures Refused()
    {
      HandleError();
      ResetStrategy();
    }

    /** What reading one byte, other than the delimiter, with the strategy tells. */
    twostate predicate ByteRead(b: Byte)
      reads this, buffer
    {
      if old(waiting) then
        Deaf() && unchanged(this`log, this`notices, this`frame, this`consumed, this`kept)
      else match Step(setup.strategy, old(State()), b)
        case Accept(st, emitted) => Told(emitted, st)
        case Reject => Refused()
    }

    /** Where the strategy goes with that byte and what it returns, whether the frame is fine or not. */
    twostate predicate Moved(b: Byte, status: Status)
      reads this
    {
      && status == (if Step(setup.strategy, old(State()), b).Reject? then ReadError else ReadOk)
      && State() == NextState(setup.strategy, old(State()), b, waiting && !old(waiting))
    }

    /** `read` of the COBS readers, after the delimiter has been ruled out. */
    method ReadCobs(c: CobsConfig.Config, b: Byte) returns (status: Status)
      requires setup.strategy == Cobs(c) && (Deaf() || Listening())
      modifies this, buffer
      ensures buffer == old(buffer) || buffer == null || fresh(buffer)
      ensures ByteRead(b) && Moved(b, status)
    {
      hide Holds, Parse, Verdict, Orderly;
      if offset != 0 {
        HandleData(b);
      } else {
        var ok := ExecNewOffset(c, CobsConfig.Unswap(c, b));
        if !ok {
          Refuse();
          return ReadError;
        }
      }
      CountDown();
      return ReadOk;
    }

    /** `read` of the byte stuffing reader, after the delimiter has been ruled out. */
    method ReadStuffing(c: ByteStuffing.Config, b: Byte) returns (status: Status)
      requires setup.strategy == Stuffing(c) && (Deaf() || Listening())
      modifies this, buffer
      ensures buffer == old(buffer) || buffer == null || fresh(buffer)
      ensures ByteRead(b) && Moved(b, status)
    {
      hide Holds, Parse, Verdict, Orderly, Xor;
      var plain := b;
      if escaped {
        plain := LeaveEscape(c, b);
        if plain != c.escape && plain != c.delimiter {
          Refuse();
          return ReadError;
        }
      } else if b == c.escape {
        escaped := true;
        if !waiting {
          ToldNothing();
        }
        return ReadOk;
      }
      HandleData(plain);
      return ReadOk;
    }

    method LeaveEscape(c: ByteStuffing.Config, b: Byte) returns (plain: Byte)
      requires setup.strategy == Stuffing(c)
      modifies this`escaped
      ensures plain == Xor(b, c.mask) && State() == old(State()).(escaped := false)
      ensures old(Listening()) ==> Listening()
      ensures old(Deaf()) ==> Deaf()
    {
      escaped := false;
      plain := Xor(b, c.mask);
    }

    // ---- Reading ----

    /** The state in which a fresh pipeline starts. */
    ghost predicate Canonical()
      reads this
    {
      !waiting && Idle() && State() == START && Balanced()
    }

    // How the account of the stream is kept over one byte, the last of `t`, other than the delimiter.

    twostate lemma DeafStays(t: seq<Byte>)
      requires t != [] && t[|t| - 1] != Delimiter(setup.strategy)
      requires old(Tracks(t[..|t| - 1]) && waiting)
      requires Deaf() && unchanged(this`log, this`notices, this`frame, this`kept)
      ensures Tracks(t)
    {
      hide TraceOf, NoticesOf, KeptOf, Bodies, Rest, Feed, Parse, Holds, Orderly, Delimiter, Gather, Verdict, Added;
      OneByteMore(setup, frame, t);
    }

    twostate lemma FineGoesOn(t: seq<Byte>)
      requires t != [] && t[|t| - 1] != Delimiter(setup.strategy)
      requires old(Tracks(t[..|t| - 1]) && !waiting)
      requires Step(setup.strategy, old(State()), t[|t| - 1]).Accept?
      requires var reaction := Step(setup.strategy, old(State()), t[|t| - 1]); Told(reaction.emitted, reaction.state)
      ensures Tracks(t)
    {
      hide TraceOf, NoticesOf, KeptOf, Bodies, Rest, Feed, Parse, Holds, Orderly, Delimiter, Gather, Step;
      OneByteMore(setup, frame, t);
      if attached {
        HoldsMeans(RulesAt(setup, frame), old(rx), old(Snap()));
      }
    }

    twostate lemma TurnsDeaf(t: seq<Byte>)
      requires t != [] && t[|t| - 1] != Delimiter(setup.strategy)
      requires old(Tracks(t[..|t| - 1]) && !waiting)
      requires Step(setup.strategy, old(State()), t[|t| - 1]).Reject? && Deaf() && unchanged(this`frame, this`kept)
      requires notices == old(notices) + [Broken]
      requires log == old(log) + if attached then [Failed(StreamReading)] else []
      ensures Tracks(t)
    {
      hide TraceOf, NoticesOf, KeptOf, Bodies, Rest, Feed, Parse, Holds, Orderly, Delimiter, Gather, Step;
      OneByteMore(setup, frame, t);
      if attached {
        HoldsMeans(RulesAt(setup, frame), old(rx), old(Snap()));
      }
    }

    /** What the delimiter adds to the accounts of the stream, in terms of the state before it. */
    lemma DelimiterAdds(s: seq<Byte>)
      requires Tracks(s)
      ensures var d, p := Delimiter(setup.strategy), Progress(State(), rx, false);
              && |Bodies(d, s + [d])| == frame + 1 && Read(setup.strategy, Rest(d, s + [d])) == BEGIN
              && (attached ==> TraceOf(setup, s + [d]) == log + ToldAtDelimiter())
              && (attached ==> |KeptOf(setup, s + [d])|
                               == kept + if !waiting && KeepsFrame(setup, frame, p) then 1 else 0)
              && (!attached ==> NoticesOf(setup.strategy, s + [d])
                                == notices + if waiting then [Notice.End] else ClosedNotices(p))
    {
      hide TraceOf, NoticesOf, KeptOf, Bodies, Rest, Feed, Parse, Orderly, EndsBroken, Delimiter, Gather;
      var d := Delimiter(setup.strategy);
      TraceGrows(setup, s, d);
      NoticesGrow(setup.strategy, s, d);
      KeptGrows(setup, s, d);
      CutOneMore(d, s, d);
      FeedNothing(setup.strategy, BEGIN);
      if attached && !waiting {
        HoldsMeans(RulesAt(setup, frame), rx, Snap());
      }
    }

    method ReadDelimiterByte(ghost s: seq<Byte>)
      requires Tracks(s)
      modifies this
      ensures Tracks(s + [Delimiter(setup.strategy)]) && Canonical() && buffer == null && consumed == old(consumed)
    {
      hide TraceOf, NoticesOf, KeptOf, Read, Bodies, Rest, Parse, Orderly, EndsBroken, Delimiter, Closed, ClosedNotices;
      hide KeepsFrame, Verdict;
      DelimiterAdds(s);
      ExecDelimiter();
      waiting := false;
      frame := frame + 1;
      rx := [];
    }

    /** The strategy's `read`, after the delimiter has been ruled out. */
    method ReadStrategy(b: Byte) returns (status: Status)
      requires Deaf() || Listening()
      modifies this, buffer
      ensures buffer == old(buffer) || buffer == null || fresh(buffer)
      ensures ByteRead(b) && Moved(b, status) && consumed == old(consumed)
    {
      hide Deaf, Listening;
      match setup.strategy {
        case Cobs(c) => status := ReadCobs(c, b);
        case Stuffing(c) => status := ReadStuffing(c, b);
      }
    }

    method ReadOtherByte(b: Byte, ghost s: seq<Byte>) returns (status: Status)
      requires Follows(s) && b != Delimiter(setup.strategy)
      modifies this, buffer
      ensures buffer == old(buffer) || buffer == null || fresh(buffer)
      ensures Follows(s + [b]) && consumed == old(consumed)
      ensures status == StatusOf(setup, attached, s, b)
    {
      hide TraceOf, NoticesOf, KeptOf, Read, Parse, Holds, Orderly, Delimiter, Verdict, Bodies, Rest, Step;
      hide StateOf, Muted;
      ghost var reaction := Step(setup.strategy, State(), b);
      assert (s + [b])[..|s|] == s;
      WaitingMeans(s);
      status := ReadStrategy(b);
      if status == ReadError {
        waiting := true;
      }
      if old(waiting) {
        DeafStays(s + [b]);
      } else if reaction.Accept? {
        FineGoesOn(s + [b]);
      } else {
        TurnsDeaf(s + [b]);
      }
      WaitingMeans(s + [b]);
      StateOneMore(setup, attached, s, b);
    }

    /** What the delimiter is answered with, and where it leaves the strategy. */
    lemma AtDelimiterStatus(s: seq<Byte>)
      ensures var d := Delimiter(setup.strategy);
              StatusOf(setup, attached, s, d) == ReadDelimiter && StateOf(setup, attached, s + [d]) == START
    {
    }

    ghost method Remember(b: Byte)
      requires Follows(consumed + [b])
      modifies this`consumed
      ensures Valid() && consumed == old(consumed) + [b] && (old(Canonical()) ==> Canonical())
    {
      hide TraceOf, NoticesOf, KeptOf, Read, Parse, Holds, Orderly, Delimiter, Verdict, Bodies, Rest, StateOf, Muted;
      consumed := consumed + [b];
    }

    /** `read` of the stream reader. For every byte stream the application is told exactly what the
        frame-by-frame account of the stream says, and a delimiter brings the whole receive side back to
        its first state from wherever it was. */
    method ReadByte(b: Byte) returns (status: Status)
      requires Valid()
      modifies this, buffer
      ensures buffer == old(buffer) || buffer == null || fresh(buffer)
      ensures Valid() && consumed == old(consumed) + [b]
      ensures status == StatusOf(setup, attached, old(consumed), b)
      ensures Accountable()
      ensures b == Delimiter(setup.strategy) ==> Canonical()
    {
      AtDelimiterStatus(consumed);
      assert Follows(consumed) && Tracks(consumed);
      hide *;
      if b == Delimiter(setup.strategy) {
        ReadDelimiterByte(consumed);
        status := ReadDelimiter;
      } else {
        status := ReadOtherByte(b, consumed);
      }
      Remember(b);
      ValidMeans();
    }

    /** `read` of a buffer: the status is sticky for errors. */
    method ReadBuffer(bytes: seq<Byte>) returns (status: Status)
      requires Valid()
      modifies this, buffer
      ensures buffer == old(buffer) || buffer == null || fresh(buffer)
      ensures Valid() && Accountable() && consumed == old(consumed) + bytes
      ensures status == ReadOk || status == ReadError
      ensures status == ReadError
         <==> exists i :: 0 <= i < |bytes|
                && StatusOf(setup, attached, old(consumed) + bytes[..i], bytes[i]) == ReadError
    {
      hide *;
      status := ReadOk;
      for i := 0 to |bytes|
        invariant buffer == old(buffer) || buffer == null || fresh(buffer)
        invariant Valid() && consumed == old(consumed) + bytes[..i]
        invariant status == ReadOk || status == ReadError
        invariant status == ReadError
             <==> exists j :: 0 <= j < i
                    && StatusOf(setup, attached, old(consumed) + bytes[..j], bytes[j]) == ReadError
      {
        var one := ReadByte(bytes[i]);
        if one == ReadError {
          status := ReadError;
        }
        assert bytes[..i + 1] == bytes[..i] + [bytes[i]];
      }
      assert bytes[..|bytes|] == bytes;
      ValidMeans();
    }
  }
}
