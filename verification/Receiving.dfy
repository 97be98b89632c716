/** The receiver's state machine against the whole-frame parser: what each state knows about the bytes
    taken so far (src/receiver.cpp). */
module Receiving {
  import opened Bytes
  import opened Packets

  datatype FsmState = PacketHeader | PacketSizeA | PacketSizeB | PacketData | PacketChecksum | WaitEnd

  /** The receiver's fields, with the packet buffer as a value. */
  datatype Snapshot = Snapshot(fsm: FsmState, header: Byte, size: nat, received: nat, data: seq<Byte>)

  predicate Stored(r: Rules, rx: seq<Byte>, s: Snapshot) {
    && r.canAllocate && 1 <= s.size <= r.maxSize
    && |s.data| == s.size && s.received <= s.size
    && |rx| == SizeEnd(s.header) + s.received
    && rx[0] == s.header && !IsUnsupported(s.header)
    && SizeOf(rx) == s.size
    && s.data[..s.received] == rx[SizeEnd(s.header)..]
  }

  /** The state machine has taken `rx` without finding an error. */
  predicate Holds(r: Rules, rx: seq<Byte>, s: Snapshot) {
    match s.fsm
    case PacketHeader => rx == [] && s.received == 0
    case PacketSizeA => rx == [s.header] && !IsUnsupported(s.header) && s.received == 0
    case PacketSizeB =>
      rx == [s.header, s.size % 256] && s.size < 256 && HasTwoByteSize(s.header) && !IsUnsupported(s.header)
      && s.received == 0
    case PacketData => Stored(r, rx, s) && s.received < s.size
    case PacketChecksum => Stored(r, rx, s) && s.received == s.size && HasChecksum(s.header)
    case WaitEnd => s.received == s.size && Parse(r, rx) == Whole(Packet(IdOf(s.header), s.data))
  }

  /** A machine that found no error agrees with the parser, and waits for the end exactly when the parser
      has a whole packet. */
  lemma HoldsMeans(r: Rules, rx: seq<Byte>, s: Snapshot)
    requires Holds(r, rx, s)
    ensures !Parse(r, rx).Wrong?
    ensures if s.fsm == WaitEnd then Parse(r, rx) == Whole(Packet(IdOf(s.header), s.data)) else Parse(r, rx) == More
  {
  }

  lemma NothingHeard(r: Rules, s: Snapshot)
    requires s.fsm == PacketHeader && s.received == 0
    ensures Holds(r, [], s)
  {
  }

  predicate HoldsBuffer(fsm: FsmState) {
    fsm == PacketData || fsm == PacketChecksum || fsm == WaitEnd
  }

  /** Before the allocation it does not matter whether it will succeed; afterwards it has. */
  lemma AllocationDecides(r: Rules, rx: seq<Byte>, s: Snapshot, canAllocate: bool)
    requires Holds(r, rx, s)
    ensures HoldsBuffer(s.fsm) <==> HasBuffer(rx)
    ensures s.fsm == PacketHeader <==> rx == []
    ensures Holds(r.(canAllocate := canAllocate || HasBuffer(rx)), rx, s)
  {
  }

  lemma TakeHeader(r: Rules, s: Snapshot, b: Byte)
    requires s.received == 0
    ensures if IsUnsupported(b) then Parse(r, [] + [b]) == Wrong(UnsupportedProtocol)
            else Holds(r, [] + [b], s.(fsm := PacketSizeA, header := b))
  {
    assert [] + [b] == [b];
  }

  /** The last size byte: the size is judged, then the allocation. */
  lemma TakeSize(r: Rules, rx: seq<Byte>, s: Snapshot, b: Byte, data: seq<Byte>)
    requires Holds(r, rx, s)
    requires (s.fsm == PacketSizeA && !HasTwoByteSize(s.header)) || s.fsm == PacketSizeB
    ensures var size := if s.fsm == PacketSizeB then 256 * s.size + b else b;
            if size == 0 || size > r.maxSize then Parse(r, rx + [b]) == Wrong(ExceedingMaximumPacketSize)
            else if !r.canAllocate then Parse(r, rx + [b]) == Wrong(NotEnoughRamForPacket)
            else |data| == size ==>
              Holds(r, rx + [b], s.(fsm := PacketData, size := size, data := data))
  {
    var size := if s.fsm == PacketSizeB then 256 * s.size + b else b;
    var all := rx + [b];
    assert |all| == SizeEnd(s.header) && all[0] == s.header && SizeOf(all) == size;
    assert data[..0] == all[SizeEnd(s.header)..];
  }

  lemma StoredGrows(r: Rules, rx: seq<Byte>, s: Snapshot, b: Byte)
    requires Stored(r, rx, s) && s.received < s.size
    ensures Stored(r, rx + [b], s.(received := s.received + 1, data := s.data[s.received := b]))
  {
    var all, data, start := rx + [b], s.data[s.received := b], SizeEnd(s.header);
    assert data[..s.received + 1] == s.data[..s.received] + [b];
    assert all[start..] == rx[start..] + [b];
  }

  lemma StoredWhole(r: Rules, rx: seq<Byte>, s: Snapshot)
    requires Stored(r, rx, s) && s.received == s.size && !HasChecksum(s.header)
    ensures Parse(r, rx) == Whole(Packet(IdOf(s.header), s.data))
  {
    assert s.data[..s.size] == s.data;
    assert rx[SizeEnd(s.header)..SizeEnd(s.header) + s.size] == rx[SizeEnd(s.header)..];
  }

  lemma TakeData(r: Rules, rx: seq<Byte>, s: Snapshot, b: Byte)
    requires Holds(r, rx, s) && s.fsm == PacketData
    ensures var n := s.received + 1;
            var next := if n < s.size then PacketData else if HasChecksum(s.header) then PacketChecksum else WaitEnd;
            Holds(r, rx + [b], s.(fsm := next, received := n, data := s.data[s.received := b]))
  {
    StoredGrows(r, rx, s, b);
    var t := s.(received := s.received + 1, data := s.data[s.received := b]);
    if t.received == t.size && !HasChecksum(s.header) {
      StoredWhole(r, rx + [b], t);
    }
  }

  lemma TakeChecksum(r: Rules, rx: seq<Byte>, s: Snapshot, b: Byte)
    requires Holds(r, rx, s) && s.fsm == PacketChecksum
    ensures if CalcChecksum(r.checksum, s.header, s.data) != b then Parse(r, rx + [b]) == Wrong(ChecksumMismatch)
            else Holds(r, rx + [b], s.(fsm := WaitEnd))
  {
    var all, start := rx + [b], SizeEnd(s.header);
    assert SizeOf(all) == SizeOf(rx);
    assert s.data[..s.size] == s.data;
    assert all[start..start + s.size] == rx[start..];
  }
}
