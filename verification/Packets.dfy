/** The packet layout shared by transmitter and receiver: header, size, data and optional checksum
    (src/transmitter.cpp, src/receiver.cpp, src/mixins.cpp). */
module Packets {
  import opened Bytes

  /** A checksum function: data and the value to continue from. */
  type Checksum = (seq<Byte>, Byte) -> Byte

  datatype Packet = Packet(id: Byte, data: seq<Byte>)

  datatype Error =
    | PacketHandlerNotSet
    | StreamReading
    | ExceedingMaximumPacketSize
    | NotEnoughRamForPacket
    | ChecksumMismatch
    | UnsupportedProtocol

  // ---- The header byte: id in bits 0..4, two-byte size in 5, checksum in 6, unsupported version in 7 ----

  function Header(id: Byte, twoBytes: bool, checked: bool): Byte
    requires id <= 31
  {
    id + (if twoBytes then 32 else 0) + (if checked then 64 else 0)
  }

  function IdOf(header: Byte): Byte { header % 32 }

  predicate HasTwoByteSize(header: Byte) { header / 32 % 2 == 1 }

  predicate HasChecksum(header: Byte) { header / 64 % 2 == 1 }

  predicate IsUnsupported(header: Byte) { header >= 128 }

  lemma HeaderFields(id: Byte, twoBytes: bool, checked: bool)
    requires id <= 31
    ensures var h := Header(id, twoBytes, checked);
            IdOf(h) == id && HasTwoByteSize(h) == twoBytes && HasChecksum(h) == checked && !IsUnsupported(h)
  {
  }

  /** `_calc_checksum`: header, low size byte, high size byte if there is one, data, each continuing the last. */
  function CalcChecksum(f: Checksum, header: Byte, data: seq<Byte>): Byte {
    if !HasChecksum(header) then 0
    else
      var c := f([|data| % 256], f([header], 255));
      f(data, if HasTwoByteSize(header) then f([|data| / 256 % 256], c) else c)
  }

  /** The bytes of a packet. */
  function PacketBytes(f: Checksum, p: Packet, checked: bool): (s: seq<Byte>)
    requires p.id <= 31 && |p.data| < 0x10000
    ensures |s| > |p.data| + if checked then 1 else 0
  {
    var header := Header(p.id, |p.data| > 255, checked);
    [header] + SizeBytes(|p.data|) + p.data + if checked then [CalcChecksum(f, header, p.data)] else []
  }

  function SizeBytes(size: nat): (s: seq<Byte>)
    requires size < 0x10000
  {
    if size > 255 then [size / 256, size % 256] else [size % 256]
  }

  /** What the receiver makes of the bytes of a frame so far. */
  datatype Parsed = More | Whole(packet: Packet) | Wrong(error: Error)

  /** What the receiver needs to know besides the bytes: the largest size it accepts, the checksum function,
      and whether the allocation of the packet buffer succeeds. */
  datatype Rules = Rules(maxSize: nat, checksum: Checksum, canAllocate: bool)

  function SizeEnd(header: Byte): nat {
    if HasTwoByteSize(header) then 3 else 2
  }

  /** The size is known, so that a packet of these bytes has its buffer. */
  predicate HasBuffer(s: seq<Byte>) {
    s != [] && |s| >= SizeEnd(s[0])
  }

  function SizeOf(s: seq<Byte>): nat
    requires s != [] && |s| >= SizeEnd(s[0])
  {
    var high: int := s[1];
    if HasTwoByteSize(s[0]) then 256 * high + s[2] else high
  }

  function Parse(r: Rules, s: seq<Byte>): Parsed {
    if s == [] then More
    else if IsUnsupported(s[0]) then Wrong(UnsupportedProtocol)
    else if |s| < SizeEnd(s[0]) then More
    else if SizeOf(s) == 0 || SizeOf(s) > r.maxSize then Wrong(ExceedingMaximumPacketSize)
    else if !r.canAllocate then Wrong(NotEnoughRamForPacket)
    else
      var start, end := SizeEnd(s[0]), SizeEnd(s[0]) + SizeOf(s);
      if |s| < end then More
      else
        var data := s[start..end];
        if !HasChecksum(s[0]) then Closing(s, end, Packet(IdOf(s[0]), data))
        else if |s| == end then More
        else if CalcChecksum(r.checksum, s[0], data) != s[end] then Wrong(ChecksumMismatch)
        else Closing(s, end + 1, Packet(IdOf(s[0]), data))
  }

  /** Nothing may follow a whole packet. */
  function Closing(s: seq<Byte>, end: nat, p: Packet): Parsed
    requires end <= |s|
  {
    if |s| == end then Whole(p) else Wrong(StreamReading)
  }

  /** A mistake is final: further bytes do not change the verdict. */
  lemma WrongForGood(r: Rules, s: seq<Byte>, t: seq<Byte>)
    requires Parse(r, s).Wrong?
    ensures Parse(r, s + t) == Parse(r, s)
  {
    if !IsUnsupported(s[0]) {
      assert SizeOf(s + t) == SizeOf(s);
      var start, end := SizeEnd(s[0]), SizeEnd(s[0]) + SizeOf(s);
      if |s| >= end {
        assert (s + t)[start..end] == s[start..end];
      }
    }
  }

  lemma Layout(header: Byte, data: seq<Byte>, tail: seq<Byte>)
    requires |data| < 0x10000 && HasTwoByteSize(header) == (|data| > 255)
    ensures var s, start := [header] + SizeBytes(|data|) + data + tail, SizeEnd(header);
            && s[0] == header && |s| == start + |data| + |tail|
            && SizeOf(s) == |data| && s[start..start + |data|] == data && s[start + |data|..] == tail
  {
    var s := [header] + SizeBytes(|data|) + data + tail;
    assert s[1] == SizeBytes(|data|)[0];
    if |data| > 255 {
      assert s[2] == SizeBytes(|data|)[1];
    }
  }

  /** A frame with a well-formed size is judged by its checksum alone. */
  lemma ParseLayout(r: Rules, header: Byte, data: seq<Byte>, tail: seq<Byte>)
    requires 1 <= |data| < 0x10000 && |data| <= r.maxSize && r.canAllocate
    requires !IsUnsupported(header) && HasTwoByteSize(header) == (|data| > 255)
    requires |tail| == if HasChecksum(header) then 1 else 0
    ensures Parse(r, [header] + SizeBytes(|data|) + data + tail)
         == if HasChecksum(header) && tail[0] != CalcChecksum(r.checksum, header, data)
            then Wrong(ChecksumMismatch)
            else Whole(Packet(IdOf(header), data))
  {
    Layout(header, data, tail);
    var s := [header] + SizeBytes(|data|) + data + tail;
    if HasChecksum(header) {
      assert s[SizeEnd(header) + |data|..][0] == tail[0];
    }
  }

  /** Data and checksum that do not fit together raise a checksum error. */
  lemma ParseMismatch(r: Rules, header: Byte, received: seq<Byte>)
    requires 2 <= |received| <= 0x10000 && |received| - 1 <= r.maxSize && r.canAllocate
    requires !IsUnsupported(header) && HasTwoByteSize(header) == (|received| > 256) && HasChecksum(header)
    requires received[|received| - 1] != CalcChecksum(r.checksum, header, received[..|received| - 1])
    ensures Parse(r, [header] + SizeBytes(|received| - 1) + received) == Wrong(ChecksumMismatch)
  {
    var n := |received| - 1;
    ParseLayout(r, header, received[..n], [received[n]]);
    assert [header] + SizeBytes(n) + received[..n] + [received[n]] == [header] + SizeBytes(n) + received;
  }

  /** A packet's bytes are parsed back to the packet. */
  lemma ParsePacketBytes(r: Rules, p: Packet, checked: bool)
    requires p.id <= 31 && 1 <= |p.data| < 0x10000 && |p.data| <= r.maxSize && r.canAllocate
    ensures Parse(r, PacketBytes(r.checksum, p, checked)) == Whole(p)
  {
    HeaderFields(p.id, |p.data| > 255, checked);
    var header := Header(p.id, |p.data| > 255, checked);
    ParseLayout(r, header, p.data, if checked then [CalcChecksum(r.checksum, header, p.data)] else []);
  }

  /** The size bytes that a header announces; the receiver also takes a small size in two bytes. */
  function AnnouncedSize(header: Byte, size: nat): seq<Byte>
    requires size < if HasTwoByteSize(header) then 0x10000 else 0x100
  {
    if HasTwoByteSize(header) then [size / 256, size % 256] else [size]
  }

  /** `s` is a packet with this header and these data, complete and with nothing after it. */
  predicate IsPacket(r: Rules, s: seq<Byte>, header: Byte, data: seq<Byte>) {
    && !IsUnsupported(header) && 1 <= |data| <= r.maxSize
    && |data| < (if HasTwoByteSize(header) then 0x10000 else 0x100)
    && s == [header] + AnnouncedSize(header, |data|) + data
            + if HasChecksum(header) then [CalcChecksum(r.checksum, header, data)] else []
  }

  lemma AnnouncedLayout(header: Byte, data: seq<Byte>, tail: seq<Byte>)
    requires |data| < if HasTwoByteSize(header) then 0x10000 else 0x100
    ensures var s, start := [header] + AnnouncedSize(header, |data|) + data + tail, SizeEnd(header);
            && s[0] == header && |s| == start + |data| + |tail|
            && SizeOf(s) == |data| && s[start..start + |data|] == data && s[start + |data|..] == tail
  {
    var s := [header] + AnnouncedSize(header, |data|) + data + tail;
    assert s[1] == AnnouncedSize(header, |data|)[0];
    if HasTwoByteSize(header) {
      assert s[2] == AnnouncedSize(header, |data|)[1];
    }
  }

  lemma PacketIsWhole(r: Rules, s: seq<Byte>, header: Byte, data: seq<Byte>)
    requires r.canAllocate && IsPacket(r, s, header, data)
    ensures Parse(r, s) == Whole(Packet(IdOf(header), data))
  {
    var tail := if HasChecksum(header) then [CalcChecksum(r.checksum, header, data)] else [];
    AnnouncedLayout(header, data, tail);
    if HasChecksum(header) {
      assert s[SizeEnd(header) + |data|..][0] == tail[0];
    }
  }

  lemma WholeIsPacket(r: Rules, s: seq<Byte>, p: Packet)
    requires Parse(r, s) == Whole(p)
    ensures s != [] && p.id == IdOf(s[0]) && r.canAllocate && IsPacket(r, s, s[0], p.data)
  {
    var start, end := SizeEnd(s[0]), SizeEnd(s[0]) + SizeOf(s);
    assert s[1..start] == AnnouncedSize(s[0], |p.data|);
    assert s[..end] == [s[0]] + s[1..start] + s[start..end];
    assert s == s[..end] + s[end..];
    if HasChecksum(s[0]) {
      assert s[end..] == [s[end]];
    } else {
      assert s[end..] == [];
    }
  }

  /** The receiver takes exactly the byte strings that are packets: supported version, a size in 1..maximum as
      the header announces it, that many data bytes, the right checksum if one is announced, nothing more. */
  lemma WholeExactly(r: Rules, s: seq<Byte>, p: Packet)
    ensures Parse(r, s) == Whole(p)
       <==> s != [] && p.id == IdOf(s[0]) && r.canAllocate && IsPacket(r, s, s[0], p.data)
  {
    if s != [] && p.id == IdOf(s[0]) && r.canAllocate && IsPacket(r, s, s[0], p.data) {
      PacketIsWhole(r, s, s[0], p.data);
    }
    if Parse(r, s) == Whole(p) {
      WholeIsPacket(r, s, p);
    }
  }

  /** What is sent for a packet: a packet in the receiver's sense, with the packet's id and data, that announces and
      carries a checksum exactly if it is sent with one, and two size bytes exactly if the size needs them. */
  lemma SentIsPacket(f: Checksum, p: Packet, checked: bool)
    requires p.id <= 31 && 1 <= |p.data| < 0x10000
    ensures var s := PacketBytes(f, p, checked);
            && s != [] && IsPacket(Rules(|p.data|, f, true), s, s[0], p.data)
            && IdOf(s[0]) == p.id && HasChecksum(s[0]) == checked && HasTwoByteSize(s[0]) == (|p.data| > 255)
            && |s| == 1 + (if |p.data| > 255 then 2 else 1) + |p.data| + (if checked then 1 else 0)
            && s[0] == p.id + (if |p.data| > 255 then 32 else 0) + (if checked then 64 else 0)
            && (if |p.data| > 255 then s[1] == |p.data| / 256 && s[2] == |p.data| % 256 else s[1] == |p.data|)
            && (checked ==> s[|s| - 1] == CalcChecksum(f, s[0], p.data))
  {
    HeaderFields(p.id, |p.data| > 255, checked);
  }

  /** Each error, by the bytes that bring it about. */
  lemma ErrorsExactly(r: Rules, s: seq<Byte>)
    ensures Parse(r, s) == Wrong(UnsupportedProtocol) <==> s != [] && s[0] >= 128
    ensures Parse(r, s) == Wrong(ExceedingMaximumPacketSize)
       <==> HasBuffer(s) && s[0] < 128 && !(1 <= SizeOf(s) <= r.maxSize)
    ensures Parse(r, s) == Wrong(NotEnoughRamForPacket)
       <==> HasBuffer(s) && s[0] < 128 && 1 <= SizeOf(s) <= r.maxSize && !r.canAllocate
    ensures Parse(r, s) == Wrong(ChecksumMismatch)
       <==> && HasBuffer(s) && s[0] < 128 && 1 <= SizeOf(s) <= r.maxSize && r.canAllocate && HasChecksum(s[0])
            && |s| > SizeEnd(s[0]) + SizeOf(s)
            && s[SizeEnd(s[0]) + SizeOf(s)]
               != CalcChecksum(r.checksum, s[0], s[SizeEnd(s[0])..SizeEnd(s[0]) + SizeOf(s)])
    ensures Parse(r, s) != Wrong(PacketHandlerNotSet)
  {
  }

  lemma WholePart(r: Rules, s: seq<Byte>) returns (n: nat)
    requires Parse(r, s) == Wrong(StreamReading)
    ensures n < |s| && Parse(r, s[..n]).Whole?
  {
    var start, end := SizeEnd(s[0]), SizeEnd(s[0]) + SizeOf(s);
    n := if HasChecksum(s[0]) then end + 1 else end;
    var part := s[..n];
    assert forall i :: 0 <= i < n ==> part[i] == s[i];
    assert SizeOf(part) == SizeOf(s);
    assert part[start..end] == s[start..end];
  }

  /** The one other error: something follows a whole packet. */
  lemma TooLongExactly(r: Rules, s: seq<Byte>)
    ensures Parse(r, s) == Wrong(StreamReading) <==> exists n :: 0 <= n < |s| && Parse(r, s[..n]).Whole?
  {
    if Parse(r, s) == Wrong(StreamReading) {
      var n := WholePart(r, s);
    }
    if n :| 0 <= n < |s| && Parse(r, s[..n]).Whole? {
      WholeIsExact(r, s[..n], s[n..]);
      assert s[..n] + s[n..] == s;
    }
  }

  /** No part of a packet is taken for an error or for a whole packet. */
  lemma PartWaits(r: Rules, s: seq<Byte>, t: seq<Byte>, header: Byte, data: seq<Byte>)
    requires r.canAllocate && t != [] && IsPacket(r, s + t, header, data)
    ensures Parse(r, s) == More
  {
    PacketIsWhole(r, s + t, header, data);
    if Parse(r, s).Wrong? {
      WrongForGood(r, s, t);
    } else if Parse(r, s).Whole? {
      WholeIsExact(r, s, t);
    }
  }

  /** Nothing may follow a whole packet: any further byte is an error in the stream. */
  lemma WholeIsExact(r: Rules, s: seq<Byte>, t: seq<Byte>)
    requires Parse(r, s).Whole? && t != []
    ensures Parse(r, s + t) == Wrong(StreamReading)
  {
    var start, end := SizeEnd(s[0]), SizeEnd(s[0]) + SizeOf(s);
    assert SizeOf(s + t) == SizeOf(s);
    assert (s + t)[start..end] == s[start..end];
  }
}
