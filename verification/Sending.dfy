/** The send side: stream writer with its write strategy, and transmitter. */
module Sending {
  import ByteStuffing
  import CobsBlocks
  import CobsConfig
  import CobsEncoder
  import opened Bytes
  import Crc8
  import opened Packets
  import opened Strategies
  import opened Trace

  /** A stream writer together with its write strategy (src/strategies/cobs/write.cpp,
      src/strategies/byte_stuffing/write.cpp); `out` is everything given to the write handler. */
  class StreamWriter {
    const strategy: Strategy
    const buffer: array<Byte>
    const limit: Byte
    var position: nat
    var counter: nat
    var out: seq<Byte>

    /** The frames finished so far, and the data written to the current one. */
    ghost var done: seq<Byte>
    ghost var written: seq<Byte>

    /** The buffer and the output are those of `w`. */
    ghost predicate Holds(c: CobsConfig.Config, w: CobsEncoder.Writer)
      reads this, buffer
    {
      && CobsConfig.Accepted(c) && CobsEncoder.Good(c, w) && limit == CobsConfig.Limit(c)
      && buffer.Length == c.depth && position == |w.buffer| + 1
      && buffer[1..position] == w.buffer
      && out == done + CobsBlocks.Wire(c, w.blocks)
    }

    ghost predicate Valid()
      reads this, buffer
    {
      Accepted(strategy) &&
      match strategy
      case Cobs(c) => Holds(c, CobsEncoder.WriteAll(c, written)) && counter == CobsEncoder.WriteAll(c, written).counter
      case Stuffing(c) => out == done + ByteStuffing.Stuff(c, written)
    }

    constructor (strategy: Strategy)
      requires Accepted(strategy)
      ensures Valid() && fresh(buffer)
      ensures this.strategy == strategy && out == done == written == []
    {
      this.strategy := strategy;
      buffer := new Byte[if strategy.Cobs? then strategy.cobs.depth else 0];
      limit := if strategy.Cobs? then CobsConfig.Limit(strategy.cobs) else 0;
      position, counter, out, done, written := 1, 0, [], [], [];
    }

    /** `_write_buffer_with_offset_to_handler`. */
    method WriteBuffer(c: CobsConfig.Config, offset: Byte)
      requires offset != 0 && 1 <= position <= buffer.Length
      modifies this`position, this`out, buffer
      ensures out == old(out) + ([CobsConfig.Swap(c, offset)] + old(buffer[1..position])) && position == 1
    {
      buffer[0] := if c.delimiter != 0 && offset == c.delimiter then 0 else offset;
      ghost var block := buffer[..position];
      for i := 0 to position
        invariant position == old(position) && buffer[..position] == block
        invariant out == old(out) + block[..i]
      {
        out := out + [buffer[i]];
        assert block[..i + 1] == block[..i] + [block[i]];
      }
      assert block[..old(position)] == [CobsConfig.Swap(c, offset)] + old(buffer[1..position]);
      position := 1;
    }

    /** The buffered block has been written out. */
    method EmitBlock(c: CobsConfig.Config, offset: Byte, ghost w: CobsEncoder.Writer, ghost data: seq<Byte>,
                     ghost end: CobsBlocks.End)
      requires CobsConfig.Accepted(c) && limit == CobsConfig.Limit(c) && buffer.Length == c.depth
      requires CobsBlocks.AllSound(c, w.blocks) && CobsBlocks.Sound(c, CobsBlocks.Block(data, end))
      requires out == done + CobsBlocks.Wire(c, w.blocks)
      requires position == |data| + 1 && buffer[1..position] == data
      requires offset == CobsBlocks.Offset(c, CobsBlocks.Block(data, end))
      modifies this`position, this`out, buffer
      ensures Holds(c, CobsEncoder.Writer(w.blocks + [CobsBlocks.Block(data, end)], [], 0))
    {
      hide CobsBlocks.Wire, CobsBlocks.Expand;
      CobsBlocks.AppendBlock(c, w.blocks, CobsBlocks.Block(data, end));
      WriteBuffer(c, offset);
    }

    /** `_encode`. */
    method EncodeByte(c: CobsConfig.Config, b: Byte, ghost w: CobsEncoder.Writer)
      requires Holds(c, w) && w.counter == 0
      modifies this`position, this`out, buffer
      ensures Holds(c, CobsEncoder.EncodeByte(c, w, b))
    {
      if b != c.delimiter {
        buffer[position] := b;
        position := position + 1;
        assert buffer[1..position] == w.buffer + [b];
        if position < c.depth {
          return;
        }
        EmitBlock(c, position, w, w.buffer + [b], CobsBlocks.Full);
      } else {
        EmitBlock(c, position, w, w.buffer, CobsBlocks.Separator);
      }
    }

    /** `_reset_counter_of_the_sequence_to_be_replaced`. */
    method ResetCounter(c: CobsConfig.Config, ghost w: CobsEncoder.Writer)
      requires Holds(c, w) && counter == w.counter
      modifies this`position, this`out, this`counter, buffer
      ensures Holds(c, CobsEncoder.Flush(c, w)) && counter == 0
    {
      while counter > 0
        invariant counter <= old(counter)
        invariant Holds(c, CobsEncoder.EncodeTimes(c, w.(counter := 0), c.runByte, old(counter) - counter))
      {
        EncodeByte(c, c.runByte, CobsEncoder.EncodeTimes(c, w.(counter := 0), c.runByte, old(counter) - counter));
        counter := counter - 1;
      }
    }

    /** A byte of a run is counted, or completes the run. */
    method CountByte(c: CobsConfig.Config, ghost w: CobsEncoder.Writer)
      requires Holds(c, w) && counter == w.counter && CobsEncoder.Counts(c, w, c.runByte)
      modifies this`position, this`out, this`counter, buffer
      ensures Holds(c, CobsEncoder.WriteByte(c, w, c.runByte))
      ensures counter == CobsEncoder.WriteByte(c, w, c.runByte).counter
    {
      hide CobsBlocks.Wire, CobsEncoder.EncodeByte, CobsEncoder.Flush, CobsBlocks.AllSound;
      counter := (counter + 1) % 256;
      if counter == c.runSize {
        EmitBlock(c, (position + c.depth) % 256, w, w.buffer, CobsBlocks.Run);
        counter := 0;
      }
    }

    /** `write` of COBS/GSE and COBS/ZPE. */
    method WriteReplacing(c: CobsConfig.Config, b: Byte, ghost w: CobsEncoder.Writer)
      requires Holds(c, w) && counter == w.counter && !c.kind.Plain?
      modifies this`position, this`out, this`counter, buffer
      ensures Holds(c, CobsEncoder.WriteByte(c, w, b)) && counter == CobsEncoder.WriteByte(c, w, b).counter
    {
      if b == c.runByte && position <= limit {
        CountByte(c, w);
        return;
      } else if counter != 0 {
        ResetCounter(c, w);
      }
      EncodeByte(c, b, CobsEncoder.Flush(c, w));
    }

    method WriteCobs(c: CobsConfig.Config, b: Byte)
      requires Valid() && strategy == Cobs(c)
      modifies this, buffer
      ensures Valid() && written == old(written) + [b] && done == old(done)
    {
      hide CobsEncoder.WriteAll, CobsEncoder.WriteByte, CobsEncoder.EncodeByte, CobsBlocks.Wire;
      CobsEncoder.WriteOneMore(c, written, b);
      if c.kind.Plain? {
        EncodeByte(c, b, CobsEncoder.WriteAll(c, written));
      } else {
        WriteReplacing(c, b, CobsEncoder.WriteAll(c, written));
      }
      written := written + [b];
    }

    method EmitStuffed(c: ByteStuffing.Config, b: Byte)
      modifies this`out
      ensures out == old(out) + ByteStuffing.StuffByte(c, b)
    {
      hide Xor;
      if b != c.delimiter && b != c.escape {
        out := out + [b];
      } else {
        out := out + [c.escape];
        out := out + [Xor(b, c.mask)];
      }
    }

    method WriteStuffed(c: ByteStuffing.Config, b: Byte)
      requires Valid() && strategy == Stuffing(c)
      modifies this, buffer
      ensures Valid() && written == old(written) + [b] && done == old(done)
    {
      hide ByteStuffing.Stuff, ByteStuffing.StuffByte, CobsEncoder.WriteAll, Holds, Accepted;
      ByteStuffing.StuffOneMore(c, written, b);
      EmitStuffed(c, b);
      written := written + [b];
    }

    /** `write`. */
    method Write(b: Byte)
      requires Valid()
      modifies this, buffer
      ensures Valid() && written == old(written) + [b] && done == old(done)
    {
      hide *;
      match strategy {
        case Cobs(c) => WriteCobs(c, b);
        case Stuffing(c) => WriteStuffed(c, b);
      }
    }

    method FinishCobs(c: CobsConfig.Config)
      requires Valid() && strategy == Cobs(c)
      modifies this, buffer
      ensures Valid() && written == [] && out == done == old(done) + Frame(strategy, old(written))
    {
      ghost var w := CobsEncoder.WriteAll(c, written);
      if counter != 0 {
        ResetCounter(c, w);
      }
      EmitLast(c, CobsEncoder.Flush(c, w));
      done, written := out, [];
    }

    method EmitLast(c: CobsConfig.Config, ghost w: CobsEncoder.Writer)
      requires Holds(c, w) && w.counter == 0
      modifies this`position, this`out, buffer
      ensures position == 1
      ensures var last := CobsBlocks.Block(w.buffer, CobsBlocks.Separator);
              out == done + (CobsBlocks.Wire(c, w.blocks + [last]) + [c.delimiter])
    {
      EmitBlock(c, position, w, w.buffer, CobsBlocks.Separator);
      out := out + [c.delimiter];
    }

    /** `finish`: completes the frame of what was written. */
    method Finish()
      requires Valid()
      modifies this, buffer
      ensures Valid() && written == [] && out == done == old(done) + Frame(strategy, old(written))
    {
      match strategy {
        case Cobs(c) => FinishCobs(c);
        case Stuffing(c) =>
          out := out + [c.delimiter];
          assert out == done + Frame(strategy, written);
          done, written := out, [];
      }
    }

    /** `write` of a buffer. */
    method WriteBytes(bytes: seq<Byte>)
      requires Valid()
      modifies this, buffer
      ensures Valid() && written == old(written) + bytes && done == old(done)
    {
      hide *;
      for i := 0 to |bytes|
        invariant Valid() && written == old(written) + bytes[..i] && done == old(done)
      {
        Write(bytes[i]);
        assert bytes[..i + 1] == bytes[..i] + [bytes[i]];
      }
      assert bytes[..|bytes|] == bytes;
    }
  }

  // ---- Transmitter ----

  /** `_calc_checksum`. With a CRC it is the CRC of header, size bytes and data in one piece. */
  method ComputeChecksum(f: Checksum, header: Byte, data: seq<Byte>) returns (checksum: Byte)
    ensures checksum == CalcChecksum(f, header, data)
    ensures !HasChecksum(header) ==> checksum == 0
    ensures forall poly :: IsCrc(f, poly) && HasChecksum(header) ==>
              checksum == Crc8.Crc(CheckedHead(header, |data|) + data, 255, poly)
  {
    forall poly | IsCrc(f, poly) && HasChecksum(header)
      ensures CalcChecksum(f, header, data) == Crc8.Crc(CheckedHead(header, |data|) + data, 255, poly)
    {
      ChecksumCoversAll(f, poly, header, data);
    }
    hide IsCrc, CheckedHead, Crc8.Crc;
    if !HasChecksum(header) {
      return 0;
    }
    checksum := f([header], 255);
    var sizeByte := |data| % 256;
    checksum := f([sizeByte], checksum);
    if HasTwoByteSize(header) {
      sizeByte := |data| / 256 % 256;
      checksum := f([sizeByte], checksum);
    }
    checksum := f(data, checksum);
  }

  datatype ChecksumUsage = DefaultChecksum | WithoutChecksum | WithChecksum

  datatype SendStatus = SendOk | WriterNotSet | MaximumPacketSizeExceeded | PacketIdError

  class Transmitter {
    var writer: StreamWriter?
    var maxSize: nat
    var checksum: Checksum
    var useChecksum: bool

    ghost predicate Valid()
      reads this, writer, if writer == null then {} else {writer.buffer}
    {
      writer != null ==> writer.Valid() && writer.written == []
    }

    constructor (writer: StreamWriter?, maxSize: nat, checksum: Checksum)
      requires writer != null ==> writer.Valid() && writer.written == []
      ensures Valid() && this.writer == writer && this.maxSize == maxSize && this.checksum == checksum
      ensures useChecksum
    {
      this.writer, this.maxSize, this.checksum, useChecksum := writer, maxSize, checksum, true;
    }

    predicate Checked(usage: ChecksumUsage): (checked: bool)
      reads this
      ensures usage == WithChecksum ==> checked
      ensures usage == WithoutChecksum ==> !checked
      ensures usage == DefaultChecksum ==> checked == useChecksum
    {
      if usage == DefaultChecksum then useChecksum else usage == WithChecksum
    }

    /** What `send_packet` answers. */
    function StatusOf(id: Byte, size: nat): SendStatus
      reads this
    {
      if writer == null then WriterNotSet
      else if size < 1 || size > maxSize then MaximumPacketSizeExceeded
      else if id > 31 then PacketIdError
      else SendOk
    }

    /** Header and size bytes, with one size byte variable for both. */
    method SendHead(header: Byte, size: nat)
      requires Valid() && writer != null && size < 0x10000 && HasTwoByteSize(header) == (size > 255)
      modifies writer, writer.buffer
      ensures writer.Valid() && writer.done == old(writer.done)
      ensures writer.written == [header] + SizeBytes(size)
    {
      hide StreamWriter.Valid;
      writer.WriteBytes([header]);
      var sizeByte := size % 256;
      if HasTwoByteSize(header) {
        sizeByte := size / 256;
        writer.WriteBytes([sizeByte]);
      }
      sizeByte := size % 256;
      writer.WriteBytes([sizeByte]);
    }

    /** The writes of `send_packet`, once its arguments have been found good. */
    method SendFrame(id: Byte, data: seq<Byte>, checked: bool)
      requires Valid() && writer != null && id <= 31 && |data| < 0x10000
      modifies writer, writer.buffer
      ensures Valid() && writer.out == writer.done
      ensures writer.done
           == old(writer.done) + Frame(writer.strategy, PacketBytes(checksum, Packet(id, data), checked))
    {
      var header := Header(id, |data| > 255, checked);
      HeaderFields(id, |data| > 255, checked);
      var value := ComputeChecksum(checksum, header, data);
      hide Body, Frame, StreamWriter.Valid, CalcChecksum, Strategies.Accepted, SizeBytes;
      SendHead(header, |data|);
      writer.WriteBytes(data);
      if HasChecksum(header) {
        writer.Write(value);
      }
      assert writer.written == PacketBytes(checksum, Packet(id, data), checked);
      writer.Finish();
    }

    /** `send_packet`: one whole frame goes out, or nothing does. */
    method SendPacket(id: Byte, data: seq<Byte>, usage: ChecksumUsage) returns (status: SendStatus)
      requires Valid() && |data| < 0x10000
      modifies if writer == null then {} else {writer, writer.buffer}
      ensures Valid() && status == StatusOf(id, |data|)
      ensures status == SendOk <==> writer != null && 1 <= |data| <= maxSize && id <= 31
      ensures status == WriterNotSet <==> writer == null
      ensures status == MaximumPacketSizeExceeded <==> writer != null && (data == [] || |data| > maxSize)
      ensures status == PacketIdError <==> writer != null && 1 <= |data| <= maxSize && id > 31
      ensures status != SendOk && writer != null ==> unchanged(writer) && unchanged(writer.buffer)
      ensures status == SendOk ==>
                && writer.out == writer.done
                && writer.done == old(writer.done)
                   + Frame(writer.strategy, PacketBytes(checksum, Packet(id, data), Checked(usage)))
    {
      hide Frame, PacketBytes, Valid;
      if writer == null {
        return WriterNotSet;
      }
      if |data| < 1 || |data| > maxSize {
        return MaximumPacketSizeExceeded;
      }
      if id > 31 {
        return PacketIdError;
      }
      SendFrame(id, data, Checked(usage));
      return SendOk;
    }

    /** `send_data`: the size is cut to sixteen bits, so only the data within it are sent. */
    method SendData(id: Byte, data: seq<Byte>, usage: ChecksumUsage) returns (status: SendStatus)
      requires Valid()
      modifies if writer == null then {} else {writer, writer.buffer}
      ensures Valid() && status == StatusOf(id, |data| % 0x10000)
      ensures status == SendOk <==> writer != null && 1 <= |data| % 0x10000 <= maxSize && id <= 31
      ensures status != SendOk && writer != null ==> unchanged(writer) && unchanged(writer.buffer)
      ensures status == SendOk ==>
                var sent := Packet(id, data[..|data| % 0x10000]);
                && writer.out == writer.done
                && writer.done == old(writer.done) + Frame(writer.strategy, PacketBytes(checksum, sent, Checked(usage)))
                && (sent.data == data <==> |data| < 0x10000)
    {
      hide Frame, PacketBytes, Valid;
      status := SendPacket(id, data[..|data| % 0x10000], usage);
    }
  }
}
