/** Byte stuffing (src/strategies/byte_stuffing), the octet-stuffed framing of section 4.2 of RFC 1662
    with a configurable delimiter, escape byte and mask. */
module ByteStuffing {
  import opened Bytes
  import opened Reading

  datatype Config = Config(delimiter: Byte, escape: Byte, mask: Byte)

  datatype SetStatus = SetOk | ErrorInvertedEqual | ErrorEqual | ErrorMaskIsNull

  function CheckConfig(c: Config): SetStatus {
    if c.escape == c.delimiter then ErrorEqual
    else if Xor(c.escape, c.mask) == c.delimiter then ErrorInvertedEqual
    else if c.mask == 0 then ErrorMaskIsNull
    else SetOk
  }

  predicate Accepted(c: Config) {
    CheckConfig(c) == SetOk
  }

  /** What each refusal means; an escape byte equal to the delimiter is reported first. */
  lemma RefusedExactly(c: Config)
    ensures CheckConfig(c) == ErrorEqual <==> c.escape == c.delimiter
    ensures CheckConfig(c) == ErrorInvertedEqual <==> c.escape != c.delimiter && Xor(c.delimiter, c.mask) == c.escape
    ensures CheckConfig(c) == ErrorMaskIsNull <==> c.escape != c.delimiter && c.mask == 0
  {
    XorInvolution(c.escape, c.mask);
    XorInvolution(c.delimiter, c.mask);
  }

  const DEFAULT := Config(0xFE, 0xFD, 0x20)
  const PPP := Config(0x7E, 0x7D, 0x20)

  /** Both configurations that the library provides pass the check. */
  lemma DefaultsAccepted()
    ensures Accepted(DEFAULT) && Accepted(PPP)
  {
    XorParity(0xFD, 0x20);
    XorParity(0x7D, 0x20);
  }

  predicate Special(c: Config, b: Byte) {
    b == c.delimiter || b == c.escape
  }

  /** `write`. */
  function StuffByte(c: Config, b: Byte): seq<Byte> {
    if Special(c, b) then [c.escape, Xor(b, c.mask)] else [b]
  }

  function Stuff(c: Config, data: seq<Byte>): seq<Byte> {
    if data == [] then [] else Stuff(c, data[..|data| - 1]) + StuffByte(c, data[|data| - 1])
  }

  lemma StuffOneMore(c: Config, data: seq<Byte>, b: Byte)
    ensures Stuff(c, data + [b]) == Stuff(c, data) + StuffByte(c, b)
  {
    assert (data + [b])[..|data|] == data;
  }

  /** The configurations accepted are exactly those under which no data can put the delimiter in a body. */
  lemma AcceptedExactly(c: Config)
    ensures Accepted(c) <==> forall data :: Free(c.delimiter, Stuff(c, data))
  {
    XorInvolution(c.delimiter, c.mask);
    if Accepted(c) {
      forall data ensures Free(c.delimiter, Stuff(c, data)) {
        StuffIsFree(c, data);
      }
    } else {
      var bad := if Xor(c.escape, c.mask) == c.delimiter && c.escape != c.delimiter then c.escape else c.delimiter;
      assert Stuff(c, [bad]) == StuffByte(c, bad) by {
        assert [bad][..0] == [];
      }
      assert StuffByte(c, bad)[0] == c.delimiter || StuffByte(c, bad)[1] == c.delimiter;
      assert !Free(c.delimiter, Stuff(c, [bad]));
    }
  }

  lemma {:induction false} StuffIsFree(c: Config, data: seq<Byte>)
    requires Accepted(c)
    ensures Free(c.delimiter, Stuff(c, data))
  {
    XorInvolution(c.delimiter, c.mask);
    if data == [] {
    } else {
      StuffIsFree(c, data[..|data| - 1]);
    }
  }

  /** Bytes other than delimiter and escape are left alone; those two become a pair that the mask relates. */
  lemma StuffedByte(c: Config, data: seq<Byte>, b: Byte)
    ensures Stuff(c, []) == []
    ensures Stuff(c, data + [b])
         == Stuff(c, data) + if b == c.delimiter || b == c.escape then [c.escape, Xor(b, c.mask)] else [b]
  {
    StuffOneMore(c, data, b);
  }

  /** How many bytes of `data` are delimiters or escape bytes. */
  function CountSpecial(c: Config, data: seq<Byte>): nat {
    if data == [] then 0
    else CountSpecial(c, data[..|data| - 1])
         + if data[|data| - 1] == c.delimiter || data[|data| - 1] == c.escape then 1 else 0
  }

  lemma {:induction false} StuffLength(c: Config, data: seq<Byte>)
    ensures |Stuff(c, data)| == |data| + CountSpecial(c, data) <= 2 * |data|
  {
    if data == [] {
    } else {
      StuffLength(c, data[..|data| - 1]);
    }
  }

  // ---- Reading ----

  /** `read`, for a byte other than the delimiter. Only the two special bytes may follow an escape. */
  function Step(c: Config, st: ReadState, b: Byte): Reaction {
    if st.escaped then
      var plain := Xor(b, c.mask);
      if Special(c, plain) then Accept(st.(escaped := false), [plain]) else Reject
    else if b == c.escape then Accept(st.(escaped := true), [])
    else Accept(st, [b])
  }

  /** A whole body, read front to back. */
  function Decode(c: Config, body: seq<Byte>): Decoded {
    if body == [] then Decoded([], Complete)
    else if body[0] != c.escape then
      var rest := Decode(c, body[1..]);
      Decoded([body[0]] + rest.out, rest.ending)
    else if |body| == 1 then Decoded([], Truncated)
    else
      var plain := Xor(body[1], c.mask);
      if !Special(c, plain) then Decoded([], Corrupt)
      else
        var rest := Decode(c, body[2..]);
        Decoded([plain] + rest.out, rest.ending)
  }
}
