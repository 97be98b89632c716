/** The COBS, COBS/GSE and COBS/ZPE readers (src/strategies/cobs/read.cpp) as functions. */
module CobsReader {
  import opened Bytes
  import opened CobsBlocks
  import opened CobsConfig
  import opened Reading

  /** What the block just read still owes before the next one. */
  function Owed(st: ReadState): End {
    if st.run then Run else if st.full then Full else Separator
  }

  predicate MarksRun(c: Config, code: Byte) {
    c.kind != Plain && code > c.depth
  }

  /** Offset to the next code byte that a code byte announces; more than the depth if it is invalid. */
  function Announced(c: Config, code: Byte): Byte {
    if MarksRun(c, code) then code - c.depth else code
  }

  /** `read`, for a byte other than the delimiter, with the decrement of the countdown on eight bits. */
  function Step(c: Config, st: ReadState, b: Byte): Reaction {
    if st.offset != 0 then Accept(st.(offset := st.offset - 1), [b])
    else
      var code := Unswap(c, b);
      var next := Announced(c, code);
      if next > c.depth then Reject
      else Accept(ReadState((next + 255) % 256, next == c.depth, MarksRun(c, code), st.escaped), Tail(c, Owed(st)))
  }

  /** Between blocks, a byte other than the delimiter is an error exactly if the offset it stands for is beyond
      the depth, or beyond twice the depth where runs are replaced. */
  lemma RejectedExactly(c: Config, st: ReadState, b: Byte)
    requires Accepted(c) && b != c.delimiter
    ensures st.offset != 0 ==> Step(c, st, b).Accept?
    ensures st.offset == 0 ==>
              (Step(c, st, b).Reject? <==> Unswap(c, b) > if c.kind == Plain then c.depth else 2 * c.depth)
    ensures st.offset == 0 && c.kind == Zpe ==> Step(c, st, b).Accept?
  {
  }

  /** What the block that a code byte opens will owe. */
  function Owes(c: Config, code: Byte): End {
    if MarksRun(c, code) then Run else if Announced(c, code) == c.depth then Full else Separator
  }

  /** How the last block of a well-formed body ends; an empty body counts as ending with `owed`. */
  function LastEnd(c: Config, body: seq<Byte>, owed: End): End
    decreases |body|
  {
    if body == [] then owed
    else
      var code := Unswap(c, body[0]);
      var next := Announced(c, code);
      if next == 0 || |body| < next then owed else LastEnd(c, body[next..], Owes(c, code))
  }

  /** A whole body, read block by block; `owed` is what the previous block still owes. */
  function Decode(c: Config, body: seq<Byte>, owed: End): Decoded
    decreases |body|
  {
    if body == [] then Decoded([], if owed.Run? then Truncated else Complete)
    else
      var code := Unswap(c, body[0]);
      var next := Announced(c, code);
      if next > c.depth || next == 0 then Decoded([], Corrupt)
      else if |body| < next then Decoded(Tail(c, owed) + body[1..], Truncated)
      else
        var rest := Decode(c, body[next..], Owes(c, code));
        Decoded(Tail(c, owed) + body[1..next] + rest.out, rest.ending)
  }
}
