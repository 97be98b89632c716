/** What a read strategy keeps between bytes and how it answers a byte that is not the delimiter. */
module Reading {
  import opened Bytes

  /** The fields of the COBS readers (countdown to the next code byte, whether the last block was full,
      whether it ended in a replaced run) and of the byte stuffing reader (escape seen). */
  datatype ReadState = ReadState(offset: Byte, full: bool, run: bool, escaped: bool)

  const START := ReadState(0, true, false, false)

  /** Bytes delivered with status OK and the new state, or an error and a reset. */
  datatype Reaction = Accept(state: ReadState, emitted: seq<Byte>) | Reject

  /** A delimiter is only welcome between blocks, with no run owed and no escape pending. */
  predicate AtRest(st: ReadState) {
    st.offset == 0 && !st.run && !st.escaped
  }

  /** How a frame body ended. */
  datatype Ending = Complete | Truncated | Corrupt

  /** A body decoded as a whole: the bytes delivered and how it ended. */
  datatype Decoded = Decoded(out: seq<Byte>, ending: Ending)
}
