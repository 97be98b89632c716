/** Where the read strategy stands after a stream, whatever has happened in it, and how it answers the next
    byte. A strategy goes on reading while the delimiter is awaited, from wherever a reset has left it. */
module ReaderStates {
  import opened Bytes
  import CobsConfig
  import CobsReader
  import opened Framing
  import opened Reading
  import opened Strategies
  import opened Trace
  import opened TraceSteps

  /** The delimiter is awaited: the current frame has a mistake, found by the strategy or by the receiver. */
  predicate Muted(u: Setup, attached: bool, s: seq<Byte>) {
    var d := Delimiter(u.strategy);
    var p := Read(u.strategy, Rest(d, s));
    if attached then Spoiled(u, |Bodies(d, s)|, p) else p.bad
  }

  /** The state after a byte in which the receiver resets the strategy: after a payload byte the countdown goes on
      from zero and wraps; a new block begins regardless; the byte stuffing reader has nothing left to do. */
  function Interrupted(s: Strategy, before: ReadState, next: ReadState): ReadState {
    if s.Stuffing? then START
    else if before.offset != 0 then START.(offset := 255)
    else next
  }

  function NextState(s: Strategy, st: ReadState, b: Byte, interrupted: bool): ReadState {
    match Step(s, st, b)
    case Reject => START
    case Accept(next, _) => if interrupted then Interrupted(s, st, next) else next
  }

  /** The fields of the read strategy after `s`. */
  function StateOf(u: Setup, attached: bool, s: seq<Byte>): ReadState {
    if s == [] || s[|s| - 1] == Delimiter(u.strategy) then START
    else
      var init := s[..|s| - 1];
      NextState(u.strategy, StateOf(u, attached, init), s[|s| - 1], Muted(u, attached, s) && !Muted(u, attached, init))
  }

  /** What `read` returns for the byte after `s`. */
  function StatusOf(u: Setup, attached: bool, s: seq<Byte>, b: Byte): Status {
    if b == Delimiter(u.strategy) then ReadDelimiter
    else if Step(u.strategy, StateOf(u, attached, s), b).Reject? then ReadError
    else ReadOk
  }

  lemma StateOneMore(u: Setup, attached: bool, s: seq<Byte>, b: Byte)
    ensures StateOf(u, attached, s + [b])
         == if b == Delimiter(u.strategy) then START
            else NextState(u.strategy, StateOf(u, attached, s), b,
                           Muted(u, attached, s + [b]) && !Muted(u, attached, s))
  {
    assert (s + [b])[..|s|] == s;
  }

  lemma MutedStays(u: Setup, attached: bool, s: seq<Byte>, b: Byte)
    requires b != Delimiter(u.strategy) && Muted(u, attached, s)
    ensures Muted(u, attached, s + [b])
  {
    hide Bodies, Rest, Feed, Spoiled, Open, Added;
    var d := Delimiter(u.strategy);
    CutOneMore(d, s, b);
    FeedSnoc(u.strategy, BEGIN, Rest(d, s), b);
    OpenGrows(u, |Bodies(d, s)|, Read(u.strategy, Rest(d, s)), b);
  }

  /** In a frame without a mistake the strategy is where the bytes of that frame alone put it. */
  lemma {:induction false} FineState(u: Setup, attached: bool, s: seq<Byte>)
    requires !Muted(u, attached, s)
    ensures StateOf(u, attached, s) == Read(u.strategy, Rest(Delimiter(u.strategy), s)).state
    decreases |s|
  {
    hide Bodies, Rest, Feed, Spoiled, StateOf;
    var d := Delimiter(u.strategy);
    FeedNothing(u.strategy, BEGIN);
    if s == [] {
      NothingRead(u, attached);
    } else {
      var init, b := s[..|s| - 1], s[|s| - 1];
      assert s == init + [b];
      CutOneMore(d, init, b);
      StateOneMore(u, attached, init, b);
      if b != d {
        if Muted(u, attached, init) {
          MutedStays(u, attached, init, b);
        }
        FineState(u, attached, init);
        FeedSnoc(u.strategy, BEGIN, Rest(d, init), b);
        StillFine(u, attached, init, b);
      }
    }
  }

  lemma NothingRead(u: Setup, attached: bool)
    ensures StateOf(u, attached, []) == START && Rest(Delimiter(u.strategy), []) == []
  {
  }

  lemma StillFine(u: Setup, attached: bool, s: seq<Byte>, b: Byte)
    requires b != Delimiter(u.strategy) && !Muted(u, attached, s + [b])
    ensures var rest := Rest(Delimiter(u.strategy), s);
            !Read(u.strategy, rest).bad && Step(u.strategy, Read(u.strategy, rest).state, b).Accept?
  {
    hide Bodies, Rest, Feed, Step, Verdict;
    var d := Delimiter(u.strategy);
    CutOneMore(d, s, b);
    FeedSnoc(u.strategy, BEGIN, Rest(d, s), b);
  }

  /** A byte that the strategy rejects in a frame without a mistake is one that its frame rejects. */
  lemma FineStatus(u: Setup, attached: bool, s: seq<Byte>, b: Byte)
    requires b != Delimiter(u.strategy) && !Muted(u, attached, s)
    ensures StatusOf(u, attached, s, b) == ReadError
       <==> Read(u.strategy, Rest(Delimiter(u.strategy), s + [b])).bad
  {
    hide Bodies, Rest, Feed, Step, Verdict, StateOf;
    var d := Delimiter(u.strategy);
    FineState(u, attached, s);
    CutOneMore(d, s, b);
    FeedSnoc(u.strategy, BEGIN, Rest(d, s), b);
  }

  /** After an error the strategy starts over, also while the delimiter is awaited. */
  lemma ErrorStartsOver(u: Setup, attached: bool, s: seq<Byte>, b: Byte)
    requires StatusOf(u, attached, s, b) == ReadError
    ensures StateOf(u, attached, s + [b]) == START
  {
    hide Muted, StateOf;
    StateOneMore(u, attached, s, b);
  }

  /** If the receiver finds its mistake in what the last block owed, the new block begins all the same. */
  lemma BlockBeginsRegardless(u: Setup, s: seq<Byte>, b: Byte)
    requires u.strategy.Cobs? && CobsConfig.Accepted(u.strategy.cobs) && b != Delimiter(u.strategy)
    requires StateOf(u, true, s).offset == 0 && StatusOf(u, true, s, b) == ReadOk
    ensures StateOf(u, true, s + [b]).offset
         == CobsReader.Announced(u.strategy.cobs, CobsConfig.Unswap(u.strategy.cobs, b)) - 1
  {
    hide Muted, StateOf;
    StateOneMore(u, true, s, b);
    CobsConfig.SwapRoundTrip(u.strategy.cobs, b);
  }

  /** A mistake that the receiver finds in a payload byte makes the countdown wrap: the receiver has reset it to
      zero in the middle of the read, which goes on to decrement it. */
  lemma CountdownWraps(u: Setup, s: seq<Byte>, b: Byte)
    requires u.strategy.Cobs? && b != Delimiter(u.strategy) && StateOf(u, true, s).offset != 0
    requires !Muted(u, true, s) && Muted(u, true, s + [b])
    ensures StateOf(u, true, s + [b]).offset == 255 && StatusOf(u, true, s, b) == ReadOk
  {
    hide Muted, StateOf;
    StateOneMore(u, true, s, b);
  }
}
