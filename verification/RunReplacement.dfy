/** Which runs the replacing writers replace: wherever a block is short enough for the code of a replaced run,
    no run of the run byte is left in it, for COBS/GSE and COBS/ZPE alike. */
module RunReplacement {
  import opened Bytes
  import opened CobsBlocks
  import opened CobsConfig
  import opened CobsEncoder

  // ---- No run is left ----

  /** A whole run begins at index `i` of a block's data. */
  predicate RunAt(c: Config, s: seq<Byte>, i: nat) {
    i + c.runSize <= |s| && forall j :: i <= j < i + c.runSize ==> s[j] == c.runByte
  }

  /** No run begins where its replacement would still have a code: the index, the code byte and the depth fit
      in a byte. */
  ghost predicate NoRunLeft(c: Config, s: seq<Byte>) {
    forall i: nat :: RunAt(c, s, i) ==> i + 1 + c.depth > 255
  }

  /** Length of the stretch of `b` at the end of `s`. */
  function Stretch(b: Byte, s: seq<Byte>): (n: nat)
    ensures n <= |s|
  {
    if s == [] || s[|s| - 1] != b then 0 else Stretch(b, s[..|s| - 1]) + 1
  }

  lemma {:induction false} BeforeStretch(b: Byte, s: seq<Byte>)
    ensures Stretch(b, s) < |s| ==> s[|s| - Stretch(b, s) - 1] != b
  {
    if s == [] || s[|s| - 1] != b {
    } else {
      BeforeStretch(b, s[..|s| - 1]);
    }
  }

  /** Where the stretch at the end of `s` begins, a run could no longer be replaced. */
  predicate Late(c: Config, s: seq<Byte>) {
    Stretch(c.runByte, s) == 0 || |s| - Stretch(c.runByte, s) + 1 + c.depth > 255
  }

  lemma StretchGrows(s: seq<Byte>, b: Byte, x: Byte)
    ensures Stretch(b, s + [x]) == if x == b then Stretch(b, s) + 1 else 0
  {
    assert (s + [x])[..|s|] == s;
  }

  lemma NoRunOneMore(c: Config, s: seq<Byte>, b: Byte)
    requires NoRunLeft(c, s) && c.runSize > 0
    requires b != c.runByte || Stretch(b, s) + 1 < c.runSize || |s| - Stretch(b, s) + 1 + c.depth > 255
    ensures NoRunLeft(c, s + [b])
  {
    forall i: nat | RunAt(c, s + [b], i) ensures i + 1 + c.depth > 255 {
      if i + c.runSize <= |s| {
        assert forall j :: i <= j < i + c.runSize ==> s[j] == (s + [b])[j];
        assert RunAt(c, s, i);
      } else {
        assert i + c.runSize == |s| + 1 && (s + [b])[|s|] == b;
        var n := Stretch(b, s);
        BeforeStretch(b, s);
        if i < |s| - n {
          assert (s + [b])[|s| - n - 1] == s[|s| - n - 1];
        }
      }
    }
  }

  ghost predicate BlocksThrifty(c: Config, bs: seq<Block>) {
    forall i :: 0 <= i < |bs| ==> NoRunLeft(c, bs[i].data)
  }

  /** No run is left in what has been emitted or buffered. */
  ghost predicate Thrifty(c: Config, w: Writer) {
    BlocksThrifty(c, w.blocks) && NoRunLeft(c, w.buffer)
  }

  lemma NoRunInNothing(c: Config)
    requires c.runSize > 0
    ensures NoRunLeft(c, [])
  {
  }

  lemma EncodeThrifty(c: Config, w: Writer, b: Byte)
    requires Accepted(c) && Good(c, w) && w.counter == 0 && c.runSize > 0 && Thrifty(c, w)
    requires b != c.runByte || Stretch(b, w.buffer) + 1 < c.runSize || Late(c, w.buffer + [b])
    ensures var v := EncodeByte(c, w, b);
            Thrifty(c, v) && (v.buffer == [] || v.buffer == w.buffer + [b])
  {
    hide NoRunLeft;
    StretchGrows(w.buffer, c.runByte, b);
    NoRunInNothing(c);
    NoRunOneMore(c, w.buffer, b);
  }

  /** Counted run bytes, fewer than a run, may be encoded after all. */
  lemma {:induction false} EncodeTimesThrifty(c: Config, w: Writer, n: nat)
    requires Accepted(c) && Good(c, w) && w.counter == 0 && Thrifty(c, w)
    requires n < c.runSize && (n > 0 ==> Stretch(c.runByte, w.buffer) == 0)
    ensures var v := EncodeTimes(c, w, c.runByte, n);
            Thrifty(c, v) && (n > 0 ==> Stretch(c.runByte, v.buffer) <= n) && (n == 0 ==> v == w)
  {
    if n == 0 {
    } else {
      hide Thrifty, EncodeByte, Good, NoRunLeft, Stretch;
      EncodeTimesThrifty(c, w, n - 1);
      var v := EncodeTimes(c, w, c.runByte, n - 1);
      EncodeThrifty(c, v, c.runByte);
      StretchGrows(v.buffer, c.runByte, c.runByte);
    }
  }

  lemma WriteThrifty(c: Config, w: Writer, b: Byte)
    requires Accepted(c) && c.kind != Plain && Good(c, w) && Thrifty(c, w) && Late(c, w.buffer)
    ensures var v := WriteByte(c, w, b); Thrifty(c, v) && Late(c, v.buffer)
  {
    hide NoRunLeft, EncodeByte;
    NoRunInNothing(c);
    if !Counts(c, w, b) {
      EncodeTimesThrifty(c, w.(counter := 0), w.counter);
      var v := Flush(c, w);
      StretchGrows(v.buffer, c.runByte, b);
      EncodeThrifty(c, v, b);
    }
  }

  lemma {:induction false} AllThrifty(c: Config, data: seq<Byte>)
    requires Accepted(c) && c.kind != Plain
    ensures Thrifty(c, WriteAll(c, data)) && Late(c, WriteAll(c, data).buffer)
  {
    if data == [] {
      NoRunInNothing(c);
    } else {
      AllThrifty(c, data[..|data| - 1]);
      WriteThrifty(c, WriteAll(c, data[..|data| - 1]), data[|data| - 1]);
    }
  }

  /** No block of a frame holds a run of the run byte that could have been replaced. */
  lemma NoRunIsLeft(c: Config, data: seq<Byte>)
    requires Accepted(c) && c.kind != Plain
    ensures forall b :: b in FrameBlocks(c, data) ==> NoRunLeft(c, b.data)
  {
    var w := WriteAll(c, data);
    AllThrifty(c, data);
    EncodeTimesThrifty(c, w.(counter := 0), w.counter);
  }

  // ---- A run is replaced ----

  /** Run bytes are pending only right after run bytes. */
  lemma NothingPending(c: Config, data: seq<Byte>)
    requires Accepted(c) && (data == [] || data[|data| - 1] != c.runByte)
    ensures WriteAll(c, data).counter == 0
  {
  }

  /** Fewer run bytes than a run stay pending where a run could be replaced. */
  lemma {:induction false} RunPending(c: Config, data: seq<Byte>, n: nat)
    requires Accepted(c) && c.kind != Plain && n < c.runSize
    requires WriteAll(c, data).counter == 0 && |WriteAll(c, data).buffer| + 1 + c.depth <= 255
    ensures WriteAll(c, data + Rep(c.runByte, n)) == WriteAll(c, data).(counter := n)
  {
    if n == 0 {
      assert data + Rep(c.runByte, 0) == data;
    } else {
      RunPending(c, data, n - 1);
      OneMoreOfTheRun(c, data, n - 1);
    }
  }

  lemma OneMoreOfTheRun(c: Config, data: seq<Byte>, n: nat)
    requires Accepted(c)
    ensures WriteAll(c, data + Rep(c.runByte, n + 1))
         == WriteByte(c, WriteAll(c, data + Rep(c.runByte, n)), c.runByte)
  {
    RepSnoc(c.runByte, n);
    assert data + Rep(c.runByte, n + 1) == data + Rep(c.runByte, n) + [c.runByte];
    WriteOneMore(c, data + Rep(c.runByte, n), c.runByte);
  }

  /** A whole run written where it could be replaced, with nothing pending, is replaced: it ends the block. */
  lemma RunReplaced(c: Config, data: seq<Byte>)
    requires Accepted(c) && c.kind != Plain
    requires WriteAll(c, data).counter == 0 && |WriteAll(c, data).buffer| + 1 + c.depth <= 255
    ensures var w := WriteAll(c, data);
            WriteAll(c, data + Rep(c.runByte, c.runSize)) == Writer(w.blocks + [Block(w.buffer, Run)], [], 0)
  {
    RunPending(c, data, c.runSize - 1);
    OneMoreOfTheRun(c, data, c.runSize - 1);
  }

  /** The smallest case: with the default COBS/ZPE configuration two zeros are one code byte, 224 + 1. */
  lemma PairOfZeros()
    ensures Body(DefaultConfig(Zpe), [0, 0]) == [225, 1]
  {
    var c := DefaultConfig(Zpe);
    NothingPending(c, []);
    RunReplaced(c, []);
    assert [] + Rep(c.runByte, c.runSize) == [0, 0];
    AppendBlock(c, [], Block([], Run));
    AppendBlock(c, [Block([], Run)], Block([], Separator));
    assert FrameBlocks(c, [0, 0]) == [Block([], Run)] + [Block([], Separator)];
    assert [] + [Block([], Run)] == [Block([], Run)];
  }
}
