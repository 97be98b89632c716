/** CRC-8 of src/checksums/crc8.cpp: the loop, its meaning as a polynomial remainder over GF(2),
    and the error bursts it detects. A polynomial is written as its coefficients, highest first. */
module Crc8 {
  import opened Bytes

  // ---- The loop ----

  /** One turn of the inner loop. */
  function BitStep(crc: Byte, poly: Byte): Byte {
    if crc >= 128 then Xor((2 * crc) % 256, poly) else (2 * crc) % 256
  }

  function BitSteps(crc: Byte, poly: Byte, n: nat): Byte {
    if n == 0 then crc else BitStep(BitSteps(crc, poly, n - 1), poly)
  }

  function ByteStep(crc: Byte, poly: Byte): Byte {
    BitSteps(crc, poly, 8)
  }

  function Crc(data: seq<Byte>, crc: Byte, poly: Byte): Byte {
    if data == [] then crc
    else ByteStep(Xor(Crc(data[..|data| - 1], crc, poly), data[|data| - 1]), poly)
  }

  lemma CrcSnoc(data: seq<Byte>, last: Byte, crc: Byte, poly: Byte)
    ensures Crc(data + [last], crc, poly) == ByteStep(Xor(Crc(data, crc, poly), last), poly)
  {
    assert (data + [last])[..|data|] == data;
  }

  lemma CrcOfNothing(crc: Byte, poly: Byte)
    ensures Crc([], crc, poly) == crc
  {
  }

  method Compute(data: seq<Byte>, start: Byte, poly: Byte) returns (crc: Byte)
    ensures crc == Crc(data, start, poly)
  {
    hide *;
    crc := start;
    CrcOfNothing(start, poly);
    assert data[..0] == [];
    for i := 0 to |data|
      invariant crc == Crc(data[..i], start, poly)
    {
      crc := Xor(crc, data[i]);
      crc := ShiftByte(crc, poly);
      CrcSnoc(data[..i], data[i], start, poly);
      assert data[..i + 1] == data[..i] + [data[i]];
    }
    assert data[..|data|] == data;
  }

  /** The inner loop. */
  method ShiftByte(mixed: Byte, poly: Byte) returns (crc: Byte)
    ensures crc == ByteStep(mixed, poly)
  {
    crc := mixed;
    var j := 0;
    while j < 8
      invariant 0 <= j <= 8 && crc == BitSteps(mixed, poly, j)
    {
      if crc >= 128 {
        crc := Xor((2 * crc) % 256, poly);
      } else {
        crc := (2 * crc) % 256;
      }
      j := j + 1;
    }
  }

  /** A checksum may be computed in pieces: the result of one piece starts the next. */
  lemma {:induction false} CrcChains(a: seq<Byte>, b: seq<Byte>, crc: Byte, poly: Byte)
    ensures Crc(a + b, crc, poly) == Crc(b, Crc(a, crc, poly), poly)
    decreases |b|
  {
    if b == [] {
      assert a + b == a;
    } else {
      assert (a + b)[..|a + b| - 1] == a + b[..|b| - 1];
      CrcChains(a, b[..|b| - 1], crc, poly);
    }
  }

  // ---- The shift register, one message bit at a time ----

  type Register = s: seq<bool> | |s| == 8 witness Zeros(8)

  function Clock(reg: Register, bit: bool, g: Register): Register {
    var shifted := reg[1..] + [false];
    if reg[0] != bit then XorBits(shifted, g) else shifted
  }

  function Serial(reg: Register, m: seq<bool>, g: Register): Register
    decreases |m|
  {
    if m == [] then reg else Serial(Clock(reg, m[0], g), m[1..], g)
  }

  lemma {:induction false} SerialConcat(reg: Register, a: seq<bool>, b: seq<bool>, g: Register)
    ensures Serial(reg, a + b, g) == Serial(Serial(reg, a, g), b, g)
    decreases |a|
  {
    if a == [] {
      assert a + b == b;
    } else {
      assert (a + b)[1..] == a[1..] + b;
      SerialConcat(Clock(reg, a[0], g), a[1..], b, g);
    }
  }

  lemma {:induction false} ShiftBits(x: nat, n: nat)
    ensures Bits(2 * x, n + 1) == Bits(x, n) + [false]
  {
    BitsStep(2 * x, n + 1);
  }

  lemma {:induction false} TopBit(x: nat, n: nat)
    requires x < Pow2(n + 1)
    ensures Bits(x, n + 1)[0] <==> x >= Pow2(n)
    ensures Bits(x, n + 1)[1..] == Bits(if x >= Pow2(n) then x - Pow2(n) else x, n)
    decreases n
  {
    if n == 0 {
      BitsStep(x, 1);
    } else {
      TopBit(x / 2, n - 1);
      var y := if x >= Pow2(n) then x - Pow2(n) else x;
      assert y / 2 == (if x / 2 >= Pow2(n - 1) then x / 2 - Pow2(n - 1) else x / 2) && y % 2 == x % 2;
      BitsStep(x, n + 1);
      BitsStep(y, n);
      assert Bits(x, n + 1)[1..] == Bits(x / 2, n)[1..] + [x % 2 == 1];
    }
  }

  lemma BitStepIsClock(crc: Byte, poly: Byte)
    ensures ByteBits(BitStep(crc, poly)) == Clock(ByteBits(crc), false, ByteBits(poly))
  {
    Pow2Is256();
    assert Pow2(7) == 128;
    TopBit(crc, 7);
    var low := if crc >= 128 then crc - 128 else crc;
    assert (2 * crc) % 256 == 2 * low;
    ShiftBits(low, 7);
  }

  lemma {:induction false} BitStepsAreSerial(crc: Byte, poly: Byte, n: nat)
    ensures ByteBits(BitSteps(crc, poly, n)) == Serial(ByteBits(crc), Zeros(n), ByteBits(poly))
  {
    if n == 0 {
    } else {
      BitStepsAreSerial(crc, poly, n - 1);
      BitStepIsClock(BitSteps(crc, poly, n - 1), poly);
      assert Zeros(n) == Zeros(n - 1) + [false];
      SerialConcat(ByteBits(crc), Zeros(n - 1), [false], ByteBits(poly));
      assert [false][1..] == [];
      assert Serial(Serial(ByteBits(crc), Zeros(n - 1), ByteBits(poly)), [false], ByteBits(poly))
          == Clock(Serial(ByteBits(crc), Zeros(n - 1), ByteBits(poly)), false, ByteBits(poly));
    }
  }

  lemma MixClock(reg: Register, m: seq<bool>, g: Register)
    requires 1 <= |m| <= 8
    ensures Clock(XorBits(reg, m + Zeros(8 - |m|)), false, g)
         == XorBits(Clock(reg, m[0], g), m[1..] + Zeros(8 - |m[1..]|))
  {
  }

  /** Message bits may be added to the front of the register at once instead of one at a time. */
  lemma {:induction false} MixIn(reg: Register, m: seq<bool>, g: Register)
    requires |m| <= 8
    ensures Serial(XorBits(reg, m + Zeros(8 - |m|)), Zeros(|m|), g) == Serial(reg, m, g)
    decreases |m|
  {
    if m == [] {
      assert XorBits(reg, m + Zeros(8)) == reg;
    } else {
      assert Zeros(|m|)[1..] == Zeros(|m| - 1);
      MixClock(reg, m, g);
      MixIn(Clock(reg, m[0], g), m[1..], g);
    }
  }

  /** The bits of a message, in transmission order. */
  function Message(data: seq<Byte>): (m: seq<bool>)
    ensures |m| == 8 * |data|
  {
    if data == [] then [] else Message(data[..|data| - 1]) + ByteBits(data[|data| - 1])
  }

  /** The byte loop is the bit-serial register. */
  lemma {:induction false} CrcIsSerial(data: seq<Byte>, crc: Byte, poly: Byte)
    ensures ByteBits(Crc(data, crc, poly)) == Serial(ByteBits(crc), Message(data), ByteBits(poly))
  {
    hide BitSteps, Bits, Xor;
    if data == [] {
    } else {
      var init, last := data[..|data| - 1], data[|data| - 1];
      var c, g := Crc(init, crc, poly), ByteBits(poly);
      CrcIsSerial(init, crc, poly);
      BitStepsAreSerial(Xor(c, last), poly, 8);
      assert ByteBits(last) + Zeros(0) == ByteBits(last);
      MixIn(ByteBits(c), ByteBits(last), g);
      SerialConcat(ByteBits(crc), Message(init), ByteBits(last), g);
    }
  }

  // ---- Polynomial meaning ----

  /** The multiple of x^8 + g that one quotient coefficient contributes, `n` places up. */
  function Top(coefficient: bool, g: Register, n: nat): (t: seq<bool>)
    ensures |t| == n + 9 && t[0] == coefficient
  {
    (if coefficient then [true] + g else Zeros(9)) + Zeros(n)
  }

  /** The product of `q` and the monic polynomial x^8 + g. */
  function Times(q: seq<bool>, g: Register): (p: seq<bool>)
    ensures |p| == |q| + 8
  {
    if q == [] then Zeros(8)
    else XorBits(Top(q[0], g, |q| - 1), [false] + Times(q[1..], g))
  }

  /** The message times x^8, with the initial register added to its first eight coefficients. */
  function Dividend(init: Register, m: seq<bool>): (p: seq<bool>)
    ensures |p| == |m| + 8
  {
    XorBits(init + Zeros(|m|), m + Zeros(8))
  }

  /** `r` is a remainder of the dividend modulo x^8 + g. */
  ghost predicate IsRemainder(init: Register, m: seq<bool>, g: Register, r: Register) {
    exists q: seq<bool> :: |q| == |m| && Dividend(init, m) == XorBits(Times(q, g), Zeros(|m|) + r)
  }

  function Quotient(reg: Register, m: seq<bool>, g: Register): (q: seq<bool>)
    ensures |q| == |m|
    decreases |m|
  {
    if m == [] then [] else [reg[0] != m[0]] + Quotient(Clock(reg, m[0], g), m[1..], g)
  }

  lemma XorShift(top: seq<bool>, a: seq<bool>, b: seq<bool>)
    requires |top| == |a| + 1 && |a| == |b|
    ensures XorBits(XorBits(top, [false] + a), [false] + b) == XorBits(top, [false] + XorBits(a, b))
  {
  }

  lemma XorCancel(t: seq<bool>, a: seq<bool>, b: seq<bool>)
    requires |t| == |a| == |b| && XorBits(t, a) == XorBits(t, b)
    ensures a == b
  {
    forall i | 0 <= i < |a| ensures a[i] == b[i] {
      assert XorBits(t, a)[i] == XorBits(t, b)[i];
    }
  }

  lemma DividendStep(reg: Register, m: seq<bool>, g: Register)
    requires m != []
    ensures Dividend(reg, m)
         == XorBits(Top(reg[0] != m[0], g, |m| - 1), [false] + Dividend(Clock(reg, m[0], g), m[1..]))
  {
    var next, rest := Clock(reg, m[0], g), m[1..];
    var d, d' := Dividend(reg, m), [false] + Dividend(next, rest);
    var top := Top(reg[0] != m[0], g, |rest|);
    forall i | 0 <= i < |d| ensures d[i] == (top[i] != d'[i]) {
      if 1 <= i < 9 {
        assert next[i - 1] == ((i < 8 && reg[i]) != top[i]);
      }
    }
  }

  lemma TimesStep(q: seq<bool>, g: Register, r: Register)
    requires q != []
    ensures XorBits(Times(q, g), Zeros(|q|) + r)
         == XorBits(Top(q[0], g, |q| - 1), [false] + XorBits(Times(q[1..], g), Zeros(|q| - 1) + r))
  {
    assert Zeros(|q|) + r == [false] + (Zeros(|q| - 1) + r);
    XorShift(Top(q[0], g, |q| - 1), Times(q[1..], g), Zeros(|q| - 1) + r);
  }

  lemma {:induction false} SerialDivides(reg: Register, m: seq<bool>, g: Register)
    ensures Dividend(reg, m) == XorBits(Times(Quotient(reg, m, g), g), Zeros(|m|) + Serial(reg, m, g))
    decreases |m|
  {
    if m == [] {
      assert Dividend(reg, m) == reg;
      assert Zeros(0) + reg == reg;
      assert XorBits(Zeros(8), reg) == reg;
    } else {
      SerialDivides(Clock(reg, m[0], g), m[1..], g);
      DividendStep(reg, m, g);
      var q := Quotient(reg, m, g);
      assert q[1..] == Quotient(Clock(reg, m[0], g), m[1..], g);
      TimesStep(q, g, Serial(reg, m, g));
    }
  }

  lemma {:induction false} RemainderUnique(q: seq<bool>, r: Register, q': seq<bool>, r': Register, g: Register)
    requires |q| == |q'|
    requires XorBits(Times(q, g), Zeros(|q|) + r) == XorBits(Times(q', g), Zeros(|q|) + r')
    ensures q == q' && r == r'
    decreases |q|
  {
    if q == [] {
      assert Zeros(0) + r == r && Zeros(0) + r' == r';
      XorCancel(Zeros(8), r, r');
    } else {
      var n := |q| - 1;
      TimesStep(q, g, r);
      TimesStep(q', g, r');
      var b, b' := XorBits(Times(q[1..], g), Zeros(n) + r), XorBits(Times(q'[1..], g), Zeros(n) + r');
      var t, t' := Top(q[0], g, n), Top(q'[0], g, n);
      assert XorBits(t, [false] + b)[0] == q[0] && XorBits(t', [false] + b')[0] == q'[0];
      XorCancel(t, [false] + b, [false] + b');
      assert b == ([false] + b)[1..] && b' == ([false] + b')[1..];
      RemainderUnique(q[1..], r, q'[1..], r', g);
      assert q == [q[0]] + q[1..] && q' == [q'[0]] + q'[1..];
    }
  }

  lemma RemainderExact(init: Register, m: seq<bool>, g: Register, r: Register)
    ensures IsRemainder(init, m, g, r) <==> r == Serial(init, m, g)
  {
    SerialDivides(init, m, g);
    var q0, r0 := Quotient(init, m, g), Serial(init, m, g);
    if IsRemainder(init, m, g, r) {
      var q: seq<bool> :| |q| == |m| && Dividend(init, m) == XorBits(Times(q, g), Zeros(|m|) + r);
      RemainderUnique(q, r, q0, r0, g);
    }
  }

  /** The checksum is the remainder of the initialised message shifted by eight bits,
      modulo x^8 + poly: it is one, and there is no other. */
  lemma CrcIsRemainder(data: seq<Byte>, crc: Byte, poly: Byte, r: Register)
    ensures IsRemainder(ByteBits(crc), Message(data), ByteBits(poly), r) <==> r == ByteBits(Crc(data, crc, poly))
  {
    var init, m, g := ByteBits(crc), Message(data), ByteBits(poly);
    CrcIsSerial(data, crc, poly);
    RemainderExact(init, m, g, r);
  }

  // ---- Error detection ----

  lemma ClockLinear(r: Register, s: Register, a: bool, b: bool, g: Register)
    ensures Clock(XorBits(r, s), a != b, g) == XorBits(Clock(r, a, g), Clock(s, b, g))
  {
    assert XorBits(r, s)[1..] + [false] == XorBits(r[1..] + [false], s[1..] + [false]);
  }

  lemma {:induction false} SerialLinear(r: Register, s: Register, a: seq<bool>, b: seq<bool>, g: Register)
    requires |a| == |b|
    ensures Serial(XorBits(r, s), XorBits(a, b), g) == XorBits(Serial(r, a, g), Serial(s, b, g))
    decreases |a|
  {
    if a == [] {
    } else {
      ClockLinear(r, s, a[0], b[0], g);
      assert XorBits(a, b)[1..] == XorBits(a[1..], b[1..]);
      SerialLinear(Clock(r, a[0], g), Clock(s, b[0], g), a[1..], b[1..], g);
    }
  }

  /** Clocking in zeros loses nothing when the polynomial is odd, and never leaves the zero state. */
  lemma {:induction false} ZerosKeep(reg: Register, n: nat, g: Register)
    requires g[7]
    ensures Serial(reg, Zeros(n), g) == Zeros(8) <==> reg == Zeros(8)
    decreases n
  {
    if n == 0 {
    } else {
      var next := Clock(reg, false, g);
      assert Zeros(n)[1..] == Zeros(n - 1);
      ZerosKeep(next, n - 1, g);
      assert next[7] == reg[0];
      if next == Zeros(8) {
        assert forall i :: 1 <= i < 8 ==> reg[i] == next[i - 1];
      }
    }
  }

  function XorBytes(a: seq<Byte>, e: seq<Byte>): (r: seq<Byte>)
    requires |a| == |e|
    ensures |r| == |a|
  {
    seq(|a|, i requires 0 <= i < |a| => Xor(a[i], e[i]))
  }

  /** A nonzero error whose set bits lie within eight consecutive bits of the message,
      wherever they fall with respect to byte boundaries. */
  ghost predicate IsBurst(e: seq<Byte>) {
    && (exists k :: 0 <= k < |Message(e)| && Message(e)[k])
    && (exists p: nat :: Window(Message(e), p))
  }

  ghost predicate Window(m: seq<bool>, p: nat) {
    forall i :: 0 <= i < |m| && m[i] ==> p <= i < p + 8
  }

  lemma XorConcat(a: seq<bool>, b: seq<bool>, c: seq<bool>, d: seq<bool>)
    requires |a| == |b| && |c| == |d|
    ensures XorBits(a, b) + XorBits(c, d) == XorBits(a + c, b + d)
  {
  }

  lemma {:induction false} MessageXor(a: seq<Byte>, e: seq<Byte>)
    requires |a| == |e|
    ensures Message(XorBytes(a, e)) == XorBits(Message(a), Message(e))
    decreases |a|
  {
    if a == [] {
    } else {
      var n, x := |a| - 1, XorBytes(a, e);
      MessageXor(a[..n], e[..n]);
      assert x[..n] == XorBytes(a[..n], e[..n]) && x[n] == Xor(a[n], e[n]);
      XorConcat(Message(a[..n]), Message(e[..n]), ByteBits(a[n]), ByteBits(e[n]));
    }
  }

  lemma WindowSplits(m: seq<bool>, p: nat)
    requires p + 8 <= |m| && Window(m, p)
    ensures m == Zeros(p) + (m[p..p + 8] + Zeros(|m| - p - 8))
  {
  }

  lemma WindowedBurst(p: nat, w: Register, n: nat, g: Register)
    requires g[7] && w != Zeros(8)
    ensures Serial(Zeros(8), Zeros(p) + (w + Zeros(n)), g) != Zeros(8)
  {
    SerialConcat(Zeros(8), Zeros(p), w + Zeros(n), g);
    ZerosKeep(Zeros(8), p, g);
    SerialConcat(Zeros(8), w, Zeros(n), g);
    MixIn(Zeros(8), w, g);
    assert XorBits(Zeros(8), w + Zeros(0)) == w;
    ZerosKeep(w, 8, g);
    ZerosKeep(Serial(Zeros(8), w, g), n, g);
  }

  /** A burst alone never leaves the zero register at zero. */
  lemma BurstLeavesTrace(m: seq<bool>, p0: nat, k: nat, g: Register)
    requires g[7] && |m| >= 8
    requires Window(m, p0) && k < |m| && m[k]
    ensures Serial(Zeros(8), m, g) != Zeros(8)
  {
    var p := if p0 + 8 <= |m| then p0 else |m| - 8;
    assert Window(m, p);
    assert p <= k < p + 8;
    WindowSplits(m, p);
    var w := m[p..p + 8];
    assert w != Zeros(8) by {
      assert w[k - p] != Zeros(8)[k - p];
    }
    WindowedBurst(p, w, |m| - p - 8, g);
  }

  lemma ZeroByte(b: Byte)
    ensures ByteBits(b) == Zeros(8) <==> b == 0
  {
    ZeroBits(8);
    if ByteBits(b) == Zeros(8) {
      SameBits(b, 0);
    }
  }

  /** A message followed by its own checksum leaves zero, and only its own checksum does. */
  lemma ResidueZero(m: seq<Byte>, crc: Byte, poly: Byte)
    requires poly % 2 == 1 && m != []
    ensures Crc(m, crc, poly) == 0 <==> Crc(m[..|m| - 1], crc, poly) == m[|m| - 1]
  {
    var mixed := Xor(Crc(m[..|m| - 1], crc, poly), m[|m| - 1]);
    BitStepsAreSerial(mixed, poly, 8);
    OddPolynomial(poly);
    ZerosKeep(ByteBits(mixed), 8, ByteBits(poly));
    ZeroByte(Crc(m, crc, poly));
    ZeroByte(mixed);
    XorZero(Crc(m[..|m| - 1], crc, poly), m[|m| - 1]);
  }

  lemma OddPolynomial(poly: Byte)
    requires poly % 2 == 1
    ensures ByteBits(poly)[7]
  {
    BitsStep(poly, 8);
  }

  lemma XorZero(a: Byte, b: Byte)
    ensures Xor(a, b) == 0 <==> a == b
  {
    ZeroByte(Xor(a, b));
    if Xor(a, b) == 0 {
      assert forall i :: 0 <= i < 8 ==> XorBits(ByteBits(a), ByteBits(b))[i] == (ByteBits(a)[i] != ByteBits(b)[i]);
      assert ByteBits(a) == ByteBits(b);
      SameBits(a, b);
    }
  }

  /** The register is linear: an error adds the same thing to it whatever the message. */
  lemma CrcOfError(sent: seq<Byte>, e: seq<Byte>, crc: Byte, poly: Byte)
    requires |sent| == |e|
    ensures ByteBits(Crc(XorBytes(sent, e), crc, poly))
         == XorBits(ByteBits(Crc(sent, crc, poly)), Serial(Zeros(8), Message(e), ByteBits(poly)))
  {
    hide Bits, Crc, Xor;
    CrcIsSerial(sent, crc, poly);
    CrcIsSerial(XorBytes(sent, e), crc, poly);
    MessageXor(sent, e);
    assert XorBits(ByteBits(crc), Zeros(8)) == ByteBits(crc);
    SerialLinear(ByteBits(crc), Zeros(8), Message(sent), Message(e), ByteBits(poly));
  }

  lemma NoiseIsVisible(sent: seq<Byte>, e: seq<Byte>, crc: Byte, poly: Byte)
    requires poly % 2 == 1
    requires |sent| == |e| && IsBurst(e) && Crc(sent, crc, poly) == 0
    ensures Crc(XorBytes(sent, e), crc, poly) != 0
  {
    hide Bits, Crc, Serial;
    var g := ByteBits(poly);
    OddPolynomial(poly);
    var p: nat :| Window(Message(e), p);
    var k :| 0 <= k < |Message(e)| && Message(e)[k];
    BurstLeavesTrace(Message(e), p, k, g);
    CrcOfError(sent, e, crc, poly);
    var noise := Serial(Zeros(8), Message(e), g);
    XorOntoZero(Crc(XorBytes(sent, e), crc, poly), noise);
  }

  lemma XorOntoZero(b: Byte, noise: Register)
    requires ByteBits(b) == XorBits(ByteBits(0), noise) && noise != Zeros(8)
    ensures b != 0
  {
    ZeroByte(0);
    ZeroByte(b);
    assert XorBits(Zeros(8), noise) == noise;
  }

  /** Every burst over a message and its checksum byte is noticed, for every odd polynomial. */
  lemma BurstDetected(data: seq<Byte>, crc: Byte, poly: Byte, e: seq<Byte>)
    requires poly % 2 == 1
    requires |e| == |data| + 1 && IsBurst(e)
    ensures var received := XorBytes(data + [Crc(data, crc, poly)], e);
            Crc(received[..|data|], crc, poly) != received[|data|]
  {
    var sent := data + [Crc(data, crc, poly)];
    assert sent[..|data|] == data;
    ResidueZero(sent, crc, poly);
    NoiseIsVisible(sent, e, crc, poly);
    ResidueZero(XorBytes(sent, e), crc, poly);
  }
}
