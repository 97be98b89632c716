/** Bytes, their bits, and the byte operations the framing code uses. */
module Bytes {

  type Byte = x: int | 0 <= x < 256

  /** Status of an event, at the strategy layer and at the stream layer; only the latter has the last one. */
  datatype Status = ReadOk | ReadDelimiter | ReadError | ReaderNotReady

  function Rep(b: Byte, n: nat): (s: seq<Byte>)
    ensures |s| == n && forall i :: 0 <= i < n ==> s[i] == b
  {
    seq(n, _ => b)
  }

  lemma RepSnoc(b: Byte, n: nat)
    ensures Rep(b, n + 1) == Rep(b, n) + [b]
  {
  }

  /** `d` does not occur in `s`. */
  predicate Free(d: Byte, s: seq<Byte>) {
    forall i :: 0 <= i < |s| ==> s[i] != d
  }

  // ---- Bits, most significant first ----

  function Pow2(n: nat): (p: nat)
    ensures p >= 1
  {
    if n == 0 then 1 else 2 * Pow2(n - 1)
  }

  /** The binary digit of `x` with weight 2^k. */
  predicate Digit(x: nat, k: nat)
    decreases k
  {
    if k == 0 then x % 2 == 1 else Digit(x / 2, k - 1)
  }

  /** The `n` low bits of `x`. */
  function Bits(x: nat, n: nat): (s: seq<bool>)
    ensures |s| == n
  {
    seq(n, i requires 0 <= i < n => Digit(x, n - 1 - i))
  }

  lemma BitsStep(x: nat, n: nat)
    requires n > 0
    ensures Bits(x, n) == Bits(x / 2, n - 1) + [x % 2 == 1]
  {
    var s, halved := Bits(x, n), Bits(x / 2, n - 1);
    forall i | 0 <= i < n ensures s[i] == (halved + [x % 2 == 1])[i] {
      if i < n - 1 {
        assert s[i] == Digit(x, n - 1 - i) == Digit(x / 2, n - 2 - i) == halved[i];
      } else {
        assert s[i] == Digit(x, 0);
      }
    }
  }

  function Value(s: seq<bool>): (x: nat)
    ensures x < Pow2(|s|)
  {
    if s == [] then 0
    else 2 * Value(s[..|s| - 1]) + (if s[|s| - 1] then 1 else 0)
  }

  lemma {:induction false} ValueOfBits(x: nat, n: nat)
    requires x < Pow2(n)
    ensures Value(Bits(x, n)) == x
    decreases n
  {
    if n == 0 {
    } else {
      BitsStep(x, n);
      ValueOfBits(x / 2, n - 1);
      var s := Bits(x, n);
      assert s[..n - 1] == Bits(x / 2, n - 1) && s[n - 1] == (x % 2 == 1);
    }
  }

  lemma {:induction false} BitsOfValue(s: seq<bool>)
    ensures Bits(Value(s), |s|) == s
    decreases |s|
  {
    if s == [] {
    } else {
      BitsStep(Value(s), |s|);
      BitsOfValue(s[..|s| - 1]);
    }
  }

  function XorBits(a: seq<bool>, b: seq<bool>): (r: seq<bool>)
    requires |a| == |b|
    ensures |r| == |a| && forall i :: 0 <= i < |a| ==> r[i] == (a[i] != b[i])
  {
    seq(|a|, i requires 0 <= i < |a| => a[i] != b[i])
  }

  lemma Pow2Is256()
    ensures Pow2(8) == 256
  {
    assert Pow2(4) == 16;
  }

  function ByteBits(b: Byte): (s: seq<bool>)
    ensures |s| == 8
  {
    Bits(b, 8)
  }

  function FromBits(s: seq<bool>): (b: Byte)
    requires |s| == 8
    ensures ByteBits(b) == s
  {
    Pow2Is256();
    BitsOfValue(s);
    Value(s)
  }

  /** Exclusive or of two bytes. */
  function Xor(a: Byte, b: Byte): (r: Byte)
    ensures ByteBits(r) == XorBits(ByteBits(a), ByteBits(b))
  {
    FromBits(XorBits(ByteBits(a), ByteBits(b)))
  }

  lemma SameBits(a: Byte, b: Byte)
    requires ByteBits(a) == ByteBits(b)
    ensures a == b
  {
    Pow2Is256();
    ValueOfBits(a, 8);
    ValueOfBits(b, 8);
  }

  /** Exclusive or with a mask undoes itself, and only the zero mask leaves a byte unchanged. */
  lemma XorInvolution(a: Byte, m: Byte)
    ensures Xor(Xor(a, m), m) == a
    ensures Xor(a, m) == a <==> m == 0
  {
    assert XorBits(XorBits(ByteBits(a), ByteBits(m)), ByteBits(m)) == ByteBits(a);
    SameBits(Xor(Xor(a, m), m), a);
    ZeroBits(8);
    if m == 0 {
      assert XorBits(ByteBits(a), ByteBits(m)) == ByteBits(a);
      SameBits(Xor(a, m), a);
    } else if Xor(a, m) == a {
      assert forall i :: 0 <= i < 8 ==> XorBits(ByteBits(a), ByteBits(m))[i] == ByteBits(a)[i];
      assert ByteBits(m) == ByteBits(0);
      SameBits(m, 0);
    }
  }

  lemma XorParity(a: Byte, b: Byte)
    ensures Xor(a, b) % 2 == (a + b) % 2
  {
    var r := Xor(a, b);
    assert ByteBits(r)[7] == (ByteBits(a)[7] != ByteBits(b)[7]);
    assert Digit(r, 0) == (Digit(a, 0) != Digit(b, 0));
  }

  function Zeros(n: nat): (s: seq<bool>)
    ensures |s| == n && forall i :: 0 <= i < n ==> !s[i]
  {
    seq(n, _ => false)
  }

  lemma {:induction false} ZeroBits(n: nat)
    ensures Bits(0, n) == Zeros(n)
  {
    if n == 0 {
    } else {
      BitsStep(0, n);
      ZeroBits(n - 1);
    }
  }
}
