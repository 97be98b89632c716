/** Configurations of the COBS family (src/strategies/cobs/mixins.cpp). The three C++ strategy
    classes become a `kind` in the record. */
module CobsConfig {
  import opened Bytes

  datatype Kind = Plain | Gse | Zpe

  datatype Config = Config(kind: Kind, delimiter: Byte, depth: Byte, runSize: Byte, runByte: Byte)

  datatype SetStatus = SetOk | ErrorCobsDepth | ErrorDefaultCobsSizeGse | ErrorSizeGse | ErrorDepthGse | ErrorDepthZpe

  const MIN_DEPTH: Byte := 16
  const ZPE_DEPTH: Byte := 224

  function CheckMinDepth(c: Config): SetStatus {
    if c.depth < MIN_DEPTH then ErrorCobsDepth else SetOk
  }

  function CheckConfig(c: Config): SetStatus {
    match c.kind
    case Plain => if c.runSize != 0 then ErrorDefaultCobsSizeGse else CheckMinDepth(c)
    case Gse =>
      if c.runSize < 2 then ErrorSizeGse else if c.depth > 127 then ErrorDepthGse else CheckMinDepth(c)
    case Zpe =>
      if c.runSize < 2 then ErrorSizeGse else if c.depth != ZPE_DEPTH then ErrorDepthZpe else CheckMinDepth(c)
  }

  predicate Accepted(c: Config) {
    CheckConfig(c) == SetOk
  }

  /** What the check accepts. For COBS/GSE a run may be replaced wherever the buffer position can be: the
      largest position plus the depth still fits in a byte. */
  lemma AcceptedExactly(c: Config)
    ensures c.kind == Plain ==> (Accepted(c) <==> c.runSize == 0 && c.depth >= 16)
    ensures c.kind == Gse ==> (Accepted(c) <==> c.runSize >= 2 && c.depth >= 16 && c.depth + c.depth <= 255)
    ensures c.kind == Zpe ==> (Accepted(c) <==> c.runSize >= 2 && c.depth == 224)
  {
  }

  /** What each refusal means. A wrong run size is reported before a wrong depth, and a depth that is too large
      before one that is too small. */
  lemma RefusedExactly(c: Config)
    ensures CheckConfig(c) == ErrorDefaultCobsSizeGse <==> c.kind == Plain && c.runSize > 0
    ensures CheckConfig(c) == ErrorSizeGse <==> c.kind != Plain && c.runSize < 2
    ensures CheckConfig(c) == ErrorDepthGse <==> c.kind == Gse && c.runSize >= 2 && c.depth + c.depth > 255
    ensures CheckConfig(c) == ErrorDepthZpe <==> c.kind == Zpe && c.runSize >= 2 && c.depth != 224
    ensures CheckConfig(c) == ErrorCobsDepth
       <==> c.depth < 16 && if c.kind == Plain then c.runSize == 0 else c.kind == Gse && c.runSize >= 2
  {
  }

  function DefaultConfig(kind: Kind): Config {
    match kind
    case Plain => Config(Plain, 0, 255, 0, 0)
    case Gse => Config(Gse, 0, 127, 2, 0)
    case Zpe => Config(Zpe, 0, 224, 2, 0)
  }

  /** The defaults are accepted, and are the largest depth and the smallest run size that are. */
  lemma DefaultsAccepted(kind: Kind)
    ensures Accepted(DefaultConfig(kind)) && DefaultConfig(kind).kind == kind
    ensures forall c: Config :: Accepted(c) && c.kind == kind ==>
              c.depth <= DefaultConfig(kind).depth && DefaultConfig(kind).runSize <= c.runSize
    ensures DefaultConfig(kind).delimiter == DefaultConfig(kind).runByte == 0
  {
  }

  /** Last buffer position at which a run may be replaced: beyond it, position plus depth
      would not fit in a byte. */
  function Limit(c: Config): Byte {
    255 - c.depth
  }

  /** The code byte of an offset: the delimiter and zero change places. */
  function Swap(c: Config, offset: Byte): (code: Byte)
    requires offset != 0
    ensures code != c.delimiter
  {
    if c.delimiter != 0 && offset == c.delimiter then 0 else offset
  }

  function Unswap(c: Config, code: Byte): Byte {
    if c.delimiter != 0 && code == 0 then c.delimiter else code
  }

  lemma SwapRoundTrip(c: Config, b: Byte)
    ensures b != 0 ==> Unswap(c, Swap(c, b)) == b
    ensures b != c.delimiter ==> Unswap(c, b) != 0 && Swap(c, Unswap(c, b)) == b
    ensures b != 0 && b != c.delimiter ==> Swap(c, b) == b == Unswap(c, b)
  {
  }
}
