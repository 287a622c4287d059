/** Ledger heights: their byte form refines their order, and Compare agrees with
    that order as far as its wrapping subtraction allows. */
module Height {
  import opened Wrappers
  import opened VarUint

  datatype Height = Height(blockNum: uint64, txNum: uint64)

  function ToBytes(h: Height): seq<byte>
    requires Size(h.blockNum) < 256 && Size(h.txNum) < 256
  {
    Encode(h.blockNum) + Encode(h.txNum)
  }

  /** The height at the start of `b` and the number of bytes it takes. */
  function NewHeightFromBytes(b: seq<byte>): Result<(Height, nat), DecodeError> {
    match Decode(b)
    case Failure(e) => Failure(e)
    case Success((blockNum, n1)) =>
      EncodeDecode(b);
      match Decode(b[n1..])
      case Failure(e) => Failure(e)
      case Success((txNum, n2)) =>
        EncodeDecode(b[n1..]);
        Success((Height(blockNum, txNum), n1 + n2))
  }

  /** Block number first, then transaction number. */
  predicate Before(h: Height, h1: Height) {
    h.blockNum < h1.blockNum || (h.blockNum == h1.blockNum && h.txNum < h1.txNum)
  }

  lemma SizesFit(h: Height)
    ensures Size(h.blockNum) <= 8 && Size(h.txNum) <= 8
  {
    Uint64Size(h.blockNum);
    Uint64Size(h.txNum);
  }

  lemma FromBytesToBytes(h: Height, x: seq<byte>)
    ensures Size(h.blockNum) <= 8 && Size(h.txNum) <= 8
    ensures NewHeightFromBytes(ToBytes(h) + x) == Success((h, |ToBytes(h)|))
  {
    SizesFit(h);
    var e1, e2 := Encode(h.blockNum), Encode(h.txNum);
    assert ToBytes(h) + x == e1 + (e2 + x);
    DecodeEncode(h.blockNum, e2 + x);
    assert (e1 + (e2 + x))[|e1|..] == e2 + x;
    DecodeEncode(h.txNum, x);
  }

  /** Byte order is height order, whatever follows the two heights. */
  lemma BytesRefineOrder(h: Height, h1: Height, x: seq<byte>, y: seq<byte>)
    ensures Size(h.blockNum) <= 8 && Size(h.txNum) <= 8 && Size(h1.blockNum) <= 8 && Size(h1.txNum) <= 8
    ensures Less(ToBytes(h) + x, ToBytes(h1) + y) <==> Before(h, h1) || (h == h1 && Less(x, y))
  {
    SizesFit(h);
    SizesFit(h1);
    assert ToBytes(h) + x == Encode(h.blockNum) + (Encode(h.txNum) + x);
    assert ToBytes(h1) + y == Encode(h1.blockNum) + (Encode(h1.txNum) + y);
    EncodingPreservesOrder(h.blockNum, h1.blockNum, Encode(h.txNum) + x, Encode(h1.txNum) + y);
    EncodingPreservesOrder(h.txNum, h1.txNum, x, y);
  }

  // ----- Compare

  /** `int(a - b)` on 64-bit words: both the subtraction and the conversion wrap. */
  function WrappedDifference(a: uint64, b: uint64): int {
    var d := if a >= b then a - b else a - b + TWO64;
    if d < TWO63 then d else d - TWO64
  }

  function Compare(h: Height, h1: Height): int {
    if h.blockNum == h1.blockNum && h.txNum == h1.txNum then 0
    else
      var res := if h.blockNum != h1.blockNum then WrappedDifference(h.blockNum, h1.blockNum)
                 else WrappedDifference(h.txNum, h1.txNum);
      if res > 0 then 1 else -1
  }

  function AreSame(h1: Option<Height>, h2: Option<Height>): bool {
    if h1.None? then h2.None?
    else if h2.None? then false
    else Compare(h1.value, h2.value) == 0
  }

  /** A pair whose wrapped difference keeps its sign: the larger field exceeds the
      smaller by less than 2^63 when it stands left, by at most 2^63 when right. */
  predicate Near(a: uint64, b: uint64) {
    if a > b then a - b < TWO63 else b - a <= TWO63
  }

  lemma CompareIsZeroOnEqualsOnly(h1: Option<Height>, h2: Option<Height>)
    ensures AreSame(h1, h2) <==> h1 == h2
  {
  }

  /** Exactly when Compare orders two heights as their bytes are ordered. */
  lemma CompareAgreesExactlyWhenNear(h: Height, h1: Height)
    requires h != h1
    ensures Size(h.blockNum) <= 8 && Size(h.txNum) <= 8 && Size(h1.blockNum) <= 8 && Size(h1.txNum) <= 8
    ensures (Compare(h, h1) < 0 <==> Less(ToBytes(h), ToBytes(h1)))
       <==> if h.blockNum != h1.blockNum then Near(h.blockNum, h1.blockNum) else Near(h.txNum, h1.txNum)
    ensures Compare(h, h1) == 1 || Compare(h, h1) == -1
  {
    BytesRefineOrder(h, h1, [], []);
    assert ToBytes(h) + [] == ToBytes(h) && ToBytes(h1) + [] == ToBytes(h1);
  }

  /** Block 2^63 compares below block 0, although its bytes sort above. */
  lemma CompareWrapsFarApart()
    ensures Compare(Height(TWO63, 0), Height(0, 0)) == -1
    ensures Size(TWO63) <= 8 && Size(0) <= 8 && Less(ToBytes(Height(0, 0)), ToBytes(Height(TWO63, 0)))
  {
    BytesRefineOrder(Height(0, 0), Height(TWO63, 0), [], []);
    assert ToBytes(Height(0, 0)) + [] == ToBytes(Height(0, 0));
    assert ToBytes(Height(TWO63, 0)) + [] == ToBytes(Height(TWO63, 0));
  }
}
