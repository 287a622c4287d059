/** The order-preserving variable-length encoding of unsigned 64-bit numbers:
    one size byte, then the big-endian bytes without leading zeros. */
module VarUint {
  import opened Wrappers

  const TWO63: nat := 0x8000_0000_0000_0000
  const TWO64: nat := 0x1_0000_0000_0000_0000

  type uint64 = x: int | 0 <= x < TWO64

  datatype DecodeError = BadVarint(consumed: nat) | SizeTooBig(size: nat) | TooShort(size: nat, available: int)

  /** The order of bytes.Compare. */
  predicate Less(a: seq<byte>, b: seq<byte>) {
    b != [] && (a == [] || a[0] < b[0] || (a[0] == b[0] && Less(a[1..], b[1..])))
  }

  // ----- big-endian numbers

  function Pow(k: nat): nat { if k == 0 then 1 else 256 * Pow(k - 1) }

  function BigEndian(n: nat, k: nat): (b: seq<byte>)
    ensures |b| == k
  {
    if k == 0 then [] else BigEndian(n / 256, k - 1) + [n % 256]
  }

  function Number(b: seq<byte>): nat {
    if b == [] then 0 else 256 * Number(b[..|b| - 1]) + b[|b| - 1]
  }

  /** How many bytes a number needs. */
  function Size(n: nat): nat { if n == 0 then 0 else 1 + Size(n / 256) }

  function Encode(n: nat): seq<byte>
    requires Size(n) < 256
  {
    [Size(n)] + BigEndian(n, Size(n))
  }

  lemma {:induction false} NumberOfBigEndian(n: nat, k: nat)
    requires n < Pow(k)
    ensures Number(BigEndian(n, k)) == n
  {
    if k > 0 {
      NumberOfBigEndian(n / 256, k - 1);
      assert BigEndian(n, k)[..k - 1] == BigEndian(n / 256, k - 1);
    }
  }

  lemma {:induction false} BigEndianOfNumber(b: seq<byte>)
    ensures Number(b) < Pow(|b|)
    ensures BigEndian(Number(b), |b|) == b
  {
    if b != [] {
      var p := b[..|b| - 1];
      BigEndianOfNumber(p);
      assert b == p + [b[|b| - 1]];
    }
  }

  /** The first byte decides whether a number reaches its full size. */
  lemma {:induction false} LeadingByte(b: seq<byte>)
    requires b != []
    ensures b[0] == 0 <==> Number(b) < Pow(|b| - 1)
  {
    if |b| > 1 {
      LeadingByte(b[..|b| - 1]);
    } else {
      assert b[..0] == [];
    }
  }

  lemma {:induction false} SizeBound(n: nat, k: nat)
    ensures Size(n) <= k <==> n < Pow(k)
  {
    if n > 0 && k > 0 {
      SizeBound(n / 256, k - 1);
    } else if n > 0 {
      assert Size(n) >= 1;
    } else {
      PowPositive(k);
    }
  }

  lemma {:induction false} PowPositive(k: nat)
    ensures Pow(k) >= 1
  {
    if k > 0 {
      PowPositive(k - 1);
    }
  }

  lemma Uint64Size(n: uint64)
    ensures Size(n) <= 8
  {
    assert Pow(8) == 256 * (256 * (256 * (256 * Pow(4))));
    assert Pow(4) == 256 * (256 * (256 * (256 * Pow(0))));
    SizeBound(n, 8);
  }

  // ----- order and prefix-freeness

  lemma {:induction false} LessAfterPrefix(p: seq<byte>, x: seq<byte>, y: seq<byte>)
    ensures Less(p + x, p + y) <==> Less(x, y)
  {
    if p == [] {
      assert p + x == x && p + y == y;
    } else {
      assert (p + x)[1..] == p[1..] + x && (p + y)[1..] == p[1..] + y;
      LessAfterPrefix(p[1..], x, y);
    }
  }

  lemma {:induction false} BigEndianOrder(a: nat, b: nat, k: nat, x: seq<byte>, y: seq<byte>)
    requires a < b < Pow(k)
    ensures Less(BigEndian(a, k) + x, BigEndian(b, k) + y)
  {
    var x', y' := [a % 256] + x, [b % 256] + y;
    assert BigEndian(a, k) + x == BigEndian(a / 256, k - 1) + x';
    assert BigEndian(b, k) + y == BigEndian(b / 256, k - 1) + y';
    if a / 256 < b / 256 {
      BigEndianOrder(a / 256, b / 256, k - 1, x', y');
    } else {
      LessAfterPrefix(BigEndian(a / 256, k - 1), x', y');
    }
  }

  lemma {:induction false} LessIsAsymmetric(a: seq<byte>, b: seq<byte>)
    ensures !(Less(a, b) && Less(b, a))
  {
    if a != [] && b != [] {
      LessIsAsymmetric(a[1..], b[1..]);
    }
  }

  lemma SmallerEncodesBelow(a: uint64, b: uint64, x: seq<byte>, y: seq<byte>)
    requires a < b
    ensures Size(a) <= 8 && Size(b) <= 8 && Less(Encode(a) + x, Encode(b) + y)
  {
    Uint64Size(a);
    Uint64Size(b);
    var s, t := Size(a), Size(b);
    SizeBound(b, t);
    SizeBound(a, t);
    if s == t {
      BigEndianOrder(a, b, t, x, y);
      assert (Encode(a) + x)[1..] == BigEndian(a, s) + x;
      assert (Encode(b) + y)[1..] == BigEndian(b, t) + y;
    }
  }

  /** Byte order of encodings is numeric order, whatever follows them; equal
      numbers defer to what follows. In particular no encoding is a proper prefix
      of another. */
  lemma EncodingPreservesOrder(a: uint64, b: uint64, x: seq<byte>, y: seq<byte>)
    ensures Size(a) <= 8 && Size(b) <= 8
    ensures Less(Encode(a) + x, Encode(b) + y) <==> a < b || (a == b && Less(x, y))
  {
    Uint64Size(a);
    Uint64Size(b);
    if a < b {
      SmallerEncodesBelow(a, b, x, y);
    } else if a > b {
      SmallerEncodesBelow(b, a, y, x);
      LessIsAsymmetric(Encode(a) + x, Encode(b) + y);
    } else {
      LessAfterPrefix(Encode(a), x, y);
    }
  }

  // ----- decoding

  /** protobuf base-128 varints, at most ten bytes. */
  function ConsumeVarint(b: seq<byte>, k: nat): (r: Option<(nat, nat)>)
    ensures r.Some? ==> 1 <= r.value.1 <= |b|
  {
    if b == [] || k >= 10 || (k == 9 && b[0] > 1) then None
    else if b[0] < 128 then Some((b[0], 1))
    else
      match ConsumeVarint(b[1..], k + 1)
      case None => None
      case Some((v, n)) => Some((b[0] - 128 + 128 * v, n + 1))
  }

  function EncodeVarint(x: nat): seq<byte> {
    if x < 128 then [x] else [x % 128 + 128] + EncodeVarint(x / 128)
  }

  function DecodeVarint(b: seq<byte>): (nat, nat) {
    match ConsumeVarint(b, 0)
    case None => (0, 0)
    case Some(r) => r
  }

  function Decode(b: seq<byte>): Result<(nat, nat), DecodeError> {
    var (s, numBytes) := DecodeVarint(b);
    if numBytes != 1 then Failure(BadVarint(numBytes))
    else if s > 8 then Failure(SizeTooBig(s))
    else if s > |b| - 1 then Failure(TooShort(s, |b| - 1))
    else Success((Number(b[1..s + 1]), s + 1))
  }

  /** A varint ends at the first byte below 128, which has to be among the first ten
      and, if it is the tenth, must be at most one; otherwise nothing is consumed. */
  ghost predicate VarintEnds(b: seq<byte>, k: nat, n: nat) {
    && 1 <= n <= |b| && k + n <= 10 && b[n - 1] < 128
    && (k + n == 10 ==> b[n - 1] <= 1) && forall i :: 0 <= i < n - 1 ==> b[i] >= 128
  }

  lemma {:induction false} ConsumesExactly(b: seq<byte>, k: nat, n: nat)
    ensures VarintEnds(b, k, n) <==> ConsumeVarint(b, k).Some? && ConsumeVarint(b, k).value.1 == n
    decreases |b|
  {
    if b != [] && b[0] >= 128 && k < 9 && n > 0 {
      ConsumesExactly(b[1..], k + 1, n - 1);
    }
  }

  lemma VarintConsumes(b: seq<byte>)
    ensures DecodeVarint(b).1 > 0 ==> VarintEnds(b, 0, DecodeVarint(b).1)
    ensures (forall n: nat :: !VarintEnds(b, 0, n)) ==> DecodeVarint(b) == (0, 0)
  {
    ConsumesExactly(b, 0, DecodeVarint(b).1);
    if ConsumeVarint(b, 0).Some? {
      ConsumesExactly(b, 0, ConsumeVarint(b, 0).value.1);
    }
  }

  /** What decoding does, by the first byte alone: a size of at most eight, followed by
      that many bytes, and an error that tells what is wrong otherwise. */
  lemma DecodesExactlyWhen(b: seq<byte>)
    ensures Decode(b) ==
      if b == [] then Failure(BadVarint(0))
      else if b[0] >= 128 then Failure(BadVarint(DecodeVarint(b).1))
      else if b[0] > 8 then Failure(SizeTooBig(b[0]))
      else if b[0] >= |b| then Failure(TooShort(b[0], |b| - 1))
      else Success((Number(b[1..b[0] + 1]), b[0] + 1))
    ensures b != [] && b[0] >= 128 ==> DecodeVarint(b).1 != 1
  {
  }

  /** The form of an encoding: the number of bytes that follow, and those bytes without
      a leading zero. */
  lemma EncodedForm(n: uint64)
    ensures Size(n) <= 8
    ensures var e := Encode(n);
      && 1 <= |e| <= 9 && e[0] == |e| - 1 && (|e| == 1 <==> n == 0) && (|e| > 1 ==> e[1] != 0)
      && Number(e[1..]) == n
  {
    Uint64Size(n);
    SizeBound(n, Size(n));
    LeadingZeros(n, Size(n));
    NumberOfBigEndian(n, Size(n));
  }

  /** Decoding an encoding returns the number and consumes exactly its bytes. */
  lemma DecodeEncode(n: uint64, x: seq<byte>)
    ensures Size(n) <= 8 && Decode(Encode(n) + x) == Success((n, |Encode(n)|))
  {
    Uint64Size(n);
    var s := Size(n);
    SizeBound(n, s);
    var b := Encode(n) + x;
    assert b[0] == s;
    assert b[1..s + 1] == BigEndian(n, s);
    NumberOfBigEndian(n, s);
  }

  /** Encoding a decoded number never takes more bytes than decoding consumed, and
      reproduces them exactly when the payload has no leading zero. */
  lemma EncodeDecode(b: seq<byte>)
    requires Decode(b).Success?
    ensures var (n, c) := Decode(b).value;
      && n < TWO64 && Size(n) <= 8
      && 1 <= c <= |b|
      && |Encode(n)| <= c
      && (Encode(n) == b[..c] <==> c == 1 || b[1] != 0)
  {
    var (n, c) := Decode(b).value;
    var p := b[1..c];
    assert b[0] == c - 1;
    BigEndianOfNumber(p);
    SizeBound(n, |p|);
    PowMonotone(|p|, 8);
    assert Pow(8) == 256 * (256 * (256 * (256 * Pow(4))));
    assert Pow(4) == 256 * (256 * (256 * (256 * Pow(0))));
    assert b[..c] == [b[0]] + p;
    if c > 1 {
      LeadingByte(p);
      SizeBound(n, |p| - 1);
      if p[0] == 0 {
        assert Encode(n)[0] == Size(n) != b[0];
      } else {
        assert Size(n) == |p|;
      }
    }
  }

  lemma {:induction false} PowMonotone(j: nat, k: nat)
    requires j <= k
    ensures Pow(j) <= Pow(k)
  {
    PowPositive(k);
    if j < k {
      PowMonotone(j, k - 1);
      PowPositive(k - 1);
    }
  }

  // ----- the byte-array code

  lemma {:induction false} LeadingZeros(n: nat, k: nat)
    requires Size(n) <= k
    ensures forall i :: 0 <= i < k - Size(n) ==> BigEndian(n, k)[i] == 0
    ensures BigEndian(n, k)[k - Size(n)..] == BigEndian(n, Size(n))
    ensures n > 0 ==> BigEndian(n, k)[k - Size(n)] != 0
  {
    if k > 0 {
      if n == 0 {
        LeadingZeros(0, k - 1);
      } else {
        LeadingZeros(n / 256, k - 1);
      }
    }
  }

  method EncodeOrderPreservingVarUint64(number: uint64) returns (encodedBytes: array<byte>)
    ensures Size(number) <= 8 && encodedBytes[..] == Encode(number)
  {
    Uint64Size(number);
    LeadingZeros(number, 8);
    var bytes := new byte[8];
    forall i | 0 <= i < 8 {
      bytes[i] := BigEndian(number, 8)[i];
    }
    var startingIndex, size := 0, 0;
    var i := 0;
    while i < 8
      invariant 0 <= i <= 8
      invariant startingIndex == size == 0
      invariant forall j :: 0 <= j < i ==> bytes[j] == 0
    {
      if bytes[i] != 0 {
        startingIndex, size := i, 8 - i;
        break;
      }
      i := i + 1;
    }
    assert size == Size(number) by {
      if number > 0 {
        assert bytes[8 - Size(number)] != 0;
      }
    }
    var sizeBytes := EncodeVarint(size);
    encodedBytes := new byte[size + 1];
    encodedBytes[0] := sizeBytes[0];
    forall k | 0 <= k < size {
      encodedBytes[1 + k] := bytes[startingIndex + k];
    }
    assert size > 0 ==> bytes[startingIndex..] == BigEndian(number, size);
    assert encodedBytes[1..] == BigEndian(number, size);
  }

  lemma {:induction false} NumberSkipsZeros(zeros: seq<byte>, b: seq<byte>)
    requires forall i :: 0 <= i < |zeros| ==> zeros[i] == 0
    ensures Number(zeros + b) == Number(b)
  {
    if b != [] {
      assert (zeros + b)[..|zeros + b| - 1] == zeros + b[..|b| - 1];
      NumberSkipsZeros(zeros, b[..|b| - 1]);
    } else if zeros != [] {
      var z := zeros[..|zeros| - 1];
      NumberSkipsZeros(z, []);
      assert zeros + b == zeros && z + [] == z;
    } else {
      assert zeros + b == b;
    }
  }

  method DecodeOrderPreservingVarUint64(bytes: seq<byte>) returns (r: Result<(nat, nat), DecodeError>)
    ensures r == Decode(bytes)
  {
    var (s, numBytes) := DecodeVarint(bytes);
    if numBytes != 1 {
      return Failure(BadVarint(numBytes));
    }
    if s > 8 {
      return Failure(SizeTooBig(s));
    }
    if s > |bytes| - 1 {
      return Failure(TooShort(s, |bytes| - 1));
    }
    var decodedBytes := new byte[8](_ => 0);
    forall k | 0 <= k < s {
      decodedBytes[8 - s + k] := bytes[1 + k];
    }
    assert decodedBytes[..] == decodedBytes[..8 - s] + bytes[1..s + 1];
    NumberSkipsZeros(decodedBytes[..8 - s], bytes[1..s + 1]);
    return Success((Number(decodedBytes[..]), s + 1));
  }
}
