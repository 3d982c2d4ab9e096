/** The loops that read and write numbers, proved against Encode and Decode. */
module NumberCodec {
  import opened Common
  import opened Int64
  import opened Numbers
  import opened ScriptErrors
  import opened BigNums

  const MAX_SCRIPT_NUM_LEN: nat := 4

  // ---- bytes as the source combines them ----

  /** `b | sign`, where sign is 0x00 or 0x80. */
  function OrSign(b: byte, sign: byte): byte
    requires sign == 0 || sign == 128
  {
    if sign == 128 && b < 128 then b + 128 else b
  }

  function Reversed(s: Bytes): (r: Bytes)
    ensures |r| == |s| && forall i :: 0 <= i < |s| ==> r[i] == s[|s| - 1 - i]
  {
    if s == [] then [] else Reversed(s[1..]) + [s[0]]
  }

  lemma ReversedTwice(s: Bytes)
    ensures Reversed(Reversed(s)) == s
  {
    var r := Reversed(Reversed(s));
    assert |r| == |s| && forall i :: 0 <= i < |s| ==> r[i] == s[i];
  }

  /** One step of the shift-and-or loop appends a byte at the top. */
  lemma OrByte(r: int64, b: byte, low: Bytes)
    requires |low| < 8 && Unsigned(r) == LeNat(low)
    ensures Unsigned(Or64(r, Shl64(b as int, 8 * |low|))) == LeNat(low + [b])
  {
    LeNatAppendByte(low, b);
    LeNatBound(low);
    LeNatBound(low + [b]);
    ScaleGrows(b as int, 0, 8 * |low|);
    Words();
    ScaleGrows(1, 8 * |low + [b]|, 64);
    OrShifted(r, b as int, 8 * |low|, 64);
  }

  /** With the sign bit set, the byte value is the magnitude plus that bit. */
  lemma SignBitValue(v: Bytes)
    requires v != [] && Last(v) >= 128
    ensures LeNat(v) == LeNat(Magnitude(v)) + Scale(128, 8 * (|v| - 1))
    ensures LeNat(Magnitude(v)) < Scale(128, 8 * (|v| - 1))
  {
    hide *;
    SplitLast(v);
    NegativeMagnitude(v);
    SignBitSplit(v[..|v| - 1], Last(v));
  }

  lemma SplitLast(v: Bytes)
    requires v != []
    ensures LeNat(v) == LeNat(v[..|v| - 1] + [Last(v)])
  {
    hide LeNat;
    assert v == v[..|v| - 1] + [Last(v)];
  }

  lemma NegativeMagnitude(v: Bytes)
    requires v != [] && Last(v) >= 128
    ensures LeNat(Magnitude(v)) == LeNat(v[..|v| - 1] + [Last(v) - 128])
  {
    hide LeNat;
    assert Magnitude(v) == v[..|v| - 1] + [Last(v) - 128];
  }

  lemma SignBitSplit(low: Bytes, top: byte)
    requires top >= 128
    ensures LeNat(low + [top]) == LeNat(low + [top - 128]) + Scale(128, 8 * |low|)
    ensures LeNat(low + [top - 128]) < Scale(128, 8 * |low|)
  {
    hide LeNat, Scale;
    LeNatAppendByte(low, top);
    LeNatAppendByte(low, top - 128);
    ScaleAdd(top as int - 128, 128, 8 * |low|);
    LeNatTopByte(low, top - 128, 128);
  }

  lemma ClearSignBit(r: int64, v: Bytes)
    requires 0 < |v| <= 8 && Last(v) >= 128 && Unsigned(r) == LeNat(v)
    ensures And64(r, Not64(Shl64(128, 8 * (|v| - 1)))) == LeNat(Magnitude(v))
  {
    SignBitValue(v);
    TopBits(|v|);
    MaskWord(r, LeNat(Magnitude(v)), 7 + 8 * (|v| - 1), 64);
  }

  // ---- int64 ----

  /** The magnitude loop shared by the writers. */
  method MagnitudeBytes(mag0: nat) returns (result: Bytes)
    ensures result == NatLe(mag0)
  {
    var mag := mag0;
    result := [];
    while mag > 0
      invariant NatLe(mag0) == result + NatLe(mag)
    {
      result := result + [(mag % 256) as byte];
      mag := mag / 256;
    }
  }

  method EncodeInt64(v: int64) returns (result: Bytes)
    ensures result == Encode(v)
  {
    if v == 0 {
      return [];
    }
    var neg := v < 0;
    var mag: nat;
    if neg {
      mag := -(v as int + 1) + 1;
    } else {
      mag := v;
    }
    result := MagnitudeBytes(mag);
    LeNatOfNatLe(mag);
    if result[|result| - 1] >= 128 {
      result := result + [if neg then 128 else 0];
    } else if neg {
      result := result[|result| - 1 := OrSign(result[|result| - 1], 128)];
    }
  }

  method DecodeInt64(v: Bytes) returns (n: BigNum)
    requires |v| <= INT64_BYTE_CAP
    ensures n.Small? && n.Value() == Decode(v)
  {
    if v == [] {
      return Small(0);
    }
    var result: int64 := 0;
    for i := 0 to |v|
      invariant Unsigned(result) == LeNat(v[..i])
    {
      OrByte(result, v[i], v[..i]);
      assert v[..i + 1] == v[..i] + [v[i]];
      result := Or64(result, Shl64(v[i] as int, 8 * i));
    }
    assert v[..|v|] == v;
    if v[|v| - 1] >= 128 {
      ClearSignBit(result, v);
      result := And64(result, Not64(Shl64(128, 8 * (|v| - 1))));
      return Small(0 - result);
    }
    PositiveFits(v);
    return Small(result);
  }

  lemma PositiveDecode(v: Bytes)
    requires v != [] && Last(v) < 128
    ensures Decode(v) == LeNat(v)
  {
    assert Magnitude(v) == v;
  }

  lemma PositiveFits(v: Bytes)
    requires 0 < |v| <= 8 && Last(v) < 128
    ensures Decode(v) == LeNat(v) && LeNat(v) < TWO63
  {
    hide *;
    PositiveDecode(v);
    TopByteFits(v);
    SignBitFits(|v|, 63);
  }

  lemma SignBitFits(k: nat, width: nat)
    requires 0 < k <= 8 && width == 63
    ensures Scale(128, 8 * (k - 1)) <= TWO63
  {
    TopBits(k);
    ScaleGrows(1, 7 + 8 * (k - 1), width);
    Words();
  }

  // ---- big integers ----

  method EncodeBig(v: int) returns (le: Bytes)
    ensures le == Encode(v)
  {
    if v == 0 {
      return [];
    }
    // big.Int.Bytes is big-endian; the source reverses it in place.
    le := Reversed(Reversed(NatLe(Abs(v))));
    ReversedTwice(NatLe(Abs(v)));
    LeNatOfNatLe(Abs(v));
    if le[|le| - 1] >= 128 {
      le := le + [if v < 0 then 128 else 0];
    } else if v < 0 {
      le := le[|le| - 1 := OrSign(le[|le| - 1], 128)];
    }
  }

  method DecodeBig(v: Bytes) returns (n: BigNum)
    requires |v| > INT64_BYTE_CAP
    ensures n.Big? && n.Value() == Decode(v)
  {
    var mag := v[|v| - 1 := v[|v| - 1] % 128];
    assert mag == Magnitude(v);
    ReversedTwice(mag);
    var b: int := LeNat(Reversed(Reversed(mag)));
    if v[|v| - 1] >= 128 {
      b := -b;
    }
    n := Big(b);
  }

  /** BigNum.Bytes. */
  method NumBytes(n: BigNum) returns (r: Result<Bytes, ErrorCode>)
    ensures r == PushedNumber(n.Value())
  {
    var out: Bytes;
    if n.Small? {
      out := EncodeInt64(n.small);
    } else {
      out := EncodeBig(n.big);
    }
    if |out| > MAX_BIGNUM_LEN {
      return Err(NumberTooBig);
    }
    return Ok(out);
  }

  /** What a number result becomes on the stack. */
  function PushedNumber(n: int): Result<Bytes, ErrorCode> {
    if |Encode(n)| > MAX_BIGNUM_LEN then Err(NumberTooBig) else Ok(Encode(n))
  }

  /** What a stack element means as a number. */
  function ReadNumber(v: Bytes): Result<int, ErrorCode> {
    if |v| > MAX_BIGNUM_LEN then Err(NumberTooBig)
    else if !Minimal(v) then Err(MinimalData)
    else Ok(Decode(v))
  }

  method CheckMinimalDataEncoding(v: Bytes) returns (ok: bool)
    ensures ok <==> Encode(Decode(v)) == v
  {
    EncodeDecode(v);
    if v == [] {
      return true;
    }
    if v[|v| - 1] % 128 == 0 {
      if |v| == 1 || v[|v| - 2] < 128 {
        return false;
      }
    }
    return true;
  }

  method BigNumFromBytes(v: Bytes) returns (r: Result<BigNum, ErrorCode>)
    ensures r.Ok? <==> ReadNumber(v).Ok?
    ensures r.Err? ==> r.error == ReadNumber(v).error
    ensures r.Ok? ==> r.value.Value() == ReadNumber(v).value && (r.value.Small? <==> |v| <= 8)
  {
    if |v| > MAX_BIGNUM_LEN {
      return Err(NumberTooBig);
    }
    var minimal := CheckMinimalDataEncoding(v);
    EncodeDecode(v);
    if !minimal {
      return Err(MinimalData);
    }
    if v == [] {
      return Ok(Small(0));
    }
    var n;
    if |v| <= INT64_BYTE_CAP {
      n := DecodeInt64(v);
    } else {
      n := DecodeBig(v);
    }
    return Ok(n);
  }

  // ---- fixed width and minimisation ----

  function Zeros(n: nat): Bytes {
    seq(n, _ => 0)
  }

  /** An integer in exactly `size` bytes: magnitude, zero padding, sign on top. */
  function Fixed(n: int, size: nat): Bytes
    requires |Encode(n)| <= size
  {
    var mag := NatLe(Abs(n));
    if n == 0 then Zeros(size)
    else
      (LeNatOfNatLe(Abs(n));
       var padded := mag + Zeros(size - |mag|);
       padded[size - 1 := OrSign(padded[size - 1], if n < 0 then 128 else 0)])
  }

  /** Taking the sign bit off an encoding leaves the magnitude, with perhaps
      one zero byte that only carried the sign. */
  lemma EncodedParts(n: int)
    requires n != 0
    ensures Encode(n) != [] && (Last(Encode(n)) >= 128 <==> n < 0)
    ensures var m := Encode(n)[|Encode(n)| - 1 := Last(Encode(n)) % 128];
            NatLe(Abs(n)) == if Last(m) == 0 then m[..|m| - 1] else m
    ensures |NatLe(Abs(n))| <= |Encode(n)|
  {
    LeNatOfNatLe(Abs(n));
    hide NatLe, LeNat;
    var mag, e := NatLe(Abs(n)), Encode(n);
    if Last(mag) >= 128 {
      assert e[|e| - 1 := Last(e) % 128] == mag + [0];
    } else {
      assert e[|e| - 1 := Last(e) % 128] == mag;
    }
  }

  /** BigNum.FixedBytes. */
  method FixedBytes(n: BigNum, size: int) returns (r: Result<Bytes, ErrorCode>)
    ensures r.Ok? <==> size >= 0 && |Encode(n.Value())| <= MAX_BIGNUM_LEN && |Encode(n.Value())| <= size
    ensures r.Ok? ==> r.value == Fixed(n.Value(), size)
  {
    if size < 0 {
      return Err(NegativeFixedSize);
    }
    var enc := NumBytes(n);
    if enc.Err? {
      return Err(enc.error);
    }
    var encoded := enc.value;
    if |encoded| > size {
      return Err(NumberTooBig);
    }
    var out := Zeros(size);
    DecodeEncode(n.Value());
    if encoded == [] {
      return Ok(out);
    }
    var sign: byte := if encoded[|encoded| - 1] >= 128 then 128 else 0;
    var magnitude := encoded[|encoded| - 1 := encoded[|encoded| - 1] % 128];
    EncodedParts(n.Value());
    hide Encode, NatLe;
    if magnitude[|magnitude| - 1] == 0 {
      magnitude := magnitude[..|magnitude| - 1];
    }
    out := CopyInto(out, magnitude);
    out := out[size - 1 := OrSign(out[size - 1], sign)];
    return Ok(out);
  }

  /** `copy(dst, src)` for a source no longer than its destination. */
  function CopyInto(dst: Bytes, src: Bytes): (r: Bytes)
    requires |src| <= |dst|
    ensures |r| == |dst|
    ensures dst == Zeros(|dst|) ==> r == src + Zeros(|dst| - |src|)
  {
    src + dst[|src|..]
  }

  lemma LeNatZeroPadding(m: Bytes, k: nat)
    ensures LeNat(m + Zeros(k)) == LeNat(m)
  {
    LeNatAppend(m, Zeros(k));
    LeNatZeros(k);
    ScaleZero(8 * |m|);
  }

  lemma {:induction false} LeNatZeros(k: nat)
    ensures LeNat(Zeros(k)) == 0
  {
    if k > 0 {
      assert Zeros(k)[1..] == Zeros(k - 1);
      LeNatZeros(k - 1);
    }
  }

  /** The fixed-width form has the requested width and the same value. */
  lemma DecodeFixed(n: int, size: nat)
    requires |Encode(n)| <= size
    ensures |Fixed(n, size)| == size && Decode(Fixed(n, size)) == n
  {
    if n == 0 {
      LeNatZeros(size);
      assert size > 0 ==> Magnitude(Zeros(size)) == Zeros(size);
    } else {
      FixedMagnitude(n, size);
      LeNatOfNatLe(Abs(n));
      hide LeNat, NatLe, Encode, Fixed, Magnitude;
      LeNatZeroPadding(NatLe(Abs(n)), size - |NatLe(Abs(n))|);
    }
  }

  lemma FixedMagnitude(n: int, size: nat)
    requires n != 0 && |Encode(n)| <= size
    ensures |NatLe(Abs(n))| <= size == |Fixed(n, size)| && size > 0
    ensures Last(Fixed(n, size)) >= 128 <==> n < 0
    ensures Magnitude(Fixed(n, size)) == NatLe(Abs(n)) + Zeros(size - |NatLe(Abs(n))|)
  {
    LeNatOfNatLe(Abs(n));
    hide LeNat, NatLe;
    var padded := NatLe(Abs(n)) + Zeros(size - |NatLe(Abs(n))|);
    assert Last(padded) < 128;
  }

  /** minimallyEncode computes the minimal encoding of the value it is given,
      in whatever width and with either zero. */
  method MinimallyEncode(v: Bytes) returns (out: Bytes)
    ensures out == Encode(Decode(v))
  {
    if v == [] {
      return [];
    }
    out := v;
    var sign: byte := if out[|out| - 1] >= 128 then 128 else 0;
    out := out[|out| - 1 := out[|out| - 1] % 128];
    assert out == Magnitude(v);
    while out != [] && out[|out| - 1] == 0
      invariant LeNat(out) == LeNat(Magnitude(v))
    {
      LeNatTrailingZero(out[..|out| - 1]);
      assert out == out[..|out| - 1] + [0];
      out := out[..|out| - 1];
    }
    NatLeOfLeNat(out);
    if out == [] {
      return;
    }
    LeNatPositive(out);
    if out[|out| - 1] >= 128 {
      out := out + [sign];
    } else if sign != 0 {
      out := out[|out| - 1 := OrSign(out[|out| - 1], sign)];
    }
  }

  /** Minimising keeps the value, never lengthens, and does nothing twice. */
  lemma MinimisingIsSafe(v: Bytes)
    ensures Decode(Encode(Decode(v))) == Decode(v)
    ensures |Encode(Decode(v))| <= |v|
    ensures Encode(Decode(Encode(Decode(v)))) == Encode(Decode(v))
  {
    DecodeEncode(Decode(v));
    if v != [] {
      TopByteFits(Magnitude(v));
      EncodeLength(Decode(v), |v|);
    }
  }

  /** Widening and minimising again gives back the canonical bytes. */
  lemma MinimisingFixed(n: int, size: nat)
    requires |Encode(n)| <= size
    ensures Encode(Decode(Fixed(n, size))) == Encode(n)
  {
    DecodeFixed(n, size);
  }

  // ---- script numbers ----

  /** scriptNum.Bytes; the source's callers never pass the minimum int64. */
  method ScriptNumBytes(n0: int64) returns (result: Bytes)
    requires n0 != MIN
    ensures result == Encode(n0)
  {
    if n0 == 0 {
      return [];
    }
    var isNegative := n0 < 0;
    var n := if isNegative then 0 - n0 else n0;
    result := MagnitudeBytes(n);
    LeNatOfNatLe(n);
    if result[|result| - 1] >= 128 {
      result := result + [if isNegative then 128 else 0];
    } else if isNegative {
      result := result[|result| - 1 := OrSign(result[|result| - 1], 128)];
    }
  }

  /** What a stack element means as a small script number. */
  function ReadScriptNum(v: Bytes): Result<int, ErrorCode> {
    if |v| > MAX_SCRIPT_NUM_LEN then Err(NumberTooBig)
    else if !Minimal(v) then Err(MinimalData)
    else Ok(Decode(v))
  }

  method MakeScriptNum(v: Bytes, requireMinimal: bool, scriptNumLen: nat)
    returns (r: Result<int64, ErrorCode>)
    requires scriptNumLen <= 8
    ensures r.Err? <==> |v| > scriptNumLen || (requireMinimal && !Minimal(v))
    ensures r.Err? ==> r.error == if |v| > scriptNumLen then NumberTooBig else MinimalData
    ensures r.Ok? ==> r.value == Decode(v)
  {
    if |v| > scriptNumLen {
      return Err(NumberTooBig);
    }
    if requireMinimal {
      var minimal := CheckMinimalDataEncoding(v);
      EncodeDecode(v);
      if !minimal {
        return Err(MinimalData);
      }
    }
    if v == [] {
      return Ok(0);
    }
    var result: int64 := 0;
    for i := 0 to |v|
      invariant Unsigned(result) == LeNat(v[..i])
    {
      OrByte(result, v[i], v[..i]);
      assert v[..i + 1] == v[..i] + [v[i]];
      result := Or64(result, Shl64(v[i] as int, 8 * i));
    }
    assert v[..|v|] == v;
    if v[|v| - 1] >= 128 {
      ClearSignBit(result, v);
      result := And64(result, Not64(Shl64(128, 8 * (|v| - 1))));
      return Ok(0 - result);
    }
    PositiveFits(v);
    return Ok(result);
  }

  /** A four-byte script number lies strictly within 31 bits and sign. */
  lemma ScriptNumRange(v: Bytes)
    ensures ReadScriptNum(v).Ok? ==> Abs(ReadScriptNum(v).value) < 0x8000_0000
  {
    if ReadScriptNum(v).Ok? && v != [] {
      EncodeDecode(v);
      EncodeLength(Decode(v), 4);
      ScaleByte(128, 0);
      ScaleByte(128, 8);
      ScaleByte(128, 16);
    }
  }

  /** asBool. */
  method AsBool(t: Bytes) returns (b: bool)
    ensures b <==> Truthy(t)
  {
    for i := 0 to |t|
      invariant forall j :: 0 <= j < i ==> t[j] == 0
    {
      if t[i] != 0 {
        if i == |t| - 1 && t[i] == 128 {
          return false;
        }
        return true;
      }
    }
    return false;
  }
}
