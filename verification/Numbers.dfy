/** The number codec of the VM: minimal sign-magnitude little-endian bytes. */
module Numbers {
  import opened Common

  /** The encoding of an integer, independent of the machine width. */
  function Encode(n: int): Bytes {
    var mag := NatLe(Abs(n));
    if mag == [] then []
    else if (LeNatOfNatLe(Abs(n)); Last(mag)) >= 128 then mag + [if n < 0 then 128 else 0]
    else if n < 0 then mag[..|mag| - 1] + [Last(mag) + 128]
    else mag
  }

  /** The magnitude bytes of an encoding: the sign bit is cleared. */
  function Magnitude(v: Bytes): Bytes
    requires v != []
  {
    v[..|v| - 1] + [Last(v) % 128]
  }

  function Decode(v: Bytes): int {
    if v == [] then 0
    else if Last(v) >= 128 then 0 - LeNat(Magnitude(v))
    else LeNat(Magnitude(v))
  }

  /** checkMinimalDataEncoding: the top byte carries more than the sign, unless
      the byte below it already uses its high bit. */
  predicate Minimal(v: Bytes) {
    v == [] || Last(v) % 128 != 0 || (|v| > 1 && v[|v| - 2] >= 128)
  }

  /** A zero top byte does not change the value. */
  lemma LeNatTrailingZero(m: Bytes)
    ensures LeNat(m + [0]) == LeNat(m)
  {
    LeNatAppendByte(m, 0);
    ScaleZero(8 * |m|);
  }

  /** Decoding undoes encoding, for every integer. */
  lemma DecodeEncode(n: int)
    ensures Decode(Encode(n)) == n && Minimal(Encode(n))
    ensures Encode(n) == [] <==> n == 0
  {
    var mag := NatLe(Abs(n));
    LeNatOfNatLe(Abs(n));
    if mag != [] {
      var e := Encode(n);
      if Last(mag) >= 128 {
        assert Magnitude(e) == mag + [0];
        LeNatTrailingZero(mag);
      } else {
        assert Magnitude(e) == mag;
      }
    }
  }

  /** Encoding undoes decoding on exactly the minimal byte strings. */
  lemma EncodeDecode(v: Bytes)
    ensures Encode(Decode(v)) == v <==> Minimal(v)
  {
    if Minimal(v) {
      EncodeDecodeMinimal(v);
    } else {
      DecodeEncode(Decode(v));
    }
  }

  lemma EncodeDecodeMinimal(v: Bytes)
    requires Minimal(v)
    ensures Encode(Decode(v)) == v
  {
    if v != [] {
      var m := Magnitude(v);
      if Last(m) != 0 {
        NatLeOfLeNat(m);
        assert Encode(Decode(v)) == v;
      } else {
        var short := m[..|m| - 1];
        assert m == short + [0];
        LeNatTrailingZero(short);
        NatLeOfLeNat(short);
        LeNatPositive(short);
        assert v == short + [Last(v)];
      }
    }
  }

  /** No two integers share an encoding. */
  lemma EncodeInjective(m: int, n: int)
    ensures Encode(m) == Encode(n) <==> m == n
  {
    DecodeEncode(m);
    DecodeEncode(n);
  }

  /** An integer fits k bytes exactly when its magnitude leaves the sign bit free. */
  lemma EncodeLength(n: int, k: nat)
    requires k > 0
    ensures |Encode(n)| <= k <==> Abs(n) < Scale(128, 8 * (k - 1))
  {
    var mag := NatLe(Abs(n));
    LeNatOfNatLe(Abs(n));
    TopBits(k);
    ScaleGrows(1, 0, 8 * (k - 1));
    if n != 0 {
      NatLeLength(Abs(n), k);
      NatLeLength(Abs(n), k - 1);
      if |mag| == k {
        TopByteFits(mag);
      }
    }
  }

  lemma TopByteFits(m: Bytes)
    requires m != []
    ensures LeNat(m) < Scale(128, 8 * (|m| - 1)) <==> Last(m) < 128
  {
    assert m == m[..|m| - 1] + [Last(m)];
    LeNatTopByte(m[..|m| - 1], Last(m), 128);
  }

  /** asBool: some byte is set, other than a lone sign bit in the last. */
  predicate Truthy(t: Bytes) {
    exists i :: 0 <= i < |t| && t[i] != 0 && !(i == |t| - 1 && t[i] == 128)
  }

  /** A number is true exactly when it is not zero. */
  lemma TruthyEncode(n: int)
    ensures Truthy(Encode(n)) <==> n != 0
  {
    DecodeEncode(n);
    var e := Encode(n);
    if n != 0 {
      if Last(e) % 128 != 0 {
        assert e[|e| - 1] != 0 && e[|e| - 1] != 128;
      } else {
        assert e[|e| - 2] != 0;
      }
    }
  }
}
