/** Values shared by every module: optional values, results, bytes and
    little-endian naturals. */
module Common {

  datatype Option<+T> = None | Some(value: T)

  datatype Result<+T, +E> = Ok(value: T) | Err(error: E) {
    predicate IsFailure() {
      Err?
    }

    function PropagateFailure<U>(): Result<U, E>
      requires Err?
    {
      Err(error)
    }

    function Extract(): T
      requires Ok?
    {
      value
    }
  }

  newtype byte = b: int | 0 <= b < 256

  type Bytes = seq<byte>

  function Last<T>(s: seq<T>): T
    requires s != []
  {
    s[|s| - 1]
  }

  lemma Assoc<T>(a: seq<T>, b: seq<T>, c: seq<T>)
    ensures a + (b + c) == a + b + c
  {
  }

  function Abs(n: int): nat {
    if n < 0 then -n else n
  }

  /** n doubled s times. Doubling keeps the proofs below free of products. */
  function Scale(n: int, s: nat): int {
    if s == 0 then n else 2 * Scale(n, s - 1)
  }

  function Pow2(s: nat): int {
    Scale(1, s)
  }

  lemma {:induction false} ScaleIsProduct(n: int, s: nat)
    ensures Scale(n, s) == n * Pow2(s)
  {
    if s > 0 {
      ScaleIsProduct(n, s - 1);
      DoubleProduct(n, Pow2(s - 1));
    }
  }

  lemma Distribute(x: int, y: int, p: int)
    ensures (x + y) * p == x * p + y * p
  {
  }

  lemma DoubleProduct(n: int, p: int)
    ensures 2 * (n * p) == n * (2 * p)
  {
  }

  lemma {:induction false} ScaleAdd(a: int, b: int, s: nat)
    ensures Scale(a + b, s) == Scale(a, s) + Scale(b, s)
  {
    if s > 0 {
      ScaleAdd(a, b, s - 1);
    }
  }

  lemma {:induction false} ScaleTwice(n: int, s: nat, t: nat)
    ensures Scale(Scale(n, s), t) == Scale(n, s + t)
  {
    if t > 0 {
      ScaleTwice(n, s, t - 1);
    }
  }

  lemma {:induction false} ScaleOrder(a: int, b: int, s: nat)
    ensures a < b <==> Scale(a, s) < Scale(b, s)
    ensures a <= b <==> Scale(a, s) <= Scale(b, s)
  {
    if s > 0 {
      ScaleOrder(a, b, s - 1);
    }
  }

  lemma {:induction false} ScaleGrows(n: int, s: nat, t: nat)
    requires n >= 0 && s <= t
    ensures 0 <= Scale(n, s) <= Scale(n, t)
    ensures n > 0 ==> Scale(n, s) > 0
    decreases t
  {
    if s < t {
      ScaleGrows(n, s, t - 1);
    } else if s > 0 {
      ScaleGrows(n, s - 1, t - 1);
    }
  }

  lemma {:induction false} ScaleZero(s: nat)
    ensures Scale(0, s) == 0
  {
    if s > 0 {
      ScaleZero(s - 1);
    }
  }

  /** 128 * 256^(k-1), the value of the sign bit of k bytes. */
  lemma TopBits(k: nat)
    requires k > 0
    ensures Scale(128, 8 * (k - 1)) == Scale(1, 7 + 8 * (k - 1))
    ensures Scale(1, 8 * k) == 2 * Scale(128, 8 * (k - 1))
    ensures Scale(1, 8 * (k - 1)) <= Scale(128, 8 * (k - 1))
  {
    assert Scale(1, 7) == 128;
    ScaleTwice(1, 7, 8 * (k - 1));
    ScaleOrder(1, 128, 8 * (k - 1));
  }

  /** One byte is eight doublings. */
  lemma ScaleByte(n: int, s: nat)
    ensures Scale(n, s + 8) == 256 * Scale(n, s)
    ensures Scale(n, s + 7) == 128 * Scale(n, s)
  {
    assert Scale(n, s + 2) == 4 * Scale(n, s);
    assert Scale(n, s + 4) == 4 * Scale(n, s + 2);
    assert Scale(n, s + 6) == 4 * Scale(n, s + 4);
    assert Scale(n, s + 8) == 4 * Scale(n, s + 6);
  }

  /** The value of a little-endian byte string. */
  function LeNat(s: Bytes): nat {
    if s == [] then 0 else s[0] as int + 256 * LeNat(s[1..])
  }

  /** The shortest little-endian byte string of a natural; zero is empty. */
  function NatLe(n: nat): Bytes {
    if n == 0 then [] else [(n % 256) as byte] + NatLe(n / 256)
  }

  lemma {:induction false} LeNatOfNatLe(n: nat)
    ensures LeNat(NatLe(n)) == n
    ensures n > 0 ==> NatLe(n) != [] && Last(NatLe(n)) != 0
  {
    if n > 0 {
      LeNatOfNatLe(n / 256);
      assert NatLe(n)[1..] == NatLe(n / 256);
    }
  }

  lemma {:induction false} NatLeOfLeNat(s: Bytes)
    requires s == [] || Last(s) != 0
    ensures NatLe(LeNat(s)) == s
  {
    if s != [] {
      NatLeOfLeNat(s[1..]);
      if s[1..] != [] {
        assert Last(s[1..]) == Last(s);
        LeNatPositive(s[1..]);
      }
      assert LeNat(s) % 256 == s[0] as int && LeNat(s) / 256 == LeNat(s[1..]);
    }
  }

  lemma {:induction false} LeNatPositive(s: Bytes)
    requires s != [] && Last(s) != 0
    ensures LeNat(s) > 0
  {
    if |s| > 1 {
      assert Last(s[1..]) == Last(s);
      LeNatPositive(s[1..]);
    }
  }

  lemma {:induction false} LeNatAppend(a: Bytes, b: Bytes)
    ensures LeNat(a + b) == LeNat(a) + Scale(LeNat(b), 8 * |a|)
  {
    if a == [] {
      assert a + b == b;
    } else {
      LeNatAppend(a[1..], b);
      assert (a + b)[1..] == a[1..] + b;
      ScaleByte(LeNat(b), 8 * (|a| - 1));
    }
  }

  lemma {:induction false} LeNatBound(s: Bytes)
    ensures LeNat(s) < Scale(1, 8 * |s|)
  {
    if s != [] {
      LeNatBound(s[1..]);
      ScaleByte(1, 8 * (|s| - 1));
    }
  }

  lemma LeNatAppendByte(low: Bytes, b: byte)
    ensures LeNat(low + [b]) == LeNat(low) + Scale(b as int, 8 * |low|)
  {
    LeNatAppend(low, [b]);
    assert LeNat([b]) == b as int by {
      assert [b][1..] == [];
    }
  }

  /** Little-endian order is decided by the top byte alone. */
  lemma LeNatTopByte(low: Bytes, b: byte, c: nat)
    ensures LeNat(low + [b]) < Scale(c, 8 * |low|) <==> b as int < c
  {
    LeNatAppendByte(low, b);
    LeNatBound(low);
    ScaleAdd(b as int, 1, 8 * |low|);
    ScaleOrder(b as int, c, 8 * |low|);
    ScaleOrder(b as int + 1, c, 8 * |low|);
  }

  /** A natural needs at most k bytes exactly when it is below 256^k. */
  lemma {:induction false} NatLeLength(n: nat, k: nat)
    ensures |NatLe(n)| <= k <==> n < Scale(1, 8 * k)
  {
    ScaleGrows(1, 0, 8 * k);
    if k > 0 && n > 0 {
      ScaleByte(1, 8 * (k - 1));
      NatLeLength(n / 256, k - 1);
    }
  }

  /** The k low bytes of a natural, little end first. */
  function LeBytes(n: nat, k: nat): (r: Bytes)
    ensures |r| == k
  {
    if k == 0 then [] else [(n % 256) as byte] + LeBytes(n / 256, k - 1)
  }

  lemma {:induction false} LeNatOfLeBytes(n: nat, k: nat)
    requires n < Scale(1, 8 * k)
    ensures LeNat(LeBytes(n, k)) == n
  {
    if k > 0 {
      ScaleByte(1, 8 * (k - 1));
      LeNatOfLeBytes(n / 256, k - 1);
      assert LeBytes(n, k)[1..] == LeBytes(n / 256, k - 1);
    }
  }

  lemma {:induction false} LeBytesOfLeNat(s: Bytes)
    ensures LeBytes(LeNat(s), |s|) == s
  {
    if s != [] {
      LeBytesOfLeNat(s[1..]);
      assert LeNat(s) % 256 == s[0] as int && LeNat(s) / 256 == LeNat(s[1..]);
    }
  }

  /** What one to four length bytes can hold. */
  lemma WidthBounds()
    ensures Scale(1, 8) == 0x100 && Scale(1, 16) == 0x1_0000 && Scale(1, 32) == 0x1_0000_0000
  {
    ScaleByte(1, 0);
    ScaleByte(1, 8);
    ScaleByte(1, 16);
    ScaleByte(1, 24);
  }

  // ---- counting ----

  predicate AllDistinct<T(==)>(xs: seq<T>) {
    forall i, j :: 0 <= i < j < |xs| ==> xs[i] != xs[j]
  }

  function Members<T>(xs: seq<T>): set<T> {
    set x | x in xs
  }

  lemma {:induction false} DistinctCount<T>(xs: seq<T>)
    requires AllDistinct(xs)
    ensures |Members(xs)| == |xs|
  {
    if xs == [] {
      assert Members(xs) == {};
    } else {
      var n := |xs| - 1;
      DistinctCount(xs[..n]);
      assert xs == xs[..n] + [xs[n]];
      assert Members(xs) == Members(xs[..n]) + {xs[n]};
    }
  }

  lemma {:induction false} SubsetCount<T>(a: set<T>, b: set<T>)
    requires a <= b
    ensures |a| <= |b|
  {
    if a != {} {
      var x :| x in a;
      SubsetCount(a - {x}, b - {x});
    }
  }

  /** A subset of the same size is the whole. */
  lemma FullSubset<T>(a: set<T>, b: set<T>)
    requires a <= b && |a| == |b|
    ensures a == b
  {
    if x :| x in b && x !in a {
      SubsetCount(a, b - {x});
    }
  }
}
