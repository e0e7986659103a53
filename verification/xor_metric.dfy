/** The XOR metric of discover/node.go (section 2.1 of the Kademlia paper by Maymounkov and
    Mazieres): bytewise comparison and leading-zero counting, proved against the number that the
    big-endian bytes stand for. */
module XorMetric {
  import opened NodeTypes

  /** The number whose big-endian bytes are `s`. */
  function Value(s: seq<byte>): nat {
    if s == [] then 0 else 256 * Value(s[..|s| - 1]) + s[|s| - 1] as nat
  }

  /** The number of bits needed to write `n`. */
  function BitLen(n: nat): nat {
    if n == 0 then 0 else 1 + BitLen(n / 2)
  }

  function Xor(a: seq<byte>, b: seq<byte>): (r: seq<byte>)
    requires |a| == |b|
    ensures |r| == |a| && forall i :: 0 <= i < |r| ==> r[i] == a[i] ^ b[i]
  {
    seq(|a|, i requires 0 <= i < |a| => a[i] ^ b[i])
  }

  /** The XOR distance of `a` from `target`, as a number. */
  function Dist(target: seq<byte>, a: seq<byte>): nat
    requires |target| == |a|
  {
    Value(Xor(a, target))
  }

  /** The logarithmic distance: the bit length of the XOR. */
  function LogDist(a: seq<byte>, b: seq<byte>): nat
    requires |a| == |b|
  {
    BitLen(Value(Xor(a, b)))
  }

  // ---------- Order of values ----------

  /** Strings of one length that agree before position `i` are ordered by their bytes at `i`. */
  lemma {:induction false} FirstDifferenceDecides(s: seq<byte>, t: seq<byte>, i: nat)
    requires |s| == |t| && i < |s| && s[..i] == t[..i] && s[i] < t[i]
    ensures Value(s) < Value(t)
  {
    var n := |s| - 1;
    if i < n {
      assert s[..n][..i] == s[..i] && t[..n][..i] == t[..i];
      FirstDifferenceDecides(s[..n], t[..n], i);
    }
  }

  lemma SameValueEnds(s: seq<byte>, t: seq<byte>)
    requires |s| == |t| > 0 && Value(s) == Value(t)
    ensures var n := |s| - 1; Value(s[..n]) == Value(t[..n]) && s[n] == t[n]
  {
    var n := |s| - 1;
    var hi, lo, hi2, lo2 := Value(s[..n]), s[n] as int, Value(t[..n]), t[n] as int;
    assert 256 * hi + lo == 256 * hi2 + lo2;
  }

  lemma {:induction false} ValueInjective(s: seq<byte>, t: seq<byte>)
    requires |s| == |t| && Value(s) == Value(t)
    ensures s == t
  {
    if s != [] {
      var n := |s| - 1;
      SameValueEnds(s, t);
      ValueInjective(s[..n], t[..n]);
      assert s == s[..n] + [s[n]] && t == t[..n] + [t[n]];
    }
  }

  lemma {:induction false} ZeroValue(s: seq<byte>)
    requires forall i :: 0 <= i < |s| ==> s[i] == 0
    ensures Value(s) == 0
  {
    if s != [] {
      ZeroValue(s[..|s| - 1]);
    }
  }

  // ---------- Bit lengths ----------

  /** A byte appended to a non-zero number adds eight bits. */
  lemma BitLenAppend(v: nat, b: nat)
    requires v > 0 && b < 256
    ensures BitLen(256 * v + b) == 8 + BitLen(v)
  {
    var n := 256 * v + b;
    assert n / 2 == 128 * v + b / 2;
    assert n / 2 / 2 == 64 * v + b / 4;
    assert n / 2 / 2 / 2 == 32 * v + b / 8;
    assert n / 2 / 2 / 2 / 2 == 16 * v + b / 16;
    var m := n / 2 / 2 / 2 / 2;
    FourBits(n);
    assert m / 2 == 8 * v + b / 32;
    assert m / 2 / 2 == 4 * v + b / 64;
    assert m / 2 / 2 / 2 == 2 * v + b / 128;
    assert m / 2 / 2 / 2 / 2 == v;
    FourBits(m);
  }

  lemma FourBits(n: nat)
    requires n >= 16
    ensures BitLen(n) == 4 + BitLen(n / 2 / 2 / 2 / 2)
  {
    assert BitLen(n) == 1 + BitLen(n / 2) == 2 + BitLen(n / 2 / 2);
    assert BitLen(n / 2 / 2) == 1 + BitLen(n / 2 / 2 / 2) == 2 + BitLen(n / 2 / 2 / 2 / 2);
  }

  lemma {:induction false} BitLenMono(m: nat, n: nat)
    requires m <= n
    ensures BitLen(m) <= BitLen(n)
  {
    if m > 0 {
      BitLenMono(m / 2, n / 2);
    }
  }

  /** The bit length of a string: that of its first non-zero byte, plus eight for each later byte. */
  lemma {:induction false} BitLenOfBytes(s: seq<byte>, i: nat)
    requires i < |s| && (forall k :: 0 <= k < i ==> s[k] == 0) && s[i] != 0
    ensures BitLen(Value(s)) == BitLen(s[i] as nat) + 8 * (|s| - 1 - i)
    ensures Value(s) > 0
  {
    var n := |s| - 1;
    if i < n {
      BitLenOfBytes(s[..n], i);
      BitLenAppend(Value(s[..n]), s[n] as nat);
    } else {
      ZeroValue(s[..n]);
    }
  }

  // ---------- The leading-zero table ----------

  /** lzcount, row by row: the leading zeros of each byte. */
  const LZ_COUNT: seq<int> :=
    [8, 7] + Repeat(6, 2) + Repeat(5, 4) + Repeat(4, 8) + Repeat(3, 16) + Repeat(2, 32) + Repeat(1, 64) + Repeat(0, 128)

  lemma SmallBitLen(n: nat)
    requires n < 256
    ensures && (n < 1 ==> BitLen(n) == 0) && (1 <= n < 2 ==> BitLen(n) == 1) && (2 <= n < 4 ==> BitLen(n) == 2)
            && (4 <= n < 8 ==> BitLen(n) == 3) && (8 <= n < 16 ==> BitLen(n) == 4) && (16 <= n < 32 ==> BitLen(n) == 5)
            && (32 <= n < 64 ==> BitLen(n) == 6) && (64 <= n < 128 ==> BitLen(n) == 7) && (128 <= n ==> BitLen(n) == 8)
  {
  }

  lemma LzCountRows(n: nat)
    requires n < 256
    ensures |LZ_COUNT| == 256 && LZ_COUNT[n] == 8 - BitLen(n)
  {
    SmallBitLen(n);
    hide BitLen;
  }

  lemma LzCountIsBitLen(x: byte)
    ensures |LZ_COUNT| == 256 && LZ_COUNT[x as int] == 8 - BitLen(x as nat)
  {
    LzCountRows(x as nat);
  }

  // ---------- The loops ----------

  /** logdist: skips equal bytes, then looks up the first differing one. */
  method ComputeLogDist(a: seq<byte>, b: seq<byte>) returns (d: int)
    requires |a| == |b|
    ensures d == LogDist(a, b)
  {
    hide Value, BitLen;
    var lz := 0;
    BitLenZero();
    for i := 0 to |a|
      invariant lz == 8 * i
      invariant forall k :: 0 <= k < i ==> a[k] ^ b[k] == 0
    {
      var x := a[i] ^ b[i];
      if x == 0 {
        lz := lz + 8;
      } else {
        LzCountIsBitLen(x);
        BitLenOfBytes(Xor(a, b), i);
        lz := lz + LZ_COUNT[x as int];
        return |a| * 8 - lz;
      }
    }
    ZeroValue(Xor(a, b));
    return |a| * 8 - lz;
  }

  function Sign(n: int): int {
    if n < 0 then -1 else if n > 0 then 1 else 0
  }

  /** distcmp: the sign of the difference of the two distances. */
  method ComputeDistCmp(target: seq<byte>, a: seq<byte>, b: seq<byte>) returns (c: int)
    requires |target| == |a| == |b|
    ensures c == Sign(Dist(target, a) - Dist(target, b))
  {
    var xa, xb := Xor(a, target), Xor(b, target);
    for i := 0 to |target|
      invariant xa[..i] == xb[..i]
    {
      var da, db := a[i] ^ target[i], b[i] ^ target[i];
      if da > db {
        FirstDifferenceDecides(xb, xa, i);
        return 1;
      } else if da < db {
        FirstDifferenceDecides(xa, xb, i);
        return -1;
      }
      assert xa[..i + 1] == xa[..i] + [da] && xb[..i + 1] == xb[..i] + [db];
    }
    assert xa[..|target|] == xa && xb[..|target|] == xb;
    return 0;
  }

  // ---------- The metric ----------

  /** The distance is symmetric, and zero exactly between equal strings. */
  lemma DistIsMetricLike(a: seq<byte>, b: seq<byte>)
    requires |a| == |b|
    ensures Dist(a, b) == Dist(b, a) && LogDist(a, b) == LogDist(b, a)
    ensures Dist(a, b) == 0 <==> a == b
    ensures LogDist(a, b) == 0 <==> a == b
  {
    assert Xor(a, b) == Xor(b, a);
    if a == b {
      ZeroValue(Xor(b, a));
    } else {
      var i: nat := FirstDifference(a, b);
      BitLenOfBytes(Xor(b, a), i);
    }
  }

  lemma {:induction false} FirstDifference(a: seq<byte>, b: seq<byte>) returns (i: nat)
    requires |a| == |b| && a != b
    ensures i < |a| && a[i] != b[i] && forall k :: 0 <= k < i ==> a[k] ^ b[k] == 0
  {
    i := 0;
    while a[i] == b[i]
      invariant i < |a| && a[..i] == b[..i]
      invariant forall k :: 0 <= k < i ==> a[k] ^ b[k] == 0
      decreases |a| - i
    {
      assert a[..i + 1] == b[..i + 1];
      assert a[..|a|] == a && b[..|b|] == b;
      i := i + 1;
    }
  }

  /** For one target, each distance belongs to one string only: the metric is unidirectional. */
  lemma DistInjective(target: seq<byte>, a: seq<byte>, b: seq<byte>)
    requires |target| == |a| == |b| && Dist(target, a) == Dist(target, b)
    ensures a == b
  {
    ValueInjective(Xor(a, target), Xor(b, target));
    forall i | 0 <= i < |a|
      ensures a[i] == b[i]
    {
      assert Xor(a, target)[i] == Xor(b, target)[i];
      assert a[i] == (a[i] ^ target[i]) ^ target[i];
      assert b[i] == (b[i] ^ target[i]) ^ target[i];
    }
  }

  /** A smaller logarithmic distance means a smaller distance. */
  lemma NearerBucketIsNearer(target: seq<byte>, a: seq<byte>, b: seq<byte>)
    requires |target| == |a| == |b| && LogDist(a, target) < LogDist(b, target)
    ensures Dist(target, a) < Dist(target, b)
  {
    if Dist(target, a) >= Dist(target, b) {
      BitLenMono(Dist(target, b), Dist(target, a));
    }
  }

  function Max(a: int, b: int): int {
    if a < b then b else a
  }

  /** The bit length of a byte. */
  function ByteBits(b: byte): (n: nat)
    ensures n <= 8
  {
    if b < 1 then 0 else if b < 2 then 1 else if b < 4 then 2 else if b < 8 then 3
    else if b < 16 then 4 else if b < 32 then 5 else if b < 64 then 6 else if b < 128 then 7 else 8
  }

  lemma BitLenZero()
    ensures BitLen(0) == 0
  {
  }

  lemma ByteBitsIs(b: byte)
    ensures ByteBits(b) == BitLen(b as nat)
  {
    SmallBitLen(b as nat);
  }

  function Join(head: nat, last: nat): nat {
    if head > 0 then 8 + head else last
  }

  /** The bit length of a string, byte by byte. */
  function Bits(s: seq<byte>): nat {
    if s == [] then 0 else Join(Bits(s[..|s| - 1]), ByteBits(s[|s| - 1]))
  }

  lemma JoinMax(h: nat, i: nat, j: nat, a: nat, b: nat, c: nat)
    requires j <= Max(h, i) && c <= Max(a, b) && a <= 8 && b <= 8
    ensures Join(j, c) <= Max(Join(h, a), Join(i, b))
  {
  }

  lemma {:induction false} BitsIs(s: seq<byte>)
    ensures Bits(s) == BitLen(Value(s))
  {
    if s != [] {
      var n := |s| - 1;
      BitsIs(s[..n]);
      ByteBitsIs(s[n]);
      if Value(s[..n]) > 0 {
        BitLenAppend(Value(s[..n]), s[n] as nat);
      }
    }
  }

  lemma XorByteBits(x: byte, y: byte)
    ensures ByteBits(x ^ y) <= Max(ByteBits(x), ByteBits(y))
  {
  }

  lemma {:induction false} XorBits(s: seq<byte>, t: seq<byte>)
    requires |s| == |t|
    ensures Bits(Xor(s, t)) <= Max(Bits(s), Bits(t))
  {
    if s != [] {
      var n := |s| - 1;
      XorBits(s[..n], t[..n]);
      assert Xor(s, t)[..n] == Xor(s[..n], t[..n]);
      XorByteBits(s[n], t[n]);
      JoinMax(Bits(s[..n]), Bits(t[..n]), Bits(Xor(s, t)[..n]), ByteBits(s[n]), ByteBits(t[n]), ByteBits(Xor(s, t)[n]));
    }
  }

  /** The logarithmic distance is an ultrametric: nodes that share a bucket of a third node are no
      further apart than that bucket. */
  lemma LogDistUltrametric(a: seq<byte>, b: seq<byte>, c: seq<byte>)
    requires |a| == |b| == |c|
    ensures LogDist(a, c) <= Max(LogDist(a, b), LogDist(b, c))
  {
    var u, v := Xor(a, c), Xor(Xor(a, b), Xor(b, c));
    forall i | 0 <= i < |a|
      ensures u[i] == v[i]
    {
      assert a[i] ^ c[i] == (a[i] ^ b[i]) ^ (b[i] ^ c[i]);
    }
    assert u == v;
    XorBits(Xor(a, b), Xor(b, c));
    BitsIs(u);
    BitsIs(Xor(a, b));
    BitsIs(Xor(b, c));
  }

  /** Logarithmic distances of 32-byte hashes index 257 buckets. */
  lemma LogDistBound(a: Hash, b: Hash)
    ensures LogDist(a, b) <= 256
  {
    BitsBound(Xor(a, b));
    BitsIs(Xor(a, b));
  }

  lemma {:induction false} BitsBound(s: seq<byte>)
    ensures Bits(s) <= 8 * |s|
  {
    if s != [] {
      BitsBound(s[..|s| - 1]);
    }
  }
}
