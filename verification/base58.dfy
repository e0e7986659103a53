/** Base58 of common/base58.go: the loops over big integers are proved to convert between positional
    systems, and the two conversions are proved to invert each other. */
module Base58 {
  import opened NodeTypes

  type octet = x: int | 0 <= x < 256

  const RADIX := 58
  const ONE: octet := 49

  // ---------- Positional systems ----------

  ghost predicate AreDigits(b: nat, ds: seq<int>) {
    forall i :: 0 <= i < |ds| ==> 0 <= ds[i] < b
  }

  /** The number whose digits in base `b` are `ds`, most significant first. */
  function Val(b: nat, ds: seq<int>): int {
    if ds == [] then 0 else Val(b, ds[..|ds| - 1]) * b + ds[|ds| - 1]
  }

  /** The digits of `n` in base `b`, most significant first, without leading zeros. */
  function Digits(b: nat, n: nat): (ds: seq<int>)
    requires b >= 2
    decreases n
  {
    if n == 0 then [] else Smaller(b, n); Digits(b, n / b) + [n % b]
  }

  lemma Smaller(b: nat, n: nat)
    requires b >= 2 && n > 0
    ensures 0 <= n / b < n
  {
  }

  lemma SmallMultiple(b: int, x: int)
    requires b >= 2 && 0 - b < x * b < b
    ensures x == 0
  {
  }

  lemma DivModUnique(b: nat, v: int, d: int)
    requires b >= 2 && 0 <= d < b
    ensures (v * b + d) / b == v && (v * b + d) % b == d
  {
    var n := v * b + d;
    var q, r := n / b, n % b;
    assert n == q * b + r && 0 <= r < b;
    assert (v - q) * b == v * b - q * b;
    SmallMultiple(b, v - q);
  }

  function LeadingZeros(ds: seq<int>): (k: nat)
    ensures k <= |ds| && (forall i :: 0 <= i < k ==> ds[i] == 0) && (k < |ds| ==> ds[k] != 0)
  {
    if ds == [] || ds[0] != 0 then 0 else 1 + LeadingZeros(ds[1..])
  }

  lemma {:induction false} ValNonNegative(b: nat, ds: seq<int>)
    requires AreDigits(b, ds)
    ensures Val(b, ds) >= 0
  {
    if ds != [] {
      ValNonNegative(b, ds[..|ds| - 1]);
      assert Val(b, ds[..|ds| - 1]) * b >= 0;
    }
  }

  /** Digits are digits, and the first of them is not zero. */
  lemma {:induction false} DigitsWellFormed(b: nat, n: nat)
    requires b >= 2
    ensures AreDigits(b, Digits(b, n)) && (n > 0 ==> Digits(b, n) != [] && Digits(b, n)[0] != 0)
    decreases n
  {
    if n > 0 {
      Smaller(b, n);
      DigitsWellFormed(b, n / b);
      if n / b == 0 {
        assert n == (n / b) * b + n % b;
      }
    }
  }

  lemma DigitsStep(b: nat, n: nat)
    requires b >= 2 && n > 0
    ensures 0 <= n / b < n && Digits(b, n) == Digits(b, n / b) + [n % b]
  {
  }

  lemma ValSnoc(b: nat, ds: seq<int>, d: int)
    ensures Val(b, ds + [d]) == Val(b, ds) * b + d
  {
  }

  lemma {:induction false} ValOfDigits(b: nat, n: nat)
    requires b >= 2
    ensures Val(b, Digits(b, n)) == n
    decreases n
  {
    if n > 0 {
      DigitsStep(b, n);
      ValOfDigits(b, n / b);
      hide Val, Digits;
      ValSnoc(b, Digits(b, n / b), n % b);
      assert n == (n / b) * b + n % b;
    }
  }

  lemma {:induction false} ValOfZeros(b: nat, ds: seq<int>)
    requires forall i :: 0 <= i < |ds| ==> ds[i] == 0
    ensures Val(b, ds) == 0
  {
    if ds != [] {
      ValOfZeros(b, ds[..|ds| - 1]);
    }
  }

  lemma {:induction false} ValIgnoresZeros(b: nat, k: nat, ds: seq<int>)
    ensures Val(b, Repeat(0, k) + ds) == Val(b, ds)
  {
    if ds == [] {
      assert Repeat(0, k) + ds == Repeat(0, k);
      ValOfZeros(b, Repeat(0, k));
    } else {
      var n := |ds| - 1;
      ValIgnoresZeros(b, k, ds[..n]);
      var all := Repeat(0, k) + ds;
      assert all[..|all| - 1] == Repeat(0, k) + ds[..n] && all[|all| - 1] == ds[n];
    }
  }

  /** A digit string is its leading zeros followed by the digits of its value. */
  lemma {:induction false} DigitsOfVal(b: nat, ds: seq<int>)
    requires b >= 2 && AreDigits(b, ds)
    ensures Val(b, ds) >= 0 && ds == Repeat(0, LeadingZeros(ds)) + Digits(b, Val(b, ds))
  {
    ValNonNegative(b, ds);
    if ds != [] {
      var n := |ds| - 1;
      var init, last := ds[..n], ds[n];
      assert ds == init + [last];
      DigitsOfVal(b, init);
      DivModUnique(b, Val(b, init), last);
      if Val(b, ds) == 0 {
        ZeroVal(b, ds);
      } else {
        SameLeadingZeros(b, ds);
        DigitsStep(b, Val(b, ds));
        assert Val(b, ds) == Val(b, init) * b + last;
        hide Val, Digits, LeadingZeros, Repeat;
        assert ds == Repeat(0, LeadingZeros(init)) + Digits(b, Val(b, init)) + [last];
      }
    }
  }

  /** Only zeros have value zero. */
  lemma {:induction false} ZeroVal(b: nat, ds: seq<int>)
    requires b >= 2 && AreDigits(b, ds) && Val(b, ds) == 0
    ensures LeadingZeros(ds) == |ds| && ds == Repeat(0, |ds|)
  {
    if ds != [] {
      var n := |ds| - 1;
      ValNonNegative(b, ds[..n]);
      assert Val(b, ds[..n]) * b >= 0;
      assert ds[n] == 0 && Val(b, ds[..n]) * b == 0;
      assert Val(b, ds[..n]) == 0;
      ZeroVal(b, ds[..n]);
      assert forall i :: 0 <= i < |ds| ==> ds[i] == 0;
    }
  }

  lemma SameLeadingZeros(b: nat, ds: seq<int>)
    requires b >= 2 && ds != [] && AreDigits(b, ds) && Val(b, ds) != 0
    ensures LeadingZeros(ds) == LeadingZeros(ds[..|ds| - 1])
  {
  }

  /** Rewrites a digit string from base `a` to base `b`, one leading zero for each. */
  function Convert(a: nat, b: nat, ds: seq<int>): seq<int>
    requires b >= 2 && Val(a, ds) >= 0
  {
    Repeat(0, LeadingZeros(ds)) + Digits(b, Val(a, ds))
  }

  /** Converting there and back is the identity on every digit string. */
  lemma ConvertInverse(a: nat, b: nat, ds: seq<int>)
    requires a >= 2 && b >= 2 && AreDigits(a, ds)
    ensures Val(a, ds) >= 0 && Val(b, Convert(a, b, ds)) >= 0 && AreDigits(b, Convert(a, b, ds))
    ensures Convert(b, a, Convert(a, b, ds)) == ds
  {
    ValNonNegative(a, ds);
    var n, k := Val(a, ds), LeadingZeros(ds);
    var es := Convert(a, b, ds);
    DigitsWellFormed(b, n);
    ValOfDigits(b, n);
    ValIgnoresZeros(b, k, Digits(b, n));
    assert Val(b, es) == n;
    assert LeadingZeros(es) == k by {
      var l := LeadingZeros(es);
      assert n > 0 ==> es[k] != 0;
      assert n == 0 ==> es == Repeat(0, k);
    }
    DigitsOfVal(a, ds);
  }

  // ---------- The tables ----------

  function Count(from: int, n: nat): (r: seq<int>)
    ensures |r| == n && forall i :: 0 <= i < n ==> r[i] == from + i
  {
    seq(n, i => from + i)
  }

  /** The alphabet: 1-9, A-H, J-N, P-Z, a-k, m-z. */
  const ALPHABET: seq<int> := Count(49, 9) + Count(65, 8) + Count(74, 5) + Count(80, 11) + Count(97, 11) + Count(109, 14)

  /** The inverse table, 255 where a byte is not in the alphabet. */
  const B58: seq<int> :=
    Repeat(255, 49) + Count(0, 9) + Repeat(255, 7) + Count(9, 8) + Repeat(255, 1) + Count(17, 5) + Repeat(255, 1)
    + Count(22, 11) + Repeat(255, 6) + Count(33, 11) + Repeat(255, 1) + Count(44, 14) + Repeat(255, 133)

  lemma AlphabetRange(d: int)
    requires 0 <= d < 58
    ensures |ALPHABET| == 58 && 0 <= ALPHABET[d] < 256 && (ALPHABET[d] == ONE <==> d == 0)
  {
  }

  /** The two tables invert each other. */
  lemma TablesInvert(d: int, c: int)
    ensures 0 <= d < 58 ==> |ALPHABET| == 58 && |B58| == 256 && 0 <= ALPHABET[d] < 256 && B58[ALPHABET[d]] == d
    ensures 0 <= c < 256 ==> |B58| == 256 && (B58[c] == 255 || (0 <= B58[c] < 58 && ALPHABET[B58[c]] == c))
  {
  }

  /** The alphabet is the letters and digits in their order, without 0, I, O and l. */
  lemma AlphabetIs(c: octet, d: int, e: int)
    ensures InAlphabet(c) <==>
            (48 <= c <= 57 || 65 <= c <= 90 || 97 <= c <= 122) && c != 48 && c != 73 && c != 79 && c != 108
    ensures 0 <= d < e < 58 ==> CharOf(d) < CharOf(e)
  {
  }

  predicate InAlphabet(c: octet) {
    |B58| == 256 && B58[c] != 255
  }

  predicate AllInAlphabet(s: seq<octet>) {
    forall i :: 0 <= i < |s| ==> InAlphabet(s[i])
  }

  function CharOf(d: int): (c: octet)
    requires 0 <= d < 58
    ensures |ALPHABET| == 58 && c == ALPHABET[d]
  {
    AlphabetRange(d);
    ALPHABET[d]
  }

  /** The characters of base-58 digits, and the digits of characters. */
  function ToChars(ds: seq<int>): (r: seq<octet>)
    requires AreDigits(58, ds)
    ensures |r| == |ds| && forall i :: 0 <= i < |ds| ==> r[i] == CharOf(ds[i])
  {
    seq(|ds|, i requires 0 <= i < |ds| => CharOf(ds[i]))
  }

  function ToDigits(s: seq<octet>): (ds: seq<int>)
    ensures |ds| == |s| && forall i :: 0 <= i < |s| ==> |B58| == 256 && ds[i] == B58[s[i]]
  {
    TablesInvert(0, 0);
    seq(|s|, i requires 0 <= i < |s| => B58[s[i]])
  }

  lemma CharsAndDigits(ds: seq<int>, s: seq<octet>)
    ensures AreDigits(58, ds) ==> AllInAlphabet(ToChars(ds)) && ToDigits(ToChars(ds)) == ds
    ensures AllInAlphabet(s) ==> AreDigits(58, ToDigits(s)) && ToChars(ToDigits(s)) == s
  {
    if AreDigits(58, ds) {
      forall i | 0 <= i < |ds|
        ensures InAlphabet(ToChars(ds)[i]) && ToDigits(ToChars(ds))[i] == ds[i]
      {
        TablesInvert(ds[i], 0);
      }
    }
    if AllInAlphabet(s) {
      forall i | 0 <= i < |s|
        ensures 0 <= ToDigits(s)[i] < 58
      {
        assert InAlphabet(s[i]);
        TablesInvert(0, s[i]);
      }
      forall i | 0 <= i < |s|
        ensures ToChars(ToDigits(s))[i] == s[i]
      {
        assert InAlphabet(s[i]);
        TablesInvert(0, s[i]);
      }
    }
  }

  /** What B58Encode computes: base 256 to base 58. */
  ghost function Encoded(data: seq<octet>): seq<octet> {
    ConvertInverse(256, 58, data);
    ToChars(Convert(256, 58, data))
  }

  /** What B58Decode computes: base 58 to base 256; nothing for a string with a foreign character. */
  ghost function Decoded(s: seq<octet>): seq<int> {
    if AllInAlphabet(s) then
      CharsAndDigits([], s);
      ConvertInverse(58, 256, ToDigits(s));
      Convert(58, 256, ToDigits(s))
    else []
  }

  /** The byte 0 and the number 300: "16B". */
  lemma EncodeExample()
    ensures Encoded([0, 1, 44]) == [49, 54, 66]
  {
    var data: seq<octet> := [0, 1, 44];
    assert data[..2] == [0, 1] && data[..1] == [0] && data[..0] == [];
    assert Val(256, [0]) == 0 && Val(256, [0, 1]) == 1 && Val(256, data) == 300;
    assert data[1..] == [1, 44] && LeadingZeros(data) == 1;
    assert Digits(58, 5) == [5] && Digits(58, 300) == [5, 10];
    assert Convert(256, 58, data) == [0, 5, 10];
  }

  /** Decoding an encoding gives the bytes back, leading zeros and the empty string included. */
  lemma DecodeEncode(data: seq<octet>)
    ensures Decoded(Encoded(data)) == data
  {
    ConvertInverse(256, 58, data);
    CharsAndDigits(Convert(256, 58, data), []);
  }

  lemma DecodedOctets(s: seq<octet>)
    ensures forall i :: 0 <= i < |Decoded(s)| ==> 0 <= Decoded(s)[i] < 256
  {
    if AllInAlphabet(s) {
      CharsAndDigits([], s);
      ConvertInverse(58, 256, ToDigits(s));
    }
  }

  /** Encoding a decoding gives the string back exactly if all its characters are in the alphabet. */
  lemma EncodeDecode(s: seq<octet>)
    ensures forall i :: 0 <= i < |Decoded(s)| ==> 0 <= Decoded(s)[i] < 256
    ensures Encoded(Decoded(s)) == s <==> AllInAlphabet(s)
  {
    DecodedOctets(s);
    if AllInAlphabet(s) {
      CharsAndDigits([], s);
      ConvertInverse(58, 256, ToDigits(s));
    } else {
      assert |Encoded([])| == 0;
    }
  }

  // ---------- The loops ----------

  function Reversed(s: seq<int>): (r: seq<int>)
    ensures |r| == |s| && forall i :: 0 <= i < |s| ==> r[i] == s[|s| - 1 - i]
  {
    seq(|s|, i requires 0 <= i < |s| => s[|s| - 1 - i])
  }

  lemma ReversedCons(d: int, ds: seq<int>)
    requires 0 <= d < 58 && AreDigits(58, ds)
    ensures AreDigits(58, [d] + ds) && Reversed(ToChars([d] + ds)) == Reversed(ToChars(ds)) + [CharOf(d)]
  {
    hide CharOf;
    assert ToChars([d] + ds) == [CharOf(d)] + ToChars(ds);
  }

  /** The first loop of B58Encode: digits from the least significant, written as characters. */
  method EncodeDigits(n: nat) returns (answer: seq<octet>)
    ensures AreDigits(58, Digits(58, n)) && answer == Reversed(ToChars(Digits(58, n)))
  {
    answer := [];
    var x: nat := n;
    DigitsWellFormed(58, n);
    ghost var done: seq<int> := [];
    assert Digits(58, n) + [] == Digits(58, n);
    while x > 0
      invariant Digits(58, x) + done == Digits(58, n) && AreDigits(58, done)
      invariant answer == Reversed(ToChars(done))
    {
      var mod := x % RADIX;
      assert Digits(58, x / RADIX) + ([mod] + done) == Digits(58, n) by {
        DigitsStep(58, x);
      }
      ReversedCons(mod, done);
      x := x / RADIX;
      answer := answer + [CharOf(mod)];
      done := [mod] + done;
    }
    assert Digits(58, x) + done == done;
  }

  /** The last loop of B58Encode: swaps the ends towards the middle. */
  method ReverseInPlace(s: seq<octet>) returns (r: seq<octet>)
    ensures r == Reversed(s)
  {
    r := s;
    var n := |s|;
    for i := 0 to n / 2
      invariant |r| == n
      invariant forall k :: 0 <= k < i ==> r[k] == s[n - 1 - k] && r[n - 1 - k] == s[k]
      invariant forall k :: i <= k < n - i ==> r[k] == s[k]
    {
      r := r[i := r[n - 1 - i]][n - 1 - i := r[i]];
    }
  }

  /** The second loop of B58Encode: one '1' for each leading zero byte. */
  method AppendOnes(data: seq<octet>, digits: seq<octet>) returns (answer: seq<octet>)
    ensures answer == digits + Repeat(ONE, LeadingZeros(data))
  {
    answer := digits;
    for i := 0 to |data|
      invariant i <= LeadingZeros(data) && answer == digits + Repeat(ONE, i)
    {
      if data[i] != 0 {
        return;
      }
      answer := answer + [ONE];
    }
  }

  /** B58Encode: digits, then a '1' for each leading zero byte, then the reversal. */
  method B58Encode(data: seq<octet>) returns (answer: seq<octet>)
    ensures answer == Encoded(data)
  {
    ConvertInverse(256, 58, data);
    var digits := EncodeDigits(Val(256, data));
    var padded := AppendOnes(data, digits);
    answer := ReverseInPlace(padded);
    EncodedShape(data, digits, answer);
  }

  lemma EncodedShape(data: seq<octet>, digits: seq<octet>, answer: seq<octet>)
    requires Val(256, data) >= 0 && AreDigits(58, Digits(58, Val(256, data)))
    requires digits == Reversed(ToChars(Digits(58, Val(256, data))))
    requires answer == Reversed(digits + Repeat(ONE, LeadingZeros(data)))
    ensures answer == Encoded(data)
  {
  }

  function Pow(b: nat, n: nat): nat {
    if n == 0 then 1 else Pow(b, n - 1) * b
  }

  /** A digit in front adds its multiple of the next power. */
  lemma {:induction false} ValCons(b: nat, d: int, ds: seq<int>)
    ensures Val(b, [d] + ds) == d * Pow(b, |ds|) + Val(b, ds)
  {
    if ds == [] {
      assert [d] + ds == [d] && [d][..0] == [];
      assert Val(b, [d]) == Val(b, []) * b + d;
    } else {
      var n := |ds| - 1;
      ValCons(b, d, ds[..n]);
      assert ([d] + ds)[..n + 1] == [d] + ds[..n];
      var p, v := Pow(b, n), Val(b, ds[..n]);
      assert (d * p + v) * b == d * (p * b) + v * b;
    }
  }

  /** The first loop of B58Decode: adds up digit times power from the right, and gives up at a foreign
      character. */
  method SumDigits(enc: seq<octet>) returns (ok: bool, answer: int)
    ensures ok <==> AllInAlphabet(enc)
    ensures ok ==> answer == Val(58, ToDigits(enc))
  {
    TablesInvert(0, 0);
    var j := 1;
    answer := 0;
    ghost var ds := ToDigits(enc);
    var i := |enc| - 1;
    assert ds[|enc|..] == [];
    while i >= 0
      invariant -1 <= i < |enc|
      invariant forall k :: i < k < |enc| ==> InAlphabet(enc[k])
      invariant answer == Val(58, ds[i + 1..]) && j == Pow(58, |enc| - 1 - i)
    {
      var tmp := B58[enc[i]];
      if tmp == 255 {
        assert !InAlphabet(enc[i]);
        return false, 0;
      }
      assert ds[i..] == [tmp] + ds[i + 1..];
      ValCons(58, tmp, ds[i + 1..]);
      answer := answer + tmp * j;
      j := j * RADIX;
      i := i - 1;
    }
    assert ds[0..] == ds;
    ok := true;
  }

  /** The second loop of B58Decode. */
  method CountOnes(enc: seq<octet>) returns (n: nat)
    requires AllInAlphabet(enc)
    ensures n == LeadingZeros(ToDigits(enc))
  {
    var ds := ToDigits(enc);
    forall k | 0 <= k < |enc|
      ensures ds[k] == 0 <==> enc[k] == ONE
    {
      assert InAlphabet(enc[k]);
      TablesInvert(0, enc[k]);
      AlphabetRange(ds[k]);
    }
    n := 0;
    while n < |enc| && enc[n] == ONE
      invariant 0 <= n <= |enc| && forall k :: 0 <= k < n ==> ds[k] == 0
    {
      n := n + 1;
    }
  }

  /** B58Decode: one zero byte for each leading '1', then the bytes of the number. */
  method B58Decode(enc: seq<octet>) returns (val: seq<int>)
    ensures val == Decoded(enc)
  {
    var ok, answer := SumDigits(enc);
    if !ok {
      return [];
    }
    CharsAndDigits([], enc);
    ConvertInverse(58, 256, ToDigits(enc));
    var numZeros := CountOnes(enc);
    val := Repeat(0, numZeros) + Digits(256, answer);
  }
}
