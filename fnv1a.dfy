/**
 * lib/fnv1a.ts: the 32-bit FNV-1a hash of a JavaScript string, computed
 * over its UTF-16 code units with arbitrary-precision integers truncated to
 * 32 bits after every multiplication.
 */
module Fnv1a {
  const FNV_PRIME_32: nat := 16777619
  const FNV_OFFSET_32: nat := 2166136261

  /** The modulus of `BigInt.asUintN(32, ·)`. */
  const TWO_TO_32: nat := 0x1_0000_0000

  /** What `charCodeAt` returns: one UTF-16 code unit. */
  type CodeUnit = c: nat | c < 0x1_0000

  function Pow2(n: nat): (r: nat)
    ensures r >= 1
  {
    if n == 0 then 1 else 2 * Pow2(n - 1)
  }

  /** Bitwise exclusive or of two non-negative integers (`^` on `BigInt`), bit by bit from the lowest. */
  function XorNat(a: nat, b: nat): nat
    decreases a + b
  {
    if a == 0 then b
    else if b == 0 then a
    else 2 * XorNat(a / 2, b / 2) + (a % 2 + b % 2) % 2
  }

  /** One iteration of the loop: xor in the code unit, multiply by the prime, keep the low 32 bits. */
  function Step(hash: nat, c: CodeUnit): (r: nat)
    ensures r < TWO_TO_32
  {
    (XorNat(hash, c) * FNV_PRIME_32) % TWO_TO_32
  }

  /** The hash of `s`: the offset basis, then one `Step` per code unit. */
  function Hash(s: seq<CodeUnit>): (r: nat)
    ensures r < TWO_TO_32
  {
    if |s| == 0 then FNV_OFFSET_32 else Step(Hash(s[..|s| - 1]), s[|s| - 1])
  }

  /** The loop run from `hash` over `s`, first code unit first. */
  function HashFrom(hash: nat, s: seq<CodeUnit>): nat
    decreases |s|
  {
    if |s| == 0 then hash else HashFrom(Step(hash, s[0]), s[1..])
  }

  /** `fnv1a(s)`. */
  method Fnv1a(s: seq<CodeUnit>) returns (h: nat)
    ensures h == Hash(s)
    ensures h < TWO_TO_32
  {
    var hash: nat := FNV_OFFSET_32;
    for i := 0 to |s|
      invariant hash == Hash(s[..i])
    {
      hash := XorNat(hash, s[i]);
      hash := (hash * FNV_PRIME_32) % TWO_TO_32;
      assert s[..i + 1][..i] == s[..i];
    }
    assert s[..|s|] == s;
    return hash;
  }

  /** The empty string hashes to the offset basis. */
  lemma HashEmpty(s: seq<CodeUnit>)
    requires |s| == 0
    ensures Hash(s) == 2166136261
  {
  }

  /** Append law: hashing one more code unit is one more `Step`. */
  lemma HashAppend(s: seq<CodeUnit>, c: CodeUnit)
    ensures Hash(s + [c]) == Step(Hash(s), c)
  {
    assert (s + [c])[..|s|] == s;
  }

  /** Hashing a concatenation continues the loop from the hash of the first part. */
  lemma {:induction false} HashConcat(s: seq<CodeUnit>, t: seq<CodeUnit>)
    ensures Hash(s + t) == HashFrom(Hash(s), t)
    decreases |t|
  {
    if |t| == 0 {
      assert s + t == s;
    } else {
      HashAppend(s, t[0]);
      assert s + t == (s + [t[0]]) + t[1..];
      HashConcat(s + [t[0]], t[1..]);
    }
  }

  /** The hash is the loop run from the offset basis over the whole string, in order. */
  lemma HashInOrder(s: seq<CodeUnit>)
    ensures Hash(s) == HashFrom(FNV_OFFSET_32, s)
  {
    HashConcat([], s);
    assert [] + s == s;
  }

  lemma {:induction false} Pow2Half(n: nat, a: nat)
    requires n >= 1 && a < Pow2(n)
    ensures a / 2 < Pow2(n - 1)
  {
  }

  /** The exclusive or of two `n`-bit numbers is an `n`-bit number. */
  lemma {:induction false} XorBound(a: nat, b: nat, n: nat)
    requires a < Pow2(n) && b < Pow2(n)
    ensures XorNat(a, b) < Pow2(n)
    decreases n
  {
    if a != 0 && b != 0 {
      Pow2Half(n, a);
      Pow2Half(n, b);
      XorBound(a / 2, b / 2, n - 1);
    }
  }

  lemma {:induction false} Pow2Mono(m: nat, n: nat)
    requires m <= n
    ensures Pow2(m) <= Pow2(n)
    decreases n - m
  {
    if m < n {
      Pow2Mono(m + 1, n);
    }
  }

  lemma Pow2Values()
    ensures Pow2(16) == 0x1_0000
    ensures Pow2(32) == TWO_TO_32
  {
    assert Pow2(8) == 256 by {
      assert Pow2(4) == 16;
    }
    assert Pow2(16) == Pow2(8) * Pow2(8) by {
      Pow2Add(8, 8);
    }
    assert Pow2(32) == Pow2(16) * Pow2(16) by {
      Pow2Add(16, 16);
    }
  }

  lemma {:induction false} Pow2Add(m: nat, n: nat)
    ensures Pow2(m + n) == Pow2(m) * Pow2(n)
    decreases n
  {
    if n > 0 {
      Pow2Add(m, n - 1);
    }
  }

  /**
   * Xoring a code unit into a hash below 2^32 stays below 2^32, so only the
   * multiplication needs truncating.
   */
  lemma XorFits(hash: nat, c: CodeUnit)
    requires hash < TWO_TO_32
    ensures XorNat(hash, c) < TWO_TO_32
  {
    Pow2Values();
    Pow2Mono(16, 32);
    XorBound(hash, c, 32);
  }

  /** Bit `i` of `a`, counting from the lowest. */
  function Bit(a: nat, i: nat): (r: nat)
    ensures r < 2
  {
    if i == 0 then a % 2 else Bit(a / 2, i - 1)
  }

  lemma {:induction false} BitOfZero(i: nat)
    ensures Bit(0, i) == 0
  {
    if i > 0 {
      BitOfZero(i - 1);
    }
  }

  /** `XorNat` is exclusive or: each bit of the result is the sum of the operands' bits modulo 2. */
  lemma {:induction false} XorBits(a: nat, b: nat, i: nat)
    ensures Bit(XorNat(a, b), i) == (Bit(a, i) + Bit(b, i)) % 2
    decreases i
  {
    if a == 0 {
      BitOfZero(i);
    } else if b == 0 {
      BitOfZero(i);
    } else if i > 0 {
      var x := XorNat(a / 2, b / 2);
      assert (2 * x + (a % 2 + b % 2) % 2) / 2 == x;
      XorBits(a / 2, b / 2, i - 1);
    }
  }

  /** The published FNV-1a 32-bit reference value: the string "a" hashes to 0xe40c292c. */
  lemma HashOfA(s: seq<CodeUnit>)
    requires s == [97]
    ensures Hash(s) == 0xe40c292c
  {
    HashAppend([], 97);
    assert [] + [97] == s;
    StepOfA();
  }

  lemma StepOfA()
    ensures Step(FNV_OFFSET_32, 97) == 0xe40c292c
  {
    XorOfA();
    var product := 2166136228 * FNV_PRIME_32;
    assert product == 36342608335481132;
    assert product % TWO_TO_32 == 0xe40c292c;
  }

  lemma XorOfA()
    ensures XorNat(FNV_OFFSET_32, 97) == 2166136228
  {
    assert XorNat(33845879, 1) == 33845878;
    assert XorNat(67691758, 3) == 67691757;
    assert XorNat(135383516, 6) == 135383514;
    assert XorNat(270767032, 12) == 270767028;
    assert XorNat(541534065, 24) == 541534057;
    assert XorNat(1083068130, 48) == 1083068114;
    assert XorNat(2166136261, 97) == 2166136228;
  }
}
