/**
 The password hash: FNV-1a (draft-eastlake-fnv, section 2) on 64-bit values, started from the offset
 basis XOR-ed with each of four seeds, and written as 64 hex digits. Arithmetic is on natural numbers
 with the wrap-around of uint64 written out.
 */
module Fnv {

  type byte = x: int | 0 <= x < 256

  const M := 0x1_0000_0000_0000_0000
  type uint64 = x: int | 0 <= x < M

  const OFFSET: uint64 := 14695981039346656037
  const PRIME: uint64 := 1099511628211
  const SEEDS: seq<uint64> := [0x9e3779b97f4a7c15, 0xbf58476d1ce4e5b9, 0x94d049bb133111eb, 0xbf8ea6f9a9a5a6b3]
  const HEX_CHARS := "0123456789abcdef"

  /** The inverse of PRIME modulo 2^64. */
  const INVERSE: uint64 := 14886173955864302971

  function Pow2(n: nat): (p: nat)
    ensures 0 < p
  {
    if n == 0 then 1 else 2 * Pow2(n - 1)
  }

  lemma {:induction false} Pow2Sum(m: nat, n: nat)
    ensures Pow2(m + n) == Pow2(m) * Pow2(n)
  {
    if n != 0 {
      Pow2Sum(m, n - 1);
      assert Pow2(m + n) == 2 * (Pow2(m) * Pow2(n - 1)) == Pow2(m) * (2 * Pow2(n - 1));
    }
  }

  lemma Pow2Of64()
    ensures Pow2(64) == M && Pow2(8) == 256 && Pow2(4) == 16
  {
    assert Pow2(4) == 16 by { assert Pow2(2) == 4; }
    Pow2Sum(4, 4);
    Pow2Sum(8, 8);
    Pow2Sum(16, 16);
    Pow2Sum(32, 32);
  }

  /* ---------- exclusive or on natural numbers, bit by bit ---------- */

  function Xor(a: nat, b: nat): nat
    decreases a + b
  {
    if a == 0 && b == 0 then 0
    else (if a % 2 == b % 2 then 0 else 1) + 2 * Xor(a / 2, b / 2)
  }

  lemma {:induction false} XorTwice(a: nat, b: nat)
    ensures Xor(Xor(a, b), b) == a
    decreases a + b
  {
    if a != 0 || b != 0 { XorTwice(a / 2, b / 2); }
  }

  lemma {:induction false} XorCommutes(a: nat, b: nat)
    ensures Xor(a, b) == Xor(b, a)
    decreases a + b
  {
    if a != 0 || b != 0 { XorCommutes(a / 2, b / 2); }
  }

  lemma {:induction false} XorFits(a: nat, b: nat, n: nat)
    requires a < Pow2(n) && b < Pow2(n)
    ensures Xor(a, b) < Pow2(n)
    decreases n
  {
    if n != 0 { XorFits(a / 2, b / 2, n - 1); }
  }

  lemma XorIs64Bit(a: uint64, b: uint64)
    ensures Xor(a, b) < M
  {
    Pow2Of64();
    XorFits(a, b, 64);
  }

  /* ---------- one byte ---------- */

  function Step(h: uint64, b: byte): uint64 {
    Xor(h, b) * PRIME % M
  }

  function Unstep(h: uint64, b: byte): (r: uint64) {
    XorIs64Bit(h * INVERSE % M, b);
    Xor(h * INVERSE % M, b)
  }

  lemma ModIsUnique(v: int, k: int, r: int)
    requires v == k * M + r && 0 <= r < M
    ensures v % M == r
  {
  }

  lemma TimesPrimeTimesInverse(x: uint64)
    ensures (x * PRIME % M) * INVERSE % M == x
    ensures (x * INVERSE % M) * PRIME % M == x
  {
    var k := PRIME * INVERSE / M;
    assert PRIME * INVERSE == k * M + 1;
    var q := x * PRIME / M;
    ModIsUnique((x * PRIME % M) * INVERSE, x * k - q * INVERSE, x);
    var p := x * INVERSE / M;
    ModIsUnique((x * INVERSE % M) * PRIME, x * k - p * PRIME, x);
  }

  /** For a fixed byte the step is a bijection on 64-bit states. */
  lemma StepIsBijection(h: uint64, b: byte)
    ensures Unstep(Step(h, b), b) == h
    ensures Step(Unstep(h, b), b) == h
  {
    XorIs64Bit(h, b);
    TimesPrimeTimesInverse(Xor(h, b));
    XorTwice(h, b);
    TimesPrimeTimesInverse(h);
    XorTwice(h * INVERSE % M, b);
  }

  /** For a fixed state different bytes give different states. */
  lemma StepSeparatesBytes(h: uint64, b: byte, c: byte)
    requires Step(h, b) == Step(h, c)
    ensures b == c
  {
    XorIs64Bit(h, b);
    XorIs64Bit(h, c);
    TimesPrimeTimesInverse(Xor(h, b));
    TimesPrimeTimesInverse(Xor(h, c));
    XorCommutes(h, b);
    XorCommutes(h, c);
    XorTwice(b, h);
    XorTwice(c, h);
  }

  /* ---------- a whole input ---------- */

  function Absorb(input: seq<byte>, h: uint64): uint64 {
    if input == [] then h else Step(Absorb(input[..|input| - 1], h), input[|input| - 1])
  }

  function Basis(seed: uint64): uint64 {
    XorIs64Bit(OFFSET, seed);
    Xor(OFFSET, seed)
  }

  function Block(input: seq<byte>, i: nat): uint64
    requires i < 4
  {
    Absorb(input, Basis(SEEDS[i]))
  }

  method Fnv1a(input: seq<byte>, seed: uint64) returns (h: uint64)
    ensures h == Absorb(input, Basis(seed))
  {
    h := Basis(seed);
    for i := 0 to |input|
      invariant h == Absorb(input[..i], Basis(seed))
    {
      assert input[..i + 1][..i] == input[..i];
      h := Xor(h, input[i]) * PRIME % M;
    }
    assert input[..|input|] == input;
  }

  lemma {:induction false} AbsorbIsInjective(input: seq<byte>, h: uint64, g: uint64)
    requires Absorb(input, h) == Absorb(input, g)
    ensures h == g
  {
    if input != [] {
      var init, last := input[..|input| - 1], input[|input| - 1];
      StepIsBijection(Absorb(init, h), last);
      StepIsBijection(Absorb(init, g), last);
      AbsorbIsInjective(init, h, g);
    }
  }

  lemma {:induction false} AbsorbConcat(input: seq<byte>, more: seq<byte>, h: uint64)
    ensures Absorb(input + more, h) == Absorb(more, Absorb(input, h))
  {
    if more == [] {
      assert input + more == input;
    } else {
      assert (input + more)[..|input + more| - 1] == input + more[..|more| - 1];
      AbsorbConcat(input, more[..|more| - 1], h);
    }
  }

  /** Inputs of the same length that differ in one byte end in different states. */
  lemma OneByteMatters(pre: seq<byte>, b: byte, c: byte, post: seq<byte>, h: uint64)
    requires b != c
    ensures Absorb(pre + [b] + post, h) != Absorb(pre + [c] + post, h)
  {
    var s, t := Absorb(pre + [b], h), Absorb(pre + [c], h);
    assert (pre + [b])[..|pre|] == pre && (pre + [c])[..|pre|] == pre;
    AbsorbConcat(pre + [b], post, h);
    AbsorbConcat(pre + [c], post, h);
    if s == t { StepSeparatesBytes(Absorb(pre, h), b, c); }
    if Absorb(post, s) == Absorb(post, t) { AbsorbIsInjective(post, s, t); }
  }

  /** The four 64-bit values of any hash are pairwise distinct. */
  lemma BlocksDiffer(input: seq<byte>, i: nat, j: nat)
    requires i < 4 && j < 4 && i != j
    ensures Block(input, i) != Block(input, j)
  {
    assert SEEDS[i] != SEEDS[j];
    XorCommutes(OFFSET, SEEDS[i]);
    XorCommutes(OFFSET, SEEDS[j]);
    XorTwice(SEEDS[i], OFFSET);
    XorTwice(SEEDS[j], OFFSET);
    if Block(input, i) == Block(input, j) { AbsorbIsInjective(input, Basis(SEEDS[i]), Basis(SEEDS[j])); }
  }

  /* ---------- known values ---------- */

  lemma {:induction false} XorZero(a: nat)
    ensures Xor(a, 0) == a
    decreases a
  {
    if a != 0 { XorZero(a / 2); }
  }

  /** A number below 2^n changes the last n bits only. */
  lemma {:induction false} XorLow(high: nat, low: nat, b: nat, n: nat)
    requires low < Pow2(n) && b < Pow2(n)
    ensures Xor(high * Pow2(n) + low, b) == high * Pow2(n) + Xor(low, b)
    decreases n
  {
    if n == 0 {
      XorZero(high);
    } else {
      var t := high * Pow2(n - 1);
      assert high * Pow2(n) == 2 * t;
      XorLow(high, low / 2, b / 2, n - 1);
      XorUnfold(2 * t + low, b);
      XorUnfold(low, b);
      assert (2 * t + low) / 2 == t + low / 2 && (2 * t + low) % 2 == low % 2;
    }
  }

  lemma XorUnfold(a: nat, b: nat)
    ensures Xor(a, b) == (if a % 2 == b % 2 then 0 else 1) + 2 * Xor(a / 2, b / 2)
  {
  }

  lemma XorOneMoreBit(a: nat, b: nat, rest: nat)
    requires Xor(a / 2, b / 2) == rest
    ensures Xor(a, b) == (if a % 2 == b % 2 then 0 else 1) + 2 * rest
  {
  }

  lemma HighBitsXorA(a: nat, b: nat)
    requires a == 9 && b == 24
    ensures Xor(a, b) == 17
  {
    XorOneMoreBit(a / 8, b / 8, 1);
    XorOneMoreBit(a / 4, b / 4, 2);
    XorOneMoreBit(a / 2, b / 2, 4);
    XorOneMoreBit(a, b, 8);
  }

  lemma LastByteXorA(last: byte, b: byte)
    requires last == 0x25 && b == 0x61
    ensures Xor(last, b) == 0x44
  {
    HighBitsXorA(last / 4, b / 4);
    XorOneMoreBit(last / 2, b / 2, 17);
    XorOneMoreBit(last, b, 34);
  }

  /** The exclusive or of a state with a byte, by the last byte of the state and the bits above it. */
  lemma XorOn(h: uint64, b: byte, high: nat, last: byte, low: nat)
    requires h == high * 256 + last && Xor(last, b) == low
    ensures Xor(h, b) == high * 256 + low
  {
    Pow2Of64();
    XorLow(high, last, b, 8);
  }

  lemma StepTo(h: uint64, b: byte, x: nat, next: uint64)
    requires Xor(h, b) == x && x * 1099511628211 % 0x1_0000_0000_0000_0000 == next
    ensures Step(h, b) == next
  {
  }

  lemma OffsetXorA(h: uint64, b: byte)
    requires h == 0xcbf29ce484222325 && b == 0x61
    ensures Xor(h, b) == 0xcbf29ce484222344
  {
    LastByteXorA(0x25, b);
    XorOn(h, b, 0xcbf29ce4842223, 0x25, 0x44);
  }

  lemma BasisOfZero(seed: uint64)
    requires seed == 0
    ensures Basis(seed) == 0xcbf29ce484222325
  {
    XorZero(OFFSET);
  }

  lemma AbsorbA(input: seq<byte>, h: uint64)
    requires input == [0x61] && Xor(h, input[0]) == 0xcbf29ce484222344
    ensures Absorb(input, h) == 0xaf63dc4c8601ec8c
  {
    assert input[..0] == [];
    StepTo(h, input[0], 0xcbf29ce484222344, 0xaf63dc4c8601ec8c);
  }

  /** With seed 0 this is FNV-1a: what it makes of "" and "a" (draft-eastlake-fnv, appendix C). */
  lemma KnownValues(input: seq<byte>, seed: uint64, h: uint64)
    requires seed == 0 && h == Basis(seed)
    ensures input == [] ==> Absorb(input, h) == 0xcbf29ce484222325
    ensures input == [0x61] ==> Absorb(input, h) == 0xaf63dc4c8601ec8c
  {
    BasisOfZero(seed);
    if input == [0x61] {
      OffsetXorA(h, input[0]);
      AbsorbA(input, h);
    }
  }

  /** Another seed is XOR-ed into the offset basis: the four of them can be taken out of the hash of no bytes. */
  lemma SeedsOfEmptyHash(i: nat)
    requires i < 4
    ensures Xor(Block([], i), 0xcbf29ce484222325) ==
            if i == 0 then 0x9e3779b97f4a7c15 else if i == 1 then 0xbf58476d1ce4e5b9
            else if i == 2 then 0x94d049bb133111eb else 0xbf8ea6f9a9a5a6b3
  {
    XorCommutes(OFFSET, SEEDS[i]);
    XorTwice(SEEDS[i], OFFSET);
  }

  /* ---------- hex ---------- */

  /** The last n hex digits of v, most significant first. */
  function Hex(v: nat, n: nat): (s: string)
    ensures |s| == n
  {
    if n == 0 then "" else Hex(v / 16, n - 1) + [HEX_CHARS[v % 16]]
  }

  function DigitValue(c: char): int {
    if '0' <= c <= '9' then c as int - '0' as int
    else if 'a' <= c <= 'f' then c as int - 'a' as int + 10
    else -1
  }

  function Unhex(s: string): int {
    if s == "" then 0 else 16 * Unhex(s[..|s| - 1]) + DigitValue(s[|s| - 1])
  }

  lemma HexDigitValue(d: nat)
    requires d < 16
    ensures DigitValue(HEX_CHARS[d]) == d
  {
  }

  lemma {:induction false} UnhexHex(v: nat, n: nat)
    requires v < Pow2(4 * n)
    ensures Unhex(Hex(v, n)) == v
    ensures forall k :: 0 <= k < n ==> Hex(v, n)[k] in HEX_CHARS
  {
    if n != 0 {
      Pow2Sum(4 * (n - 1), 4);
      Pow2Of64();
      assert v / 16 < Pow2(4 * (n - 1));
      UnhexHex(v / 16, n - 1);
      HexDigitValue(v % 16);
      assert Hex(v, n)[..n - 1] == Hex(v / 16, n - 1);
    }
  }

  /** v >> n */
  function Shr(v: nat, n: nat): nat {
    if n == 0 then v else Shr(v, n - 1) / 2
  }

  lemma ShrFour(v: nat, n: nat)
    ensures Shr(v, n + 4) == Shr(v, n) / 16
  {
    assert Shr(v, n + 2) == Shr(v, n) / 4;
    assert Shr(v, n + 4) == Shr(v, n + 2) / 4;
  }

  /** The digit that the loop takes at some shift extends the digits taken before. */
  lemma NextDigit(v: nat, k: nat)
    requires k < 16
    ensures Hex(Shr(v, 60 - 4 * k), k + 1) == Hex(Shr(v, 64 - 4 * k), k) + [HEX_CHARS[Shr(v, 60 - 4 * k) % 16]]
  {
    ShrFour(v, 60 - 4 * k);
  }

  /** The inner loop of HashHex: sixteen digits, from shift 60 down to shift 0. */
  method WriteHex(v: uint64) returns (s: string)
    ensures s == Hex(v, 16)
  {
    s := "";
    var shift := 60;
    ghost var k := 0;
    while true
      invariant 0 <= k < 16 && shift == 60 - 4 * k
      invariant s == Hex(Shr(v, 64 - 4 * k), k)
      decreases shift
    {
      NextDigit(v, k);
      s := s + [HEX_CHARS[Shr(v, shift) % 16]];
      if shift == 0 { break; }
      shift := shift - 4;
      k := k + 1;
    }
  }

  /** The first n blocks of a hash. */
  function Blocks(input: seq<byte>, n: nat): (s: string)
    requires n <= 4
    ensures |s| == 16 * n
  {
    if n == 0 then "" else Blocks(input, n - 1) + Hex(Block(input, n - 1), 16)
  }

  function HashHexOf(input: seq<byte>): (s: string)
    ensures |s| == 64
  {
    Blocks(input, 4)
  }

  lemma OneMoreBlock(input: seq<byte>, i: nat, digits: string)
    requires i < 4 && digits == Hex(Block(input, i), 16)
    ensures Blocks(input, i + 1) == Blocks(input, i) + digits
  {
  }

  method HexOfSeed(input: seq<byte>, i: nat) returns (digits: string)
    requires i < |SEEDS|
    ensures digits == Hex(Block(input, i), 16)
  {
    var v := Fnv1a(input, SEEDS[i]);
    digits := WriteHex(v);
  }

  method HashHex(input: seq<byte>) returns (hash: string)
    ensures hash == HashHexOf(input)
  {
    hash := "";
    assert |SEEDS| == 4;
    for i := 0 to |SEEDS|
      invariant hash == Blocks(input, i)
    {
      var digits := HexOfSeed(input, i);
      OneMoreBlock(input, i, digits);
      hash := hash + digits;
    }
  }

  method HashWithSalt(input: seq<byte>, salt: seq<byte>) returns (hash: string)
    ensures hash == HashHexOf(salt + input)
  {
    hash := HashHex(salt + input);
  }

  method VerifyHash(input: seq<byte>, hash: string) returns (ok: bool)
    ensures ok <==> hash == HashHexOf(input)
  {
    var h := HashHex(input);
    ok := h == hash;
  }

  /* ---------- what the digits tell ---------- */

  lemma SliceOfConcat(whole: string, a: string, b: string, at: nat)
    requires whole == a + b && |b| == 16
    ensures at == |a| ==> whole[at..at + 16] == b
    ensures at + 16 <= |a| ==> whole[at..at + 16] == a[at..at + 16]
  {
  }

  lemma LastGroup(input: seq<byte>, n: nat, at: nat)
    requires n < 4 && at == 16 * n
    ensures Blocks(input, n + 1)[at..at + 16] == Hex(Block(input, n), 16)
  {
    SliceOfConcat(Blocks(input, n + 1), Blocks(input, n), Hex(Block(input, n), 16), at);
  }

  lemma EarlierGroup(input: seq<byte>, n: nat, at: nat)
    requires n < 4 && at + 16 <= 16 * n
    ensures Blocks(input, n + 1)[at..at + 16] == Blocks(input, n)[at..at + 16]
  {
    SliceOfConcat(Blocks(input, n + 1), Blocks(input, n), Hex(Block(input, n), 16), at);
  }

  lemma {:induction false} BlocksSlice(input: seq<byte>, n: nat, i: nat, at: nat)
    requires i < n <= 4 && at == 16 * i
    ensures Blocks(input, n)[at..at + 16] == Hex(Block(input, i), 16)
  {
    if i == n - 1 {
      LastGroup(input, i, at);
    } else {
      BlocksSlice(input, n - 1, i, at);
      EarlierGroup(input, n - 1, at);
    }
  }

  /** The hex rendering can be read back: each group of 16 digits is one of the four values. */
  lemma HashIsReadable(input: seq<byte>, i: nat)
    requires i < 4
    ensures var group := HashHexOf(input)[16 * i..16 * i + 16];
            Unhex(group) == Block(input, i) && forall k :: 0 <= k < 16 ==> group[k] in HEX_CHARS
  {
    BlocksSlice(input, 4, i, 16 * i);
    Pow2Of64();
    UnhexHex(Block(input, i), 16);
  }

  /** Inputs that differ in exactly one byte differ in every one of the four groups of digits. */
  lemma OneByteChangesEveryGroup(pre: seq<byte>, b: byte, c: byte, post: seq<byte>, i: nat)
    requires b != c && i < 4
    ensures HashHexOf(pre + [b] + post)[16 * i..16 * i + 16] != HashHexOf(pre + [c] + post)[16 * i..16 * i + 16]
  {
    OneByteMatters(pre, b, c, post, Basis(SEEDS[i]));
    HashIsReadable(pre + [b] + post, i);
    HashIsReadable(pre + [c] + post, i);
  }

  /** The four groups of a hash are pairwise different. */
  lemma GroupsDiffer(input: seq<byte>, i: nat, j: nat)
    requires i < 4 && j < 4 && i != j
    ensures HashHexOf(input)[16 * i..16 * i + 16] != HashHexOf(input)[16 * j..16 * j + 16]
  {
    BlocksDiffer(input, i, j);
    HashIsReadable(input, i);
    HashIsReadable(input, j);
  }
}
