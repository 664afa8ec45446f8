// Line anchors: FNV-1a over 32 bits, printed as eight hex digits (pkgs/extensions/tool-edit/src/lib.rs).
module Anchors {
  import opened Decimal

  type Byte = b: int | 0 <= b < 256

  const WORD: nat := 0x1_0000_0000
  const FNV_OFFSET: nat := 0x811c_9dc5
  const FNV_PRIME: nat := 0x0100_0193

  /** FNV_PRIME * FNV_PRIME_INVERSE == 1 modulo 2^32. */
  const FNV_PRIME_INVERSE: nat := 0x359c_449b

  function Pow2(n: nat): (p: nat)
    ensures p >= 1
  {
    if n == 0 then 1 else 2 * Pow2(n - 1)
  }

  /** Exclusive or of the lowest `n` bits. */
  function Xor(a: nat, b: nat, n: nat): (x: nat)
    ensures x < Pow2(n)
  {
    if n == 0 then 0 else 2 * Xor(a / 2, b / 2, n - 1) + (if a % 2 == b % 2 then 0 else 1)
  }

  lemma {:induction false} XorInjective(a: nat, b: nat, c: nat, d: nat, n: nat)
    requires a < Pow2(n) && b < Pow2(n) && c < Pow2(n) && d < Pow2(n)
    requires Xor(a, b, n) == Xor(c, d, n)
    ensures a == c <==> b == d
  {
    if n > 0 {
      XorInjective(a / 2, b / 2, c / 2, d / 2, n - 1);
    }
  }

  /** Bit `i` of it is set exactly if the two numbers differ in that bit. */
  lemma {:induction false} XorBits(a: nat, b: nat, n: nat, i: nat)
    requires i < n
    ensures Xor(a, b, n) / Pow2(i) % 2 == 1 <==> a / Pow2(i) % 2 != b / Pow2(i) % 2
  {
    var x := Xor(a, b, n);
    assert x / 2 == Xor(a / 2, b / 2, n - 1);
    if i > 0 {
      XorBits(a / 2, b / 2, n - 1, i - 1);
      HalveFirst(x, Pow2(i - 1));
      HalveFirst(a, Pow2(i - 1));
      HalveFirst(b, Pow2(i - 1));
    }
  }

  lemma {:induction false} HalveFirst(x: nat, p: nat)
    requires p > 0
    ensures x / 2 / p == x / (2 * p)
  {
    var q, r := x / (2 * p), x % (2 * p);
    assert x == 2 * (p * q) + r;
    assert x / 2 == p * q + r / 2;
    assert r / 2 < p;
    QuotientIs(x / 2, p, q, r / 2);
  }

  lemma {:induction false} MultiplesApart(p: nat, t: nat, q: nat)
    requires t > q
    ensures p * t >= p * q + p
  {
    var before := t - 1;
    assert p * (before + 1) == p * before + p;
    if before > q {
      MultiplesApart(p, before, q);
    }
  }

  lemma {:induction false} QuotientIs(x: nat, p: nat, q: nat, r: nat)
    requires x == p * q + r && r < p
    ensures x / p == q
  {
    var t := x / p;
    assert x == p * t + x % p;
    if t > q {
      MultiplesApart(p, t, q);
    } else if t < q {
      MultiplesApart(p, q, t);
    }
  }

  /** One FNV-1a step: xor the byte into the state, then a wrapping multiplication. */
  function Step(hash: nat, byte: Byte): (next: nat)
    requires hash < WORD
    ensures next < WORD
  {
    ((hash / 256) * 256 + Xor(hash % 256, byte, 8)) * FNV_PRIME % WORD
  }

  function FnvFrom(hash: nat, bytes: seq<Byte>): (h: nat)
    requires hash < WORD
    ensures h < WORD
    decreases |bytes|
  {
    if bytes == [] then hash else FnvFrom(Step(hash, bytes[0]), bytes[1..])
  }

  function Fnv1a32(bytes: seq<Byte>): (h: nat)
    ensures h < WORD
  {
    FnvFrom(FNV_OFFSET, bytes)
  }

  /** Multiplying by the prime, modulo 2^32, loses nothing. */
  lemma {:induction false} MultiplicationInjective(x: nat, y: nat)
    requires x < WORD && y < WORD
    requires x * FNV_PRIME % WORD == y * FNV_PRIME % WORD
    ensures x == y
  {
    var p, q := x * FNV_PRIME / WORD, y * FNV_PRIME / WORD;
    assert (x - y) * FNV_PRIME == (p - q) * WORD;
    assert (x - y) * (FNV_PRIME * FNV_PRIME_INVERSE) == (p - q) * FNV_PRIME_INVERSE * WORD;
    var k := FNV_PRIME * FNV_PRIME_INVERSE / WORD;
    assert x - y == WORD * ((p - q) * FNV_PRIME_INVERSE - k * (x - y));
  }

  /** Equal steps come from states with equal high parts and equal low parts after the exclusive or. */
  lemma {:induction false} StepTakesApart(hash: nat, other: nat, a: Byte, b: Byte)
    requires hash < WORD && other < WORD && Step(hash, a) == Step(other, b)
    ensures hash / 256 == other / 256
    ensures Xor(hash % 256, a, 8) == Xor(other % 256, b, 8)
  {
    assert Pow2(8) == 256;
    var low, otherLow := Xor(hash % 256, a, 8), Xor(other % 256, b, 8);
    Recomposed(hash, low);
    Recomposed(other, otherLow);
    MultiplicationInjective((hash / 256) * 256 + low, (other / 256) * 256 + otherLow);
  }

  /** A state with its low byte replaced is a state that has the high part and the new low byte. */
  lemma {:induction false} Recomposed(hash: nat, low: nat)
    requires hash < WORD && low < 256
    ensures var x := (hash / 256) * 256 + low;
            x < WORD && x / 256 == hash / 256 && x % 256 == low
  {
  }

  /** Each step is a bijection of states for a fixed byte, and of bytes for a fixed state. */
  lemma {:induction false} StepInjective(hash: nat, other: nat, a: Byte, b: Byte)
    requires hash < WORD && other < WORD
    ensures Step(hash, a) == Step(other, a) ==> hash == other
    ensures Step(hash, a) == Step(hash, b) ==> a == b
  {
    assert Pow2(8) == 256;
    if Step(hash, a) == Step(other, a) {
      StepTakesApart(hash, other, a, a);
      XorInjective(hash % 256, a, other % 256, a, 8);
    }
    if Step(hash, a) == Step(hash, b) {
      StepTakesApart(hash, hash, a, b);
      XorInjective(hash % 256, a, hash % 256, b, 8);
    }
  }

  lemma {:induction false} FnvFromInjective(hash: nat, other: nat, bytes: seq<Byte>)
    requires hash < WORD && other < WORD
    requires FnvFrom(hash, bytes) == FnvFrom(other, bytes)
    ensures hash == other
    decreases |bytes|
  {
    if bytes != [] {
      FnvFromInjective(Step(hash, bytes[0]), Step(other, bytes[0]), bytes[1..]);
      StepInjective(hash, other, bytes[0], bytes[0]);
    }
  }

  lemma {:induction false} FnvFromAppend(hash: nat, a: seq<Byte>, b: seq<Byte>)
    requires hash < WORD
    ensures FnvFrom(hash, a + b) == FnvFrom(FnvFrom(hash, a), b)
    decreases |a|
  {
    if a == [] {
      assert a + b == b;
    } else {
      assert (a + b)[1..] == a[1..] + b;
      FnvFromAppend(Step(hash, a[0]), a[1..], b);
    }
  }

  /** Two states stay apart through the same bytes. */
  lemma {:induction false} StaysApart(hash: nat, a: Byte, b: Byte, bytes: seq<Byte>)
    requires hash < WORD && a != b
    ensures FnvFrom(hash, [a] + bytes) != FnvFrom(hash, [b] + bytes)
  {
    assert ([a] + bytes)[1..] == bytes && ([b] + bytes)[1..] == bytes;
    if FnvFrom(hash, [a] + bytes) == FnvFrom(hash, [b] + bytes) {
      FnvFromInjective(Step(hash, a), Step(hash, b), bytes);
      StepInjective(hash, hash, a, b);
    }
  }

  // ----- hex digits -----

  function HexChar(d: nat): char
    requires d < 16
  {
    "0123456789abcdef"[d]
  }

  lemma {:induction false} HexCharInjective(d: nat, e: nat)
    requires d < 16 && e < 16 && HexChar(d) == HexChar(e)
    ensures d == e
  {
  }

  function Pow16(n: nat): (p: nat)
    ensures p >= 1
  {
    if n == 0 then 1 else 16 * Pow16(n - 1)
  }

  /** The lowest `n` hex digits of `h`, most significant first. */
  function HexDigits(h: nat, n: nat): (s: string)
    ensures |s| == n
  {
    if n == 0 then "" else HexDigits(h / 16, n - 1) + [HexChar(h % 16)]
  }

  lemma {:induction false} HexDigitsInjective(h: nat, g: nat, n: nat)
    requires h < Pow16(n) && g < Pow16(n)
    requires HexDigits(h, n) == HexDigits(g, n)
    ensures h == g
  {
    if n > 0 {
      var a, b := HexDigits(h, n), HexDigits(g, n);
      assert a[..n - 1] == HexDigits(h / 16, n - 1) && b[..n - 1] == HexDigits(g / 16, n - 1);
      assert a[n - 1] == HexChar(h % 16) && b[n - 1] == HexChar(g % 16);
      HexDigitsInjective(h / 16, g / 16, n - 1);
      HexCharInjective(h % 16, g % 16);
    }
  }

  function HexValue(s: string): nat {
    if s == "" then 0
    else
      var c := s[|s| - 1];
      16 * HexValue(s[..|s| - 1])
      + if '0' <= c <= '9' then c as int - '0' as int else if 'a' <= c <= 'f' then c as int - 'a' as int + 10 else 0
  }

  /** The digits spell the lowest part of the number. */
  lemma {:induction false} HexDigitsSpell(h: nat, n: nat)
    ensures HexValue(HexDigits(h, n)) == h % Pow16(n)
  {
    if n > 0 {
      var s := HexDigits(h, n);
      assert s[..n - 1] == HexDigits(h / 16, n - 1) && s[n - 1] == HexChar(h % 16);
      HexDigitsSpell(h / 16, n - 1);
      SixteenthsFirst(h, Pow16(n - 1));
    }
  }

  lemma {:induction false} SixteenthsFirst(h: nat, p: nat)
    requires p > 0
    ensures 16 * (h / 16 % p) + h % 16 == h % (16 * p)
  {
    var q, r := h / 16 / p, h / 16 % p;
    assert h / 16 == p * q + r;
    assert h == (16 * p) * q + (16 * r + h % 16);
    QuotientIs(h, 16 * p, q, 16 * r + h % 16);
  }

  lemma {:induction false} XorWithLetter()
    ensures Xor(0xc5, 97, 8) == 0xa4
  {
    assert Xor(3, 1, 2) == 2;
    assert Xor(12, 6, 4) == 10;
    assert Xor(49, 24, 6) == 41;
  }

  lemma {:induction false} StepWithLetter()
    ensures Step(FNV_OFFSET, 97) == 0xe40c_292c
  {
    XorWithLetter();
    assert FNV_OFFSET / 256 == 0x81_1c9d && FNV_OFFSET % 256 == 0xc5;
    assert 0x811c_9da4 * FNV_PRIME == 8461672 * WORD + 0xe40c_292c;
  }

  /** The published test vectors of FNV-1a for the empty text and for the letter a. */
  lemma {:induction false} KnownHashes()
    ensures Fnv1a32([]) == 0x811c_9dc5 && Fnv1a32([97]) == 0xe40c_292c
  {
    StepWithLetter();
    var letter: seq<Byte> := [97];
    assert letter[1..] == [];
    assert FnvFrom(0xe40c_292c, []) == 0xe40c_292c;
  }

  lemma {:induction false} SameDigitsSameHash(h: nat, g: nat)
    requires h < WORD && g < WORD && HexDigits(h, 8) == HexDigits(g, 8)
    ensures h == g
  {
    assert Pow16(8) == WORD;
    HexDigitsInjective(h, g, 8);
  }

  // ----- anchors -----

  function AsciiBytes(s: string): seq<Byte>
    requires AllDigits(s)
  {
    seq(|s|, i requires 0 <= i < |s| => s[i] as int)
  }

  /** Hashes the one-based line number, a zero byte and the line's bytes. */
  function Anchor(lineno: nat, text: seq<Byte>): string {
    HexDigits(Fnv1a32(AsciiBytes(Digits(lineno)) + [0] + text), 8)
  }

  /** Two lines at one position share an anchor exactly when their texts leave the same hash state. */
  lemma {:induction false} AnchorByHash(lineno: nat, a: seq<Byte>, b: seq<Byte>)
    ensures var state := Fnv1a32(AsciiBytes(Digits(lineno)) + [0]);
            Anchor(lineno, a) == Anchor(lineno, b) <==> FnvFrom(state, a) == FnvFrom(state, b)
  {
    var prefix := AsciiBytes(Digits(lineno)) + [0];
    FnvFromAppend(FNV_OFFSET, prefix, a);
    FnvFromAppend(FNV_OFFSET, prefix, b);
    if Anchor(lineno, a) == Anchor(lineno, b) {
      SameDigitsSameHash(Fnv1a32(prefix + a), Fnv1a32(prefix + b));
    }
  }

  /** Two equally long texts that differ in exactly one byte never share an anchor at one line number. */
  lemma {:induction false} OneByteChangesTheAnchor(lineno: nat, a: seq<Byte>, b: seq<Byte>, i: nat)
    requires |a| == |b| && i < |a|
    requires a[..i] == b[..i] && a[i + 1..] == b[i + 1..]
    ensures Anchor(lineno, a) == Anchor(lineno, b) <==> a[i] == b[i]
  {
    var state := Fnv1a32(AsciiBytes(Digits(lineno)) + [0]);
    AnchorByHash(lineno, a, b);
    assert a == a[..i] + ([a[i]] + a[i + 1..]) && b == b[..i] + ([b[i]] + b[i + 1..]);
    FnvFromAppend(state, a[..i], [a[i]] + a[i + 1..]);
    FnvFromAppend(state, b[..i], [b[i]] + b[i + 1..]);
    var mid := FnvFrom(state, a[..i]);
    if Anchor(lineno, a) == Anchor(lineno, b) {
      assert ([a[i]] + a[i + 1..])[1..] == a[i + 1..] && ([b[i]] + b[i + 1..])[1..] == b[i + 1..];
      FnvFromInjective(Step(mid, a[i]), Step(mid, b[i]), a[i + 1..]);
      StepInjective(mid, mid, a[i], b[i]);
    }
  }

  /** The line number of each of the first nine lines is one byte. */
  lemma {:induction false} OneDigitAnchor(lineno: nat, text: seq<Byte>)
    requires lineno < 10
    ensures Anchor(lineno, text) == HexDigits(Fnv1a32([48 + lineno] + ([0] + text)), 8)
  {
    assert AsciiBytes(Digits(lineno)) == [48 + lineno];
    assert AsciiBytes(Digits(lineno)) + [0] + text == [48 + lineno] + ([0] + text);
  }

  /** The same text has different anchors on the first and the second line. */
  lemma {:induction false} NeighboursApart(text: seq<Byte>)
    ensures Anchor(1, text) != Anchor(2, text)
  {
    OneDigitAnchor(1, text);
    OneDigitAnchor(2, text);
    StaysApart(FNV_OFFSET, 49, 50, [0] + text);
    if Anchor(1, text) == Anchor(2, text) {
      SameDigitsSameHash(Fnv1a32([49] + ([0] + text)), Fnv1a32([50] + ([0] + text)));
    }
  }
}
