/** Bytes, fixed-width integers and their wire forms. */
module Bytes {

  type byte = x: int | 0 <= x < 0x100
  type u16 = x: int | 0 <= x < 0x1_0000
  type u32 = x: int | 0 <= x < 0x1_0000_0000
  type i32 = x: int | -0x8000_0000 <= x < 0x8000_0000
  type u64 = x: int | 0 <= x < 0x1_0000_0000_0000_0000

  const U32_MAX: u32 := 0xFFFF_FFFF
  const U64_MAX: u64 := 0xFFFF_FFFF_FFFF_FFFF

  function Min(a: nat, b: nat): nat { if a < b then a else b }

  function Pow256(k: nat): (p: nat)
    ensures p > 0
  {
    if k == 0 then 1 else 256 * Pow256(k - 1)
  }

  lemma Pow256Widths()
    ensures Pow256(1) == 0x100 && Pow256(2) == 0x1_0000 && Pow256(4) == 0x1_0000_0000
    ensures Pow256(8) == 0x1_0000_0000_0000_0000
  {
    assert Pow256(2) == 256 * Pow256(1);
    assert Pow256(4) == 256 * (256 * Pow256(2));
    assert Pow256(6) == 256 * (256 * Pow256(4));
    assert Pow256(8) == 256 * (256 * Pow256(6));
  }

  /** The low `k` bytes of `n`, least significant first (`to_le_bytes` after a cast). */
  function ToLe(n: nat, k: nat): (s: seq<byte>)
    ensures |s| == k
    decreases k
  {
    if k == 0 then [] else [n % 256] + ToLe(n / 256, k - 1)
  }

  function FromLe(s: seq<byte>): (n: nat)
    ensures n < Pow256(|s|)
  {
    if s == [] then 0 else s[0] + 256 * FromLe(s[1..])
  }

  lemma {:induction false} LeRoundTrip(n: nat, k: nat)
    requires n < Pow256(k)
    ensures FromLe(ToLe(n, k)) == n
    decreases k
  {
    if k > 0 {
      LeRoundTrip(n / 256, k - 1);
      assert ToLe(n, k)[1..] == ToLe(n / 256, k - 1);
    }
  }

  lemma {:induction false} LeCanonical(s: seq<byte>)
    ensures ToLe(FromLe(s), |s|) == s
  {
    if s != [] {
      LeCanonical(s[1..]);
      assert s == [s[0]] + s[1..];
    }
  }

  /** The low `k` bytes of `n`, most significant first (`to_be_bytes`). */
  function ToBe(n: nat, k: nat): (s: seq<byte>)
    ensures |s| == k
    decreases k
  {
    if k == 0 then [] else ToBe(n / 256, k - 1) + [n % 256]
  }

  function FromBe(s: seq<byte>): (n: nat)
    ensures n < Pow256(|s|)
  {
    if s == [] then 0 else 256 * FromBe(s[..|s| - 1]) + s[|s| - 1]
  }

  lemma {:induction false} BeRoundTrip(n: nat, k: nat)
    requires n < Pow256(k)
    ensures FromBe(ToBe(n, k)) == n
    decreases k
  {
    if k > 0 {
      BeRoundTrip(n / 256, k - 1);
      assert ToBe(n, k)[..k - 1] == ToBe(n / 256, k - 1);
    }
  }

  lemma {:induction false} BeCanonical(s: seq<byte>)
    ensures ToBe(FromBe(s), |s|) == s
  {
    if s != [] {
      BeCanonical(s[..|s| - 1]);
      assert s == s[..|s| - 1] + [s[|s| - 1]];
    }
  }

  /** Byte `i` is the `i`-th digit of `n` to the base 256, counted from the low end ... */
  lemma {:induction false} LeDigit(n: nat, k: nat, i: nat)
    requires i < k
    ensures ToLe(n, k)[i] == n / Pow256(i) % 256
    decreases k
  {
    if i > 0 {
      LeDigit(n / 256, k - 1, i - 1);
      DivTwice(n, Pow256(i - 1));
    }
  }

  /** ... or from the high end. */
  lemma {:induction false} BeDigit(n: nat, k: nat, i: nat)
    requires i < k
    ensures ToBe(n, k)[i] == n / Pow256(k - 1 - i) % 256
    decreases k
  {
    if i < k - 1 {
      BeDigit(n / 256, k - 1, i);
      DivTwice(n, Pow256(k - 2 - i));
    }
  }

  lemma DivTwice(n: nat, p: nat)
    requires p > 0
    ensures n / 256 / p == n / (256 * p)
  {
    var q, r := n / 256, n % 256;
    var a, b := q / p, q % p;
    assert q == a * p + b;
    assert n == (a * p + b) * 256 + r == a * (256 * p) + (256 * b + r);
    assert 256 * b + r < 256 * p;
    DivUnique(n, 256 * p, a, 256 * b + r);
  }

  lemma MulStep(a: nat, b: nat, d: nat)
    requires a < b
    ensures a * d + d <= b * d
  {
    assert b * d == a * d + d + (b - a - 1) * d;
  }

  lemma DivUnique(n: nat, d: nat, q: nat, r: nat)
    requires d > 0 && n == q * d + r && r < d
    ensures n / d == q
  {
    var k, m := n / d, n % d;
    assert n == k * d + m && 0 <= m < d;
    if q > k { MulStep(k, q, d); }
    if q < k { MulStep(q, k, d); }
  }

  /** Two's complement, as `i32::to_le_bytes` writes it. */
  function I32Bits(x: i32): (n: u32) {
    if x >= 0 then x else x + 0x1_0000_0000
  }

  function I32FromBits(n: u32): (x: i32)
    ensures I32Bits(x) == n
  {
    if n < 0x8000_0000 then n else n - 0x1_0000_0000
  }

  predicate Continuation(b: byte) { 0x80 <= b <= 0xBF }

  /** Well-formed UTF-8, section 4 of RFC 3629. */
  predicate Utf8(s: seq<byte>) { Utf8From(s, 0) }

  predicate Utf8From(s: seq<byte>, i: nat)
    requires i <= |s|
    decreases |s| - i
  {
    var left := |s| - i;
    if left == 0 then true
    else if s[i] < 0x80 then Utf8From(s, i + 1)
    else if left >= 2 && 0xC2 <= s[i] <= 0xDF then Continuation(s[i + 1]) && Utf8From(s, i + 2)
    else if left >= 3 && 0xE0 <= s[i] <= 0xEF then
      && (if s[i] == 0xE0 then 0xA0 <= s[i + 1] <= 0xBF
          else if s[i] == 0xED then 0x80 <= s[i + 1] <= 0x9F
          else Continuation(s[i + 1]))
      && Continuation(s[i + 2]) && Utf8From(s, i + 3)
    else if left >= 4 && 0xF0 <= s[i] <= 0xF4 then
      && (if s[i] == 0xF0 then 0x90 <= s[i + 1] <= 0xBF
          else if s[i] == 0xF4 then 0x80 <= s[i + 1] <= 0x8F
          else Continuation(s[i + 1]))
      && Continuation(s[i + 2]) && Continuation(s[i + 3]) && Utf8From(s, i + 4)
    else false
  }
}
