/**
 * Byte strings and the integer encodings Python's `int.to_bytes` and
 * `int.from_bytes` produce: unsigned and two's-complement little-endian,
 * and unsigned big-endian.
 */
module Bytes {

  type Byte = b: int | 0 <= b < 0x100

  /** 256 to the power n: one more than the largest n-byte unsigned value. */
  function Pow256(n: nat): (p: nat)
    ensures p >= 1
  {
    if n == 0 then 1 else 0x100 * Pow256(n - 1)
  }

  lemma {:induction false} Pow256Add(a: nat, b: nat)
    ensures Pow256(a + b) == Pow256(a) * Pow256(b)
  {
    if a > 0 {
      Pow256Add(a - 1, b);
      assert Pow256(a + b) == 0x100 * Pow256(a - 1 + b);
    }
  }

  /** The moduli of the six integer widths NeoVM's PUSHINT opcodes use. */
  lemma Pow256Values()
    ensures Pow256(1) == 0x100
    ensures Pow256(2) == 0x1_0000
    ensures Pow256(4) == 0x1_0000_0000
    ensures Pow256(8) == 0x1_0000_0000_0000_0000
    ensures Pow256(16) == 0x1_0000_0000_0000_0000_0000_0000_0000_0000
    ensures Pow256(32) == 0x1_0000_0000_0000_0000_0000_0000_0000_0000_0000_0000_0000_0000_0000_0000_0000_0000
  {
    assert Pow256(1) == 0x100;
    Pow256Add(1, 1);
    Pow256Add(2, 2);
    Pow256Add(4, 4);
    Pow256Add(8, 8);
    Pow256Add(16, 16);
  }

  /** Unsigned value of a little-endian byte string (`int.from_bytes(s, 'little')`). */
  function FromLE(s: seq<Byte>): (n: nat)
    ensures n < Pow256(|s|)
  {
    if s == [] then 0 else s[0] + 0x100 * FromLE(s[1..])
  }

  /** The w-byte little-endian encoding of n (`n.to_bytes(w, 'little')`). */
  function LE(n: nat, w: nat): (s: seq<Byte>)
    requires n < Pow256(w)
    ensures |s| == w
  {
    if w == 0 then [] else [n % 0x100] + LE(n / 0x100, w - 1)
  }

  lemma {:induction false} FromLEOfLE(n: nat, w: nat)
    requires n < Pow256(w)
    ensures FromLE(LE(n, w)) == n
  {
    if w > 0 {
      FromLEOfLE(n / 0x100, w - 1);
      assert LE(n, w)[1..] == LE(n / 0x100, w - 1);
    }
  }

  lemma {:induction false} LEOfFromLE(s: seq<Byte>)
    ensures LE(FromLE(s), |s|) == s
  {
    if s != [] {
      LEOfFromLE(s[1..]);
      assert FromLE(s) % 0x100 == s[0];
      assert FromLE(s) / 0x100 == FromLE(s[1..]);
    }
  }

  /** Half the modulus of a w-byte integer: the two's-complement range is [-Half, Half). */
  function Half(w: nat): (h: nat)
    requires w >= 1
    ensures Pow256(w) == 2 * h
  {
    0x80 * Pow256(w - 1)
  }

  /** The bounds of the six signed ranges NeoVM's PUSHINT opcodes use. */
  lemma HalfValues()
    ensures Half(1) == 0x80
    ensures Half(2) == 0x8000
    ensures Half(4) == 0x8000_0000
    ensures Half(8) == 0x8000_0000_0000_0000
    ensures Half(16) == 0x8000_0000_0000_0000_0000_0000_0000_0000
    ensures Half(32) == 0x8000_0000_0000_0000_0000_0000_0000_0000_0000_0000_0000_0000_0000_0000_0000_0000
  {
    Pow256Values();
  }

  predicate InSignedRange(x: int, w: nat) {
    w >= 1 && -(Half(w) as int) <= x < Half(w)
  }

  /** A wider two's-complement range contains the narrower one. */
  lemma SignedRangeGrows(x: int, v: nat, w: nat)
    requires InSignedRange(x, v) && v <= w
    ensures InSignedRange(x, w)
  {
    Pow256Add(v - 1, w - v);
    MulAtLeast(Pow256(v - 1), Pow256(w - v));
  }

  /** `x.to_bytes(w, 'little', signed=True)`: little-endian two's complement. */
  function SignedLE(x: int, w: nat): (s: seq<Byte>)
    requires InSignedRange(x, w)
    ensures |s| == w
  {
    LE(if x >= 0 then x else x + Pow256(w), w)
  }

  /** `int.from_bytes(s, 'little', signed=True)`. */
  function FromSignedLE(s: seq<Byte>): int {
    var u := FromLE(s);
    if |s| > 0 && u >= Half(|s|) then u - Pow256(|s|) else u
  }

  /** Decoding a two's-complement operand gives back the integer that was encoded. */
  lemma SignedRoundTrip(x: int, w: nat)
    requires InSignedRange(x, w)
    ensures FromSignedLE(SignedLE(x, w)) == x
  {
    FromLEOfLE(if x >= 0 then x else x + Pow256(w), w);
  }

  lemma MulAtLeast(d: int, k: int)
    requires d > 0 && k >= 1
    ensures d * k >= d
  {
    assert d * k == d * (k - 1) + d;
  }

  function Reverse<T>(s: seq<T>): (r: seq<T>)
    ensures |r| == |s|
    ensures forall i :: 0 <= i < |s| ==> r[i] == s[|s| - 1 - i]
  {
    if s == [] then [] else Reverse(s[1..]) + [s[0]]
  }

  lemma ReverseReverse<T>(s: seq<T>)
    ensures Reverse(Reverse(s)) == s
  {
    assert forall i :: 0 <= i < |s| ==> Reverse(Reverse(s))[i] == s[i];
  }

  /** Unsigned value of a big-endian byte string (`int.from_bytes(s, 'big')`). */
  function FromBE(s: seq<Byte>): (n: nat)
    ensures n < Pow256(|s|)
  {
    if s == [] then 0
    else
      var p := FromBE(s[..|s| - 1]);
      Pow256Add(|s| - 1, 1);
      0x100 * p + s[|s| - 1]
  }

  /** `n.to_bytes(w, 'big')`. */
  function BE(n: nat, w: nat): (s: seq<Byte>)
    requires n < Pow256(w)
    ensures |s| == w
  {
    if w == 0 then []
    else
      Pow256Add(w - 1, 1);
      BE(n / 0x100, w - 1) + [n % 0x100]
  }

  lemma {:induction false} BEOfFromBE(s: seq<Byte>)
    ensures BE(FromBE(s), |s|) == s
  {
    if s != [] {
      var init := s[..|s| - 1];
      BEOfFromBE(init);
      Pow256Add(|s| - 1, 1);
      assert FromBE(s) / 0x100 == FromBE(init);
      assert FromBE(s) % 0x100 == s[|s| - 1];
      assert s == init + [s[|s| - 1]];
    }
  }

  lemma {:induction false} FromBEOfBE(n: nat, w: nat)
    requires n < Pow256(w)
    ensures FromBE(BE(n, w)) == n
  {
    if w > 0 {
      Pow256Add(w - 1, 1);
      FromBEOfBE(n / 0x100, w - 1);
      var s := BE(n, w);
      assert s[..|s| - 1] == BE(n / 0x100, w - 1);
    }
  }
}
