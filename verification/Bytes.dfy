/** Fixed-width byte strings read as big-endian numbers, with the bitwise
    operations that address and interface masks are built from. */
module Bytes {

  type byte = x: int | 0 <= x < 256

  type uint16 = x: int | 0 <= x < 0x1_0000

  function BigEndian16(hi: byte, lo: byte): uint16 {
    (hi as int) * 256 + lo
  }

  function Pow2(n: nat): (r: nat)
    ensures r >= 1
  {
    if n == 0 then 1 else 2 * Pow2(n - 1)
  }

  // The number of distinct byte strings of length n.
  function Span(n: nat): (r: nat)
    ensures r >= 1
  {
    if n == 0 then 1 else 256 * Span(n - 1)
  }

  // The big-endian value of a byte string.
  function Val(b: seq<byte>): (r: nat)
    ensures r < Span(|b|)
  {
    if b == [] then 0 else 256 * Val(b[..|b| - 1]) + b[|b| - 1]
  }

  function Zeros(n: nat): (z: seq<byte>)
    ensures |z| == n && forall i :: 0 <= i < n ==> z[i] == 0
  {
    seq(n, _ => 0)
  }

  lemma {:induction false} ZerosVal(n: nat)
    ensures Val(Zeros(n)) == 0
  {
    if n > 0 {
      assert Zeros(n)[..n - 1] == Zeros(n - 1);
      ZerosVal(n - 1);
    }
  }

  // A value determines the byte string of a given length.
  lemma {:induction false} ValInjective(a: seq<byte>, b: seq<byte>)
    requires |a| == |b| && Val(a) == Val(b)
    ensures a == b
  {
    if a != [] {
      var n := |a| - 1;
      ValInjective(a[..n], b[..n]);
      assert a == a[..n] + [a[n]];
      assert b == b[..n] + [b[n]];
    }
  }

  lemma {:induction false} SpanIsPow2(n: nat)
    ensures Span(n) == Pow2(8 * n)
  {
    if n > 0 {
      SpanIsPow2(n - 1);
      Pow2Add8(8 * (n - 1));
    }
  }

  lemma Pow2Add8(n: nat)
    ensures Pow2(n + 8) == 256 * Pow2(n)
  {
    assert Pow2(n + 8) == 2 * Pow2(n + 7) == 4 * Pow2(n + 6) == 8 * Pow2(n + 5) == 16 * Pow2(n + 4);
    assert 16 * Pow2(n + 4) == 32 * Pow2(n + 3) == 64 * Pow2(n + 2) == 128 * Pow2(n + 1);
  }

  // ---- lexicographic order (bytes.Compare) ----

  predicate Less(a: seq<byte>, b: seq<byte>)
    requires |a| == |b|
  {
    a != [] && (a[0] < b[0] || (a[0] == b[0] && Less(a[1..], b[1..])))
  }

  // Splitting off the leading byte instead of the trailing one.
  lemma {:induction false} ValHead(b: seq<byte>)
    requires b != []
    ensures Val(b) == b[0] * Span(|b| - 1) + Val(b[1..])
  {
    var n := |b| - 1;
    if n == 0 {
      assert b[..0] == [] && b[1..] == [];
    } else {
      ValHead(b[..n]);
      assert b[..n][1..] == b[1..][..n - 1];
      Shift256(b[0], Span(n - 1), Val(b[1..][..n - 1]));
    }
  }

  lemma Shift256(h: nat, s: nat, t: nat)
    ensures 256 * (h * s + t) == h * (256 * s) + 256 * t
  {
  }

  // Byte-wise comparison is numeric comparison.
  lemma {:induction false} LessIsNumeric(a: seq<byte>, b: seq<byte>)
    requires |a| == |b|
    ensures Less(a, b) <==> Val(a) < Val(b)
  {
    if a != [] {
      ValHead(a);
      ValHead(b);
      LessIsNumeric(a[1..], b[1..]);
      LeadingByte(a[0], b[0], Val(a[1..]), Val(b[1..]), Span(|a| - 1));
    }
  }

  lemma LeadingByte(x: byte, y: byte, u: nat, v: nat, s: nat)
    requires u < s && v < s
    ensures x * s + u < y * s + v <==> x < y || (x == y && u < v)
  {
    NonzeroMultiple(y - x, s);
    assert (y - x) * s == y * s - x * s;
  }

  // bytes.Compare on strings of one width.
  method Compare(a: seq<byte>, b: seq<byte>) returns (c: int)
    requires |a| == |b|
    ensures c < 0 <==> Val(a) < Val(b)
    ensures c == 0 <==> a == b
    ensures c > 0 <==> Val(b) < Val(a)
  {
    var i := 0;
    while i < |a| && a[i] == b[i]
      invariant 0 <= i <= |a|
      invariant a[..i] == b[..i]
      invariant Less(a, b) <==> Less(a[i..], b[i..])
    {
      assert a[i..][1..] == a[i + 1..] && b[i..][1..] == b[i + 1..];
      i := i + 1;
    }
    LessIsNumeric(a, b);
    if i == |a| {
      return 0;
    }
    FirstDifference(a, b, i);
    c := if a[i] < b[i] then -1 else 1;
  }

  lemma FirstDifference(a: seq<byte>, b: seq<byte>, i: nat)
    requires |a| == |b| && i < |a| && a[i] != b[i]
    ensures Less(a[i..], b[i..]) <==> a[i] < b[i]
    ensures Val(a) != Val(b)
  {
    if Val(a) == Val(b) { ValInjective(a, b); }
  }

  // The largest multiple of s up to x.
  function RoundDown(x: nat, s: nat): (r: nat)
    requires s > 0
    ensures r <= x
  {
    x - x % s
  }

  // ---- bitwise operations ----

  // Conjunction of the low n bits.
  function BitAnd(n: nat, x: nat, y: nat): nat
  {
    if n == 0 then 0
    else 2 * BitAnd(n - 1, x / 2, y / 2) + (if x % 2 == 1 && y % 2 == 1 then 1 else 0)
  }

  function BitOr(n: nat, x: nat, y: nat): nat
  {
    if n == 0 then 0
    else 2 * BitOr(n - 1, x / 2, y / 2) + (if x % 2 == 1 || y % 2 == 1 then 1 else 0)
  }

  lemma {:induction false} BitAndBound(n: nat, x: nat, y: nat)
    ensures BitAnd(n, x, y) < Pow2(n)
  {
    if n > 0 { BitAndBound(n - 1, x / 2, y / 2); }
  }

  lemma {:induction false} BitOrBound(n: nat, x: nat, y: nat)
    ensures BitOr(n, x, y) < Pow2(n)
  {
    if n > 0 { BitOrBound(n - 1, x / 2, y / 2); }
  }

  lemma Pow2Of8()
    ensures Pow2(8) == 256
  {
    Pow2Add8(0);
  }

  function And8(x: byte, y: byte): byte
  {
    BitAndBound(8, x, y); Pow2Of8();
    BitAnd(8, x, y)
  }

  function Or8(x: byte, y: byte): byte
  {
    BitOrBound(8, x, y); Pow2Of8();
    BitOr(8, x, y)
  }

  function Not8(x: byte): byte
  {
    255 - x
  }

  function Mask(b: seq<byte>, m: seq<byte>): (r: seq<byte>)
    requires |b| == |m|
    ensures |r| == |b|
  {
    seq(|b|, i requires 0 <= i < |b| => And8(b[i], m[i]))
  }

  // ---- prefix masks (net.CIDRMask) ----

  // The byte whose leading k bits are set.
  function MaskByte(k: nat): byte
    requires k <= 8
  {
    PowLe8(8 - k);
    256 - Pow2(8 - k)
  }

  lemma PowLe8(k: nat)
    requires k <= 8
    ensures Pow2(k) <= 256
  {
    Pow2Of8();
    Pow2Monotone(k, 8);
  }

  lemma {:induction false} Pow2Monotone(a: nat, b: nat)
    requires a <= b
    ensures Pow2(a) <= Pow2(b)
  {
    if a < b { Pow2Monotone(a, b - 1); }
  }

  function ClampBits(p: nat, i: nat): (k: nat)
    ensures k <= 8
  {
    if p <= 8 * i then 0 else if p >= 8 * i + 8 then 8 else p - 8 * i
  }

  function CidrMask(p: nat, n: nat): (m: seq<byte>)
    ensures |m| == n
  {
    seq(n, i requires 0 <= i < n => MaskByte(ClampBits(p, i)))
  }

  // Conjunction with a mask of leading ones clears the remaining low bits.
  lemma {:induction false} BitAndLeading(n: nat, k: nat, x: nat)
    requires k <= n && x < Pow2(n)
    ensures Pow2(n) >= Pow2(n - k)
    ensures BitAnd(n, x, Pow2(n) - Pow2(n - k)) == RoundDown(x, Pow2(n - k))
  {
    hide BitAnd, RoundDown, Pow2;
    Pow2Monotone(n - k, n);
    Pow2Steps(n);
    if k == n {
      BitAndOnes(n, x);
      RoundDownOne(x);
    } else {
      Pow2Monotone(n - 1 - k, n - 1);
      HalfBound(x, Pow2(n - 1));
      BitAndLeading(n - 1, k, x / 2);
      BitAndLeadingStep(n, k, x);
    }
  }

  lemma Pow2Steps(n: nat)
    ensures Pow2(0) == 1 && (n > 0 ==> Pow2(n) == 2 * Pow2(n - 1))
  {
  }

  lemma HalfBound(x: nat, a: nat)
    requires x < 2 * a
    ensures x / 2 < a
  {
  }

  lemma BitAndLeadingStep(n: nat, k: nat, x: nat)
    requires k < n && Pow2(n - 1 - k) <= Pow2(n - 1) && Pow2(n - k) <= Pow2(n)
    requires BitAnd(n - 1, x / 2, Pow2(n - 1) - Pow2(n - 1 - k)) == RoundDown(x / 2, Pow2(n - 1 - k))
    ensures BitAnd(n, x, Pow2(n) - Pow2(n - k)) == RoundDown(x, Pow2(n - k))
  {
    hide BitAnd, RoundDown;
    assert Pow2(n) == 2 * Pow2(n - 1) && Pow2(n - k) == 2 * Pow2(n - 1 - k);
    BitAndEven(n, x, Pow2(n - 1), Pow2(n - 1 - k));
  }

  lemma BitAndEven(n: nat, x: nat, a: nat, m: nat)
    requires n > 0 && a >= m > 0 && BitAnd(n - 1, x / 2, a - m) == RoundDown(x / 2, m)
    ensures BitAnd(n, x, 2 * a - 2 * m) == RoundDown(x, 2 * m)
  {
    HalfMod(x, m);
    HalfDifference(a, m);
  }

  lemma RoundDownOne(x: nat)
    ensures RoundDown(x, 1) == x
  {
  }

  lemma {:induction false} BitAndOnes(n: nat, x: nat)
    requires x < Pow2(n)
    ensures BitAnd(n, x, Pow2(n) - 1) == x
  {
    if n > 0 {
      BitAndOnes(n - 1, x / 2);
    }
  }

  lemma HalfDifference(a: nat, b: nat)
    requires a >= b
    ensures (2 * a - 2 * b) / 2 == a - b && (2 * a - 2 * b) % 2 == 0
  {
  }

  lemma {:induction false} BitAndZero(n: nat, x: nat)
    ensures BitAnd(n, x, 0) == 0
  {
    if n > 0 { BitAndZero(n - 1, x / 2); }
  }

  lemma {:induction false} BitAndLow(n: nat, j: nat, x: nat)
    requires j <= n
    ensures BitAnd(n, x, Pow2(j) - 1) == x % Pow2(j)
  {
    if j == 0 {
      BitAndZero(n, x);
    } else {
      BitAndLow(n - 1, j - 1, x / 2);
      BitAndOdd(n, x, Pow2(j - 1));
    }
  }

  lemma BitAndOdd(n: nat, x: nat, m: nat)
    requires n > 0 && m > 0 && BitAnd(n - 1, x / 2, m - 1) == x / 2 % m
    ensures BitAnd(n, x, 2 * m - 1) == x % (2 * m)
  {
    HalfMod(x, m);
    assert (2 * m - 1) / 2 == m - 1;
  }

  lemma HalfMod(x: nat, m: nat)
    requires m > 0
    ensures x % (2 * m) == 2 * ((x / 2) % m) + x % 2
  {
    var q, r := (x / 2) / m, (x / 2) % m;
    DivModIdentity(x / 2, m);
    assert q * (2 * m) == 2 * (q * m);
    DivModUnique(x, 2 * m, q, 2 * r + x % 2);
  }

  lemma DivModIdentity(x: nat, d: nat)
    requires d > 0
    ensures x == x / d * d + x % d
  {
  }

  lemma DivModUnique(x: nat, d: nat, q: nat, r: nat)
    requires d > 0 && x == q * d + r && r < d
    ensures x / d == q && x % d == r
  {
    NonzeroMultiple(q - x / d, d);
    assert x == x / d * d + x % d;
    assert (q - x / d) * d == q * d - x / d * d;
  }

  lemma NonzeroMultiple(k: int, d: nat)
    ensures k > 0 ==> k * d >= d
    ensures k < 0 ==> k * d <= 0 - d
  {
    if k > 0 {
      MulMono(1, k, d);
    } else if k < 0 {
      MulMono(1, -k, d);
      assert -k * d == -(k * d);
    }
  }

  lemma MulMono(a: int, b: int, d: nat)
    requires a <= b
    ensures a * d <= b * d
  {
    assert b * d - a * d == (b - a) * d;
  }

  lemma And8Leading(x: byte, k: nat)
    requires k <= 8
    ensures And8(x, MaskByte(k)) == RoundDown(x, Pow2(8 - k))
  {
    hide BitAnd, Pow2;
    Pow2Of8();
    BitAndLeading(8, k, x);
  }

  // ---- prefixes ----

  // Section 3.1 of RFC 4632: two addresses share a /p prefix when their
  // leading p bits are equal.
  ghost predicate SamePrefix(a: seq<byte>, b: seq<byte>, p: nat)
    requires |a| == |b| && p <= 8 * |a|
  {
    Val(a) / Pow2(8 * |a| - p) == Val(b) / Pow2(8 * |a| - p)
  }

  lemma MaskAll(b: seq<byte>, p: nat)
    requires p >= 8 * |b|
    ensures Mask(b, CidrMask(p, |b|)) == b
  {
    forall i | 0 <= i < |b| ensures Mask(b, CidrMask(p, |b|))[i] == b[i] {
      And8Leading(b[i], 8);
    }
  }

  lemma MaskSplit(b: seq<byte>, p: nat)
    requires b != []
    ensures var n := |b| - 1;
            Mask(b, CidrMask(p, |b|)) == Mask(b[..n], CidrMask(p, n)) + [And8(b[n], MaskByte(ClampBits(p, n)))]
  {
    var n := |b| - 1;
    assert CidrMask(p, |b|)[..n] == CidrMask(p, n);
  }

  // Masking rounds the value down to a multiple of the block size.
  lemma {:induction false} MaskVal(b: seq<byte>, p: nat)
    requires p <= 8 * |b|
    ensures Val(Mask(b, CidrMask(p, |b|))) == RoundDown(Val(b), Pow2(8 * |b| - p))
  {
    if b != [] {
      if p <= 8 * (|b| - 1) {
        MaskVal(b[..|b| - 1], p);
      }
      MaskValStep(b, p);
    }
  }

  lemma MaskValStep(b: seq<byte>, p: nat)
    requires b != [] && p <= 8 * |b|
    requires var n := |b| - 1;
             p <= 8 * n ==> Val(Mask(b[..n], CidrMask(p, n))) == RoundDown(Val(b[..n]), Pow2(8 * n - p))
    ensures Val(Mask(b, CidrMask(p, |b|))) == RoundDown(Val(b), Pow2(8 * |b| - p))
  {
    hide *;
    var n := |b| - 1;
    MaskLastByte(b, p);
    if p <= 8 * n {
      assert 8 * |b| - p == (8 * n - p) + 8;
      ClampValue(p, n);
      MaskValClearedByte(Val(b[..n]), b[n], 8 * n - p);
    } else {
      assert 8 * |b| - p == 8 - (p - 8 * n);
      ClampValue(p, n);
      MaskAll(b[..n], p);
      MaskValPartialByte(Val(b[..n]), b[n], p - 8 * n);
    }
  }

  lemma ClampValue(p: nat, i: nat)
    requires p <= 8 * i + 8
    ensures ClampBits(p, i) == if p <= 8 * i then 0 else p - 8 * i
  {
  }

  lemma MaskLastByte(b: seq<byte>, p: nat)
    requires b != []
    ensures var n := |b| - 1;
            && Val(b) == 256 * Val(b[..n]) + b[n]
            && Val(Mask(b, CidrMask(p, |b|))) ==
               256 * Val(Mask(b[..n], CidrMask(p, n))) + And8(b[n], MaskByte(ClampBits(p, n)))
  {
    hide *;
    var n := |b| - 1;
    assert b == b[..n] + [b[n]];
    ValSnoc(b[..n], b[n]);
    MaskSplit(b, p);
    ValSnoc(Mask(b[..n], CidrMask(p, n)), And8(b[n], MaskByte(ClampBits(p, n))));
  }

  lemma MaskValPartialByte(v: nat, l: byte, k: nat)
    requires k <= 8
    ensures 256 * v + And8(l, MaskByte(k)) == RoundDown(256 * v + l, Pow2(8 - k))
  {
    And8Leading(l, k);
    ModAddMultiple(v, l, 8 - k);
  }

  lemma MaskValClearedByte(v: nat, l: byte, k: nat)
    ensures 256 * RoundDown(v, Pow2(k)) + And8(l, MaskByte(0)) == RoundDown(256 * v + l, Pow2(k + 8))
  {
    hide And8, Pow2;
    And8Leading(l, 0);
    Pow2Of8();
    Pow2Add8(k);
    ByteMod(v, l, Pow2(k));
  }

  lemma ValSnoc(b: seq<byte>, l: byte)
    ensures Val(b + [l]) == 256 * Val(b) + l
  {
    assert (b + [l])[..|b|] == b;
  }

  lemma ByteMod(v: nat, l: byte, s: nat)
    requires s > 0
    ensures (256 * v + l) % (256 * s) == 256 * (v % s) + l
  {
    var q, r := v / s, v % s;
    assert v == q * s + r;
    assert 256 * (q * s) == q * (256 * s);
    DivModUnique(256 * v + l, 256 * s, q, 256 * r + l);
  }

  lemma ModAddMultiple(v: nat, l: byte, k: nat)
    requires k <= 8
    ensures (256 * v + l) % Pow2(k) == l % Pow2(k)
  {
    hide Pow2;
    Pow2Split(8 - k, k);
    Pow2Of8();
    AddMultiple(v, Pow2(8 - k), Pow2(k), l);
  }

  lemma AddMultiple(v: nat, c: nat, m: nat, l: nat)
    requires m > 0 && c * m == 256
    ensures (256 * v + l) % m == l % m
  {
    assert 256 * v == (c * v) * m by { assert (c * m) * v == (c * v) * m; }
    assert l == l / m * m + l % m;
    assert (c * v) * m + l / m * m == (c * v + l / m) * m;
    DivModUnique(256 * v + l, m, c * v + l / m, l % m);
  }

  lemma {:induction false} Pow2Split(a: nat, b: nat)
    ensures Pow2(a + b) == Pow2(a) * Pow2(b)
  {
    if a > 0 {
      Pow2Split(a - 1, b);
      MulAssoc(2, Pow2(a - 1), Pow2(b));
    }
  }

  lemma MulAssoc(x: int, y: int, z: int)
    ensures (x * y) * z == x * (y * z)
  {
  }

  // Masked equality is prefix equality.
  lemma {:induction false} MaskEqIsSamePrefix(a: seq<byte>, b: seq<byte>, p: nat)
    requires |a| == |b| && p <= 8 * |a|
    ensures Mask(a, CidrMask(p, |a|)) == Mask(b, CidrMask(p, |a|)) <==> SamePrefix(a, b, p)
  {
    hide Val, Pow2, Mask, CidrMask, RoundDown;
    var s := Pow2(8 * |a| - p);
    var ma, mb := Mask(a, CidrMask(p, |a|)), Mask(b, CidrMask(p, |a|));
    MaskVal(a, p);
    MaskVal(b, p);
    RoundedEq(Val(a), Val(b), s);
    if Val(ma) == Val(mb) {
      ValInjective(ma, mb);
    }
  }

  lemma RoundedEq(x: nat, y: nat, s: nat)
    requires s > 0
    ensures RoundDown(x, s) == RoundDown(y, s) <==> x / s == y / s
  {
    assert x == x / s * s + x % s;
    assert y == y / s * s + y % s;
    if x / s * s == y / s * s {
      MulCancel(x / s, y / s, s);
    }
  }

  lemma MulCancel(x: nat, y: nat, s: nat)
    requires s > 0 && x * s == y * s
    ensures x == y
  {
    NonzeroMultiple(x - y, s);
    assert (x - y) * s == x * s - y * s;
  }

  // Already masked exactly when the value is a multiple of the block size.
  lemma AlignedIffMasked(b: seq<byte>, p: nat)
    requires p <= 8 * |b|
    ensures Mask(b, CidrMask(p, |b|)) == b <==> Val(b) % Pow2(8 * |b| - p) == 0
  {
    MaskVal(b, p);
    if Val(Mask(b, CidrMask(p, |b|))) == Val(b) {
      ValInjective(Mask(b, CidrMask(p, |b|)), b);
    }
  }

  lemma MaskIdempotent(b: seq<byte>, p: nat)
    requires p <= 8 * |b|
    ensures var m := CidrMask(p, |b|); Mask(Mask(b, m), m) == Mask(b, m)
  {
    hide *;
    var m := Mask(b, CidrMask(p, |b|));
    MaskVal(b, p);
    RoundedMod(Val(b), Pow2(8 * |b| - p));
    AlignedIffMasked(m, p);
  }

  lemma RoundedMod(x: nat, s: nat)
    requires s > 0
    ensures RoundDown(x, s) % s == 0
  {
    assert x == x / s * s + x % s;
    DivModUnique(x - x % s, s, x / s, 0);
  }
}
