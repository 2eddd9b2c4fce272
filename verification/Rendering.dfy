/** Rendering interval-set elements back to CIDR or first-last form, the
    inverse of the interval encoding. */
module Rendering {
  import opened Bytes
  import opened AddressSets
  import opened Outcomes

  // ---- the bits of a byte string, most significant first ----

  function Quot(x: nat, d: nat): nat
    requires d > 0
  {
    x / d
  }

  // The number formed by the leading q bits.
  function TopBits(b: seq<byte>, q: nat): nat
    requires q <= 8 * |b|
  {
    Quot(Val(b), Pow2(8 * |b| - q))
  }

  lemma {:induction false} BitTest(n: nat, x: nat, j: nat)
    requires j < n
    ensures BitAnd(n, x, Pow2(j)) != 0 <==> Quot(x, Pow2(j)) % 2 == 1
  {
    if j == 0 {
      BitAndZero(n - 1, x / 2);
    } else {
      BitTest(n - 1, x / 2, j - 1);
      QuotQuot(x, 2, Pow2(j - 1));
    }
  }

  lemma QuotQuot(x: nat, a: nat, b: nat)
    requires a > 0 && b > 0
    ensures a * b > 0 && Quot(x, a * b) == Quot(Quot(x, a), b)
  {
    var y := x / a;
    DivModIdentity(y, b);
    DivModIdentity(x, a);
    QuotSplit(x, a, b, y / b, y % b, x % a);
  }

  lemma QuotSplit(x: nat, a: nat, b: nat, q: nat, r: nat, l: nat)
    requires a > 0 && b > 0 && x == (q * b + r) * a + l && r < b && l < a
    ensures a * b > 0 && x / (a * b) == q
  {
    QuotProducts(a, b, q, r);
    DivModUnique(x, a * b, q, r * a + l);
  }

  lemma QuotProducts(a: nat, b: nat, q: nat, r: nat)
    requires a > 0 && b > 0 && r < b
    ensures a * b > 0 && (q * b + r) * a == q * (a * b) + r * a && r * a + a <= a * b
  {
    assert (q * b + r) * a == q * (a * b) + r * a;
    MulMono(r + 1, b, a);
  }

  // Reading one more bit doubles the number and adds the bit.
  lemma TopBitsStep(b: seq<byte>, i: nat, k: nat)
    requires i < |b| && k < 8
    ensures TopBits(b, 8 * i + k + 1) ==
            2 * TopBits(b, 8 * i + k) + (if And8(b[i], Bit(k)) != 0 then 1 else 0)
  {
    hide Val, Quot, Pow2, And8, Span, Bit;
    var m := |b| - 1 - i;
    TopBitsByte(b, i, k);
    TopBitsByte(b, i, k + 1);
    ByteBits(Val(b[..i]), b[i], k);
  }

  // The byte with only its k-th most significant bit set.
  function Bit(k: nat): byte
    requires k < 8
  {
    PowLe8(8 - k - 1);
    Pow2Of8();
    Pow2Smaller(7 - k);
    Pow2(7 - k)
  }

  lemma Pow2Smaller(j: nat)
    requires j < 8
    ensures Pow2(j) < 256
  {
    Pow2Of8();
    Pow2Monotone(j, 7);
  }

  lemma TopBitsByte(b: seq<byte>, i: nat, k: nat)
    requires i < |b| && k <= 8
    ensures TopBits(b, 8 * i + k) == Quot(256 * Val(b[..i]) + b[i], Pow2(8 - k))
  {
    hide Val, Quot, Pow2, Span;
    var m := |b| - 1 - i;
    assert 8 * |b| - (8 * i + k) == 8 * m + (8 - k);
    Pow2Split(8 * m, 8 - k);
    QuotQuot(Val(b), Pow2(8 * m), Pow2(8 - k));
    HighBytes(b, i + 1);
    assert b[..i + 1] == b[..i] + [b[i]];
    ValSnoc(b[..i], b[i]);
  }

  // Dropping the trailing bytes divides by their span.
  lemma {:induction false} HighBytes(b: seq<byte>, i: nat)
    requires i <= |b|
    ensures Quot(Val(b), Pow2(8 * (|b| - i))) == Val(b[..i])
    decreases |b|
  {
    if i == |b| {
      assert b[..i] == b;
      assert Pow2(0) == 1;
    } else {
      var n := |b| - 1;
      HighBytes(b[..n], i);
      assert b[..n][..i] == b[..i];
      HighBytesStep(Val(b[..n]), b[n], 8 * (n - i));
      assert 8 * (|b| - i) == 8 * (n - i) + 8;
    }
  }

  lemma HighBytesStep(v: nat, l: byte, k: nat)
    ensures Quot(256 * v + l, Pow2(k + 8)) == Quot(v, Pow2(k))
  {
    Pow2Add8(k);
    QuotQuot(256 * v + l, 256, Pow2(k));
  }

  // The bits of one byte appended below the number v.
  lemma ByteBits(v: nat, l: byte, k: nat)
    requires k < 8
    ensures Quot(256 * v + l, Pow2(8 - k - 1)) ==
            2 * Quot(256 * v + l, Pow2(8 - k)) + (if And8(l, Bit(k)) != 0 then 1 else 0)
  {
    hide Pow2, BitAnd;
    var x, j := 256 * v + l, 7 - k;
    BitTest(8, l, j);
    Pow2Split(j, 1);
    Pow2One();
    QuotQuot(x, Pow2(j), 2);
    QuotLowByte(v, l, j);
  }

  lemma Pow2One()
    ensures Pow2(1) == 2
  {
  }

  // The parity of the quotient only depends on the low byte.
  lemma QuotLowByte(v: nat, l: byte, j: nat)
    requires j < 8
    ensures Quot(256 * v + l, Pow2(j)) % 2 == Quot(l, Pow2(j)) % 2
  {
    hide Pow2, Quot;
    Pow2Split(j, 7 - j);
    Pow2SevenOne();
    QuotAbove(v, l, Pow2(j), Pow2(7 - j));
    EvenPlus(Pow2(7 - j) * v, Quot(l, Pow2(j)));
  }

  lemma QuotAbove(v: nat, l: nat, m: nat, c: nat)
    requires m > 0 && m * c == 128
    ensures Quot(256 * v + l, m) == 2 * (c * v) + Quot(l, m)
  {
    var q := 2 * (c * v);
    assert q * m == 256 * v by {
      MulAssoc(m, c, v);
      assert (c * v) * m == m * (c * v);
    }
    DivModIdentity(l, m);
    assert (q + l / m) * m == q * m + l / m * m;
    DivModUnique(256 * v + l, m, q + l / m, l % m);
  }

  lemma EvenPlus(x: nat, y: nat)
    ensures (2 * x + y) % 2 == y % 2
  {
  }

  lemma Pow2SevenOne()
    ensures Pow2(7) == 128
  {
    Pow2Of8();
  }

  // ---- prefixLen ----

  // [start, end) is the block of a prefix of length p.
  ghost predicate IsBlock(start: seq<byte>, end: seq<byte>, p: nat)
  {
    && |start| == |end| && 1 <= p <= 8 * |start|
    && Net(start, p).ToInterval() == Interval(start, end)
  }

  // The borrow-propagating subtraction end - start modulo the span.
  method Subtract(end: seq<byte>, start: seq<byte>) returns (span: seq<byte>)
    requires |end| == |start|
    ensures |span| == |end|
    ensures Val(span) == if Val(start) <= Val(end) then Val(end) - Val(start)
                         else Val(end) - Val(start) + Span(|end|)
  {
    EmptyVal();
    hide Val, Span;
    span := [];
    var borrow := 0;
    var i := |end|;
    assert end[|end|..] == [] && start[|start|..] == [];
    while i > 0
      invariant 0 <= i <= |end| && |span| == |end| - i && 0 <= borrow <= 1
      invariant Val(span) == Val(end[i..]) - Val(start[i..]) + borrow * Span(|span|)
    {
      i := i - 1;
      var d := end[i] - start[i] - borrow;
      var carry := 0;
      if d < 0 {
        d := d + 256;
        carry := 1;
      }
      SubtractStep(end, start, i, borrow, carry, span);
      span := [d] + span;
      borrow := carry;
    }
    assert end[0..] == end && start[0..] == start;
  }

  lemma EmptyVal()
    ensures Val([]) == 0
  {
  }

  lemma SubtractStep(end: seq<byte>, start: seq<byte>, i: nat, borrow: nat, carry: nat, span: seq<byte>)
    requires |end| == |start| && i < |end| && |span| == |end| - i - 1
    requires 0 <= end[i] - start[i] - borrow + 256 * carry < 256
    requires Val(span) == Val(end[i + 1..]) - Val(start[i + 1..]) + borrow * Span(|span|)
    ensures Val([end[i] - start[i] - borrow + 256 * carry] + span) ==
            Val(end[i..]) - Val(start[i..]) + carry * Span(|span| + 1)
  {
    hide Val, Span;
    SpanStep(|span|);
    ValSuffix(end, i);
    ValSuffix(start, i);
    var d: byte := end[i] - start[i] - borrow + 256 * carry;
    ValCons(d, span);
    BorrowStep(end[i], start[i], borrow, carry, Span(|span|));
  }

  lemma ValSuffix(b: seq<byte>, i: nat)
    requires i < |b|
    ensures Val(b[i..]) == b[i] * Span(|b| - i - 1) + Val(b[i + 1..])
  {
    hide Val, Span;
    assert b[i..][1..] == b[i + 1..];
    ValHead(b[i..]);
  }

  lemma ValCons(d: byte, b: seq<byte>)
    ensures Val([d] + b) == d * Span(|b|) + Val(b)
  {
    hide Val, Span;
    var all := [d] + b;
    assert all[0] == d && all[1..] == b && |all| - 1 == |b|;
    ValHead(all);
  }

  lemma SpanStep(n: nat)
    ensures Span(n + 1) == 256 * Span(n)
  {
  }

  lemma BorrowStep(e: byte, s: byte, borrow: nat, carry: nat, w: nat)
    ensures (e - s - borrow + 256 * carry) * w == e * w - s * w - borrow * w + carry * (256 * w)
  {
  }

  // Exactly one bit set among the first q, and it is bit number at.
  ghost predicate OneBit(b: seq<byte>, q: nat, at: nat)
    requires q <= 8 * |b|
  {
    1 <= at <= q && TopBits(b, q) == Pow2(q - at)
  }

  // A second set bit rules out every power of two.
  lemma TwoBits(b: seq<byte>, q: nat, t: nat, p: nat)
    requires q <= 8 * |b| && p <= 8 * |b| && t >= 1 && TopBits(b, q) == 2 * t + 1
    ensures Val(b) != Pow2(8 * |b| - p)
  {
    hide Val, Quot;
    var m, k := 8 * |b| - q, 8 * |b| - p;
    QuotOfPowers(k, m);
    if k >= m { OddPower(k - m); }
  }

  lemma QuotOfPowers(k: nat, m: nat)
    ensures Quot(Pow2(k), Pow2(m)) == if k >= m then Pow2(k - m) else 0
  {
    if k >= m {
      Pow2Split(k - m, m);
      DivModUnique(Pow2(k), Pow2(m), Pow2(k - m), 0);
    } else {
      Pow2Monotone(k + 1, m);
      DivModUnique(Pow2(k), Pow2(m), 0, Pow2(k));
    }
  }

  lemma OddPower(n: nat)
    ensures n == 0 || Pow2(n) % 2 == 0
  {
  }

  // No bit set among the first q.
  ghost predicate NoBit(b: seq<byte>, q: nat)
    requires q <= 8 * |b|
  {
    TopBits(b, q) == 0
  }

  ghost predicate PowerOfTwo(b: seq<byte>, p: nat)
    requires p <= 8 * |b|
  {
    Val(b) == Pow2(8 * |b| - p)
  }

  // What one more bit does to the two loop states.
  lemma NextBit(b: seq<byte>, i: nat, k: nat, at: nat)
    requires i < |b| && k < 8
    ensures And8(b[i], Bit(k)) == 0 && NoBit(b, 8 * i + k) ==> NoBit(b, 8 * i + k + 1)
    ensures And8(b[i], Bit(k)) != 0 && NoBit(b, 8 * i + k) ==> OneBit(b, 8 * i + k + 1, 8 * i + k + 1)
    ensures And8(b[i], Bit(k)) == 0 && OneBit(b, 8 * i + k, at) ==> OneBit(b, 8 * i + k + 1, at)
    ensures And8(b[i], Bit(k)) != 0 && OneBit(b, 8 * i + k, at) ==>
              forall p :: 0 <= p <= 8 * |b| ==> !PowerOfTwo(b, p)
  {
    hide TopBits, And8, Bit;
    var q := 8 * i + k;
    TopBitsStep(b, i, k);
    if OneBit(b, q, at) {
      assert q + 1 - at == (q - at) + 1;
      if And8(b[i], Bit(k)) != 0 {
        forall p | 0 <= p <= 8 * |b| ensures !PowerOfTwo(b, p) {
          TwoBits(b, q + 1, TopBits(b, q), p);
        }
      }
    }
  }

  // The position of the only set bit, counting from one at the left.
  method SingleBit(span: seq<byte>) returns (bits: nat, ok: bool)
    ensures ok ==> 1 <= bits <= 8 * |span| && PowerOfTwo(span, bits)
    ensures !ok ==> forall p :: 1 <= p <= 8 * |span| ==> !PowerOfTwo(span, p)
  {
    hide NoBit, OneBit, PowerOfTwo, And8, Bit;
    bits := 0;
    var seen := false;
    AllBits(span);
    var i := 0;
    while i < |span|
      invariant 0 <= i <= |span|
      invariant if seen then OneBit(span, 8 * i, bits) else NoBit(span, 8 * i)
    {
      var k := 0;
      while k < 8
        invariant 0 <= k <= 8
        invariant if seen then OneBit(span, 8 * i + k, bits) else NoBit(span, 8 * i + k)
      {
        NextBit(span, i, k, bits);
        if And8(span[i], Bit(k)) != 0 {
          if seen {
            return 0, false;
          }
          seen := true;
          bits := i * 8 + k + 1;
        }
        k := k + 1;
      }
      i := i + 1;
    }
    BitsAtEnd(span, bits);
    ok := seen;
  }

  lemma AllBits(b: seq<byte>)
    ensures NoBit(b, 0)
  {
    HighBytes(b, 0);
  }

  lemma BitsAtEnd(b: seq<byte>, at: nat)
    ensures OneBit(b, 8 * |b|, at) ==> 1 <= at <= 8 * |b| && PowerOfTwo(b, at)
    ensures NoBit(b, 8 * |b|) ==> forall p :: 1 <= p <= 8 * |b| ==> !PowerOfTwo(b, p)
  {
    HighBytes(b, |b|);
    assert b[..|b|] == b;
  }

  // start has no bit set below the prefix.
  method Aligned(start: seq<byte>, bits: nat) returns (ok: bool)
    requires bits <= 8 * |start|
    ensures ok <==> Mask(start, CidrMask(bits, |start|)) == start
  {
    var mask := CidrMask(bits, |start|);
    for i := 0 to |start|
      invariant forall j :: 0 <= j < i ==> And8(start[j], mask[j]) == start[j]
    {
      HostPart(start[i], ClampBits(bits, i));
      if And8(start[i], Not8(mask[i])) != 0 {
        assert Mask(start, mask)[i] != start[i];
        return false;
      }
    }
    ok := true;
  }

  // The host bits of a byte are clear exactly when masking keeps the byte.
  lemma HostPart(x: byte, k: nat)
    requires k <= 8
    ensures And8(x, Not8(MaskByte(k))) == 0 <==> And8(x, MaskByte(k)) == x
  {
    hide And8, MaskByte, Not8, Pow2;
    And8Leading(x, k);
    LowPart(x, k);
  }

  lemma LowPart(x: byte, k: nat)
    requires k <= 8
    ensures And8(x, Not8(MaskByte(k))) == x % Pow2(8 - k)
  {
    hide BitAnd, Pow2;
    PowLe8(8 - k);
    BitAndLow(8, 8 - k, x);
  }

  // prefixLen: [start, endEx) as one prefix block of length at least one.
  method PrefixLen(start: seq<byte>, endEx: seq<byte>) returns (bits: nat, ok: bool)
    ensures ok ==> IsBlock(start, endEx, bits)
    ensures !ok ==> forall p :: !IsBlock(start, endEx, p)
  {
    if |endEx| != |start| {
      return 0, false;
    }
    var span := Subtract(endEx, start);
    bits, ok := SingleBit(span);
    forall p | 1 <= p <= 8 * |start|
      ensures IsBlock(start, endEx, p) <==>
              PowerOfTwo(span, p) && Mask(start, CidrMask(p, |start|)) == start
    {
      BlockIff(start, endEx, span, p);
    }
    if !ok {
      return 0, false;
    }
    var aligned := Aligned(start, bits);
    if !aligned {
      PowerUnique(span, bits);
      return 0, false;
    }
  }

  lemma PowerUnique(span: seq<byte>, bits: nat)
    requires bits <= 8 * |span| && PowerOfTwo(span, bits)
    ensures forall p :: 0 <= p <= 8 * |span| && PowerOfTwo(span, p) ==> p == bits
  {
    forall p | 0 <= p <= 8 * |span| && PowerOfTwo(span, p) ensures p == bits {
      Pow2Injective(8 * |span| - p, 8 * |span| - bits);
    }
  }

  lemma Pow2Injective(a: nat, b: nat)
    requires Pow2(a) == Pow2(b)
    ensures a == b
  {
    Pow2Strict(a, b);
    Pow2Strict(b, a);
  }

  lemma Pow2Strict(a: nat, b: nat)
    ensures a < b ==> Pow2(a) < Pow2(b)
  {
    if a < b { Pow2Monotone(a + 1, b); }
  }

  lemma BlockIff(start: seq<byte>, endEx: seq<byte>, span: seq<byte>, p: nat)
    requires |start| == |endEx| == |span| && 1 <= p <= 8 * |start|
    requires Val(span) == if Val(start) <= Val(endEx) then Val(endEx) - Val(start)
                          else Val(endEx) - Val(start) + Span(|endEx|)
    ensures IsBlock(start, endEx, p) <==> PowerOfTwo(span, p) && Mask(start, CidrMask(p, |start|)) == start
  {
    hide Val, Pow2, Mask, CidrMask, Span, Incr, Net.Last;
    var net := Net(start, p);
    EndVal(net);
    SizeBelowSpan(p, |start|);
    if net.First() == start {
      if PowerOfTwo(span, p) {
        ValInjective(net.ToInterval().end, endEx);
      }
    }
  }

  lemma SizeBelowSpan(p: nat, n: nat)
    requires 1 <= p <= 8 * n
    ensures Pow2(8 * n - p) < Span(n)
  {
    SpanIsPow2(n);
    Pow2Monotone(8 * n - p + 1, 8 * n);
  }

  // ---- renderRangeElem ----

  datatype Rendered = Cidr(net: Net) | FromTo(first: seq<byte>, last: seq<byte>) {
    ghost predicate Denotes(a: seq<byte>)
    {
      match this
      case Cidr(net) => net.Valid() && net.Contains(a)
      case FromTo(first, last) => Val(first) <= Val(a) <= Val(last)
    }
  }

  // The text form denotes exactly the addresses of the interval, and the
  // interval of a prefix of length at least one renders as that prefix.
  method RenderRangeElem(start: seq<byte>, endEx: seq<byte>) returns (r: Rendered)
    requires |start| == |endEx| > 0
    requires Val(start) < Val(endEx) || Val(endEx) == 0
    ensures forall a :: |a| == |start| ==> (r.Denotes(a) <==> Interval(start, endEx).Covers(a))
    ensures forall p :: IsBlock(start, endEx, p) ==> r == Cidr(Net(start, p))
  {
    hide Rendered.Denotes, Interval.Covers, Net.Contains, IsBlock, Val;
    var ones, ok := PrefixLen(start, endEx);
    if ok {
      r := Cidr(Net(start, ones));
      BlockDenotes(start, endEx, ones);
      forall p | IsBlock(start, endEx, p) ensures p == ones {
        BlockUnique(start, endEx, p, ones);
      }
    } else {
      var last := DecIP(endEx);
      r := FromTo(start, last);
      RangeDenotes(start, endEx, last);
    }
  }

  lemma BlockDenotes(start: seq<byte>, endEx: seq<byte>, p: nat)
    requires IsBlock(start, endEx, p)
    ensures forall a :: |a| == |start| ==> (Cidr(Net(start, p)).Denotes(a) <==> Interval(start, endEx).Covers(a))
  {
    hide Interval.Covers, Net.Contains, Val, Mask, CidrMask, Incr, Net.Last;
    forall a: seq<byte> | |a| == |start| ensures Cidr(Net(start, p)).Denotes(a) <==> Interval(start, endEx).Covers(a) {
      IntervalOfNet(Net(start, p), a);
    }
  }

  lemma RangeDenotes(start: seq<byte>, endEx: seq<byte>, last: seq<byte>)
    requires |start| == |endEx| == |last| && Incr(last) == endEx && (Val(start) < Val(endEx) || Val(endEx) == 0)
    ensures forall a :: |a| == |start| ==> (FromTo(start, last).Denotes(a) <==> Interval(start, endEx).Covers(a))
  {
    hide Val, Incr, Span;
    IncrVal(last);
    NextMod(Val(last), Span(|last|));
  }

  lemma {:induction false} BlockUnique(start: seq<byte>, endEx: seq<byte>, p: nat, q: nat)
    requires IsBlock(start, endEx, p) && IsBlock(start, endEx, q)
    ensures p == q
  {
    hide Val, Pow2, Mask, CidrMask, Span, Incr, Net.Last, Net.First;
    EndVal(Net(start, p));
    EndVal(Net(start, q));
    Pow2Injective(8 * |start| - p, 8 * |start| - q);
  }
}
