/** Containment of prefixes: they are nested or disjoint. */
module Prefixes {
  import opened Bytes
  import opened AddressSets
  import opened Outcomes
  import opened Rules
  import Rendering

  // Prefix b covers all of prefix a.
  predicate PrefixContains(a: Net, b: Net)
  {
    && |a.addr| == |b.addr|
    && Mask(a.addr, CidrMask(b.bits, |b.addr|)) == Mask(b.addr, CidrMask(b.bits, |b.addr|))
    && b.bits <= a.bits
  }

  // A host is a prefix of full length.
  function ToPrefix(a: Addr): Option<Net>
  {
    match a
    case Host(b) => Some(Net(b, 8 * |b|))
    case Cidr(net) => Some(net)
    case _ => None
  }

  lemma LongerPrefix(x: seq<byte>, a: seq<byte>, p: nat, q: nat)
    requires |x| == |a| && q <= p <= 8 * |a| && SamePrefix(x, a, p)
    ensures SamePrefix(x, a, q)
  {
    var n := 8 * |a|;
    hide Val, Pow2;
    Pow2Split(n - p, p - q);
    Rendering.QuotQuot(Val(x), Pow2(n - p), Pow2(p - q));
    Rendering.QuotQuot(Val(a), Pow2(n - p), Pow2(p - q));
    assert n - q == (n - p) + (p - q);
  }

  lemma {:induction false} PrefixSound(a: Net, b: Net, x: seq<byte>)
    requires a.Valid() && b.Valid() && PrefixContains(a, b) && a.Contains(x)
    ensures b.Contains(x)
  {
    hide Mask, CidrMask, Val, Pow2;
    MaskEqIsSamePrefix(a.addr, b.addr, b.bits);
    LongerPrefix(x, a.addr, a.bits, b.bits);
  }

  // Two prefixes share an address exactly when one contains the other.
  lemma {:induction false} NestedOrDisjoint(a: Net, b: Net, x: seq<byte>)
    requires a.Valid() && b.Valid() && a.Contains(x) && b.Contains(x)
    ensures PrefixContains(a, b) || PrefixContains(b, a)
  {
    if a.bits <= b.bits { Nested(b, a, x); } else { Nested(a, b, x); }
  }

  lemma Nested(a: Net, b: Net, x: seq<byte>)
    requires a.Valid() && b.Valid() && a.Contains(x) && b.Contains(x) && b.bits <= a.bits
    ensures PrefixContains(a, b)
  {
    hide Mask, CidrMask, Val, Pow2;
    LongerPrefix(x, a.addr, a.bits, b.bits);
    MaskEqIsSamePrefix(a.addr, b.addr, b.bits);
  }

  lemma ToPrefixMeans(a: Addr, x: seq<byte>)
    requires a.Valid() && ToPrefix(a).Some?
    ensures ToPrefix(a).value.Valid() && (ToPrefix(a).value.Contains(x) <==> a.Contains(x))
  {
    hide Val, Mask, CidrMask;
    if a.Host? && |a.host| == |x| {
      MaskEqIsSamePrefix(x, a.host, 8 * |x|);
      MaskAll(x, 8 * |x|);
      MaskAll(a.host, 8 * |x|);
    }
  }

  lemma OwnPrefix(a: Net)
    requires a.Valid()
    ensures a.Contains(a.addr)
  {
  }

  lemma NetMeans(a: Net, x: seq<byte>)
    requires a.Valid()
    ensures Net(a.First(), a.bits).Valid() && (Net(a.First(), a.bits).Contains(x) <==> a.Contains(x))
  {
    hide Mask, CidrMask, SamePrefix;
    if |x| == |a.addr| {
      MaskEqIsSamePrefix(x, a.addr, a.bits);
      MaskEqIsSamePrefix(x, a.First(), a.bits);
      MaskIdempotent(a.addr, a.bits);
    }
  }

  // A prefix inside a longer one covers it only when the two are equal.
  lemma WiderInside(a: Net, b: Net)
    requires a.Valid() && b.Valid() && PrefixContains(b, a) && forall x :: a.Contains(x) ==> b.Contains(x)
    ensures PrefixContains(a, b)
  {
    hide Val, Pow2, Mask, CidrMask, SamePrefix, Net.Last, Net.First, Net.Size;
    assert |a.addr| == |b.addr| && a.bits <= b.bits by { ContainedBits(b, a); }
    LastVal(a);
    SizePositive(a);
    NetBounds(a, a.First());
    NetBounds(a, a.Last());
    NetBounds(b, a.First());
    NetBounds(b, a.Last());
    assert b.Contains(a.First()) && b.Contains(a.Last());
    assert a.Size() <= b.Size();
    SizeGrows(a, b);
    OwnPrefix(a);
    Nested(a, b, a.addr);
  }

  lemma ContainedBits(a: Net, b: Net)
    requires PrefixContains(a, b)
    ensures |a.addr| == |b.addr| && b.bits <= a.bits
  {
  }

  lemma SizePositive(a: Net)
    requires a.Valid()
    ensures a.Size() >= 1
  {
    hide Pow2;
    PowerPositive(8 * |a.addr| - a.bits);
  }

  lemma PowerPositive(n: nat)
    ensures Pow2(n) >= 1
  {
  }

  lemma SizeGrows(a: Net, b: Net)
    requires a.Valid() && b.Valid() && |a.addr| == |b.addr| && a.bits <= b.bits && a.Size() <= b.Size()
    ensures a.bits == b.bits
  {
    var w := 8 * |a.addr|;
    if a.bits < b.bits {
      Pow2Monotone(w - b.bits, w - a.bits - 1);
      PowerPositive(w - b.bits);
      DoublePower(w - a.bits);
    }
  }

  lemma DoublePower(n: nat)
    requires n > 0
    ensures Pow2(n) == 2 * Pow2(n - 1)
  {
  }

  // One prefix contains another exactly when its addresses include the
  // other's.
  lemma InsideIff(a: Net, b: Net)
    requires a.Valid() && b.Valid()
    ensures PrefixContains(a, b) <==> forall x :: a.Contains(x) ==> b.Contains(x)
  {
    hide PrefixContains, SamePrefix;
    if PrefixContains(a, b) {
      forall x | a.Contains(x) ensures b.Contains(x) { PrefixSound(a, b, x); }
    }
    if forall x :: a.Contains(x) ==> b.Contains(x) {
      OwnPrefix(a);
      if PrefixContains(b, a) { WiderInside(a, b); } else { NestedOrDisjoint(a, b, a.addr); }
    }
  }
}
