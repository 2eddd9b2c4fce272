/** Address sets: CIDR prefixes encoded as half-open byte-string intervals
    whose end wraps to zero at the top of the address space, merged the way
    the compiler does before handing them to the kernel. */
module AddressSets {
  import opened Bytes
  import opened Ranges
  import opened Outcomes

  // ---- byte-wise carry arithmetic ----

  // Adding one with carry propagation, wrapping all ones to zero.
  function Incr(b: seq<byte>): (r: seq<byte>)
    ensures |r| == |b|
  {
    if b == [] then []
    else
      var n := |b| - 1;
      if b[n] < 255 then b[..n] + [b[n] + 1] else Incr(b[..n]) + [0]
  }

  lemma {:induction false} IncrVal(b: seq<byte>)
    ensures Val(Incr(b)) == (Val(b) + 1) % Span(|b|)
  {
    if b != [] {
      var n := |b| - 1;
      if b[n] < 255 {
        ValSnoc(b[..n], b[n] + 1);
      } else {
        IncrVal(b[..n]);
        ValSnoc(Incr(b[..n]), 0);
      }
      CarryByte(Val(b[..n]), b[n], Span(n));
    }
  }

  lemma CarryByte(v: nat, l: byte, s: nat)
    requires v < s
    ensures (256 * v + l + 1) % (256 * s) == if l < 255 then 256 * v + l + 1 else 256 * ((v + 1) % s)
  {
    if v + 1 == s {
      DivModUnique(v + 1, s, 1, 0);
      if l == 255 {
        DivModUnique(256 * v + l + 1, 256 * s, 1, 0);
      } else {
        DivModUnique(256 * v + l + 1, 256 * s, 0, 256 * v + l + 1);
      }
    } else {
      DivModUnique(v + 1, s, 0, v + 1);
      DivModUnique(256 * v + l + 1, 256 * s, 0, 256 * v + l + 1);
    }
  }

  method AddOne(ip: seq<byte>) returns (out: seq<byte>)
    ensures |out| == |ip| && out == Incr(ip)
    ensures Val(out) == (Val(ip) + 1) % Span(|ip|)
  {
    out := ip;
    var i := |ip| - 1;
    assert ip[..|ip|] == ip;
    while i >= 0
      invariant -1 <= i < |ip| && |out| == |ip|
      invariant out == ip[..i + 1] + Zeros(|ip| - 1 - i)
      invariant Incr(ip) == Incr(ip[..i + 1]) + Zeros(|ip| - 1 - i)
    {
      assert ip[..i + 1][..i] == ip[..i];
      out := out[i := if out[i] == 255 then 0 else out[i] + 1];
      if out[i] != 0 {
        break;
      }
      i := i - 1;
    }
    IncrVal(ip);
  }

  // Subtracting one with borrow propagation, wrapping zero to all ones.
  function Decr(b: seq<byte>): (r: seq<byte>)
    ensures |r| == |b|
  {
    if b == [] then []
    else
      var n := |b| - 1;
      if b[n] > 0 then b[..n] + [b[n] - 1] else Decr(b[..n]) + [255]
  }

  // decIP and addOne undo each other on every byte string.
  lemma {:induction false} DecrUndoesIncr(b: seq<byte>)
    ensures Decr(Incr(b)) == b && Incr(Decr(b)) == b
  {
    if b != [] {
      var n := |b| - 1;
      DecrUndoesIncr(b[..n]);
      assert b == b[..n] + [b[n]];
      var up, down := Incr(b), Decr(b);
      assert up[..n] == if b[n] < 255 then b[..n] else Incr(b[..n]);
      assert down[..n] == if b[n] > 0 then b[..n] else Decr(b[..n]);
    }
  }

  function Repeat(x: byte, n: nat): (r: seq<byte>)
    ensures |r| == n && forall i :: 0 <= i < n ==> r[i] == x
  {
    seq(n, _ => x)
  }

  method DecIP(ip: seq<byte>) returns (out: seq<byte>)
    ensures |out| == |ip| && Incr(out) == ip
    ensures out == Decr(ip)
  {
    out := ip;
    var i := |ip| - 1;
    assert ip[..|ip|] == ip;
    while i >= 0
      invariant -1 <= i < |ip| && |out| == |ip|
      invariant out == ip[..i + 1] + Repeat(255, |ip| - 1 - i)
      invariant Decr(ip) == Decr(ip[..i + 1]) + Repeat(255, |ip| - 1 - i)
    {
      assert ip[..i + 1][..i] == ip[..i];
      if out[i] > 0 {
        out := out[i := out[i] - 1];
        break;
      }
      out := out[i := 255];
      i := i - 1;
    }
    assert out == Decr(ip);
    DecrUndoesIncr(ip);
  }

  // ---- prefixes as intervals ----

  // A network: an address of some width and a prefix length.
  datatype Net = Net(addr: seq<byte>, bits: nat) {
    ghost predicate Valid() { bits <= 8 * |addr| && addr != [] }

    // Number of addresses in the block.
    ghost function Size(): nat requires Valid() { Pow2(8 * |addr| - bits) }

    ghost predicate Contains(a: seq<byte>)
      requires Valid()
    {
      |a| == |addr| && SamePrefix(a, addr, bits)
    }

    function First(): (r: seq<byte>)
      ensures |r| == |addr|
    {
      Mask(addr, CidrMask(bits, |addr|))
    }

    // lastAddr: the masked address with every host bit set.
    function Last(): (r: seq<byte>)
      ensures |r| == |addr|
    {
      var m := CidrMask(bits, |addr|);
      seq(|addr|, i requires 0 <= i < |addr| => Or8(First()[i], Not8(m[i])))
    }

    function ToInterval(): (r: Interval)
      ensures |r.start| == |addr| && |r.end| == |addr|
    {
      Interval(First(), Incr(Last()))
    }
  }

  lemma {:induction false} BitOrLowOnes(n: nat, j: nat, x: nat)
    requires j <= n && x < Pow2(n) && x % Pow2(j) == 0
    ensures BitOr(n, x, Pow2(j) - 1) == x + Pow2(j) - 1
  {
    if n > 0 {
      if j == 0 {
        BitOrZero(n, x);
      } else {
        var m := Pow2(j - 1);
        assert (Pow2(j) - 1) / 2 == m - 1;
        HalfMod(x, m);
        BitOrLowOnes(n - 1, j - 1, x / 2);
      }
    }
  }

  lemma {:induction false} BitOrZero(n: nat, x: nat)
    requires x < Pow2(n)
    ensures BitOr(n, x, 0) == x
  {
    if n > 0 { BitOrZero(n - 1, x / 2); }
  }

  lemma HostByte(x: byte, k: nat)
    requires k <= 8
    ensures Or8(And8(x, MaskByte(k)), Not8(MaskByte(k))) == And8(x, MaskByte(k)) + Pow2(8 - k) - 1
  {
    And8Leading(x, k);
    RoundedMod(x, Pow2(8 - k));
    Pow2Of8();
    BitOrLowOnes(8, 8 - k, And8(x, MaskByte(k)));
  }

  lemma {:induction false} LastVal(net: Net)
    requires net.Valid()
    ensures Val(net.Last()) == Val(net.First()) + net.Size() - 1
  {
    HostBits(net.addr, net.bits);
  }

  ghost function Gap(net: Net): int {
    Val(net.Last()) - Val(net.First())
  }

  lemma {:induction false} HostBits(b: seq<byte>, p: nat)
    requires p <= 8 * |b|
    ensures Gap(Net(b, p)) == Pow2(8 * |b| - p) - 1
  {
    if b != [] {
      var n := |b| - 1;
      var q := if p <= 8 * n then p else 8 * n;
      HostBits(b[..n], q);
      HostBitsStep(b, p, q);
    }
  }

  lemma HostBitsStep(b: seq<byte>, p: nat, q: nat)
    requires p <= 8 * |b| && b != [] && q == if p <= 8 * (|b| - 1) then p else 8 * (|b| - 1)
    requires Gap(Net(b[..|b| - 1], q)) == Pow2(8 * (|b| - 1) - q) - 1
    ensures Gap(Net(b, p)) == Pow2(8 * |b| - p) - 1
  {
    hide Gap, Pow2;
    GapStep(b, p, q);
    HostBitsSize(p, |b| - 1);
    assert 8 * |b| - p == 8 * (|b| - 1 + 1) - p;
  }

  lemma GapStep(b: seq<byte>, p: nat, q: nat)
    requires p <= 8 * |b| && b != [] && q == if p <= 8 * (|b| - 1) then p else 8 * (|b| - 1)
    ensures Gap(Net(b, p)) == 256 * Gap(Net(b[..|b| - 1], q)) + Pow2(8 - ClampBits(p, |b| - 1)) - 1
  {
    var init, l, k := Net(b[..|b| - 1], q), b[|b| - 1], ClampBits(p, |b| - 1);
    var f := And8(l, MaskByte(k));
    HostBitsSplit(b, p);
    HostByte(l, k);
    ValSnoc(init.First(), f);
    ValSnoc(init.Last(), Or8(f, Not8(MaskByte(k))));
  }

  lemma HostBitsSplit(b: seq<byte>, p: nat)
    requires p <= 8 * |b| && b != []
    ensures var n := |b| - 1;
            var net, init := Net(b, p), Net(b[..n], if p <= 8 * n then p else 8 * n);
            && net.First() == init.First() + [And8(b[n], MaskByte(ClampBits(p, n)))]
            && net.Last() == init.Last() + [Or8(And8(b[n], MaskByte(ClampBits(p, n))), Not8(MaskByte(ClampBits(p, n))))]
  {
    var n := |b| - 1;
    assert CidrMask(if p <= 8 * n then p else 8 * n, n) == CidrMask(p, |b|)[..n];
  }

  lemma HostBitsSize(p: nat, n: nat)
    requires p <= 8 * (n + 1)
    ensures Pow2(8 * (n + 1) - p) ==
            256 * (Pow2(8 * n - (if p <= 8 * n then p else 8 * n)) - 1) + Pow2(8 - ClampBits(p, n))
  {
    if p <= 8 * n {
      assert 8 * (n + 1) - p == (8 * n - p) + 8;
      Pow2Add8(8 * n - p);
      Pow2Of8();
    } else {
      assert 8 * (n + 1) - p == 8 - ClampBits(p, n);
      assert Pow2(0) == 1;
    }
  }

  // A half-open range of addresses; an end of all zero bytes is the top of
  // the address space.
  datatype Interval = Interval(start: seq<byte>, end: seq<byte>) {
    ghost predicate Sized(n: nat) { |start| == n && |end| == n }

    ghost function ToRange(): Range { Range(Val(start), Val(end)) }

    ghost predicate Covers(a: seq<byte>) { ToRange().Covers(Val(a)) }
  }

  // Divisions by the block size bracket the block.
  lemma BlockBounds(x: nat, y: nat, s: nat, first: nat)
    requires s > 0 && first == RoundDown(y, s)
    ensures x / s == y / s <==> first <= x < first + s
  {
    DivModIdentity(x, s);
    DivModIdentity(y, s);
    NonzeroMultiple(x / s - y / s, s);
    assert (x / s - y / s) * s == x / s * s - y / s * s;
  }

  lemma NetStart(net: Net)
    requires net.Valid()
    ensures Val(net.First()) == RoundDown(Val(net.addr), net.Size())
    ensures Val(net.First()) + net.Size() <= Span(|net.addr|)
  {
    hide Val, Pow2, Mask, CidrMask, Span, Net.Last, RoundDown;
    MaskVal(net.addr, net.bits);
    LastVal(net);
  }

  lemma NetBounds(net: Net, a: seq<byte>)
    requires net.Valid() && |a| == |net.addr|
    ensures net.Contains(a) <==> Val(net.First()) <= Val(a) < Val(net.First()) + net.Size()
  {
    hide Val, Pow2, Mask, CidrMask, RoundDown;
    MaskVal(net.addr, net.bits);
    BlockBounds(Val(a), Val(net.addr), net.Size(), Val(net.First()));
  }

  function AllOnes(n: nat): seq<byte> { Repeat(255, n) }

  lemma {:induction false} AllOnesVal(n: nat)
    ensures Val(AllOnes(n)) == Span(n) - 1
  {
    if n > 0 {
      AllOnesVal(n - 1);
      ValSnoc(AllOnes(n - 1), 255);
      assert AllOnes(n) == AllOnes(n - 1) + [255];
    }
  }

  // The interval of a prefix covers exactly the addresses of the prefix,
  // and wraps exactly when the prefix reaches the all-ones address.
  lemma {:induction false} IntervalOfNet(net: Net, a: seq<byte>)
    requires net.Valid() && |a| == |net.addr|
    ensures net.ToInterval().Covers(a) <==> net.Contains(a)
  {
    NetBounds(net, a);
    EndVal(net);
  }

  lemma {:induction false} WrapsAtAllOnes(net: Net)
    requires net.Valid()
    ensures net.ToInterval().ToRange().Wraps() <==> net.Contains(AllOnes(|net.addr|))
    ensures net.ToInterval().ToRange().Wraps() || Val(net.ToInterval().start) < Val(net.ToInterval().end)
  {
    NetBounds(net, AllOnes(|net.addr|));
    EndVal(net);
    AllOnesVal(|net.addr|);
  }

  lemma EndVal(net: Net)
    requires net.Valid()
    ensures Val(net.First()) + net.Size() <= Span(|net.addr|)
    ensures Val(net.ToInterval().end) == if Val(net.First()) + net.Size() == Span(|net.addr|) then 0
                                         else Val(net.First()) + net.Size()
  {
    hide Val, Pow2, Mask, CidrMask, Span, Incr, Net.Last, Net.First;
    var last := net.Last();
    LastVal(net);
    IncrVal(last);
    NextMod(Val(last), Span(|last|));
  }

  lemma NextMod(last: nat, span: nat)
    requires last < span
    ensures (last + 1) % span == if last + 1 == span then 0 else last + 1
  {
    if last + 1 == span {
      DivModUnique(last + 1, span, 1, 0);
    } else {
      DivModUnique(last + 1, span, 0, last + 1);
    }
  }

  // ---- merging ----

  ghost predicate AllSized(ivs: seq<Interval>, n: nat)
  {
    forall i :: 0 <= i < |ivs| ==> ivs[i].Sized(n)
  }

  ghost function ToRanges(ivs: seq<Interval>): (r: seq<Range>)
    ensures |r| == |ivs|
  {
    seq(|ivs|, i requires 0 <= i < |ivs| => ivs[i].ToRange())
  }

  // Any arrangement that sort.Slice may leave: it is not stable, so
  // intervals with equal starts come in no particular order.
  ghost predicate SortedArrangement(s: seq<Interval>, ivs: seq<Interval>)
  {
    multiset(s) == multiset(ivs) && SortedByStart(ToRanges(s))
  }

  // Where insertion sort puts iv in a sorted list.
  method InsertionPoint(s: seq<Interval>, iv: Interval, n: nat) returns (k: nat)
    requires AllSized(s, n) && iv.Sized(n)
    ensures k <= |s|
    ensures k > 0 ==> Val(s[k - 1].start) <= Val(iv.start)
    ensures k < |s| ==> Val(iv.start) <= Val(s[k].start)
  {
    k := |s|;
    while k > 0
      invariant 0 <= k <= |s|
      invariant k < |s| ==> Val(iv.start) <= Val(s[k].start)
    {
      var c := Compare(iv.start, s[k - 1].start);
      if c >= 0 { return; }
      k := k - 1;
    }
  }

  lemma InsertAddsOne(s: seq<Interval>, ivs: seq<Interval>, k: nat)
    requires k <= |s| && ivs != [] && multiset(s) == multiset(ivs[1..])
    ensures multiset(s[..k] + [ivs[0]] + s[k..]) == multiset(ivs)
  {
    assert ivs == [ivs[0]] + ivs[1..];
    assert s == s[..k] + s[k..];
  }

  method SortByStart(ivs: seq<Interval>, n: nat) returns (s: seq<Interval>)
    requires AllSized(ivs, n)
    ensures SortedArrangement(s, ivs) && AllSized(s, n)
    decreases |ivs|
  {
    if ivs == [] {
      s := [];
    } else {
      var t := SortByStart(ivs[1..], n);
      var k := InsertionPoint(t, ivs[0], n);
      s := t[..k] + [ivs[0]] + t[k..];
      InsertArranges(t, ivs, k);
    }
  }

  lemma InsertArranges(t: seq<Interval>, ivs: seq<Interval>, k: nat)
    requires k <= |t| && ivs != [] && SortedArrangement(t, ivs[1..])
    requires k > 0 ==> Val(t[k - 1].start) <= Val(ivs[0].start)
    requires k < |t| ==> Val(ivs[0].start) <= Val(t[k].start)
    ensures SortedArrangement(t[..k] + [ivs[0]] + t[k..], ivs)
  {
    hide Val;
    InsertKeepsSorted(ToRanges(t), ivs[0].ToRange(), k);
    assert ToRanges(t[..k] + [ivs[0]] + t[k..]) == ToRanges(t)[..k] + [ivs[0].ToRange()] + ToRanges(t)[k..];
    InsertAddsOne(t, ivs, k);
  }

  // One pass of the merge loop body.
  method MergeInto(merged: seq<Interval>, iv: Interval, n: nat) returns (out: seq<Interval>)
    requires merged != [] && AllSized(merged, n) && iv.Sized(n)
    ensures out != [] && AllSized(out, n)
    ensures ToRanges(out) == MergeStep(ToRanges(merged), iv.ToRange())
  {
    hide Val;
    out := merged;
    var last := out[|out| - 1];
    var toStart := Compare(iv.start, last.end);
    if toStart <= 0 {
      var toEnd := Compare(iv.end, last.end);
      if toEnd > 0 {
        out := out[|out| - 1 := last.(end := iv.end)];
        assert ToRanges(out) == ToRanges(merged)[|out| - 1 := last.(end := iv.end).ToRange()];
      }
    } else {
      out := out + [iv];
      assert ToRanges(out) == ToRanges(merged) + [iv.ToRange()];
    }
  }

  // The byte-wise merge loop is the numeric merge of the same intervals.
  method MergeIntervals(ivs: seq<Interval>, n: nat) returns (out: seq<Interval>)
    requires AllSized(ivs, n)
    ensures AllSized(out, n)
    ensures exists s :: SortedArrangement(s, ivs) && ToRanges(out) == MergeSorted(ToRanges(s))
  {
    hide Val, MergeStep;
    var s := SortByStart(ivs, n);
    if |s| == 0 {
      assert ToRanges(s) == [];
      out := [];
      return;
    }
    out := [s[0]];
    var i := 1;
    ghost var rs := ToRanges(s);
    assert ToRanges(out) == [rs[0]];
    while i < |s|
      invariant 1 <= i <= |s| && out != [] && AllSized(out, n)
      invariant MergeFrom(ToRanges(out), rs[i..]) == MergeSorted(rs)
    {
      assert rs[i..][0] == s[i].ToRange() && rs[i..][1..] == rs[i + 1..];
      out := MergeInto(out, s[i], n);
      i := i + 1;
    }
  }

  // ---- interval sets ----

  // One element of an nftables interval set: a start key, or the exclusive
  // end of the interval that the preceding element started.
  datatype Element = Element(key: seq<byte>, intervalEnd: bool)

  ghost predicate InSet(elems: seq<Element>, a: seq<byte>)
  {
    exists i :: 0 <= i < |elems| - 1 && PairCovers(elems, i, a)
  }

  ghost predicate PairCovers(elems: seq<Element>, i: nat, a: seq<byte>)
    requires i < |elems| - 1
  {
    && !elems[i].intervalEnd && elems[i + 1].intervalEnd
    && Interval(elems[i].key, elems[i + 1].key).Covers(a)
  }

  function ElementsOf(ivs: seq<Interval>): (r: seq<Element>)
    ensures r != [] ==> r[|r| - 1].intervalEnd
  {
    if ivs == [] then []
    else
      var iv := ivs[|ivs| - 1];
      ElementsOf(ivs[..|ivs| - 1]) + [Element(iv.start, false), Element(iv.end, true)]
  }

  lemma {:induction false} InSetIffCovered(ivs: seq<Interval>, a: seq<byte>)
    ensures InSet(ElementsOf(ivs), a) <==> AnyCovers(ToRanges(ivs), Val(a))
  {
    if ivs != [] {
      var init, iv := ivs[..|ivs| - 1], ivs[|ivs| - 1];
      InSetIffCovered(init, a);
      InSetSnoc(ElementsOf(init), iv, a);
      assert ToRanges(ivs) == ToRanges(init) + [iv.ToRange()];
      AnyCoversSnoc(ToRanges(init), iv.ToRange(), Val(a));
    }
  }

  lemma InSetSnoc(elems: seq<Element>, iv: Interval, a: seq<byte>)
    requires elems != [] ==> elems[|elems| - 1].intervalEnd
    ensures InSet(elems + [Element(iv.start, false), Element(iv.end, true)], a) <==> InSet(elems, a) || iv.Covers(a)
  {
    hide Interval.Covers;
    var all := elems + [Element(iv.start, false), Element(iv.end, true)];
    if InSet(elems, a) {
      var i :| 0 <= i < |elems| - 1 && PairCovers(elems, i, a);
      assert PairCovers(all, i, a);
    }
    if iv.Covers(a) {
      assert PairCovers(all, |elems|, a);
    }
    if InSet(all, a) {
      var i :| 0 <= i < |all| - 1 && PairCovers(all, i, a);
      assert i < |elems| ==> i < |elems| - 1 && PairCovers(elems, i, a);
    }
  }

  // The source list of a set after textual parsing: None is an element that
  // is neither an address nor a prefix.
  type Sources = seq<Option<Net>>

  ghost predicate ValidSources(sources: Sources)
  {
    forall i :: 0 <= i < |sources| && sources[i].Some? ==>
      sources[i].value.Valid() && |sources[i].value.addr| in {4, 16}
  }

  ghost predicate Listed(sources: Sources, a: seq<byte>)
    requires ValidSources(sources)
  {
    exists i :: 0 <= i < |sources| && sources[i].Some? && sources[i].value.Contains(a)
  }

  // No listed prefix of width n contains the all-ones address.
  ghost predicate BelowTop(sources: Sources, n: nat)
    requires ValidSources(sources)
  {
    !Listed(sources, AllOnes(n))
  }

  // The intervals of the listed prefixes of width n, in list order.
  function IntervalsOf(sources: Sources, n: nat): (r: seq<Interval>)
    ensures AllSized(r, n)
  {
    if sources == [] then []
    else
      var rest, last := IntervalsOf(sources[..|sources| - 1], n), sources[|sources| - 1];
      if last.Some? && |last.value.addr| == n then rest + [last.value.ToInterval()] else rest
  }

  lemma {:induction false} IntervalsDenoteSources(sources: Sources, n: nat, a: seq<byte>)
    requires ValidSources(sources) && |a| == n
    ensures AnyCovers(ToRanges(IntervalsOf(sources, n)), Val(a)) <==> Listed(sources, a)
  {
    if sources != [] {
      var init, last := sources[..|sources| - 1], sources[|sources| - 1];
      var rest := IntervalsOf(init, n);
      IntervalsDenoteSources(init, n, a);
      ListedSnoc(sources, a);
      if last.Some? && |last.value.addr| == n {
        AnyCoversSnoc(ToRanges(rest), last.value.ToInterval().ToRange(), Val(a));
        assert ToRanges(rest + [last.value.ToInterval()]) == ToRanges(rest) + [last.value.ToInterval().ToRange()];
        IntervalOfNet(last.value, a);
      }
    }
  }

  lemma ListedSnoc(sources: Sources, a: seq<byte>)
    requires ValidSources(sources) && sources != []
    ensures var last := sources[|sources| - 1];
            Listed(sources, a) <==> Listed(sources[..|sources| - 1], a) || (last.Some? && last.value.Contains(a))
  {
    hide Net.Contains;
    var init := sources[..|sources| - 1];
    if Listed(init, a) {
      var i :| 0 <= i < |init| && init[i].Some? && init[i].value.Contains(a);
      assert sources[i] == init[i];
    }
    if Listed(sources, a) {
      var i :| 0 <= i < |sources| && sources[i].Some? && sources[i].value.Contains(a);
      assert i < |init| ==> init[i] == sources[i];
    }
  }

  lemma {:induction false} IntervalsBelowTop(sources: Sources, n: nat)
    requires ValidSources(sources) && BelowTop(sources, n)
    ensures NoneWraps(ToRanges(IntervalsOf(sources, n)))
  {
    if sources != [] {
      var init, last := sources[..|sources| - 1], sources[|sources| - 1];
      ListedSnoc(sources, AllOnes(n));
      IntervalsBelowTop(init, n);
      if last.Some? && |last.value.addr| == n {
        WrapsAtAllOnes(last.value);
        NoneWrapsSnoc(IntervalsOf(init, n), last.value.ToInterval());
      }
    }
  }

  lemma NoneWrapsSnoc(ivs: seq<Interval>, iv: Interval)
    requires NoneWraps(ToRanges(ivs)) && Val(iv.start) < Val(iv.end)
    ensures NoneWraps(ToRanges(ivs + [iv]))
  {
    hide Val;
    assert ToRanges(ivs + [iv]) == ToRanges(ivs) + [iv.ToRange()];
  }

  // Rearranging a list changes neither what it covers nor whether it wraps.
  lemma SameMembers(s: seq<Interval>, ivs: seq<Interval>, a: nat)
    requires multiset(s) == multiset(ivs)
    ensures AnyCovers(ToRanges(s), a) <==> AnyCovers(ToRanges(ivs), a)
    ensures NoneWraps(ToRanges(s)) <==> NoneWraps(ToRanges(ivs))
  {
    MembersCarryOver(s, ivs, a);
    MembersCarryOver(ivs, s, a);
  }

  lemma MembersCarryOver(s: seq<Interval>, t: seq<Interval>, a: nat)
    requires multiset(s) == multiset(t)
    ensures AnyCovers(ToRanges(s), a) ==> AnyCovers(ToRanges(t), a)
    ensures NoneWraps(ToRanges(s)) ==> NoneWraps(ToRanges(t))
  {
    if AnyCovers(ToRanges(s), a) {
      var i :| 0 <= i < |s| && ToRanges(s)[i].Covers(a);
      assert s[i] in multiset(t);
      var j :| 0 <= j < |t| && t[j] == s[i];
      assert ToRanges(t)[j].Covers(a);
    }
    if NoneWraps(ToRanges(s)) {
      forall j | 0 <= j < |t| ensures ToRanges(t)[j].start < ToRanges(t)[j].end {
        assert t[j] in multiset(s);
        var i :| 0 <= i < |s| && s[i] == t[j];
        assert ToRanges(s)[i] == ToRanges(t)[j];
      }
    }
  }

  // The elements emitted for width n: the merged intervals of the list.
  ghost predicate Encodes(elems: seq<Element>, sources: Sources, n: nat)
    requires ValidSources(sources)
  {
    exists ivs, s :: elems == ElementsOf(ivs) && MergedFrom(ivs, s, sources, n)
  }

  // The list in some sorted order, merged.
  ghost predicate MergedFrom(ivs: seq<Interval>, s: seq<Interval>, sources: Sources, n: nat)
    requires ValidSources(sources)
  {
    AllSized(ivs, n) && SortedArrangement(s, IntervalsOf(sources, n)) && ToRanges(ivs) == MergeSorted(ToRanges(s))
  }

  // Below the all-ones address the elements are regular and exact.
  lemma {:induction false} EncodedExactly(ivs: seq<Interval>, s: seq<Interval>, sources: Sources, n: nat, a: seq<byte>)
    requires ValidSources(sources) && BelowTop(sources, n) && MergedFrom(ivs, s, sources, n) && |a| == n
    ensures Separated(ToRanges(ivs))
    ensures InSet(ElementsOf(ivs), a) <==> Listed(sources, a)
  {
    IntervalsBelowTop(sources, n);
    SameMembers(s, IntervalsOf(sources, n), Val(a));
    InSetIffCovered(ivs, a);
    MergedIsSeparatedAndExact(ToRanges(s), Val(a));
    IntervalsDenoteSources(sources, n, a);
  }

  method EmitElements(ivs: seq<Interval>, n: nat) returns (elems: seq<Element>)
    requires AllSized(ivs, n)
    ensures elems == ElementsOf(ivs)
  {
    elems := [];
    for i := 0 to |ivs|
      invariant elems == ElementsOf(ivs[..i])
    {
      assert ivs[..i + 1][..i] == ivs[..i];
      elems := elems + [Element(ivs[i].start, false), Element(ivs[i].end, true)];
    }
    assert ivs[..|ivs|] == ivs;
  }

  // The elements of one family: merged intervals in set-element form.
  method CompileFamily(ivs: seq<Interval>, ghost sources: Sources, n: nat) returns (elems: seq<Element>)
    requires ValidSources(sources) && ivs == IntervalsOf(sources, n)
    ensures Encodes(elems, sources, n)
  {
    var merged := MergeIntervals(ivs, n);
    ghost var s :| SortedArrangement(s, ivs) && ToRanges(merged) == MergeSorted(ToRanges(s));
    assert MergedFrom(merged, s, sources, n);
    elems := EmitElements(merged, n);
  }

  // The intervals of both families, or an error on an unparsable element.
  method ParseSources(sources: Sources) returns (r: Result<(seq<Interval>, seq<Interval>)>)
    requires ValidSources(sources)
    ensures r.Err? <==> exists i :: 0 <= i < |sources| && sources[i].None?
    ensures r.Ok? ==> r.value == (IntervalsOf(sources, 4), IntervalsOf(sources, 16))
  {
    hide Net.ToInterval, Net.Valid;
    var iv4: seq<Interval>, iv6: seq<Interval> := [], [];
    for i := 0 to |sources|
      invariant forall j :: 0 <= j < i ==> sources[j].Some?
      invariant iv4 == IntervalsOf(sources[..i], 4) && iv6 == IntervalsOf(sources[..i], 16)
    {
      assert sources[..i + 1][..i] == sources[..i];
      match sources[i]
      case None =>
        return Err;
      case Some(net) =>
        if |net.addr| == 16 {
          iv6 := iv6 + [net.ToInterval()];
        } else {
          iv4 := iv4 + [net.ToInterval()];
        }
    }
    assert sources[..|sources|] == sources;
    r := Ok((iv4, iv6));
  }

  // compileAddressSet: the IPv4 and the IPv6 elements of one source list.
  method CompileAddressSet(sources: Sources) returns (r: Result<(seq<Element>, seq<Element>)>)
    requires ValidSources(sources)
    ensures r.Err? <==> exists i :: 0 <= i < |sources| && sources[i].None?
    ensures r.Ok? ==> Encodes(r.value.0, sources, 4) && Encodes(r.value.1, sources, 16)
  {
    var parsed := ParseSources(sources);
    if parsed.Err? { return Err; }
    var elems4 := CompileFamily(parsed.value.0, sources, 4);
    var elems6 := CompileFamily(parsed.value.1, sources, 16);
    r := Ok((elems4, elems6));
  }

  // ---- lists that reach the all-ones address ----

  // Every value below Span(n) is the value of some n-byte string.
  function Octets(v: nat, n: nat): (b: seq<byte>)
    requires v < Span(n)
    ensures |b| == n
  {
    if n == 0 then [] else Octets(v / 256, n - 1) + [v % 256]
  }

  lemma {:induction false} OctetsVal(v: nat, n: nat)
    requires v < Span(n)
    ensures Val(Octets(v, n)) == v
  {
    if n > 0 {
      OctetsVal(v / 256, n - 1);
      ValSnoc(Octets(v / 256, n - 1), v % 256);
    }
  }

  // For any order the sort may leave, the emitted elements denote exactly
  // the listed addresses just when the merge has no clash at its first
  // wrapping interval.
  lemma {:induction false} EncodingExactIff(s: seq<Interval>, merged: seq<Interval>, sources: Sources, n: nat, w: nat)
    requires ValidSources(sources) && SortedArrangement(s, IntervalsOf(sources, n))
    requires ToRanges(merged) == MergeSorted(ToRanges(s))
    requires w < |s| && ToRanges(s)[w].Wraps() && NoneWraps(ToRanges(s)[..w])
    ensures (forall a :: |a| == n ==> (InSet(ElementsOf(merged), a) <==> Listed(sources, a)))
       <==> !Clash(ToRanges(s), w)
  {
    var rs := ToRanges(s);
    ArrangementRegular(s, sources, n);
    ExactIffNoClash(rs, w, Span(n));
    forall a: seq<byte> | |a| == n
      ensures InSet(ElementsOf(merged), a) <==> AnyCovers(MergeSorted(rs), Val(a))
      ensures Listed(sources, a) <==> AnyCovers(rs, Val(a))
    {
      InSetIffCovered(merged, a);
      SameMembers(s, IntervalsOf(sources, n), Val(a));
      IntervalsDenoteSources(sources, n, a);
    }
    if forall a :: |a| == n ==> (InSet(ElementsOf(merged), a) <==> Listed(sources, a)) {
      forall v | 0 <= v < Span(n) ensures AnyCovers(MergeSorted(rs), v) <==> AnyCovers(rs, v) {
        OctetsVal(v, n);
        assert InSet(ElementsOf(merged), Octets(v, n)) <==> Listed(sources, Octets(v, n));
      }
    }
  }

  lemma ArrangementRegular(s: seq<Interval>, sources: Sources, n: nat)
    requires ValidSources(sources) && multiset(s) == multiset(IntervalsOf(sources, n))
    ensures Regular(ToRanges(s)) && EndsBelow(ToRanges(s), Span(n))
  {
    forall i | 0 <= i < |s|
      ensures ToRanges(s)[i].Wraps() || ToRanges(s)[i].start < ToRanges(s)[i].end
      ensures ToRanges(s)[i].end < Span(n)
    {
      assert s[i] in multiset(IntervalsOf(sources, n));
      IntervalsRegular(sources, n, s[i]);
    }
  }

  lemma {:induction false} IntervalsRegular(sources: Sources, n: nat, iv: Interval)
    requires ValidSources(sources) && iv in IntervalsOf(sources, n)
    ensures iv.ToRange().Wraps() || Val(iv.start) < Val(iv.end)
    ensures Val(iv.end) < Span(n)
  {
    var init, last := sources[..|sources| - 1], sources[|sources| - 1];
    if iv in IntervalsOf(init, n) {
      IntervalsRegular(init, n, iv);
    } else {
      WrapsAtAllOnes(last.value);
    }
  }

  const TOP_BLOCKS: Sources := [Some(Net([254, 0, 0, 0], 8)), Some(Net([255, 0, 0, 0], 8))]

  // The interval of b.0.0.0/8.
  lemma SlashEight(b: byte)
    ensures Net([b, 0, 0, 0], 8).Valid()
    ensures Net([b, 0, 0, 0], 8).ToInterval().ToRange() ==
            Range(b * 0x100_0000, if b == 255 then 0 else (b + 1) * 0x100_0000)
  {
    hide Val, Pow2, Net.First, Net.Last, Incr, Span;
    var net := Net([b, 0, 0, 0], 8);
    BlockVal(b);
    NetStart(net);
    EndVal(net);
    DivModUnique(Val(net.addr), net.Size(), b, 0);
  }

  lemma BlockVal(b: byte)
    ensures Val([b, 0, 0, 0]) == b * 0x100_0000 && Pow2(24) == 0x100_0000 && Span(4) == 0x1_0000_0000
  {
    hide Pow2;
    var x := [b, 0, 0, 0];
    assert x[..3] == [b, 0, 0] && x[..3][..2] == [b, 0] && x[..3][..2][..1] == [b] && x[..3][..2][..1][..0] == [];
    assert Val([b]) == b && Val([b, 0]) == 256 * b && Val([b, 0, 0]) == 0x1_0000 * b;
    Pow2Of8();
    Pow2Add8(8);
    Pow2Add8(16);
  }

  // 254.0.0.0/8 and 255.0.0.0/8: whatever elements are emitted, 255.0.0.0
  // is listed and not in the set.
  lemma {:induction false} TopBlockLost(elems: seq<Element>)
    requires ValidSources(TOP_BLOCKS) && Encodes(elems, TOP_BLOCKS, 4)
    ensures Listed(TOP_BLOCKS, [255, 0, 0, 0]) && !InSet(elems, [255, 0, 0, 0])
  {
    hide Val, Net.ToInterval, SamePrefix, InSet, Interval.ToRange, MergeSorted, ElementsOf, IntervalsOf;
    var ivs, s :| elems == ElementsOf(ivs) && MergedFrom(ivs, s, TOP_BLOCKS, 4);
    var low, high := TOP_BLOCKS[0].value, TOP_BLOCKS[1].value;
    SlashEight(254);
    SlashEight(255);
    BlockVal(255);
    TopIntervals();
    TopOrder(s, low.ToInterval(), high.ToInterval());
    TopMerged(ToRanges(s));
    InSetIffCovered(ivs, [255, 0, 0, 0]);
    OwnAddress(high);
    assert TOP_BLOCKS[1].value.Contains([255, 0, 0, 0]);
  }

  // The merge drops the range up to the top.
  lemma TopMerged(rs: seq<Range>)
    requires rs == [Range(254 * 0x100_0000, 255 * 0x100_0000), Range(255 * 0x100_0000, 0)]
    ensures MergeSorted(rs) == [rs[0]]
  {
    assert rs[1..] == [rs[1]] && rs[1..][1..] == [];
    assert MergeStep([rs[0]], rs[1]) == [rs[0]];
    assert MergeFrom([rs[0]], rs[1..]) == MergeFrom([rs[0]], rs[1..][1..]);
  }

  lemma OwnAddress(net: Net)
    requires net.Valid()
    ensures net.Contains(net.addr)
  {
  }

  lemma TopIntervals()
    ensures IntervalsOf(TOP_BLOCKS, 4) == [TOP_BLOCKS[0].value.ToInterval(), TOP_BLOCKS[1].value.ToInterval()]
  {
    hide Net.ToInterval;
    var sources := TOP_BLOCKS;
    assert sources[..1] == [sources[0]] && sources[..1][..0] == [];
    assert IntervalsOf(sources[..1], 4) == [sources[0].value.ToInterval()];
  }

  // Sorting leaves two intervals in the order of their starts.
  lemma TopOrder(s: seq<Interval>, a: Interval, b: Interval)
    requires multiset(s) == multiset([a, b]) && SortedByStart(ToRanges(s)) && a.ToRange().start < b.ToRange().start
    ensures s == [a, b]
  {
    hide Interval.ToRange;
    assert |s| == |multiset(s)| == 2;
    assert s[0] in multiset([a, b]) && s[1] in multiset([a, b]);
    assert multiset(s)[a] == 1 && multiset(s)[b] == 1;
    assert s == [s[0], s[1]];
    assert ToRanges(s)[0].start <= ToRanges(s)[1].start;
  }
}
