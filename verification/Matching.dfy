/** Match expressions: how the compiler encodes each condition of a rule, and
    what the encoded expressions test on a packet. */
module Matching {
  import opened Bytes
  import opened AddressSets
  import opened Ranges
  import opened Outcomes
  import opened Rules
  import opened Netfilter

  // ---- what a list of expressions tests ----

  ghost predicate TestFlow(f: Flow, cond: bool, t: nat)
  {
    if cond then f.Go? && f.t == t else f == Break(t)
  }

  // From any registers the expressions go on exactly when cond holds.
  ghost predicate Tests(es: NftRule, cond: bool, p: Packet, env: Env)
  {
    forall regs: Regs, t: nat :: TestFlow(RunExprs(es, p, env, regs, t), cond, t)
  }

  lemma TestsNothing(p: Packet, env: Env)
    ensures Tests([], true, p, env)
  {
  }

  lemma TestsAppend(a: NftRule, ca: bool, b: NftRule, cb: bool, p: Packet, env: Env)
    requires Tests(a, ca, p, env) && (ca ==> Tests(b, cb, p, env))
    ensures Tests(a + b, ca && cb, p, env)
  {
    hide RunExprs;
    forall regs: Regs, t: nat ensures TestFlow(RunExprs(a + b, p, env, regs, t), ca && cb, t) {
      RunExprsAppend(a, b, p, env, regs, t);
      assert TestFlow(RunExprs(a, p, env, regs, t), ca, t);
      if ca {
        var f := RunExprs(a, p, env, regs, t);
        assert TestFlow(RunExprs(b, p, env, f.regs, f.t), cb, f.t);
      }
    }
  }

  // ---- loads and comparisons on register 1 ----

  lemma LoadCmp(key: Key, eq: bool, data: seq<byte>, p: Packet, env: Env)
    requires LoadValue(key, p).Some? ==> |data| == |LoadValue(key, p).value|
    ensures Tests([Load(1, key), Cmp(1, eq, data)],
                  LoadValue(key, p).Some? && (LoadValue(key, p).value == data) == eq, p, env)
  {
    hide RunExprs, LoadValue;
    forall regs: Regs, t: nat
      ensures TestFlow(RunExprs([Load(1, key), Cmp(1, eq, data)], p, env, regs, t),
                       LoadValue(key, p).Some? && (LoadValue(key, p).value == data) == eq, t)
    {
      RunTwo(Load(1, key), Cmp(1, eq, data), p, env, regs, t);
      assert LoadValue(key, p).Some? ==> LoadValue(key, p).value[..|data|] == LoadValue(key, p).value;
    }
  }

  lemma LoadMaskCmp(key: Key, mask: seq<byte>, eq: bool, data: seq<byte>, p: Packet, env: Env)
    requires LoadValue(key, p).Some? ==> |data| == |mask| == |LoadValue(key, p).value|
    ensures Tests([Load(1, key), Bitwise(1, mask), Cmp(1, eq, data)],
                  LoadValue(key, p).Some? && (Mask(LoadValue(key, p).value, mask) == data) == eq, p, env)
  {
    hide RunExprs, LoadValue, Mask;
    forall regs: Regs, t: nat
      ensures TestFlow(RunExprs([Load(1, key), Bitwise(1, mask), Cmp(1, eq, data)], p, env, regs, t),
                       LoadValue(key, p).Some? && (Mask(LoadValue(key, p).value, mask) == data) == eq, t)
    {
      RunThree(Load(1, key), Bitwise(1, mask), Cmp(1, eq, data), p, env, regs, t);
      var f := Exec(Load(1, key), p, env, regs, t);
      if f.Go? {
        RunTwo(Bitwise(1, mask), Cmp(1, eq, data), p, env, f.regs, t);
        var m := Mask(LoadValue(key, p).value, mask);
        assert m[..|data|] == m;
      }
    }
  }

  // The header bytes a payload load reads; None when the packet is short.
  function Field(header: Header, offset: nat, len: nat, p: Packet): Option<seq<byte>>
  {
    var h := HeaderBytes(header, p);
    if offset + len <= |h| then Some(h[offset..offset + len]) else None
  }

  lemma PayloadCmp(header: Header, offset: nat, len: nat, data: seq<byte>, p: Packet, env: Env)
    requires |data| == len
    ensures Tests([Payload(1, header, offset, len), Cmp(1, true, data)],
                  Field(header, offset, len, p) == Some(data), p, env)
  {
    hide RunExprs, HeaderBytes;
    forall regs: Regs, t: nat
      ensures TestFlow(RunExprs([Payload(1, header, offset, len), Cmp(1, true, data)], p, env, regs, t),
                       Field(header, offset, len, p) == Some(data), t)
    {
      RunTwo(Payload(1, header, offset, len), Cmp(1, true, data), p, env, regs, t);
      var f := Field(header, offset, len, p);
      assert f.Some? ==> f.value[..len] == f.value;
    }
  }

  lemma PayloadMaskCmp(header: Header, offset: nat, len: nat, mask: seq<byte>, data: seq<byte>, p: Packet, env: Env)
    requires |data| == |mask| == len
    ensures Tests([Payload(1, header, offset, len), Bitwise(1, mask), Cmp(1, true, data)],
                  var f := Field(header, offset, len, p); f.Some? && Mask(f.value, mask) == data, p, env)
  {
    hide RunExprs, HeaderBytes, Mask;
    var f := Field(header, offset, len, p);
    forall regs: Regs, t: nat
      ensures TestFlow(RunExprs([Payload(1, header, offset, len), Bitwise(1, mask), Cmp(1, true, data)], p, env, regs,
              t),
                       f.Some? && Mask(f.value, mask) == data, t)
    {
      RunThree(Payload(1, header, offset, len), Bitwise(1, mask), Cmp(1, true, data), p, env, regs, t);
      var g := Exec(Payload(1, header, offset, len), p, env, regs, t);
      if g.Go? {
        RunTwo(Bitwise(1, mask), Cmp(1, true, data), p, env, g.regs, t);
        assert Mask(f.value, mask)[..len] == Mask(f.value, mask);
      }
    }
  }

  lemma PayloadRange(header: Header, offset: nat, len: nat, from: seq<byte>, to: seq<byte>, p: Packet, env: Env)
    requires |from| == |to| == len
    ensures Tests([Payload(1, header, offset, len), InRange(1, from, to)],
                  var f := Field(header, offset, len, p); f.Some? && Val(from) <= Val(f.value) <= Val(to), p, env)
  {
    hide Val, RunExprs, HeaderBytes;
    var f := Field(header, offset, len, p);
    forall regs: Regs, t: nat
      ensures TestFlow(RunExprs([Payload(1, header, offset, len), InRange(1, from, to)], p, env, regs, t),
                       f.Some? && Val(from) <= Val(f.value) <= Val(to), t)
    {
      RunTwo(Payload(1, header, offset, len), InRange(1, from, to), p, env, regs, t);
    }
  }

  lemma PayloadLookup(header: Header, offset: nat, len: nat, name: SetName, p: Packet, env: Env)
    ensures Tests([Payload(1, header, offset, len), Lookup(1, name)],
                  var f := Field(header, offset, len, p);
                  f.Some? && name in env.sets && env.sets[name].Has(f.value), p, env)
  {
    hide SetBody.Has, RunExprs, HeaderBytes;
    var f := Field(header, offset, len, p);
    forall regs: Regs, t: nat
      ensures TestFlow(RunExprs([Payload(1, header, offset, len), Lookup(1, name)], p, env, regs, t),
                       f.Some? && name in env.sets && env.sets[name].Has(f.value), t)
    {
      RunTwo(Payload(1, header, offset, len), Lookup(1, name), p, env, regs, t);
    }
  }

  // ---- family, protocol, conntrack state and address type ----

  function NfprotoMatch(v6: bool): NftRule
  {
    [Load(1, Nfproto), Cmp(1, true, [if v6 then 10 else 2])]
  }

  lemma NfprotoTests(v6: bool, p: Packet, env: Env)
    ensures Tests(NfprotoMatch(v6), p.v6 == v6, p, env)
  {
    LoadCmp(Nfproto, true, [if v6 then 10 else 2], p, env);
    var a: byte, b: byte := if p.v6 then 10 else 2, if v6 then 10 else 2;
    assert ([a] == [b]) == (a == b) by { assert [a][0] == a && [b][0] == b; }
  }

  function L4Match(num: byte): NftRule
  {
    [Load(1, L4Proto), Cmp(1, true, [num])]
  }

  lemma L4Tests(num: byte, p: Packet, env: Env)
    ensures Tests(L4Match(num), p.l4 == num, p, env)
  {
    LoadCmp(L4Proto, true, [num], p, env);
    assert ([p.l4] == [num]) == (p.l4 == num) by { assert [p.l4][0] == p.l4 && [num][0] == num; }
  }

  function IcmpTypeMatch(n: byte): NftRule
  {
    [Payload(1, TransportHeader, 0, 1), Cmp(1, true, [n])]
  }

  ghost predicate HasIcmpType(p: Packet, n: int)
  {
    |p.th| >= 1 && p.th[0] == n
  }

  lemma IcmpTypeTests(n: byte, p: Packet, env: Env)
    ensures Tests(IcmpTypeMatch(n), HasIcmpType(p, n), p, env)
  {
    PayloadCmp(TransportHeader, 0, 1, [n], p, env);
    if |p.th| >= 1 {
      assert p.th[0..1] == [p.th[0]];
      assert [n][0] == n;
    }
  }

  // ct state: any of the given bits.
  function CtMatch(bits: byte): NftRule
  {
    [Load(1, ConntrackState), Bitwise(1, [bits, 0, 0, 0]), Cmp(1, false, [0, 0, 0, 0])]
  }

  lemma CtTests(bits: byte, p: Packet, env: Env)
    ensures Tests(CtMatch(bits), And8(CtBits(p.ct), bits) != 0, p, env)
  {
    var v: seq<byte>, m: seq<byte> := [CtBits(p.ct), 0, 0, 0], [bits, 0, 0, 0];
    LoadMaskCmp(ConntrackState, m, false, [0, 0, 0, 0], p, env);
    var r := Mask(v, m);
    And8Zero(0);
    assert r == [And8(CtBits(p.ct), bits), 0, 0, 0];
    assert r[0] == And8(CtBits(p.ct), bits);
  }

  lemma And8Zero(x: byte)
    ensures And8(x, 0) == 0
  {
    assert MaskByte(0) == 0 by { Pow2Of8(); }
    And8Leading(x, 0);
    Pow2Of8();
  }

  // The three masks the compiler uses select the named states.
  lemma CtStates(ct: CtState)
    ensures And8(CtBits(ct), 8) != 0 <==> ct == New
    ensures And8(CtBits(ct), 1) != 0 <==> ct == Invalid
    ensures And8(CtBits(ct), 6) != 0 <==> ct == Established || ct == Related
  {
    And8Shifted(CtBits(ct));
  }

  lemma And8Shifted(x: byte)
    ensures And8(x, 1) == x % 2
    ensures And8(x, 6) == 2 * (x / 2 % 4)
    ensures And8(x, 8) == 8 * (x / 8 % 2)
  {
    assert Pow2(1) == 2 && Pow2(2) == 4;
    BitAndLow(8, 1, x);
    BitAndLow(7, 2, x / 2);
    BitAndLow(5, 1, x / 8);
    assert BitAnd(8, x, 6) == 2 * BitAnd(7, x / 2, 3);
    assert BitAnd(6, x / 4, 2) == 2 * BitAnd(5, x / 8, 1);
    assert BitAnd(7, x / 2, 4) == 2 * BitAnd(6, x / 4, 2);
  }

  function FibMatch(addrType: byte): NftRule
  {
    [Load(1, FibDaddrType), Cmp(1, true, [addrType, 0, 0, 0])]
  }

  lemma FibTests(addrType: byte, p: Packet, env: Env)
    ensures Tests(FibMatch(addrType), p.fib == addrType, p, env)
  {
    LoadCmp(FibDaddrType, true, [addrType, 0, 0, 0], p, env);
    var a, b := [p.fib, 0, 0, 0], [addrType, 0, 0, 0];
    assert (a == b) == (p.fib == addrType) by { assert a[0] == p.fib && b[0] == addrType; }
  }

  function RoutingTypeMatch(n: byte): NftRule
  {
    [Load(1, RoutingType), Cmp(1, true, [n])]
  }

  lemma RoutingTypeTests(n: byte, p: Packet, env: Env)
    ensures Tests(RoutingTypeMatch(n), p.v6 && p.rtType == Some(n), p, env)
  {
    LoadCmp(RoutingType, true, [n], p, env);
    if p.v6 && p.rtType.Some? {
      assert [p.rtType.value][0] == p.rtType.value && [n][0] == n;
    }
  }

  function HopLimitMatch(n: byte): NftRule
  {
    [Payload(1, NetworkHeader, 7, 1), Cmp(1, true, [n])]
  }

  lemma HopLimitTests(n: byte, p: Packet, env: Env)
    requires p.Valid()
    ensures Tests(HopLimitMatch(n), p.nh[7] == n, p, env)
  {
    PayloadCmp(NetworkHeader, 7, 1, [n], p, env);
    assert p.nh[7..8] == [p.nh[7]];
    assert [n][0] == n;
  }

  // ---- interfaces ----

  const PLUS: byte := 43

  // A trailing plus sign is a prefix wildcard.
  predicate Wildcard(name: Name) { name != [] && name[|name| - 1] == PLUS }

  function WildcardMask(n: nat): (m: seq<byte>)
    ensures |m| == 16
  {
    seq(16, i => if i < n then 255 else 0)
  }

  function IfaceMatch(key: Key, name: Name): NftRule
  {
    if Wildcard(name) then
      var prefix := name[..|name| - 1];
      [Load(1, key), Bitwise(1, WildcardMask(|prefix|)), Cmp(1, true, PadName(prefix))]
    else
      [Load(1, key), Cmp(1, true, PadName(name))]
  }

  // The interface names the pattern stands for.
  ghost predicate IfaceIs(name: Name, actual: Name)
  {
    if Wildcard(name) then name[..|name| - 1] <= actual else name == actual
  }

  // Patterns the compiler encodes without truncation trouble: no zero byte,
  // and a wildcard prefix that fits the 16 mask bytes.
  ghost predicate IfacePattern(name: Name)
  {
    (forall i :: 0 <= i < |name| ==> name[i] != 0) && (Wildcard(name) ==> |name| <= 17)
  }

  lemma PadInjective(name: Name, actual: Name)
    requires IfacePattern(name) && IfaceName(actual)
    ensures PadName(name) == PadName(actual) <==> name == actual
  {
    var a, b := PadName(name), PadName(actual);
    if a == b {
      assert a[|actual|] == b[|actual|] == 0;
      assert |name| <= |actual|;
      assert a[|name|] == b[|name|];
      assert |name| == |actual|;
      forall i | 0 <= i < |name| ensures name[i] == actual[i] {
        assert a[i] == b[i];
      }
    }
  }

  lemma MaskedPrefix(prefix: Name, actual: Name)
    requires |prefix| <= 16 && IfaceName(actual) && forall i :: 0 <= i < |prefix| ==> prefix[i] != 0
    ensures Mask(PadName(actual), WildcardMask(|prefix|)) == PadName(prefix) <==> prefix <= actual
  {
    hide And8;
    var m, q := Mask(PadName(actual), WildcardMask(|prefix|)), PadName(prefix);
    forall i | 0 <= i < 16 ensures m[i] == if i < |prefix| then PadName(actual)[i] else 0 {
      And8Ones(PadName(actual)[i]);
      And8Zero(PadName(actual)[i]);
    }
    if m == q {
      forall i | 0 <= i < |prefix| ensures i < |actual| && prefix[i] == actual[i] {
        assert m[i] == q[i];
      }
      if prefix != [] {
        assert prefix[|prefix| - 1] == actual[|prefix| - 1];
      }
    }
    if prefix <= actual {
      assert forall i :: 0 <= i < 16 ==> m[i] == q[i];
      assert m == q;
    }
  }

  lemma And8Ones(x: byte)
    ensures And8(x, 255) == x
  {
    And8Leading(x, 8);
    RoundDownOne(x);
  }

  lemma {:induction false} IfaceTests(key: Key, name: Name, p: Packet, env: Env)
    requires p.Valid() && IfacePattern(name) && key in {Iifname, Oifname}
    ensures Tests(IfaceMatch(key, name), IfaceIs(name, if key == Iifname then p.iif else p.oif), p, env)
  {
    hide Mask;
    var actual := if key == Iifname then p.iif else p.oif;
    if Wildcard(name) {
      var prefix := name[..|name| - 1];
      LoadMaskCmp(key, WildcardMask(|prefix|), true, PadName(prefix), p, env);
      MaskedPrefix(prefix, actual);
    } else {
      LoadCmp(key, true, PadName(name), p, env);
      PadInjective(name, actual);
    }
  }

  // ---- addresses ----

  function AddrLen(v6: bool): nat { if v6 then 16 else 4 }

  // Where saddr or daddr starts in the network header.
  function AddrOffset(source: bool, v6: bool): nat
  {
    if v6 then (if source then 8 else 24) else (if source then 12 else 16)
  }

  // Two comparisons that cannot both hold: the fail-closed match.
  const NEVER: NftRule := [Cmp(1, true, [0]), Cmp(1, true, [1])]

  lemma NeverTests(p: Packet, env: Env)
    ensures Tests(NEVER, false, p, env)
  {
    hide RunExprs;
    forall regs: Regs, t: nat ensures TestFlow(RunExprs(NEVER, p, env, regs, t), false, t) {
      RunTwo(Cmp(1, true, [0]), Cmp(1, true, [1]), p, env, regs, t);
      if 1 in regs && |regs[1]| >= 1 {
        var zero: seq<byte>, one: seq<byte> := [0], [1];
        assert zero[0] != one[0];
      }
    }
  }

  // addrMatch on a parsed address of the given family.
  function AddrMatch(source: bool, a: Addr, v6: bool): NftRule
  {
    match a
    case Host(b) => NetMatch(source, Net(b, 8 * |b|), v6)
    case Cidr(net) => NetMatch(source, net, v6)
    case _ => NEVER
  }

  function NetMatch(source: bool, net: Net, v6: bool): NftRule
  {
    var len := |net.addr|;
    if (len == 16) != v6 then NEVER
    else
      var load := Payload(1, NetworkHeader, AddrOffset(source, v6), len);
      if net.bits == 8 * len then [load, Cmp(1, true, net.First())]
      else [load, Bitwise(1, CidrMask(net.bits, len)), Cmp(1, true, net.First())]
  }

  function Endpoint(source: bool, p: Packet): seq<byte>
    requires |p.nh| >= (if p.v6 then 40 else 20)
  {
    if source then p.Saddr() else p.Daddr()
  }

  lemma EndpointField(source: bool, p: Packet)
    requires p.Valid()
    ensures Field(NetworkHeader, AddrOffset(source, p.v6), AddrLen(p.v6), p) == Some(Endpoint(source, p))
    ensures |Endpoint(source, p)| == AddrLen(p.v6)
  {
  }

  lemma NetTests(source: bool, net: Net, p: Packet, env: Env)
    requires p.Valid() && net.Valid() && |net.addr| in {4, 16}
    ensures Tests(NetMatch(source, net, p.v6), net.Contains(Endpoint(source, p)), p, env)
  {
    hide Mask, CidrMask, SamePrefix, Endpoint, Field;
    var len, a := |net.addr|, Endpoint(source, p);
    EndpointField(source, p);
    if len != AddrLen(p.v6) {
      NeverTests(p, env);
    } else if net.bits == 8 * len {
      PayloadCmp(NetworkHeader, AddrOffset(source, p.v6), len, net.First(), p, env);
      MaskAll(net.addr, net.bits);
      MaskAll(a, net.bits);
      MaskEqIsSamePrefix(a, net.addr, net.bits);
    } else {
      PayloadMaskCmp(NetworkHeader, AddrOffset(source, p.v6), len, CidrMask(net.bits, len), net.First(), p, env);
      MaskEqIsSamePrefix(a, net.addr, net.bits);
    }
  }

  lemma HostIsFullPrefix(b: seq<byte>, a: seq<byte>)
    requires b != []
    ensures Net(b, 8 * |b|).Contains(a) <==> a == b
  {
    hide Mask, CidrMask, SamePrefix;
    if |a| == |b| {
      MaskAll(a, 8 * |b|);
      MaskAll(b, 8 * |b|);
      MaskEqIsSamePrefix(a, b, 8 * |b|);
    }
  }

  lemma {:induction false} AddrTests(source: bool, a: Addr, p: Packet, env: Env)
    requires p.Valid() && a.Valid() && !a.Any()
    ensures Tests(AddrMatch(source, a, p.v6), a.Contains(Endpoint(source, p)), p, env)
  {
    hide NetMatch, Tests, Endpoint, Net.Contains;
    match a
    case Host(b) =>
      NetTests(source, Net(b, 8 * |b|), p, env);
      HostIsFullPrefix(b, Endpoint(source, p));
    case Cidr(net) =>
      NetTests(source, net, p, env);
    case BadAddr(_) =>
      NeverTests(p, env);
  }

  // The key of a user set: its name, with a trailing 6 for IPv6.
  function SetKey(name: string, v6: bool): string
  {
    if v6 then name + "6" else name
  }

  ghost predicate InNamedSet(env: Env, name: string, v6: bool, a: seq<byte>)
  {
    UserSet(SetKey(name, v6)) in env.sets && env.sets[UserSet(SetKey(name, v6))].Has(a)
  }

  // What one endpoint of a rule says about an address.
  ghost predicate AddrHolds(a: AddrSpec, v6: bool, actual: seq<byte>, env: Env)
    requires a.ip.Valid()
  {
    if a.setName != "" then InNamedSet(env, a.setName, v6, actual) else a.ip.Contains(actual)
  }

  function EndpointMatch(a: AddrSpec, source: bool, v6: bool): NftRule
  {
    if a.setName != "" then
      [Payload(1, NetworkHeader, AddrOffset(source, v6), AddrLen(v6)), Lookup(1, UserSet(SetKey(a.setName, v6)))]
    else if a.ip.Any() then []
    else AddrMatch(source, a.ip, v6)
  }

  lemma {:induction false} EndpointTests(a: AddrSpec, source: bool, p: Packet, env: Env)
    requires p.Valid() && a.ip.Valid()
    ensures Tests(EndpointMatch(a, source, p.v6), AddrHolds(a, p.v6, Endpoint(source, p), env), p, env)
  {
    hide AddrMatch, RunExprs, SetBody.Has, Field, Endpoint;
    EndpointField(source, p);
    if a.setName != "" {
      PayloadLookup(NetworkHeader, AddrOffset(source, p.v6), AddrLen(p.v6), UserSet(SetKey(a.setName, p.v6)), p, env);
    } else if a.ip.Any() {
      TestsNothing(p, env);
    } else {
      AddrTests(source, a.ip, p, env);
    }
  }

  // ---- ports ----

  function PortBytes(x: uint16): (b: seq<byte>)
    ensures |b| == 2
  {
    [x / 256, x % 256]
  }

  lemma PortBytesVal(x: uint16)
    ensures Val(PortBytes(x)) == x
  {
    var b := PortBytes(x);
    assert b[..1] == [x / 256] && b[..1][..0] == [];
    assert Val(b[..1]) == x / 256;
  }

  function PortOf(source: bool, p: Packet): Option<uint16>
  {
    if source then p.Sport() else p.Dport()
  }

  function PortOffset(source: bool): nat { if source then 0 else 2 }

  lemma PortField(source: bool, p: Packet)
    ensures var f, port := Field(TransportHeader, PortOffset(source), 2, p), PortOf(source, p);
            f.Some? == port.Some? && (port.Some? ==> f.value == PortBytes(port.value))
  {
    var o := PortOffset(source);
    if |p.th| >= o + 2 {
      assert p.th[o..o + 2] == [p.th[o], p.th[o + 1]];
      BigEndianSplit(p.th[o], p.th[o + 1]);
    }
  }

  lemma BigEndianSplit(hi: byte, lo: byte)
    ensures PortBytes(BigEndian16(hi, lo)) == [hi, lo]
  {
  }

  // [lo, hi] as interval elements; an end past 65535 is the zero marker.
  function PortInterval(p: PortRange): Interval
  {
    Interval(PortBytes(p.lo), if p.hi == 0xffff then [0, 0] else PortBytes(p.hi + 1))
  }

  function PortIntervals(ports: seq<PortRange>): (r: seq<Interval>)
    ensures |r| == |ports|
  {
    seq(|ports|, i requires 0 <= i < |ports| => PortInterval(ports[i]))
  }

  function PortKeysOf(ports: seq<PortRange>): (r: seq<Element>)
    ensures |r| == |ports|
  {
    seq(|ports|, i requires 0 <= i < |ports| => Element(PortBytes(ports[i].lo), false))
  }

  predicate AnyMulti(ports: seq<PortRange>)
  {
    exists i :: 0 <= i < |ports| && ports[i].lo != ports[i].hi
  }

  function PortSet(ports: seq<PortRange>): SetBody
  {
    if AnyMulti(ports) then SetBody(true, ElementsOf(PortIntervals(ports)))
    else SetBody(false, PortKeysOf(ports))
  }

  ghost predicate InRanges(ports: seq<PortRange>, x: uint16)
  {
    exists i :: 0 <= i < |ports| && ports[i].lo <= x <= ports[i].hi
  }

  lemma {:induction false} PortIntervalCovers(p: PortRange, x: uint16)
    ensures PortInterval(p).Covers(PortBytes(x)) <==> p.lo <= x <= p.hi
  {
    PortBytesVal(p.lo);
    PortBytesVal(x);
    if p.hi == 0xffff {
      PortBytesVal(0);
    } else {
      PortBytesVal(p.hi + 1);
    }
  }

  lemma {:induction false} PortSetHas(ports: seq<PortRange>, x: uint16)
    ensures PortSet(ports).Has(PortBytes(x)) <==> InRanges(ports, x)
  {
    hide Val, InSet, PortInterval, PortBytes, ElementsOf;
    if AnyMulti(ports) {
      var ivs := PortIntervals(ports);
      InSetIffCovered(ivs, PortBytes(x));
      forall i | 0 <= i < |ports|
        ensures ToRanges(ivs)[i].Covers(Val(PortBytes(x))) <==> ports[i].lo <= x <= ports[i].hi
      {
        PortIntervalCovers(ports[i], x);
      }
    } else {
      var elems := PortKeysOf(ports);
      forall i | 0 <= i < |ports| ensures elems[i].key == PortBytes(x) <==> ports[i].lo <= x <= ports[i].hi {
        PortBytesVal(ports[i].lo);
        PortBytesVal(x);
      }
      if InRanges(ports, x) {
        var i :| 0 <= i < |ports| && ports[i].lo <= x <= ports[i].hi;
        assert elems[i] in elems;
      }
    }
  }
}
