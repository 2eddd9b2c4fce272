/** The built-in chains: ufw's before and after rules, the logging chains and
    the policy chains, with what each of them decides on a packet. */
module BuiltinChains {
  import opened Bytes
  import opened AddressSets
  import opened Outcomes
  import opened Rules
  import opened Netfilter
  import opened Matching
  import opened RuleCompiler

  // ---- ordered decisions ----

  function When(c: bool, d: Decision): Option<Decision>
  {
    if c then Some(d) else None
  }

  function Or(a: Option<Decision>, b: Option<Decision>): Option<Decision>
  {
    if a.Some? then a else b
  }

  lemma SettlesOr(a: seq<NftRule>, da: Option<Decision>, b: seq<NftRule>, db: Option<Decision>,
                  depth: nat, p: Packet, env: Env)
    requires Settles(a, da, depth, p, env) && Settles(b, db, depth, p, env)
    ensures Settles(a + b, Or(da, db), depth, p, env)
  {
    SettlesAppend(a, da, b, db, depth, p, env);
  }

  function FirstOf(ds: seq<Option<Decision>>): Option<Decision>
  {
    if ds == [] then None else if ds[0].Some? then ds[0] else FirstOf(ds[1..])
  }

  function Concat(parts: seq<seq<NftRule>>): seq<NftRule>
  {
    if parts == [] then [] else parts[0] + Concat(parts[1..])
  }

  ghost predicate AllSettle(parts: seq<seq<NftRule>>, ds: seq<Option<Decision>>, depth: nat, p: Packet, env: Env)
  {
    |parts| == |ds| && forall i :: 0 <= i < |parts| ==> Settles(parts[i], ds[i], depth, p, env)
  }

  // A chain decides as the first of its parts that decides.
  lemma {:induction false} ConcatSettles(parts: seq<seq<NftRule>>, ds: seq<Option<Decision>>, depth: nat, p: Packet,
      env: Env)
    requires AllSettle(parts, ds, depth, p, env)
    ensures Settles(Concat(parts), FirstOf(ds), depth, p, env)
  {
    hide Settles;
    if parts == [] {
      SettlesNothing(depth, p, env);
    } else {
      ConcatSettles(parts[1..], ds[1..], depth, p, env);
      SettlesOr(parts[0], ds[0], Concat(parts[1..]), FirstOf(ds[1..]), depth, p, env);
    }
  }

  // One guarded rule per match, all with the same verdict.
  function GuardAll(ms: seq<NftRule>, v: Verdict): (r: seq<NftRule>)
    ensures |r| == |ms|
  {
    seq(|ms|, i requires 0 <= i < |ms| => Guarded(ms[i], v))
  }

  lemma {:induction false} GuardAllSettles(ms: seq<NftRule>, cs: seq<bool>, d: Decision, depth: nat, p: Packet,
      env: Env)
    requires |ms| == |cs| && forall i :: 0 <= i < |ms| ==> Tests(ms[i], cs[i], p, env)
    ensures Settles(GuardAll(ms, Final(d)), When(true in cs, d), depth, p, env)
  {
    hide Settles, Tests, Guarded;
    if ms == [] {
      SettlesNothing(depth, p, env);
    } else {
      var n := |ms| - 1;
      GuardAllSettles(ms[..n], cs[..n], d, depth, p, env);
      FinalSettles(ms[n], cs[n], d, depth, p, env);
      SettlesOr(GuardAll(ms[..n], Final(d)), When(true in cs[..n], d), [Guarded(ms[n], Final(d))], When(cs[n], d),
          depth, p, env);
      assert GuardAll(ms, Final(d)) == GuardAll(ms[..n], Final(d)) + [Guarded(ms[n], Final(d))];
      assert cs == cs[..n] + [cs[n]];
    }
  }

  lemma {:induction false} GuardAllJumps(ms: seq<NftRule>, cs: seq<bool>, c: Chain, d: Decision, depth: nat, p: Packet,
      env: Env)
    requires |ms| == |cs| && forall i :: 0 <= i < |ms| ==> Tests(ms[i], cs[i], p, env)
    requires c in env.chains && depth > 0 && Settles(env.chains[c], Some(d), depth - 1, p, env)
    ensures Settles(GuardAll(ms, Jump(c)), When(true in cs, d), depth, p, env)
  {
    hide Settles, Tests, Guarded;
    if ms == [] {
      SettlesNothing(depth, p, env);
    } else {
      var n := |ms| - 1;
      GuardAllJumps(ms[..n], cs[..n], c, d, depth, p, env);
      JumpSettles(ms[n], cs[n], c, Some(d), depth, p, env);
      SettlesOr(GuardAll(ms[..n], Jump(c)), When(true in cs[..n], d), [Guarded(ms[n], Jump(c))], When(cs[n], d), depth,
          p, env);
      assert GuardAll(ms, Jump(c)) == GuardAll(ms[..n], Jump(c)) + [Guarded(ms[n], Jump(c))];
      assert cs == cs[..n] + [cs[n]];
    }
  }

  // ---- compound matches ----

  const LO: Name := [108, 111]

  lemma LoTests(key: Key, p: Packet, env: Env)
    requires p.Valid() && key in {Iifname, Oifname}
    ensures Tests(IfaceMatch(key, LO), (if key == Iifname then p.iif else p.oif) == LO, p, env)
  {
    hide Tests, IfaceMatch;
    IfaceTests(key, LO, p, env);
  }

  function FamilyProto(v6: bool, l4: byte): NftRule
  {
    NfprotoMatch(v6) + L4Match(l4)
  }

  lemma FamilyProtoTests(v6: bool, l4: byte, p: Packet, env: Env)
    ensures Tests(FamilyProto(v6, l4), p.v6 == v6 && p.l4 == l4, p, env)
  {
    hide Tests, NfprotoMatch, L4Match;
    NfprotoTests(v6, p, env);
    L4Tests(l4, p, env);
    TestsAppend(NfprotoMatch(v6), p.v6 == v6, L4Match(l4), p.l4 == l4, p, env);
  }

  function PortEq(source: bool, x: uint16): NftRule
  {
    [Payload(1, TransportHeader, PortOffset(source), 2), Cmp(1, true, PortBytes(x))]
  }

  lemma PortEqTests(source: bool, x: uint16, p: Packet, env: Env)
    ensures Tests(PortEq(source, x), PortOf(source, p) == Some(x), p, env)
  {
    hide Tests, PortBytes;
    PortField(source, p);
    PayloadCmp(TransportHeader, PortOffset(source), 2, PortBytes(x), p, env);
    PortBytesVal(x);
    if PortOf(source, p).Some? { PortBytesVal(PortOf(source, p).value); }
  }

  // Two tests in a row.
  lemma Both(a: NftRule, ca: bool, b: NftRule, cb: bool, p: Packet, env: Env)
    requires Tests(a, ca, p, env) && (ca ==> Tests(b, cb, p, env))
    ensures Tests(a + b, ca && cb, p, env)
  {
    TestsAppend(a, ca, b, cb, p, env);
  }

  // ---- before chains ----

  function IcmpAccept(v6: bool, t: byte): NftRule
  {
    FamilyProto(v6, if v6 then 58 else 1) + IcmpTypeMatch(t)
  }

  ghost predicate IsIcmp(p: Packet, v6: bool, t: int)
  {
    p.v6 == v6 && p.l4 == (if v6 then 58 else 1) && HasIcmpType(p, t)
  }

  lemma IcmpAcceptTests(v6: bool, t: byte, p: Packet, env: Env)
    ensures Tests(IcmpAccept(v6, t), IsIcmp(p, v6, t), p, env)
  {
    hide Tests, FamilyProto, IcmpTypeMatch, HasIcmpType;
    var l4: byte := if v6 then 58 else 1;
    FamilyProtoTests(v6, l4, p, env);
    IcmpTypeTests(t, p, env);
    Both(FamilyProto(v6, l4), p.v6 == v6 && p.l4 == l4, IcmpTypeMatch(t), HasIcmpType(p, t), p, env);
  }

  function IcmpAccepts(v6: bool, types: seq<byte>): seq<NftRule>
  {
    seq(|types|, i requires 0 <= i < |types| => IcmpAccept(v6, types[i]))
  }

  // fe80::/10
  const LINK_LOCAL: Addr := Cidr(Net([254, 128, 0, 0, 0, 0, 0, 0, 0, 0, 0, 0, 0, 0, 0, 0], 10))

  // An accepted ICMPv6 type, with a required hop limit and a link-local
  // source where section 4.3.1 of RFC 4890 asks for them.
  datatype Icmp6 = Icmp6(t: byte, hopLimit: Option<byte>, linkLocal: bool)

  function Plain(t: byte): Icmp6 { Icmp6(t, None, false) }
  function Hop255(t: byte): Icmp6 { Icmp6(t, Some(255), false) }
  function Listener(t: byte): Icmp6 { Icmp6(t, None, true) }
  function Router(t: byte): Icmp6 { Icmp6(t, Some(1), true) }

  const REPLY6: seq<byte> := [129]
  const ERRORS4: seq<byte> := [3, 11, 12, 8]
  const MOBILE6: seq<byte> := [144, 145, 146, 147]
  const V6_HEAD: seq<Icmp6> := [Plain(1), Plain(2), Plain(3), Plain(4), Plain(128)]
  const V6_TAIL: seq<Icmp6> :=
    [Hop255(133), Hop255(134), Hop255(135), Hop255(136), Hop255(141), Hop255(142),
     Listener(130), Listener(131), Listener(132), Listener(143), Hop255(148), Hop255(149),
     Router(151), Router(152), Router(153)]

  function Icmp6Match(r: Icmp6): NftRule
  {
    IcmpAccept(true, r.t)
    + ((if r.linkLocal then AddrMatch(true, LINK_LOCAL, true) else [])
    + (if r.hopLimit.Some? then HopLimitMatch(r.hopLimit.value) else []))
  }

  ghost predicate Icmp6Holds(r: Icmp6, p: Packet)
    requires p.Valid()
  {
    && IsIcmp(p, true, r.t)
    && (r.linkLocal ==> LINK_LOCAL.Contains(p.Saddr()))
    && (r.hopLimit.Some? ==> p.nh[7] == r.hopLimit.value)
  }

  lemma Icmp6Tests(r: Icmp6, p: Packet, env: Env)
    requires p.Valid()
    ensures Tests(Icmp6Match(r), Icmp6Holds(r, p), p, env)
  {
    hide Tests, IcmpAccept, AddrMatch, HopLimitMatch, Addr.Contains;
    IcmpAcceptTests(true, r.t, p, env);
    if IsIcmp(p, true, r.t) {
      var a := if r.linkLocal then AddrMatch(true, LINK_LOCAL, true) else [];
      var h := if r.hopLimit.Some? then HopLimitMatch(r.hopLimit.value) else [];
      if r.linkLocal { AddrTests(true, LINK_LOCAL, p, env); } else { TestsNothing(p, env); }
      if r.hopLimit.Some? { HopLimitTests(r.hopLimit.value, p, env); } else { TestsNothing(p, env); }
      var ca, ch := r.linkLocal ==> LINK_LOCAL.Contains(p.Saddr()), r.hopLimit.Some? ==> p.nh[7] == r.hopLimit.value;
      Both(a, ca, h, ch, p, env);
      Both(IcmpAccept(true, r.t), true, a + h, ca && ch, p, env);
    } else {
      BreakStays(IcmpAccept(true, r.t), (if r.linkLocal then AddrMatch(true, LINK_LOCAL, true) else [])
                 + (if r.hopLimit.Some? then HopLimitMatch(r.hopLimit.value) else []), p, env);
    }
  }

  function Icmp6Matches(rs: seq<Icmp6>): (r: seq<NftRule>)
    ensures |r| == |rs|
  {
    seq(|rs|, i requires 0 <= i < |rs| => Icmp6Match(rs[i]))
  }

  ghost predicate AnyIcmp6(rs: seq<Icmp6>, p: Packet)
    requires p.Valid()
  {
    exists r :: r in rs && Icmp6Holds(r, p)
  }

  lemma Icmp6Settles(rs: seq<Icmp6>, depth: nat, p: Packet, env: Env)
    requires p.Valid()
    ensures Settles(GuardAll(Icmp6Matches(rs), Accept), When(AnyIcmp6(rs, p), Accepted), depth, p, env)
  {
    hide Settles, Tests, Icmp6Match, Icmp6Holds;
    var ms := Icmp6Matches(rs);
    ghost var cs := seq(|rs|, i requires 0 <= i < |rs| => Icmp6Holds(rs[i], p));
    forall i | 0 <= i < |ms| ensures Tests(ms[i], cs[i], p, env) {
      Icmp6Tests(rs[i], p, env);
    }
    GuardAllSettles(ms, cs, Accepted, depth, p, env);
    if AnyIcmp6(rs, p) {
      var r :| r in rs && Icmp6Holds(r, p);
      var i :| 0 <= i < |rs| && rs[i] == r;
      assert cs[i];
    }
  }

  ghost predicate AnyIcmp(v6: bool, types: seq<byte>, p: Packet)
  {
    exists t :: t in types && IsIcmp(p, v6, t)
  }

  lemma IcmpSettles(v6: bool, types: seq<byte>, depth: nat, p: Packet, env: Env)
    ensures Settles(GuardAll(IcmpAccepts(v6, types), Accept), When(AnyIcmp(v6, types, p), Accepted), depth, p, env)
  {
    hide Settles, Tests, IcmpAccept, IsIcmp;
    var ms := IcmpAccepts(v6, types);
    ghost var cs := seq(|types|, i requires 0 <= i < |types| => IsIcmp(p, v6, types[i]));
    forall i | 0 <= i < |ms| ensures Tests(ms[i], cs[i], p, env) {
      IcmpAcceptTests(v6, types[i], p, env);
    }
    GuardAllSettles(ms, cs, Accepted, depth, p, env);
    if AnyIcmp(v6, types, p) {
      var t :| t in types && IsIcmp(p, v6, t);
      var i :| 0 <= i < |types| && types[i] == t;
      assert cs[i];
    }
  }

  // Source address in the ban set of the packet's family.
  ghost predicate Banned(p: Packet, env: Env)
    requires p.Valid()
  {
    ThreatBans(p.v6) in env.sets && env.sets[ThreatBans(p.v6)].Has(p.Saddr())
  }

  function BanMatch(v6: bool): NftRule
  {
    NfprotoMatch(v6) + [Payload(1, NetworkHeader, AddrOffset(true, v6), AddrLen(v6)), Lookup(1, ThreatBans(v6))]
  }

  lemma BanTests(v6: bool, p: Packet, env: Env)
    requires p.Valid()
    ensures Tests(BanMatch(v6), p.v6 == v6 && Banned(p, env), p, env)
  {
    hide Tests, NfprotoMatch, SetBody.Has, Field;
    NfprotoTests(v6, p, env);
    EndpointField(true, p);
    if p.v6 == v6 {
      PayloadLookup(NetworkHeader, AddrOffset(true, v6), AddrLen(v6), ThreatBans(v6), p, env);
    }
    Both(NfprotoMatch(v6), p.v6 == v6,
         [Payload(1, NetworkHeader, AddrOffset(true, v6), AddrLen(v6)), Lookup(1, ThreatBans(v6))], Banned(p, env), p,
           env);
  }

  function BanRules(): seq<NftRule> { GuardAll([BanMatch(false), BanMatch(true)], Drop) }

  lemma BanSettles(depth: nat, p: Packet, env: Env)
    requires p.Valid()
    ensures Settles(BanRules(), When(Banned(p, env), Dropped), depth, p, env)
  {
    hide Settles, Tests, BanMatch, Banned;
    BanTests(false, p, env);
    BanTests(true, p, env);
    ghost var cs := [p.v6 == false && Banned(p, env), p.v6 == true && Banned(p, env)];
    GuardAllSettles([BanMatch(false), BanMatch(true)], cs, Dropped, depth, p, env);
    if Banned(p, env) {
      assert cs[if p.v6 then 1 else 0];
    }
  }

  // Section 3 of RFC 5095: no type 0 routing headers.
  function Rh0Rule(): seq<NftRule> { [Guarded(NfprotoMatch(true) + RoutingTypeMatch(0), Drop)] }

  predicate IsRh0(p: Packet) { p.v6 && p.rtType == Some(0) }

  lemma Rh0Settles(depth: nat, p: Packet, env: Env)
    ensures Settles(Rh0Rule(), When(IsRh0(p), Dropped), depth, p, env)
  {
    hide Settles, Tests, NfprotoMatch, RoutingTypeMatch;
    NfprotoTests(true, p, env);
    RoutingTypeTests(0, p, env);
    Both(NfprotoMatch(true), p.v6 == true, RoutingTypeMatch(0), p.v6 && p.rtType == Some(0), p, env);
    FinalSettles(NfprotoMatch(true) + RoutingTypeMatch(0), IsRh0(p), Dropped, depth, p, env);
  }

  function LoRule(key: Key): seq<NftRule> { [Guarded(IfaceMatch(key, LO), Accept)] }

  lemma LoSettles(key: Key, depth: nat, p: Packet, env: Env)
    requires p.Valid() && key in {Iifname, Oifname}
    ensures Settles(LoRule(key), When((if key == Iifname then p.iif else p.oif) == LO, Accepted), depth, p, env)
  {
    hide Settles, Tests, IfaceMatch;
    LoTests(key, p, env);
    FinalSettles(IfaceMatch(key, LO), (if key == Iifname then p.iif else p.oif) == LO, Accepted, depth, p, env);
  }

  function EstablishedRule(): seq<NftRule> { [Guarded(CtMatch(6), Accept)] }

  predicate Tracked(p: Packet) { p.ct == Established || p.ct == Related }

  lemma EstablishedSettles(depth: nat, p: Packet, env: Env)
    ensures Settles(EstablishedRule(), When(Tracked(p), Accepted), depth, p, env)
  {
    hide Settles, Tests, CtMatch, And8;
    CtTests(6, p, env);
    CtStates(p.ct);
    FinalSettles(CtMatch(6), Tracked(p), Accepted, depth, p, env);
  }

  function InvalidRules(): seq<NftRule> { [Guarded(CtMatch(1), Jump(LogDeny))] + [Guarded(CtMatch(1), Drop)] }

  lemma InvalidSettles(depth: nat, p: Packet, env: Env)
    requires LogDeny in env.chains && Harmless(env.chains[LogDeny]) && depth > 0
    ensures Settles(InvalidRules(), When(p.ct == Invalid, Dropped), depth, p, env)
  {
    hide Settles, Tests, CtMatch, And8, Harmless;
    CtTests(1, p, env);
    CtStates(p.ct);
    HarmlessJump(CtMatch(1), p.ct == Invalid, LogDeny, depth, p, env);
    FinalSettles(CtMatch(1), p.ct == Invalid, Dropped, depth, p, env);
    SettlesOr([Guarded(CtMatch(1), Jump(LogDeny))], None, [Guarded(CtMatch(1), Drop)], When(p.ct == Invalid, Dropped),
        depth, p, env);
  }

  // A UDP service between fixed ports or addresses.
  function UdpMatch(v6: bool, src: Addr, sport: Option<uint16>, dst: Addr, dport: uint16): NftRule
  {
    FamilyProto(v6, 17)
    + ((if src.Any() then [] else AddrMatch(true, src, v6))
    + ((if sport.None? then [] else PortEq(true, sport.value))
    + ((if dst.Any() then [] else AddrMatch(false, dst, v6))
    + PortEq(false, dport))))
  }

  ghost predicate UdpHolds(p: Packet, v6: bool, src: Addr, sport: Option<uint16>, dst: Addr, dport: uint16)
    requires p.Valid() && src.Valid() && dst.Valid()
  {
    && p.v6 == v6 && p.l4 == 17
    && src.Contains(p.Saddr()) && dst.Contains(p.Daddr())
    && (sport.Some? ==> p.Sport() == sport) && p.Dport() == Some(dport)
  }

  lemma UdpTests(v6: bool, src: Addr, sport: Option<uint16>, dst: Addr, dport: uint16, p: Packet, env: Env)
    requires p.Valid() && src.Valid() && dst.Valid()
    ensures Tests(UdpMatch(v6, src, sport, dst, dport), UdpHolds(p, v6, src, sport, dst, dport), p, env)
  {
    hide Tests, FamilyProto, AddrMatch, PortEq, Packet.Sport, Packet.Dport;
    FamilyProtoTests(v6, 17, p, env);
    var e1 := if src.Any() then [] else AddrMatch(true, src, v6);
    var e2 := if sport.None? then [] else PortEq(true, sport.value);
    var e3 := if dst.Any() then [] else AddrMatch(false, dst, v6);
    var e4 := PortEq(false, dport);
    if p.v6 == v6 {
      var c1, c3 := src.Contains(p.Saddr()), dst.Contains(p.Daddr());
      var c2, c4 := sport.Some? ==> p.Sport() == sport, p.Dport() == Some(dport);
      hide Addr.Contains;
      AddrOrAny(true, src, p, env);
      AddrOrAny(false, dst, p, env);
      if sport.Some? { PortEqTests(true, sport.value, p, env); } else { TestsNothing(p, env); }
      PortEqTests(false, dport, p, env);
      Both(e3, c3, e4, c4, p, env);
      Both(e2, c2, e3 + e4, c3 && c4, p, env);
      Both(e1, c1, e2 + (e3 + e4), c2 && (c3 && c4), p, env);
      Both(FamilyProto(v6, 17), p.l4 == 17, e1 + (e2 + (e3 + e4)), c1 && (c2 && (c3 && c4)), p, env);
    } else {
      BreakStays(FamilyProto(v6, 17), e1 + (e2 + (e3 + e4)), p, env);
    }
  }

  lemma AddrOrAny(source: bool, a: Addr, p: Packet, env: Env)
    requires p.Valid() && a.Valid()
    ensures Tests(if a.Any() then [] else AddrMatch(source, a, p.v6), a.Contains(Endpoint(source, p)), p, env)
  {
    hide Tests, AddrMatch;
    if a.Any() { TestsNothing(p, env); } else { AddrTests(source, a, p, env); }
  }

  // DHCP client replies, over IPv4 and link-local IPv6.
  function DhcpRules(): seq<NftRule>
  {
    GuardAll([UdpMatch(false, AnyAddr, Some(67), AnyAddr, 68), UdpMatch(true, LINK_LOCAL, Some(547), LINK_LOCAL, 546)],
        Accept)
  }

  ghost predicate IsDhcp(p: Packet)
    requires p.Valid()
  {
    UdpHolds(p, false, AnyAddr, Some(67), AnyAddr, 68) || UdpHolds(p, true, LINK_LOCAL, Some(547), LINK_LOCAL, 546)
  }

  lemma DhcpSettles(depth: nat, p: Packet, env: Env)
    requires p.Valid()
    ensures Settles(DhcpRules(), When(IsDhcp(p), Accepted), depth, p, env)
  {
    hide Settles, Tests, UdpMatch, UdpHolds;
    UdpTests(false, AnyAddr, Some(67), AnyAddr, 68, p, env);
    UdpTests(true, LINK_LOCAL, Some(547), LINK_LOCAL, 546, p, env);
    ghost var cs := [UdpHolds(p, false, AnyAddr, Some(67), AnyAddr, 68),
        UdpHolds(p, true, LINK_LOCAL, Some(547), LINK_LOCAL, 546)];
    GuardAllSettles([UdpMatch(false, AnyAddr, Some(67), AnyAddr, 68),
        UdpMatch(true, LINK_LOCAL, Some(547), LINK_LOCAL, 546)],
                    cs, Accepted, depth, p, env);
    if IsDhcp(p) { assert cs[0] || cs[1]; }
  }

  // Multicast name resolution and device discovery.
  const MDNS4: Addr := Host([224, 0, 0, 251])
  const MDNS6: Addr := Host([255, 2, 0, 0, 0, 0, 0, 0, 0, 0, 0, 0, 0, 0, 0, 251])
  const UPNP4: Addr := Host([239, 255, 255, 250])
  const UPNP6: Addr := Host([255, 2, 0, 0, 0, 0, 0, 0, 0, 0, 0, 0, 0, 0, 0, 15])

  function MulticastMatches(): (r: seq<NftRule>)
  {
    [UdpMatch(false, AnyAddr, None, MDNS4, 5353), UdpMatch(true, AnyAddr, None, MDNS6, 5353),
     UdpMatch(false, AnyAddr, None, UPNP4, 1900), UdpMatch(true, AnyAddr, None, UPNP6, 1900)]
  }

  ghost function MulticastConds(p: Packet): seq<bool>
    requires p.Valid()
  {
    [UdpHolds(p, false, AnyAddr, None, MDNS4, 5353), UdpHolds(p, true, AnyAddr, None, MDNS6, 5353),
     UdpHolds(p, false, AnyAddr, None, UPNP4, 1900), UdpHolds(p, true, AnyAddr, None, UPNP6, 1900)]
  }

  lemma MulticastSettles(depth: nat, p: Packet, env: Env)
    requires p.Valid()
    ensures Settles(GuardAll(MulticastMatches(), Accept), When(true in MulticastConds(p), Accepted), depth, p, env)
  {
    hide Settles, Tests, UdpMatch, UdpHolds;
    UdpTests(false, AnyAddr, None, MDNS4, 5353, p, env);
    UdpTests(true, AnyAddr, None, MDNS6, 5353, p, env);
    UdpTests(false, AnyAddr, None, UPNP4, 1900, p, env);
    UdpTests(true, AnyAddr, None, UPNP6, 1900, p, env);
    GuardAllSettles(MulticastMatches(), MulticastConds(p), Accepted, depth, p, env);
  }

  // Destinations that are not ours: RTN_LOCAL, RTN_MULTICAST and
  // RTN_BROADCAST return, the rest is dropped.
  function NotLocalChain(): seq<NftRule>
  {
    GuardAll([FibMatch(2), FibMatch(5), FibMatch(3)], Return)
    + ([[LIMIT3, Counter, Verdict(Jump(LogDeny))]] + [Guarded([], Drop)])
  }

  predicate OurDestination(p: Packet) { p.fib == 2 || p.fib == 5 || p.fib == 3 }

  function NotLocalRule(): seq<NftRule> { [Guarded(NfprotoMatch(false), Jump(NotLocal))] }

  lemma NotLocalRuns(depth: nat, p: Packet, env: Env, t: nat)
    requires LogDeny in env.chains && Harmless(env.chains[LogDeny]) && depth > 0
    ensures var o := RunChain(NotLocalChain(), depth, p, env, t);
            if OurDestination(p) then o.Returned? else o.Decided? && o.decision == Dropped
  {
    hide RunChain, RunExprs, Tests, FibMatch, Harmless;
    var log, drop := [[LIMIT3, Counter, Verdict(Jump(LogDeny))]], [Guarded([], Drop)];
    var backs := GuardAll([FibMatch(2), FibMatch(5), FibMatch(3)], Return);
    assert backs == [Guarded(FibMatch(2), Return)] + ([Guarded(FibMatch(5), Return)] + [Guarded(FibMatch(3), Return)]);
    RunChainAppend(backs, log + drop, depth, p, env, t);
    RunChainAppend([Guarded(FibMatch(2), Return)], [Guarded(FibMatch(5), Return)] + [Guarded(FibMatch(3), Return)],
        depth, p, env, t);
    RunChainAppend([Guarded(FibMatch(5), Return)], [Guarded(FibMatch(3), Return)], depth, p, env, t);
    FibReturns(2, depth, p, env, t);
    FibReturns(5, depth, p, env, t);
    FibReturns(3, depth, p, env, t);
    if !OurDestination(p) {
      RunChainAppend(log, drop, depth, p, env, t);
      LimitedLog(depth, p, env, t);
      var o := RunChain(log, depth, p, env, t);
      TestsNothing(p, env);
      GuardedRuns([], true, Drop, p, env, o.t);
      RunSingle(Guarded([], Drop), depth, p, env, o.t);
    }
  }

  lemma FibReturns(n: byte, depth: nat, p: Packet, env: Env, t: nat)
    ensures RunChain([Guarded(FibMatch(n), Return)], depth, p, env, t) == if p.fib == n then Returned(t) else Fell(t)
  {
    hide RunChain, RunExprs, Tests, FibMatch;
    FibTests(n, p, env);
    GuardedRuns(FibMatch(n), p.fib == n, Return, p, env, t);
    RunSingle(Guarded(FibMatch(n), Return), depth, p, env, t);
  }

  lemma LimitedLog(depth: nat, p: Packet, env: Env, t: nat)
    requires LogDeny in env.chains && Harmless(env.chains[LogDeny]) && depth > 0
    ensures RunChain([[LIMIT3, Counter, Verdict(Jump(LogDeny))]], depth, p, env, t).Fell?
  {
    hide RunChain, RunExprs, Harmless;
    var rule := [LIMIT3, Counter, Verdict(Jump(LogDeny))];
    RunSingle(rule, depth, p, env, t);
    RunThree(LIMIT3, Counter, Verdict(Jump(LogDeny)), p, env, map[], t);
    RunTwo(Counter, Verdict(Jump(LogDeny)), p, env, map[], t + 1);
    HarmlessRuns(env.chains[LogDeny], depth - 1, p, env, t + 1);
  }

  lemma NotLocalSettles(depth: nat, p: Packet, env: Env)
    requires LogDeny in env.chains && Harmless(env.chains[LogDeny]) && depth > 1
    requires NotLocal in env.chains && env.chains[NotLocal] == NotLocalChain()
    ensures Settles(NotLocalRule(), When(!p.v6 && !OurDestination(p), Dropped), depth, p, env)
  {
    hide RunChain, RunExprs, Tests, Harmless, NfprotoMatch, NotLocalChain;
    NfprotoTests(false, p, env);
    forall t: nat
      ensures OutcomeIs(RunChain(NotLocalRule(), depth, p, env, t), When(!p.v6 && !OurDestination(p), Dropped))
    {
      GuardedRuns(NfprotoMatch(false), p.v6 == false, Jump(NotLocal), p, env, t);
      RunSingle(Guarded(NfprotoMatch(false), Jump(NotLocal)), depth, p, env, t);
      NotLocalRuns(depth - 1, p, env, t);
    }
  }

  // The rules of before-<hook> part by part, in ufw's order.
  function BeforeParts(h: Hook): seq<seq<NftRule>>
  {
    match h
    case Input =>
      [LoRule(Iifname), Rh0Rule(), BanRules(), EstablishedRule(),
       GuardAll(IcmpAccepts(true, REPLY6), Accept), InvalidRules(),
       GuardAll(IcmpAccepts(false, ERRORS4), Accept),
       GuardAll(Icmp6Matches(V6_HEAD + V6_TAIL), Accept),
       GuardAll(IcmpAccepts(true, MOBILE6), Accept),
       DhcpRules(), NotLocalRule(), GuardAll(MulticastMatches(), Accept)]
    case Output =>
      [LoRule(Oifname), Rh0Rule(), EstablishedRule(),
       GuardAll(Icmp6Matches(V6_HEAD + [Plain(129)] + V6_TAIL), Accept), [Guarded([], Jump(UserEgress))]]
    case ForwardHook =>
      [Rh0Rule(), BanRules(), EstablishedRule(),
       GuardAll(IcmpAccepts(false, ERRORS4), Accept), GuardAll(Icmp6Matches(V6_HEAD + [Plain(129)]), Accept)]
  }

  // What the parts decide, clause by clause.
  ghost function BeforeClauses(h: Hook, p: Packet, env: Env): seq<Option<Decision>>
    requires p.Valid()
  {
    match h
    case Input =>
      [When(p.iif == LO, Accepted), When(IsRh0(p), Dropped), When(Banned(p, env), Dropped), When(Tracked(p), Accepted),
       When(AnyIcmp(true, REPLY6, p), Accepted), When(p.ct == Invalid, Dropped),
       When(AnyIcmp(false, ERRORS4, p), Accepted),
       When(AnyIcmp6(V6_HEAD + V6_TAIL, p), Accepted),
       When(AnyIcmp(true, MOBILE6, p), Accepted),
       When(IsDhcp(p), Accepted), When(!p.v6 && !OurDestination(p), Dropped), When(true in MulticastConds(p), Accepted)]
    case Output =>
      [When(p.oif == LO, Accepted), When(IsRh0(p), Dropped), When(Tracked(p), Accepted),
       When(AnyIcmp6(V6_HEAD + [Plain(129)] + V6_TAIL, p), Accepted), None]
    case ForwardHook =>
      [When(IsRh0(p), Dropped), When(Banned(p, env), Dropped), When(Tracked(p), Accepted),
       When(AnyIcmp(false, ERRORS4, p), Accepted), When(AnyIcmp6(V6_HEAD + [Plain(129)], p), Accepted)]
  }

  function BeforeChain(h: Hook): seq<NftRule> { Concat(BeforeParts(h)) }

  ghost function BeforeDecision(h: Hook, p: Packet, env: Env): Option<Decision>
    requires p.Valid()
  {
    FirstOf(BeforeClauses(h, p, env))
  }

  // The chains that the before chains jump to.
  ghost predicate BeforeTargets(env: Env)
  {
    && LogDeny in env.chains && Harmless(env.chains[LogDeny])
    && NotLocal in env.chains && env.chains[NotLocal] == NotLocalChain()
    && UserEgress in env.chains && env.chains[UserEgress] == []
  }

  lemma {:induction false} BeforeSettles(h: Hook, depth: nat, p: Packet, env: Env)
    requires p.Valid() && BeforeTargets(env) && depth > 1
    ensures Settles(BeforeChain(h), BeforeDecision(h, p, env), depth, p, env)
  {
    hide Settles, BeforeTargets, BeforeParts, BeforeClauses, Concat, FirstOf;
    match h {
      case Input => BeforeInputSettles(depth, p, env);
      case Output => BeforeOutputSettles(depth, p, env);
      case ForwardHook => BeforeForwardSettles(depth, p, env);
    }
    ConcatSettles(BeforeParts(h), BeforeClauses(h, p, env), depth, p, env);
  }

  lemma BeforeInputSettles(depth: nat, p: Packet, env: Env)
    requires p.Valid() && BeforeTargets(env) && depth > 1
    ensures AllSettle(BeforeParts(Input), BeforeClauses(Input, p, env), depth, p, env)
  {
    hide Settles, Harmless, LoRule, Rh0Rule, BanRules, EstablishedRule, InvalidRules, DhcpRules, NotLocalRule,
         NotLocalChain;
    hide GuardAll, MulticastMatches, IcmpAccepts, Icmp6Matches;
    hide IsRh0, Banned, Tracked, AnyIcmp, AnyIcmp6, IsDhcp, OurDestination, MulticastConds, When;
    LoSettles(Iifname, depth, p, env);
    Rh0Settles(depth, p, env);
    BanSettles(depth, p, env);
    EstablishedSettles(depth, p, env);
    IcmpSettles(true, REPLY6, depth, p, env);
    InvalidSettles(depth, p, env);
    IcmpSettles(false, ERRORS4, depth, p, env);
    Icmp6Settles(V6_HEAD + V6_TAIL, depth, p, env);
    IcmpSettles(true, MOBILE6, depth, p, env);
    DhcpSettles(depth, p, env);
    NotLocalSettles(depth, p, env);
    MulticastSettles(depth, p, env);
  }

  lemma BeforeOutputSettles(depth: nat, p: Packet, env: Env)
    requires p.Valid() && BeforeTargets(env) && depth > 1
    ensures AllSettle(BeforeParts(Output), BeforeClauses(Output, p, env), depth, p, env)
  {
    hide Settles, LoRule, Rh0Rule, EstablishedRule, GuardAll, NotLocalChain, Guarded, Icmp6Matches;
    hide IsRh0, Tracked, AnyIcmp6, When;
    LoSettles(Oifname, depth, p, env);
    Rh0Settles(depth, p, env);
    EstablishedSettles(depth, p, env);
    Icmp6Settles(V6_HEAD + [Plain(129)] + V6_TAIL, depth, p, env);
    TestsNothing(p, env);
    assert Harmless(env.chains[UserEgress]);
    HarmlessJump([], true, UserEgress, depth, p, env);
  }

  lemma BeforeForwardSettles(depth: nat, p: Packet, env: Env)
    requires p.Valid()
    ensures AllSettle(BeforeParts(ForwardHook), BeforeClauses(ForwardHook, p, env), depth, p, env)
  {
    hide Settles, Rh0Rule, BanRules, EstablishedRule, GuardAll, IcmpAccepts, Icmp6Matches;
    hide IsRh0, Banned, Tracked, AnyIcmp, AnyIcmp6, When;
    Rh0Settles(depth, p, env);
    BanSettles(depth, p, env);
    EstablishedSettles(depth, p, env);
    IcmpSettles(false, ERRORS4, depth, p, env);
    Icmp6Settles(V6_HEAD + [Plain(129)], depth, p, env);
  }

  // ---- policies ----

  datatype Policy = AllowPolicy | DenyPolicy | RejectPolicy | OtherPolicy(word: string)

  function PolicyVerdict(pol: Policy): Decision
  {
    match pol
    case AllowPolicy => Accepted
    case RejectPolicy => Rejected
    case _ => Dropped
  }

  // The kernel policy of the base chain: accept or drop.
  function BasePolicy(pol: Policy): Decision
  {
    if pol == AllowPolicy then Accepted else Dropped
  }

  function RejectRules(pol: Policy): seq<NftRule>
  {
    if pol == RejectPolicy then [Guarded([], RejectWith)] else []
  }

  // New tcp and udp connections under an accept policy.
  function TrackMatches(): (r: seq<NftRule>) { [L4Match(6) + CtMatch(8), L4Match(17) + CtMatch(8)] }

  function TrackRules(pol: Policy): seq<NftRule>
  {
    if pol == AllowPolicy then GuardAll(TrackMatches(), Accept) else []
  }

  function SkipRules(pol: Policy): seq<NftRule> { [Guarded([], Final(PolicyVerdict(pol)))] }

  lemma {:induction false} TrackSettles(pol: Policy, depth: nat, p: Packet, env: Env)
    ensures exists c :: Settles(TrackRules(pol), When(c, PolicyVerdict(pol)), depth, p, env)
  {
    hide Settles, Tests, L4Match, CtMatch, And8, GuardAll;
    if pol == AllowPolicy {
      CtTests(8, p, env);
      L4Tests(6, p, env);
      L4Tests(17, p, env);
      var c := And8(CtBits(p.ct), 8) != 0;
      Both(L4Match(6), p.l4 == 6, CtMatch(8), c, p, env);
      Both(L4Match(17), p.l4 == 17, CtMatch(8), c, p, env);
      var cs := [p.l4 == 6 && c, p.l4 == 17 && c];
      GuardAllSettles(TrackMatches(), cs, Accepted, depth, p, env);
      assert Settles(TrackRules(pol), When(true in cs, PolicyVerdict(pol)), depth, p, env);
    } else {
      SettlesNothing(depth, p, env);
      assert Settles(TrackRules(pol), When(false, PolicyVerdict(pol)), depth, p, env);
    }
  }

  lemma {:induction false} RejectSettles(pol: Policy, depth: nat, p: Packet, env: Env)
    ensures Settles(RejectRules(pol), When(pol == RejectPolicy, Rejected), depth, p, env)
  {
    hide Settles, Tests;
    TestsNothing(p, env);
    if pol == RejectPolicy {
      FinalSettles([], true, Rejected, depth, p, env);
    } else {
      SettlesNothing(depth, p, env);
    }
  }

  lemma {:induction false} SkipSettles(pol: Policy, depth: nat, p: Packet, env: Env)
    ensures Settles(SkipRules(pol), Some(PolicyVerdict(pol)), depth, p, env)
  {
    hide Settles, Tests;
    TestsNothing(p, env);
    FinalSettles([], true, PolicyVerdict(pol), depth, p, env);
  }

  // ---- after chains ----

  function TcpMatch(dport: uint16): NftRule { FamilyProto(false, 6) + PortEq(false, dport) }

  // Broadcasts, NetBIOS and DHCP go straight to the policy.
  function AfterMatches(): (r: seq<NftRule>)
  {
    [NfprotoMatch(false) + FibMatch(3),
     UdpMatch(false, AnyAddr, None, AnyAddr, 137), UdpMatch(false, AnyAddr, None, AnyAddr, 138),
     TcpMatch(139), TcpMatch(445),
     UdpMatch(false, AnyAddr, Some(67), AnyAddr, 68),
     UdpMatch(true, AnyAddr, None, AnyAddr, 546), UdpMatch(true, AnyAddr, None, AnyAddr, 547)]
  }

  function AfterChain(h: Hook): seq<NftRule>
  {
    if h == Input then GuardAll(AfterMatches(), Jump(SkipToPolicy(Input))) else []
  }

  lemma TcpTests(dport: uint16, p: Packet, env: Env)
    ensures Tests(TcpMatch(dport), (p.v6 == false && p.l4 == 6) && p.Dport() == Some(dport), p, env)
  {
    hide Tests, FamilyProto, PortEq, Packet.Dport;
    FamilyProtoTests(false, 6, p, env);
    PortEqTests(false, dport, p, env);
    Both(FamilyProto(false, 6), p.v6 == false && p.l4 == 6, PortEq(false, dport), p.Dport() == Some(dport), p, env);
  }

  // The after chain either falls through or gives the policy's verdict.
  lemma {:induction false} AfterSettles(h: Hook, pol: Policy, depth: nat, p: Packet, env: Env)
    requires p.Valid() && depth > 0
    requires SkipToPolicy(Input) in env.chains && (h == Input ==> env.chains[SkipToPolicy(Input)] == SkipRules(pol))
    ensures exists c :: Settles(AfterChain(h), When(c, PolicyVerdict(pol)), depth, p, env)
  {
    hide Settles, Tests, UdpMatch, UdpHolds, TcpMatch, NfprotoMatch, FibMatch, GuardAll, SkipRules, Packet.Dport;
    if h == Input {
      NfprotoTests(false, p, env);
      FibTests(3, p, env);
      Both(NfprotoMatch(false), p.v6 == false, FibMatch(3), p.fib == 3, p, env);
      UdpTests(false, AnyAddr, None, AnyAddr, 137, p, env);
      UdpTests(false, AnyAddr, None, AnyAddr, 138, p, env);
      TcpTests(139, p, env);
      TcpTests(445, p, env);
      UdpTests(false, AnyAddr, Some(67), AnyAddr, 68, p, env);
      UdpTests(true, AnyAddr, None, AnyAddr, 546, p, env);
      UdpTests(true, AnyAddr, None, AnyAddr, 547, p, env);
      ghost var cs :=
        [p.v6 == false && p.fib == 3,
         UdpHolds(p, false, AnyAddr, None, AnyAddr, 137), UdpHolds(p, false, AnyAddr, None, AnyAddr, 138),
         (p.v6 == false && p.l4 == 6) && p.Dport() == Some(139), (p.v6 == false && p.l4 == 6) && p.Dport() == Some(445),
         UdpHolds(p, false, AnyAddr, Some(67), AnyAddr, 68),
         UdpHolds(p, true, AnyAddr, None, AnyAddr, 546), UdpHolds(p, true, AnyAddr, None, AnyAddr, 547)];
      SkipSettles(pol, depth - 1, p, env);
      GuardAllJumps(AfterMatches(), cs, SkipToPolicy(Input), PolicyVerdict(pol), depth, p, env);
      assert Settles(AfterChain(h), When(true in cs, PolicyVerdict(pol)), depth, p, env);
    } else {
      SettlesNothing(depth, p, env);
      assert Settles(AfterChain(h), When(false, PolicyVerdict(pol)), depth, p, env);
    }
  }

  // ---- logging chains ----

  datatype Level = Off | Low | Medium | High | Full | OtherLevel(word: string)

  function Limited(level: Level): NftRule
  {
    if level == High || level == Full then [] else [LIMIT3]
  }

  function UserLoggingHead(level: Level): seq<NftRule>
  {
    if level == Off then [[Counter, Verdict(Return)]] else []
  }

  function AfterLoggingRules(level: Level, pol: Policy): seq<NftRule>
  {
    if level == Off then []
    else if pol == DenyPolicy || pol == RejectPolicy then [Limited(level) + [LogPrefix("[BFW BLOCK] ")]]
    else if level != Low then [Limited(level) + [LogPrefix("[BFW ALLOW] ")]]
    else []
  }

  function LogDenyRules(level: Level): seq<NftRule>
  {
    if level == Off then []
    else
      [if level == Low then CtMatch(1) + Limited(level) + [Counter, Verdict(Return)]
       else CtMatch(1) + Limited(level) + [LogPrefix("[BFW AUDIT INVALID] ")],
       Limited(level) + [LogPrefix("[BFW BLOCK] ")]]
  }

  function LogAllowRules(level: Level): seq<NftRule>
  {
    if level == Off then [] else [Limited(level) + [LogPrefix("[BFW ALLOW] ")]]
  }

  function BeforeLoggingRules(level: Level): seq<NftRule>
  {
    match level
    case Off => []
    case Low => []
    case Medium => [CtMatch(8) + [LIMIT3] + [LogPrefix("[BFW AUDIT] ")]]
    case High => [[LIMIT3, LogPrefix("[BFW AUDIT] ")]]
    case _ => [[LogPrefix("[BFW AUDIT] ")]]
  }

  function UserLimitRules(level: Level): seq<NftRule>
  {
    (if level != Off then [[RateLimit(3, 5), LogPrefix("[BFW LIMIT BLOCK] ")]] else []) + [Guarded([], RejectWith)]
  }

  lemma {:induction false} LoggingHarmless(level: Level, pol: Policy)
    ensures Harmless(UserLoggingHead(level)) && Harmless(AfterLoggingRules(level, pol))
    ensures Harmless(LogDenyRules(level)) && Harmless(LogAllowRules(level)) && Harmless(BeforeLoggingRules(level))
  {
    hide LogDenyRules, BeforeLoggingRules;
    LogDenyHarmless(level);
    BeforeLoggingHarmless(level);
  }

  lemma LogDenyHarmless(level: Level)
    ensures Harmless(LogDenyRules(level))
  {
  }

  lemma BeforeLoggingHarmless(level: Level)
    ensures Harmless(BeforeLoggingRules(level))
  {
  }
}
