/** Compiling one model rule to nftables rules, and what those rules decide. */
module RuleCompiler {
  import opened Bytes
  import opened AddressSets
  import opened Outcomes
  import opened Rules
  import opened Netfilter
  import opened Matching

  // ---- protocols ----

  function ProtoNum(q: Proto): Option<byte>
  {
    match q
    case Tcp => Some(6)
    case Udp => Some(17)
    case Icmp => Some(1)
    case Icmpv6 => Some(58)
    case Ah => Some(51)
    case Esp => Some(50)
    case Gre => Some(47)
    case Igmp => Some(2)
    case Ipv6 => Some(41)
    case Vrrp => Some(112)
    case _ => None
  }

  // The packet carries protocol q; "any" is carried by every packet.
  predicate Carries(p: Packet, q: Proto)
  {
    q == AnyProto || ProtoNum(q) == Some(p.l4)
  }

  predicate HasTcp(ports: seq<PortRange>)
  {
    exists i :: 0 <= i < |ports| && ports[i].proto != Udp
  }

  predicate HasUdp(ports: seq<PortRange>)
  {
    exists i :: 0 <= i < |ports| && ports[i].proto != Tcp
  }

  // The protocols a rule is compiled for, in order.
  function Variants(r: Rule): seq<Proto>
  {
    if r.proto != AnyProto && r.proto != NoProto then [r.proto]
    else
      var tcp := HasTcp(r.src.ports) || HasTcp(r.dst.ports);
      var udp := HasUdp(r.src.ports) || HasUdp(r.dst.ports);
      if !tcp && !udp then [AnyProto]
      else (if tcp then [Tcp] else []) + (if udp then [Udp] else [])
  }

  // protoVariants: the two flags are set by one pass over both port lists.
  method ProtoVariants(r: Rule) returns (out: seq<Proto>)
    ensures out == Variants(r)
  {
    if r.proto != AnyProto && r.proto != NoProto {
      return [r.proto];
    }
    var tcp, udp := ScanPorts(r.src.ports, false, false);
    tcp, udp := ScanPorts(r.dst.ports, tcp, udp);
    if !tcp && !udp {
      return [AnyProto];
    }
    out := [];
    if tcp { out := out + [Tcp]; }
    if udp { out := out + [Udp]; }
  }

  method ScanPorts(ports: seq<PortRange>, tcpBefore: bool, udpBefore: bool) returns (tcp: bool, udp: bool)
    ensures tcp <==> tcpBefore || HasTcp(ports)
    ensures udp <==> udpBefore || HasUdp(ports)
  {
    tcp, udp := tcpBefore, udpBefore;
    for i := 0 to |ports|
      invariant tcp <==> tcpBefore || exists j :: 0 <= j < i && ports[j].proto != Udp
      invariant udp <==> udpBefore || exists j :: 0 <= j < i && ports[j].proto != Tcp
    {
      match ports[i].proto
      case Tcp => tcp := true;
      case Udp => udp := true;
      case _ => tcp, udp := true, true;
    }
  }

  // ---- what a rule means ----

  predicate Portful(q: Proto) { q == Tcp || q == Udp }

  ghost predicate IfaceHolds(name: Name, actual: Name)
  {
    name == [] || IfaceIs(name, actual)
  }

  // The conditions of a rule other than protocol and ports.
  ghost predicate CommonHolds(r: Rule, p: Packet, env: Env)
    requires r.Valid() && p.Valid()
  {
    && IfaceHolds(r.ifaceIn, p.iif)
    && IfaceHolds(r.ifaceOut, p.oif)
    && (r.icmpType.Some? ==> HasIcmpType(p, r.icmpType.value))
    && AddrHolds(r.src, p.v6, p.Saddr(), env)
    && AddrHolds(r.dst, p.v6, p.Daddr(), env)
  }

  // The protocol and port clause of a rule as ufw states it: "any" with
  // ports means tcp or udp, and a port list restricts each of them to the
  // ranges given for it.
  ghost predicate ProtoHolds(r: Rule, q: Proto, p: Packet)
  {
    && Carries(p, q)
    && (if Portful(q) then Covers(r.src.ports, q, p.Sport()) && Covers(r.dst.ports, q, p.Dport())
        else r.src.ports == [] && r.dst.ports == [])
  }

  ghost predicate Matches(r: Rule, p: Packet, env: Env)
    requires r.Valid() && p.Valid()
  {
    && CommonHolds(r, p, env)
    && (if r.proto != AnyProto && r.proto != NoProto then ProtoHolds(r, r.proto, p)
        else if r.src.ports == [] && r.dst.ports == [] then true
        else ProtoHolds(r, Tcp, p) || ProtoHolds(r, Udp, p))
  }

  // Every non-empty port list has a range for each compiled protocol.
  predicate ConsistentFor(r: Rule, q: Proto)
  {
    if Portful(q) then
      && (r.src.ports == [] || Applicable(r.src.ports, q) != [])
      && (r.dst.ports == [] || Applicable(r.dst.ports, q) != [])
    else r.src.ports == [] && r.dst.ports == []
  }

  predicate PortConsistent(r: Rule)
  {
    forall q :: q in Variants(r) ==> ConsistentFor(r, q)
  }

  // ---- what the compiled match tests ----

  // A non-empty list without a range for the protocol imposes nothing.
  ghost predicate PortsTested(ports: seq<PortRange>, q: Proto, port: Option<uint16>)
  {
    Applicable(ports, q) == [] || (port.Some? && InRanges(Applicable(ports, q), port.value))
  }

  ghost predicate VariantHolds(r: Rule, q: Proto, p: Packet, env: Env)
    requires r.Valid() && p.Valid()
  {
    && CommonHolds(r, p, env) && Carries(p, q)
    && (Portful(q) ==> PortsTested(r.src.ports, q, p.Sport()) && PortsTested(r.dst.ports, q, p.Dport()))
  }

  // Some variant of the compiled rule matches.
  ghost predicate CompiledHolds(r: Rule, p: Packet, env: Env)
    requires r.Valid() && p.Valid()
  {
    exists q :: q in Variants(r) && VariantHolds(r, q, p, env)
  }

  lemma InRangesIffInPorts(ports: seq<PortRange>, q: Proto, x: uint16)
    ensures InRanges(Applicable(ports, q), x) <==> InPorts(ports, q, Some(x))
  {
    var a := Applicable(ports, q);
    if InRanges(a, x) {
      var i :| 0 <= i < |a| && a[i].lo <= x <= a[i].hi;
      assert a[i] in a;
    }
    if InPorts(ports, q, Some(x)) {
      var pr :| pr in ports && Applies(pr, q) && pr.lo <= x <= pr.hi;
      assert pr in a;
      var i :| 0 <= i < |a| && a[i] == pr;
    }
  }

  lemma PortsTestedIffCovers(ports: seq<PortRange>, q: Proto, port: Option<uint16>)
    ensures Covers(ports, q, port) ==> PortsTested(ports, q, port)
    ensures ports == [] || Applicable(ports, q) != [] ==> (PortsTested(ports, q, port) <==> Covers(ports, q, port))
  {
    if port.Some? {
      InRangesIffInPorts(ports, q, port.value);
    }
  }

  // A variant whose port lists are consistent tests what the rule says.
  lemma ConsistentVariant(r: Rule, q: Proto, p: Packet, env: Env)
    requires r.Valid() && p.Valid() && ConsistentFor(r, q)
    ensures VariantHolds(r, q, p, env) <==> CommonHolds(r, p, env) && ProtoHolds(r, q, p)
  {
    hide CommonHolds, PortsTested, Covers;
    PortsTestedIffCovers(r.src.ports, q, p.Sport());
    PortsTestedIffCovers(r.dst.ports, q, p.Dport());
  }

  // A variant with an inconsistent port list never meets the rule.
  lemma InconsistentVariant(r: Rule, q: Proto, p: Packet)
    requires r.Valid() && p.Valid() && !ConsistentFor(r, q)
    ensures !ProtoHolds(r, q, p)
  {
    if Portful(q) {
      NotCovered(r.src.ports, q, p.Sport());
      NotCovered(r.dst.ports, q, p.Dport());
    }
  }

  lemma NotCovered(ports: seq<PortRange>, q: Proto, port: Option<uint16>)
    ensures ports != [] && Applicable(ports, q) == [] ==> !Covers(ports, q, port)
  {
  }

  // Per packet, for every rule: the compiled rule matches what the rule
  // says, except exactly when a variant with an inconsistent port list
  // matches.
  lemma {:induction false} CompiledIffMatches(r: Rule, p: Packet, env: Env)
    requires r.Valid() && p.Valid()
    ensures (CompiledHolds(r, p, env) <==> Matches(r, p, env)) <==>
            !exists q :: q in Variants(r) && !ConsistentFor(r, q) && VariantHolds(r, q, p, env)
  {
    hide CommonHolds, VariantHolds, ProtoHolds, ConsistentFor, Carries;
    forall q | q in Variants(r)
      ensures ConsistentFor(r, q) ==> (VariantHolds(r, q, p, env) <==> CommonHolds(r, p, env) && ProtoHolds(r, q, p))
      ensures !ConsistentFor(r, q) ==> !ProtoHolds(r, q, p)
      ensures VariantHolds(r, q, p, env) ==> Carries(p, q)
    {
      if ConsistentFor(r, q) { ConsistentVariant(r, q, p, env); } else { InconsistentVariant(r, q, p); }
      VariantCarries(r, q, p, env);
    }
    MatchesByVariants(r, p, env);
    if q :| q in Variants(r) && !ConsistentFor(r, q) && VariantHolds(r, q, p, env) {
      forall q' | q' in Variants(r) && q' != q ensures !ProtoHolds(r, q', p) {
        OneProtocol(r, q, q', p);
      }
    }
  }

  lemma VariantCarries(r: Rule, q: Proto, p: Packet, env: Env)
    requires r.Valid() && p.Valid()
    ensures VariantHolds(r, q, p, env) ==> Carries(p, q)
  {
  }

  lemma OneProtocol(r: Rule, q: Proto, q': Proto, p: Packet)
    requires q in Variants(r) && q' in Variants(r) && q != q' && Carries(p, q)
    ensures !ProtoHolds(r, q', p)
  {
  }

  // The rule's own reading only ever accepts through one of the variants.
  lemma MatchesByVariants(r: Rule, p: Packet, env: Env)
    requires r.Valid() && p.Valid()
    ensures Matches(r, p, env) <==> CommonHolds(r, p, env) && exists q :: q in Variants(r) && ProtoHolds(r, q, p)
  {
    hide CommonHolds, Covers;
    if r.proto != AnyProto && r.proto != NoProto {
      assert r.proto in Variants(r);
    } else if r.src.ports == [] && r.dst.ports == [] {
      assert AnyProto in Variants(r) && ProtoHolds(r, AnyProto, p);
    } else {
      if Tcp !in Variants(r) { UnreferencedProtocol(r, Tcp, p); }
      if Udp !in Variants(r) { UnreferencedProtocol(r, Udp, p); }
    }
  }

  // A protocol no port range refers to cannot satisfy the port lists.
  lemma UnreferencedProtocol(r: Rule, q: Proto, p: Packet)
    requires r.proto == AnyProto || r.proto == NoProto
    requires Portful(q) && (r.src.ports != [] || r.dst.ports != []) && q !in Variants(r)
    ensures !ProtoHolds(r, q, p)
  {
    var ports := if r.src.ports != [] then r.src.ports else r.dst.ports;
    var port := if r.src.ports != [] then p.Sport() else p.Dport();
    forall i | 0 <= i < |ports| ensures !Applies(ports[i], q) {
      assert q == Tcp ==> !HasTcp(ports);
      assert q == Udp ==> !HasUdp(ports);
    }
  }

  // ---- emitting one rule ----

  type Sets = map<SetName, SetBody>

  datatype Matched = Matched(exprs: NftRule, sets: Sets, id: nat)

  // portExprs: id is the last set ID handed out.
  function PortMatch(ports: seq<PortRange>, source: bool, q: Proto, id: nat): Matched
  {
    var rs := Applicable(ports, q);
    var load := Payload(1, TransportHeader, PortOffset(source), 2);
    if rs == [] then Matched([], map[], id)
    else if |rs| == 1 then
      if rs[0].lo == rs[0].hi then Matched([load, Cmp(1, true, PortBytes(rs[0].lo))], map[], id)
      else Matched([load, InRange(1, PortBytes(rs[0].lo), PortBytes(rs[0].hi))], map[], id)
    else
      Matched([load, Lookup(1, Anonymous(id + 1))], map[Anonymous(id + 1) := PortSet(rs)], id + 1)
  }

  ghost predicate SetsLoaded(sets: Sets, env: Env)
  {
    forall n :: n in sets ==> n in env.sets && env.sets[n] == sets[n]
  }

  lemma PortTests(ports: seq<PortRange>, source: bool, q: Proto, id: nat, p: Packet, env: Env)
    requires SetsLoaded(PortMatch(ports, source, q, id).sets, env)
    ensures Tests(PortMatch(ports, source, q, id).exprs, PortsTested(ports, q, PortOf(source, p)), p, env)
  {
    hide Tests, Val, PortSet, SetBody.Has, Applicable, Field, PortBytes;
    var rs, o, port := Applicable(ports, q), PortOffset(source), PortOf(source, p);
    PortField(source, p);
    if rs == [] {
      TestsNothing(p, env);
    } else if |rs| == 1 {
      var b := PortBytes(rs[0].lo);
      PortBytesVal(rs[0].lo);
      PortBytesVal(rs[0].hi);
      if port.Some? { PortBytesVal(port.value); }
      OneRange(rs, port);
      if rs[0].lo == rs[0].hi {
        PayloadCmp(TransportHeader, o, 2, b, p, env);
      } else {
        PayloadRange(TransportHeader, o, 2, b, PortBytes(rs[0].hi), p, env);
      }
    } else {
      PayloadLookup(TransportHeader, o, 2, Anonymous(id + 1), p, env);
      assert Anonymous(id + 1) in PortMatch(ports, source, q, id).sets;
      if port.Some? { PortSetHas(rs, port.value); }
    }
  }

  lemma OneRange(rs: seq<PortRange>, port: Option<uint16>)
    requires |rs| == 1
    ensures port.Some? ==> (InRanges(rs, port.value) <==> rs[0].lo <= port.value <= rs[0].hi)
  {
    if port.Some? && rs[0].lo <= port.value <= rs[0].hi {
      assert InRanges(rs, port.value);
    }
  }

  // The combinations ruleMatch rejects.
  predicate MatchRejected(r: Rule, q: Proto, v6: bool)
  {
    || (q == Icmp && v6)
    || (q == Icmpv6 && !v6)
    || ((q == Icmp || q == Icmpv6) && (r.src.ports != [] || r.dst.ports != []))
    || (q != AnyProto && ProtoNum(q).None?)
    || (r.icmpType.Some? && ((q != Icmp && q != Icmpv6) || r.icmpType.value > 255))
  }

  function IfaceExprs(key: Key, name: Name): NftRule
  {
    if name == [] then [] else IfaceMatch(key, name)
  }

  function ProtoExprs(q: Proto): NftRule
  {
    if q == AnyProto || ProtoNum(q).None? then [] else L4Match(ProtoNum(q).value)
  }

  function IcmpExprs(t: Option<nat>): NftRule
  {
    if t.None? || t.value > 255 then [] else IcmpTypeMatch(t.value)
  }

  function BothPorts(r: Rule, q: Proto, id: nat): Matched
  {
    if Portful(q) then
      var s := PortMatch(r.src.ports, true, q, id);
      var d := PortMatch(r.dst.ports, false, q, s.id);
      Matched(s.exprs + d.exprs, s.sets + d.sets, d.id)
    else Matched([], map[], id)
  }

  // ruleMatch: everything before the counter and verdict.
  function RuleMatch(r: Rule, q: Proto, v6: bool, id: nat): Result<Matched>
  {
    if MatchRejected(r, q, v6) then Err
    else
      var ports := BothPorts(r, q, id);
      Ok(Matched(
        NfprotoMatch(v6) + (IfaceExprs(Iifname, r.ifaceIn) + (IfaceExprs(Oifname, r.ifaceOut)
        + (ProtoExprs(q) + (IcmpExprs(r.icmpType) + (EndpointMatch(r.src, true, v6)
        + (EndpointMatch(r.dst, false, v6) + ports.exprs)))))),
        ports.sets, ports.id))
  }

  lemma IfaceExprsTests(key: Key, name: Name, p: Packet, env: Env)
    requires p.Valid() && IfacePattern(name) && key in {Iifname, Oifname}
    ensures Tests(IfaceExprs(key, name), IfaceHolds(name, if key == Iifname then p.iif else p.oif), p, env)
  {
    hide Tests, IfaceIs, IfaceMatch;
    if name == [] { TestsNothing(p, env); } else { IfaceTests(key, name, p, env); }
  }

  lemma ProtoExprsTests(q: Proto, p: Packet, env: Env)
    requires q == AnyProto || ProtoNum(q).Some?
    ensures Tests(ProtoExprs(q), Carries(p, q), p, env)
  {
    hide Tests, L4Match;
    if q == AnyProto { TestsNothing(p, env); } else { L4Tests(ProtoNum(q).value, p, env); }
  }

  lemma IcmpExprsTests(t: Option<nat>, p: Packet, env: Env)
    requires t.Some? ==> t.value <= 255
    ensures Tests(IcmpExprs(t), t.Some? ==> HasIcmpType(p, t.value), p, env)
  {
    hide Tests, IcmpTypeMatch;
    if t.None? { TestsNothing(p, env); } else { IcmpTypeTests(t.value, p, env); }
  }

  lemma BothPortsTests(r: Rule, q: Proto, id: nat, p: Packet, env: Env)
    requires SetsLoaded(BothPorts(r, q, id).sets, env)
    ensures Tests(BothPorts(r, q, id).exprs,
                  Portful(q) ==>
                    PortsTested(r.src.ports, q, p.Sport()) && PortsTested(r.dst.ports, q, p.Dport()), p, env)
  {
    hide Tests, PortsTested;
    if Portful(q) {
      var s := PortMatch(r.src.ports, true, q, id);
      var d := PortMatch(r.dst.ports, false, q, s.id);
      assert s.sets.Keys !! d.sets.Keys;
      assert SetsLoaded(s.sets, env) && SetsLoaded(d.sets, env) by {
        assert forall n :: n in s.sets ==> n in (s.sets + d.sets) && (s.sets + d.sets)[n] == s.sets[n];
      }
      hide PortMatch;
      PortTests(r.src.ports, true, q, id, p, env);
      PortTests(r.dst.ports, false, q, s.id, p, env);
      TestsAppend(s.exprs, PortsTested(r.src.ports, q, p.Sport()), d.exprs, PortsTested(r.dst.ports, q, p.Dport()), p,
          env);
    } else {
      TestsNothing(p, env);
    }
  }

  ghost predicate Compilable(r: Rule)
  {
    r.Valid() && IfacePattern(r.ifaceIn) && IfacePattern(r.ifaceOut)
  }

  // The emitted match goes on exactly for the packets of the family that
  // satisfy the variant.
  lemma {:induction false} RuleMatchTests(r: Rule, q: Proto, v6: bool, id: nat, p: Packet, env: Env)
    requires p.Valid() && Compilable(r) && RuleMatch(r, q, v6, id).Ok?
    requires SetsLoaded(RuleMatch(r, q, v6, id).value.sets, env)
    ensures Tests(RuleMatch(r, q, v6, id).value.exprs, p.v6 == v6 && VariantHolds(r, q, p, env), p, env)
  {
    hide Tests, BothPorts, EndpointMatch, IcmpExprs, ProtoExprs, IfaceExprs, NfprotoMatch;
    hide Carries, IfaceHolds, HasIcmpType, AddrHolds, PortsTested, Packet.Sport, Packet.Dport;
    NfprotoTests(v6, p, env);
    var rest := RuleMatch(r, q, v6, id).value.exprs[|NfprotoMatch(v6)|..];
    if p.v6 == v6 {
      TailTests(r, q, id, p, env);
    }
    TestsAppend(NfprotoMatch(v6), p.v6 == v6,
                IfaceExprs(Iifname, r.ifaceIn) + (IfaceExprs(Oifname, r.ifaceOut)
                + (ProtoExprs(q) + (IcmpExprs(r.icmpType) + (EndpointMatch(r.src, true, v6)
                + (EndpointMatch(r.dst, false, v6) + BothPorts(r, q, id).exprs))))),
                VariantHolds(r, q, p, env), p, env);
  }

  lemma TailTests(r: Rule, q: Proto, id: nat, p: Packet, env: Env)
    requires p.Valid() && Compilable(r) && !MatchRejected(r, q, p.v6)
    requires SetsLoaded(BothPorts(r, q, id).sets, env)
    ensures Tests(IfaceExprs(Iifname, r.ifaceIn) + (IfaceExprs(Oifname, r.ifaceOut)
                  + (ProtoExprs(q) + (IcmpExprs(r.icmpType) + (EndpointMatch(r.src, true, p.v6)
                  + (EndpointMatch(r.dst, false, p.v6) + BothPorts(r, q, id).exprs))))),
                  VariantHolds(r, q, p, env), p, env)
  {
    hide Tests, BothPorts, EndpointMatch, IcmpExprs, ProtoExprs, IfaceExprs;
    hide Carries, IfaceHolds, HasIcmpType, AddrHolds, PortsTested, Packet.Sport, Packet.Dport;
    var e7, c7 := BothPorts(r, q, id).exprs,
                  Portful(q) ==> PortsTested(r.src.ports, q, p.Sport()) && PortsTested(r.dst.ports, q, p.Dport());
    BothPortsTests(r, q, id, p, env);
    var e6, c6 := EndpointMatch(r.dst, false, p.v6), AddrHolds(r.dst, p.v6, p.Daddr(), env);
    EndpointTests(r.dst, false, p, env);
    TestsAppend(e6, c6, e7, c7, p, env);
    var e5, c5 := EndpointMatch(r.src, true, p.v6), AddrHolds(r.src, p.v6, p.Saddr(), env);
    EndpointTests(r.src, true, p, env);
    TestsAppend(e5, c5, e6 + e7, c6 && c7, p, env);
    var e4, c4 := IcmpExprs(r.icmpType), r.icmpType.Some? ==> HasIcmpType(p, r.icmpType.value);
    IcmpExprsTests(r.icmpType, p, env);
    TestsAppend(e4, c4, e5 + (e6 + e7), c5 && (c6 && c7), p, env);
    var e3, c3 := ProtoExprs(q), Carries(p, q);
    ProtoExprsTests(q, p, env);
    TestsAppend(e3, c3, e4 + (e5 + (e6 + e7)), c4 && (c5 && (c6 && c7)), p, env);
    var e2, c2 := IfaceExprs(Oifname, r.ifaceOut), IfaceHolds(r.ifaceOut, p.oif);
    IfaceExprsTests(Oifname, r.ifaceOut, p, env);
    TestsAppend(e2, c2, e3 + (e4 + (e5 + (e6 + e7))), c3 && (c4 && (c5 && (c6 && c7))), p, env);
    var e1, c1 := IfaceExprs(Iifname, r.ifaceIn), IfaceHolds(r.ifaceIn, p.iif);
    IfaceExprsTests(Iifname, r.ifaceIn, p, env);
    TestsAppend(e1, c1, e2 + (e3 + (e4 + (e5 + (e6 + e7)))), c2 && (c3 && (c4 && (c5 && (c6 && c7)))), p, env);
  }

  // ---- rules that settle a packet ----

  ghost predicate OutcomeIs(o: Outcome, d: Option<Decision>)
  {
    match d
    case Some(x) => o.Decided? && o.decision == x
    case None => o.Fell?
  }

  // Whatever rate limits say, the rules decide d, or fall through for None.
  ghost predicate Settles(rules: seq<NftRule>, d: Option<Decision>, depth: nat, p: Packet, env: Env)
  {
    forall t: nat :: OutcomeIs(RunChain(rules, depth, p, env, t), d)
  }

  lemma SettlesNothing(depth: nat, p: Packet, env: Env)
    ensures Settles([], None, depth, p, env)
  {
  }

  lemma SettlesAppend(a: seq<NftRule>, da: Option<Decision>, b: seq<NftRule>, db: Option<Decision>,
                      depth: nat, p: Packet, env: Env)
    requires Settles(a, da, depth, p, env) && (da.None? ==> Settles(b, db, depth, p, env))
    ensures Settles(a + b, if da.Some? then da else db, depth, p, env)
  {
    hide RunChain;
    forall t: nat ensures OutcomeIs(RunChain(a + b, depth, p, env, t), if da.Some? then da else db) {
      RunChainAppend(a, b, depth, p, env, t);
      var o := RunChain(a, depth, p, env, t);
      assert OutcomeIs(o, da);
      if da.None? {
        assert OutcomeIs(RunChain(b, depth, p, env, o.t), db);
      }
    }
  }

  // Rules that never reach a final verdict or a jump.
  predicate HarmlessRule(es: NftRule)
  {
    forall j :: 0 <= j < |es| && es[j].Verdict? ==> es[j].verdict == Return
  }

  predicate Harmless(rules: seq<NftRule>)
  {
    forall i :: 0 <= i < |rules| ==> HarmlessRule(rules[i])
  }

  lemma {:induction false} HarmlessRuns(rules: seq<NftRule>, depth: nat, p: Packet, env: Env, t: nat)
    requires Harmless(rules)
    ensures var o := RunChain(rules, depth, p, env, t); o.Fell? || o.Returned?
    decreases |rules|
  {
    if rules == [] { return; }
    hide RunExprs, HarmlessRule;
    var f := RunExprs(rules[0], p, env, map[], t);
    HarmlessStops(rules[0], p, env, t);
    if !f.Stop? {
      HarmlessRuns(rules[1..], depth, p, env, f.t);
    }
  }

  lemma HarmlessStops(es: NftRule, p: Packet, env: Env, t: nat)
    requires HarmlessRule(es)
    ensures var f := RunExprs(es, p, env, map[], t); f.Stop? ==> f.verdict == Return
  {
    if RunExprs(es, p, env, map[], t).Stop? {
      var j := StopsAtVerdict(es, p, env, map[], t);
    }
  }

  // A match followed by a counter and a verdict.
  function Guarded(exprs: NftRule, v: Verdict): NftRule
  {
    exprs + [Counter, Verdict(v)]
  }

  lemma GuardedRuns(exprs: NftRule, cond: bool, v: Verdict, p: Packet, env: Env, t: nat)
    requires Tests(exprs, cond, p, env)
    ensures RunExprs(Guarded(exprs, v), p, env, map[], t) == if cond then Stop(v, t) else Break(t)
  {
    hide RunExprs;
    RunExprsAppend(exprs, [Counter, Verdict(v)], p, env, map[], t);
    var f := RunExprs(exprs, p, env, map[], t);
    assert TestFlow(f, cond, t);
    if cond {
      RunTwo(Counter, Verdict(v), p, env, f.regs, f.t);
    }
  }

  function Final(d: Decision): Verdict
  {
    match d
    case Accepted => Accept
    case Dropped => Drop
    case Rejected => RejectWith
  }

  lemma RunSingle(rule: NftRule, depth: nat, p: Packet, env: Env, t: nat)
    ensures RunChain([rule], depth, p, env, t) ==
            match RunExprs(rule, p, env, map[], t)
            case Break(t') => Fell(t')
            case Go(_, t') => Fell(t')
            case Stop(v, t') =>
              match v
              case Accept => Decided(Accepted, t')
              case Drop => Decided(Dropped, t')
              case RejectWith => Decided(Rejected, t')
              case Return => Returned(t')
              case Jump(c) =>
                if c !in env.chains || depth == 0 then Stuck(t')
                else
                  var o := RunChain(env.chains[c], depth - 1, p, env, t');
                  if o.Fell? || o.Returned? then Fell(o.t) else o
  {
    hide RunExprs;
    assert [rule][1..] == [];
  }

  lemma FinalSettles(exprs: NftRule, cond: bool, d: Decision, depth: nat, p: Packet, env: Env)
    requires Tests(exprs, cond, p, env)
    ensures Settles([Guarded(exprs, Final(d))], if cond then Some(d) else None, depth, p, env)
  {
    hide RunExprs, Tests, RunChain;
    forall t: nat
      ensures OutcomeIs(RunChain([Guarded(exprs, Final(d))], depth, p, env, t), if cond then Some(d) else None)
    {
      GuardedRuns(exprs, cond, Final(d), p, env, t);
      RunSingle(Guarded(exprs, Final(d)), depth, p, env, t);
    }
  }

  // Jumping to a chain that never decides changes nothing.
  lemma HarmlessJump(exprs: NftRule, cond: bool, c: Chain, depth: nat, p: Packet, env: Env)
    requires Tests(exprs, cond, p, env) && c in env.chains && Harmless(env.chains[c]) && depth > 0
    ensures Settles([Guarded(exprs, Jump(c))], None, depth, p, env)
  {
    hide RunExprs, Tests, RunChain, Harmless;
    forall t: nat ensures OutcomeIs(RunChain([Guarded(exprs, Jump(c))], depth, p, env, t), None) {
      GuardedRuns(exprs, cond, Jump(c), p, env, t);
      RunSingle(Guarded(exprs, Jump(c)), depth, p, env, t);
      HarmlessRuns(env.chains[c], depth - 1, p, env, t);
    }
  }

  // Jumping to a chain that settles the packet.
  lemma JumpSettles(exprs: NftRule, cond: bool, c: Chain, d: Option<Decision>, depth: nat, p: Packet, env: Env)
    requires Tests(exprs, cond, p, env) && c in env.chains && depth > 0
    requires cond ==> Settles(env.chains[c], d, depth - 1, p, env)
    ensures Settles([Guarded(exprs, Jump(c))], if cond then d else None, depth, p, env)
  {
    hide RunExprs, Tests, RunChain;
    forall t: nat ensures OutcomeIs(RunChain([Guarded(exprs, Jump(c))], depth, p, env, t), if cond then d else None) {
      GuardedRuns(exprs, cond, Jump(c), p, env, t);
      RunSingle(Guarded(exprs, Jump(c)), depth, p, env, t);
      if cond {
        assert OutcomeIs(RunChain(env.chains[c], depth - 1, p, env, t), d);
      }
    }
  }

  // ---- the nftables rules of one model rule ----

  datatype Block = Block(user: seq<NftRule>, log: seq<NftRule>, sets: Sets, id: nat)

  function HookOf(d: Direction): Hook
  {
    match d
    case Out => Output
    case Routed => ForwardHook
    case _ => Input
  }

  const LIMIT3: Expr := RateLimit(3, 10)

  function LogPrefixOf(a: Action): string
  {
    match a
    case Allow => "[BFW ALLOW] "
    case Limit => "[BFW LIMIT] "
    case _ => "[BFW BLOCK] "
  }

  function LoggedExprs(r: Rule, exprs: NftRule): NftRule
  {
    if r.log == LogNew then exprs + CtMatch(8) else exprs
  }

  // The rate-limited log line and the return that ends it.
  function LogRules(r: Rule, exprs: NftRule): seq<NftRule>
  {
    if r.log == LogNone then []
    else [LoggedExprs(r, exprs) + [LIMIT3, LogPrefix(LogPrefixOf(r.action))], Guarded(LoggedExprs(r, exprs), Return)]
  }

  function LogJump(r: Rule, exprs: NftRule): seq<NftRule>
  {
    if r.log == LogNone then [] else [Guarded(exprs, Jump(UserLogging(HookOf(r.direction))))]
  }

  function MeterKey(r: Rule, v6: bool): string { SetKey(r.id, v6) }

  const METER_BODY: SetBody := SetBody(false, [])

  // The source address and destination port in their key registers.
  function MeterLoads(q: Proto, v6: bool): NftRule
  {
    [Payload(if v6 then 1 else 8, NetworkHeader, AddrOffset(true, v6), AddrLen(v6)),
     if Portful(q) then Payload(if v6 then 2 else 9, TransportHeader, 2, 2)
     else Immediate(if v6 then 2 else 9, [0, 0])]
  }

  function LimitMatch(r: Rule, q: Proto, v6: bool, exprs: NftRule): NftRule
  {
    exprs + (CtMatch(8) + (MeterLoads(q, v6) + [Dynset(if v6 then 1 else 8, Meter(MeterKey(r, v6)))]))
  }

  function ActionRules(r: Rule, q: Proto, v6: bool, exprs: NftRule): Result<seq<NftRule>>
  {
    match r.action
    case Allow => Ok([Guarded(exprs, Accept)])
    case Deny => Ok([Guarded(exprs, Drop)])
    case Reject => Ok([Guarded(exprs, RejectWith)])
    case Limit => Ok([Guarded(LimitMatch(r, q, v6, exprs), Jump(UserLimit)), Guarded(exprs, Jump(UserLimitAccept))])
    case OtherAction(_) => Err
  }

  function MeterSets(r: Rule, v6: bool): Sets
  {
    if r.action == Limit then map[Meter(MeterKey(r, v6)) := METER_BODY] else map[]
  }

  function VariantBlock(r: Rule, q: Proto, v6: bool, id: nat): Result<Block>
  {
    var m := RuleMatch(r, q, v6, id);
    if m.Err? then Err
    else
      var a := ActionRules(r, q, v6, m.value.exprs);
      if a.Err? then Err
      else Ok(Block(LogJump(r, m.value.exprs) + a.value, LogRules(r, m.value.exprs),
                    m.value.sets + MeterSets(r, v6), m.value.id))
  }

  // The variants in order, threading the set ID.
  function VariantsBlock(r: Rule, qs: seq<Proto>, v6: bool, id: nat): Result<Block>
  {
    if qs == [] then Ok(Block([], [], map[], id))
    else
      var init := VariantsBlock(r, qs[..|qs| - 1], v6, id);
      if init.Err? then Err
      else
        var last := VariantBlock(r, qs[|qs| - 1], v6, init.value.id);
        if last.Err? then Err
        else Ok(Block(init.value.user + last.value.user, init.value.log + last.value.log,
                      init.value.sets + last.value.sets, last.value.id))
  }

  function RuleBlock(r: Rule, v6: bool, now: int, id: nat): Result<Block>
  {
    if !r.Active(now) then Ok(Block([], [], map[], id)) else VariantsBlock(r, Variants(r), v6, id)
  }

  // ---- what a rule decides ----

  // An exceeded meter rejects new connections; everything else is accepted.
  ghost predicate OverLimit(r: Rule, q: Proto, p: Packet, env: Env)
  {
    && p.ct == New && (Portful(q) ==> p.Dport().Some?)
    && env.over(Meter(MeterKey(r, p.v6)))
  }

  ghost function VariantDecision(r: Rule, q: Proto, p: Packet, env: Env): Decision
  {
    match r.action
    case Allow => Accepted
    case Deny => Dropped
    case Reject => Rejected
    case Limit => if OverLimit(r, q, p, env) then Rejected else Accepted
    case OtherAction(_) => Dropped
  }

  // The chains a user rule may jump to, as compile() fills them.
  ghost predicate ServiceChains(env: Env)
  {
    && UserLimit in env.chains && UserLimitAccept in env.chains
    && (forall h :: UserLogging(h) in env.chains && Harmless(env.chains[UserLogging(h)]))
    && (exists log :: Harmless(log) && NeverReturns(log) && env.chains[UserLimit] == log + [Guarded([], RejectWith)])
    && env.chains[UserLimitAccept] == [Guarded([], Accept)]
  }

  predicate NeverReturns(rules: seq<NftRule>)
  {
    forall i, j :: 0 <= i < |rules| && 0 <= j < |rules[i]| ==> !rules[i][j].Verdict?
  }

  lemma {:induction false} NoVerdictFalls(rules: seq<NftRule>, depth: nat, p: Packet, env: Env, t: nat)
    requires NeverReturns(rules)
    ensures RunChain(rules, depth, p, env, t).Fell?
    decreases |rules|
  {
    if rules == [] { return; }
    hide RunExprs;
    var f := RunExprs(rules[0], p, env, map[], t);
    if f.Stop? {
      var j := StopsAtVerdict(rules[0], p, env, map[], t);
    } else {
      assert forall i :: 0 <= i < |rules[1..]| ==> rules[1..][i] == rules[i + 1];
      NoVerdictFalls(rules[1..], depth, p, env, f.t);
    }
  }

  lemma LimitChainsSettle(depth: nat, p: Packet, env: Env)
    requires ServiceChains(env)
    ensures Settles(env.chains[UserLimit], Some(Rejected), depth, p, env)
    ensures Settles(env.chains[UserLimitAccept], Some(Accepted), depth, p, env)
  {
    var log :| Harmless(log) && NeverReturns(log) && env.chains[UserLimit] == log + [Guarded([], RejectWith)];
    TestsNothing(p, env);
    FinalSettles([], true, Rejected, depth, p, env);
    FinalSettles([], true, Accepted, depth, p, env);
    assert Settles(log, None, depth, p, env) by {
      forall t: nat ensures OutcomeIs(RunChain(log, depth, p, env, t), None) {
        NoVerdictFalls(log, depth, p, env, t);
      }
    }
    SettlesAppend(log, None, [Guarded([], RejectWith)], Some(Rejected), depth, p, env);
  }

  lemma MeterLoadsTests(r: Rule, q: Proto, p: Packet, env: Env)
    requires p.Valid() && Meter(MeterKey(r, p.v6)) in env.sets
    ensures Tests(MeterLoads(q, p.v6) + [Dynset(if p.v6 then 1 else 8, Meter(MeterKey(r, p.v6)))],
                  (Portful(q) ==> p.Dport().Some?) && env.over(Meter(MeterKey(r, p.v6))), p, env)
  {
    hide RunExprs;
    var name := Meter(MeterKey(r, p.v6));
    var reg := if p.v6 then 1 else 8;
    var a, b, c := MeterLoads(q, p.v6)[0], MeterLoads(q, p.v6)[1], Dynset(reg, name);
    assert MeterLoads(q, p.v6) + [c] == [a, b, c];
    forall regs: Regs, t: nat
      ensures TestFlow(RunExprs([a, b, c], p, env, regs, t), (Portful(q) ==> p.Dport().Some?) && env.over(name), t)
    {
      RunThree(a, b, c, p, env, regs, t);
      var f := Exec(a, p, env, regs, t);
      assert f.Go? && f.t == t;
      RunTwo(b, c, p, env, f.regs, t);
    }
  }

  lemma LimitTests(r: Rule, q: Proto, exprs: NftRule, cond: bool, p: Packet, env: Env)
    requires p.Valid() && Meter(MeterKey(r, p.v6)) in env.sets
    requires Tests(exprs, cond, p, env)
    ensures Tests(LimitMatch(r, q, p.v6, exprs), cond && OverLimit(r, q, p, env), p, env)
  {
    hide Tests, CtMatch, MeterLoads, MeterKey, And8, Packet.Dport;
    var key := Meter(MeterKey(r, p.v6));
    var tail := MeterLoads(q, p.v6) + [Dynset(if p.v6 then 1 else 8, key)];
    MeterLoadsTests(r, q, p, env);
    CtTests(8, p, env);
    CtStates(p.ct);
    TestsAppend(CtMatch(8), p.ct == New, tail, (Portful(q) ==> p.Dport().Some?) && env.over(key), p, env);
    TestsAppend(exprs, cond, CtMatch(8) + tail, OverLimit(r, q, p, env), p, env);
  }

  lemma ActionSettles(r: Rule, q: Proto, v6: bool, exprs: NftRule, cond: bool, depth: nat, p: Packet, env: Env)
    requires p.Valid() && ServiceChains(env) && depth > 0
    requires SetsLoaded(MeterSets(r, v6), env) && (cond ==> p.v6 == v6)
    requires Tests(exprs, cond, p, env) && ActionRules(r, q, v6, exprs).Ok?
    ensures Settles(ActionRules(r, q, v6, exprs).value, if cond then Some(VariantDecision(r, q, p, env)) else None,
                    depth, p, env)
  {
    hide Tests, Settles, ServiceChains, LimitMatch;
    match r.action
    case Allow => FinalSettles(exprs, cond, Accepted, depth, p, env);
    case Deny => FinalSettles(exprs, cond, Dropped, depth, p, env);
    case Reject => FinalSettles(exprs, cond, Rejected, depth, p, env);
    case Limit => LimitSettles(r, q, v6, exprs, cond, depth, p, env);
  }

  lemma {:induction false} LimitSettles(r: Rule, q: Proto, v6: bool, exprs: NftRule, cond: bool, depth: nat,
      p: Packet, env: Env)
    requires p.Valid() && ServiceChains(env) && depth > 0 && r.action == Limit
    requires SetsLoaded(MeterSets(r, v6), env) && (cond ==> p.v6 == v6)
    requires Tests(exprs, cond, p, env)
    ensures Settles([Guarded(LimitMatch(r, q, v6, exprs), Jump(UserLimit)), Guarded(exprs, Jump(UserLimitAccept))],
                    if cond then Some(VariantDecision(r, q, p, env)) else None, depth, p, env)
  {
    hide Tests, Settles, MeterKey, OverLimit, Harmless, NeverReturns, Guarded;
    var over := cond && OverLimit(r, q, p, env);
    var first, second := Guarded(LimitMatch(r, q, v6, exprs), Jump(UserLimit)), Guarded(exprs, Jump(UserLimitAccept));
    assert Meter(MeterKey(r, v6)) in MeterSets(r, v6);
    if cond {
      LimitTests(r, q, exprs, cond, p, env);
    } else {
      BreakStays(exprs, CtMatch(8) + (MeterLoads(q, v6) + [Dynset(if v6 then 1 else 8, Meter(MeterKey(r, v6)))]), p,
          env);
    }
    LimitChainsSettle(depth - 1, p, env);
    JumpSettles(LimitMatch(r, q, v6, exprs), over, UserLimit, Some(Rejected), depth, p, env);
    JumpSettles(exprs, cond, UserLimitAccept, Some(Accepted), depth, p, env);
    SettlesAppend([first], if over then Some(Rejected) else None, [second], if cond then Some(Accepted) else None,
                  depth, p, env);
    assert [first] + [second] == [first, second];
  }

  lemma BreakStays(a: NftRule, b: NftRule, p: Packet, env: Env)
    requires Tests(a, false, p, env)
    ensures Tests(a + b, false, p, env)
  {
    TestsAppend(a, false, b, false, p, env);
  }

  lemma {:induction false} VariantSettles(r: Rule, q: Proto, v6: bool, id: nat, depth: nat, p: Packet, env: Env)
    requires p.Valid() && Compilable(r) && ServiceChains(env) && depth > 0
    requires VariantBlock(r, q, v6, id).Ok?
    requires SetsLoaded(RuleMatch(r, q, v6, id).value.sets, env) && SetsLoaded(MeterSets(r, v6), env)
    ensures Settles(VariantBlock(r, q, v6, id).value.user,
                    if p.v6 == v6 && VariantHolds(r, q, p, env) then Some(VariantDecision(r, q, p, env)) else None,
                    depth, p, env)
  {
    hide Tests, Settles, RuleMatch, ActionRules, VariantHolds, SetsLoaded, Harmless, NeverReturns;
    var m := RuleMatch(r, q, v6, id).value;
    var cond := p.v6 == v6 && VariantHolds(r, q, p, env);
    var d := if cond then Some(VariantDecision(r, q, p, env)) else None;
    RuleMatchTests(r, q, v6, id, p, env);
    ActionSettles(r, q, v6, m.exprs, cond, depth, p, env);
    if r.log == LogNone {
      SettlesNothing(depth, p, env);
    } else {
      HarmlessJump(m.exprs, cond, UserLogging(HookOf(r.direction)), depth, p, env);
    }
    SettlesAppend(LogJump(r, m.exprs), None, ActionRules(r, q, v6, m.exprs).value, d, depth, p, env);
  }

  // ---- all variants of a rule ----

  // What the variants compiled so far decide: the first that holds.
  ghost function VariantsDecision(r: Rule, qs: seq<Proto>, p: Packet, env: Env): Option<Decision>
    requires r.Valid() && p.Valid()
  {
    if qs == [] then None
    else
      var init, q := VariantsDecision(r, qs[..|qs| - 1], p, env), qs[|qs| - 1];
      if init.Some? then init
      else if VariantHolds(r, q, p, env) then Some(VariantDecision(r, q, p, env)) else None
  }

  // The set entries of a block: fresh anonymous sets and meters.
  ghost predicate BlockSets(sets: Sets, from: nat, to: nat)
  {
    && from <= to
    && forall n :: n in sets ==> (n.Anonymous? && from < n.id <= to) || (n.Meter? && sets[n] == METER_BODY)
  }

  lemma PortMatchSets(ports: seq<PortRange>, source: bool, q: Proto, id: nat)
    ensures BlockSets(PortMatch(ports, source, q, id).sets, id, PortMatch(ports, source, q, id).id)
  {
  }

  lemma VariantSets(r: Rule, q: Proto, v6: bool, id: nat)
    requires VariantBlock(r, q, v6, id).Ok?
    ensures BlockSets(RuleMatch(r, q, v6, id).value.sets, id, RuleMatch(r, q, v6, id).value.id)
    ensures forall n :: n in RuleMatch(r, q, v6, id).value.sets ==> n.Anonymous?
    ensures BlockSets(VariantBlock(r, q, v6, id).value.sets, id, VariantBlock(r, q, v6, id).value.id)
  {
    hide PortMatch, ActionRules, LogRules, LogJump;
    if Portful(q) {
      var s := PortMatch(r.src.ports, true, q, id);
      PortMatchSets(r.src.ports, true, q, id);
      PortMatchSets(r.dst.ports, false, q, s.id);
      PortMatchAnonymous(r.src.ports, true, q, id);
      PortMatchAnonymous(r.dst.ports, false, q, s.id);
    }
  }

  lemma PortMatchAnonymous(ports: seq<PortRange>, source: bool, q: Proto, id: nat)
    ensures forall n :: n in PortMatch(ports, source, q, id).sets ==> n.Anonymous?
  {
  }

  lemma {:induction false} VariantsSettle(r: Rule, qs: seq<Proto>, v6: bool, id: nat, depth: nat, p: Packet, env: Env)
    requires p.Valid() && Compilable(r) && ServiceChains(env) && depth > 0
    requires VariantsBlock(r, qs, v6, id).Ok? && SetsLoaded(VariantsBlock(r, qs, v6, id).value.sets, env)
    ensures BlockSets(VariantsBlock(r, qs, v6, id).value.sets, id, VariantsBlock(r, qs, v6, id).value.id)
    ensures Settles(VariantsBlock(r, qs, v6, id).value.user,
                    if p.v6 == v6 then VariantsDecision(r, qs, p, env) else None, depth, p, env)
  {
    hide Settles, VariantBlock, ServiceChains, VariantHolds;
    if qs == [] {
      SettlesNothing(depth, p, env);
    } else {
      var init, q := VariantsBlock(r, qs[..|qs| - 1], v6, id).value, qs[|qs| - 1];
      var last := VariantBlock(r, q, v6, init.id).value;
      VariantsSetsOnly(r, qs[..|qs| - 1], v6, id);
      VariantSets(r, q, v6, init.id);
      LoadedParts(r, q, v6, init.id, init.sets, id, env);
      VariantsSettle(r, qs[..|qs| - 1], v6, id, depth, p, env);
      VariantSettles(r, q, v6, init.id, depth, p, env);
      SettlesAppend(init.user, if p.v6 == v6 then VariantsDecision(r, qs[..|qs| - 1], p, env) else None,
                    last.user, if p.v6 == v6
                      && VariantHolds(r, q, p, env) then Some(VariantDecision(r, q, p, env)) else None,
                    depth, p, env);
    }
  }

  lemma {:induction false} VariantsSetsOnly(r: Rule, qs: seq<Proto>, v6: bool, id: nat)
    requires VariantsBlock(r, qs, v6, id).Ok?
    ensures BlockSets(VariantsBlock(r, qs, v6, id).value.sets, id, VariantsBlock(r, qs, v6, id).value.id)
  {
    hide VariantBlock;
    if qs != [] {
      VariantsSetsOnly(r, qs[..|qs| - 1], v6, id);
      VariantSets(r, qs[|qs| - 1], v6, VariantsBlock(r, qs[..|qs| - 1], v6, id).value.id);
    }
  }

  // Loading the union loads each part.
  lemma LoadedParts(r: Rule, q: Proto, v6: bool, mid: nat, init: Sets, from: nat, env: Env)
    requires VariantBlock(r, q, v6, mid).Ok?
    requires BlockSets(init, from, mid)
    requires BlockSets(VariantBlock(r, q, v6, mid).value.sets, mid, VariantBlock(r, q, v6, mid).value.id)
    requires forall n :: n in RuleMatch(r, q, v6, mid).value.sets ==> n.Anonymous?
    requires SetsLoaded(init + VariantBlock(r, q, v6, mid).value.sets, env)
    ensures SetsLoaded(init, env)
    ensures SetsLoaded(RuleMatch(r, q, v6, mid).value.sets, env) && SetsLoaded(MeterSets(r, v6), env)
  {
    hide RuleMatch, ActionRules, LogRules, LogJump;
    var last := VariantBlock(r, q, v6, mid).value.sets;
    var all := init + last;
    forall n | n in init ensures n in env.sets && env.sets[n] == init[n] {
      assert n in all && all[n] == init[n];
    }
    forall n | n in last ensures n in env.sets && env.sets[n] == last[n] {
      assert n in all && all[n] == last[n];
    }
    forall n | n in RuleMatch(r, q, v6, mid).value.sets
      ensures n in env.sets && env.sets[n] == RuleMatch(r, q, v6, mid).value.sets[n] {
      assert n in last && last[n] == RuleMatch(r, q, v6, mid).value.sets[n];
    }
  }

  // ---- the decision in the rule's own terms ----

  // Rules whose meter is keyed on the destination port.
  predicate MeterKeyed(r: Rule)
  {
    r.proto == Tcp || r.proto == Udp
    || ((r.proto == AnyProto || r.proto == NoProto) && (r.src.ports != [] || r.dst.ports != []))
  }

  ghost function ActionDecision(r: Rule, p: Packet, env: Env): Decision
  {
    match r.action
    case Allow => Accepted
    case Deny => Dropped
    case Reject => Rejected
    case Limit =>
      if p.ct == New && (MeterKeyed(r) ==> p.Dport().Some?) && env.over(Meter(MeterKey(r, p.v6))) then Rejected
      else Accepted
    case OtherAction(_) => Dropped
  }

  lemma VariantKeyed(r: Rule, q: Proto)
    requires q in Variants(r)
    ensures Portful(q) <==> MeterKeyed(r)
  {
    if r.src.ports != [] { assert r.src.ports[0].proto != Udp || r.src.ports[0].proto != Tcp; }
    if r.dst.ports != [] { assert r.dst.ports[0].proto != Udp || r.dst.ports[0].proto != Tcp; }
  }

  lemma {:induction false} VariantsDecide(r: Rule, qs: seq<Proto>, p: Packet, env: Env)
    requires r.Valid() && p.Valid() && forall q :: q in qs ==> q in Variants(r)
    ensures VariantsDecision(r, qs, p, env) ==
            if exists q :: q in qs && VariantHolds(r, q, p, env) then Some(ActionDecision(r, p, env)) else None
  {
    hide VariantHolds, Variants, MeterKeyed;
    if qs != [] {
      var init, q := qs[..|qs| - 1], qs[|qs| - 1];
      VariantsDecide(r, init, p, env);
      assert qs == init + [q];
      VariantKeyed(r, q);
    }
  }

  lemma NoPortsMention()
    ensures !HasTcp([]) && !HasUdp([])
  {
  }

  // Without ports and protocol "any" a rule has one variant.
  lemma AnyVariant(b: Rule)
    requires AnyProto in Variants(b)
    ensures b.src.ports == [] && b.dst.ports == []
  {
    NoPortsMention();
    if b.src.ports != [] { PortsMention(b.src.ports); }
    if b.dst.ports != [] { PortsMention(b.dst.ports); }
  }

  lemma PortsMention(ports: seq<PortRange>)
    requires ports != []
    ensures HasTcp(ports) || HasUdp(ports)
  {
    assert ports[0].proto != Udp || ports[0].proto != Tcp;
  }

  // ---- packets that tell readings apart ----

  // The packet under another protocol and transport header.
  function Carrying(p: Packet, l4: byte, th: seq<byte>): Packet { p.(l4 := l4, th := th) }

  // Nothing but the ICMP type looks at either.
  lemma CommonCarrying(r: Rule, p: Packet, l4: byte, th: seq<byte>, env: Env)
    requires r.Valid() && p.Valid() && CommonHolds(r, p, env) && (r.icmpType.Some? ==> th == p.th)
    ensures Carrying(p, l4, th).Valid() && CommonHolds(r, Carrying(p, l4, th), env)
  {
    hide IfaceHolds, AddrHolds;
  }

  function PortPair(x: uint16, y: uint16): seq<byte> { PortBytes(x) + PortBytes(y) }

  lemma PairPorts(p: Packet, l4: byte, x: uint16, y: uint16)
    ensures Carrying(p, l4, PortPair(x, y)).Sport() == Some(x) && Carrying(p, l4, PortPair(x, y)).Dport() == Some(y)
    ensures Carrying(p, l4, PortBytes(x)).Sport() == Some(x) && Carrying(p, l4, PortBytes(x)).Dport() == None
    ensures Carrying(p, l4, []).Sport() == None && Carrying(p, l4, []).Dport() == None
  {
  }

  // Every range of the lists holds some port.
  predicate RangesNonempty(ports: seq<PortRange>)
  {
    forall i :: 0 <= i < |ports| ==> ports[i].lo <= ports[i].hi
  }

  // A port the list accepts for the protocol.
  function PortFor(ports: seq<PortRange>, q: Proto): uint16
  {
    var rs := Applicable(ports, q);
    if rs == [] then 0 else rs[0].lo
  }

  lemma PortForTested(ports: seq<PortRange>, q: Proto)
    requires RangesNonempty(ports)
    ensures PortsTested(ports, q, Some(PortFor(ports, q)))
  {
    var rs := Applicable(ports, q);
    if rs != [] {
      assert rs[0] in ports;
      var i :| 0 <= i < |ports| && ports[i] == rs[0];
    }
  }

  // A packet on which an inconsistent variant and the rule differ.
  lemma InconsistentPacket(r: Rule, q: Proto, v6: bool, w: Packet, env: Env) returns (p: Packet)
    requires r.Valid() && q in Variants(r) && !MatchRejected(r, q, v6) && !ConsistentFor(r, q)
    requires RangesNonempty(r.src.ports) && RangesNonempty(r.dst.ports)
    requires w.Valid() && CommonHolds(r, w, env)
    ensures p.Valid() && CompiledHolds(r, p, env) && !Matches(r, p, env)
  {
    hide CommonHolds, PortsTested, Matches, IfaceHolds;
    if q == AnyProto { AnyVariant(r); }
    var l4 := ProtoNum(q).value;
    var th := if Portful(q) then PortPair(PortFor(r.src.ports, q), PortFor(r.dst.ports, q)) else w.th;
    p := Carrying(w, l4, th);
    CommonCarrying(r, w, l4, th, env);
    PairPorts(w, l4, PortFor(r.src.ports, q), PortFor(r.dst.ports, q));
    PortForTested(r.src.ports, q);
    PortForTested(r.dst.ports, q);
    assert VariantHolds(r, q, p, env);
    CompiledIffMatches(r, p, env);
  }

  // For a rule that compiles and whose other conditions some packet meets,
  // the two readings agree on every packet if and only if the rule is
  // port-consistent.
  lemma {:induction false} ReadingsAgreeIff(r: Rule, v6: bool, w: Packet, env: Env)
    requires r.Valid() && forall q :: q in Variants(r) ==> !MatchRejected(r, q, v6)
    requires RangesNonempty(r.src.ports) && RangesNonempty(r.dst.ports)
    requires w.Valid() && CommonHolds(r, w, env)
    ensures (forall p: Packet :: p.Valid() ==> (CompiledHolds(r, p, env) <==> Matches(r, p, env))) <==>
            PortConsistent(r)
  {
    hide CompiledHolds, Matches, ConsistentFor, MatchRejected, CommonHolds, Variants, RangesNonempty;
    if PortConsistent(r) {
      forall p: Packet | p.Valid() ensures CompiledHolds(r, p, env) <==> Matches(r, p, env) {
        CompiledIffMatches(r, p, env);
      }
    } else {
      var q :| q in Variants(r) && !ConsistentFor(r, q);
      var p := InconsistentPacket(r, q, v6, w, env);
    }
  }

  // Allow from tcp source port 80 to udp destination port 53.
  const MIXED_RULE: Rule := Rule(
    "r", Allow, In, NoDirection, [], [], AnyProto, None,
    AddrSpec(AnyAddr, [PortRange(80, 80, Tcp)], ""), AddrSpec(AnyAddr, [PortRange(53, 53, Udp)], ""),
    "", "", LogNone, "", 0, false, false)

  const MIXED_PACKET: Packet := Packet(false, [], [], 6, Zeros(20), [0, 80, 0, 22], New, 2, None)

  // Compiled, it accepts tcp from port 80 to any destination port, say 22.
  lemma {:induction false} InconsistentRuleWidens(env: Env)
    ensures MIXED_PACKET.Valid() && !PortConsistent(MIXED_RULE)
    ensures CompiledHolds(MIXED_RULE, MIXED_PACKET, env) && !Matches(MIXED_RULE, MIXED_PACKET, env)
  {
    hide Matches, VariantHolds;
    MixedVariant(env);
    CompiledIffMatches(MIXED_RULE, MIXED_PACKET, env);
  }

  lemma MixedVariant(env: Env)
    ensures Tcp in Variants(MIXED_RULE) && !ConsistentFor(MIXED_RULE, Tcp)
    ensures VariantHolds(MIXED_RULE, Tcp, MIXED_PACKET, env)
  {
    hide Val, PortsTested;
    var src, dst := MIXED_RULE.src.ports, MIXED_RULE.dst.ports;
    assert src[0] in src && src[0].proto != Udp;
    assert dst[..0] == [];
    assert Applicable(dst, Tcp) == [];
    assert Covers(src, Tcp, MIXED_PACKET.Sport());
    PortsTestedIffCovers(src, Tcp, MIXED_PACKET.Sport());
    assert PortsTested(dst, Tcp, MIXED_PACKET.Dport()) by { NothingTested(dst, Tcp, MIXED_PACKET.Dport()); }
  }

  lemma NothingTested(ports: seq<PortRange>, q: Proto, port: Option<uint16>)
    requires Applicable(ports, q) == []
    ensures PortsTested(ports, q, port)
  {
  }

  // ---- meters ----

  // Limit rules count together exactly when they are of one family and
  // have one ID, or the ID of the IPv4 one is the other's with a 6.
  lemma {:induction false} MetersApart(a: Rule, v6: bool, b: Rule, w6: bool)
    ensures MeterKey(a, v6) == MeterKey(b, w6) <==>
            if v6 == w6 then a.id == b.id else if v6 then a.id + "6" == b.id else a.id == b.id + "6"
  {
    if v6 && w6 {
      assert (a.id + "6")[..|a.id|] == a.id && (b.id + "6")[..|b.id|] == b.id;
    }
  }

  // What is counted: the source address with the destination port, or with
  // zeros for protocols without ports.
  lemma {:induction false} MeterCounts(q: Proto, p: Packet, env: Env, regs: Regs, t: nat)
    requires p.Valid()
    ensures var f := RunExprs(MeterLoads(q, p.v6), p, env, regs, t);
            var source, port := if p.v6 then 1 else 8, if p.v6 then 2 else 9;
            && (f == Break(t) <==> Portful(q) && p.Dport().None?)
            && (f != Break(t) ==>
                  && f.Go? && f.t == t && source in f.regs && port in f.regs && f.regs[source] == p.Saddr()
                  && |f.regs[port]| == 2
                  && if Portful(q) then Some(BigEndian16(f.regs[port][0], f.regs[port][1])) == p.Dport()
                     else f.regs[port] == [0, 0])
  {
    hide RunExprs;
    var a, b := MeterLoads(q, p.v6)[0], MeterLoads(q, p.v6)[1];
    assert MeterLoads(q, p.v6) == [a, b];
    RunTwo(a, b, p, env, regs, t);
    if Portful(q) && |p.th| >= 4 { assert p.th[2..4] == [p.th[2], p.th[3]]; }
  }
}
