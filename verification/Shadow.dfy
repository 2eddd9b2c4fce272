/** Shadowed-rule detection, and what removing rules does to the user chain. */
module Shadow {
  import opened Bytes
  import opened AddressSets
  import opened Outcomes
  import opened Rules
  import opened Netfilter
  import opened Matching
  import opened RuleCompiler
  import opened BuiltinChains
  import opened Compiler
  import opened Prefixes

  // ---- the tests ----

  // A range for protocol pb covers one for pa; "any" covers tcp and udp.
  predicate PortProtoCovers(pa: Proto, pb: Proto)
  {
    pa == pb || ((pb == AnyProto || pb == NoProto) && (pa == Tcp || pa == Udp || pa == AnyProto || pa == NoProto))
  }

  predicate RangeCovered(pa: PortRange, ports: seq<PortRange>)
  {
    exists i :: && 0 <= i < |ports| && PortProtoCovers(pa.proto, ports[i].proto)
                && ports[i].lo <= pa.lo && pa.hi <= ports[i].hi
  }

  predicate PortsCovered(a: seq<PortRange>, b: seq<PortRange>)
  {
    b == [] || (a != [] && forall i :: 0 <= i < |a| ==> RangeCovered(a[i], b))
  }

  predicate IpCovered(a: Addr, b: Addr)
  {
    b.Any() || (!a.Any() && ToPrefix(a).Some? && ToPrefix(b).Some?
        && PrefixContains(ToPrefix(a).value, ToPrefix(b).value))
  }

  // Endpoint b covers endpoint a; named sets skip the ports.
  predicate AddrSuperset(a: AddrSpec, b: AddrSpec)
  {
    if b.setName != "" || a.setName != "" then a.setName == b.setName
    else IpCovered(a.ip, b.ip) && PortsCovered(a.ports, b.ports)
  }

  predicate RuleSuperset(a: Rule, b: Rule)
  {
    && a.v6 == b.v6 && a.direction == b.direction
    && (b.ifaceIn != [] ==> b.ifaceIn == a.ifaceIn)
    && (b.ifaceOut != [] ==> b.ifaceOut == a.ifaceOut)
    && (b.proto != NoProto && b.proto != AnyProto ==> b.proto == a.proto)
    && (b.icmpType.Some? ==> b.icmpType == a.icmpType)
    && (b.dapp != "" ==> b.dapp == a.dapp)
    && (b.sapp != "" ==> b.sapp == a.sapp)
    && AddrSuperset(a.src, b.src) && AddrSuperset(a.dst, b.dst)
  }

  // ---- soundness of the address test ----

  lemma IpSound(a: Addr, b: Addr, x: seq<byte>)
    requires a.Valid() && b.Valid() && IpCovered(a, b) && a.Contains(x)
    ensures b.Contains(x)
  {
    hide PrefixContains, SamePrefix;
    if !b.Any() {
      var na, nb := ToPrefix(a).value, ToPrefix(b).value;
      ToPrefixMeans(a, x);
      ToPrefixMeans(b, x);
      PrefixSound(na, nb, x);
    }
  }

  // One prefix covers another exactly when its addresses include the
  // other's; a wildcard is covered by wildcards only.
  lemma CoveredIff(a: Addr, b: Addr)
    requires a.Valid() && b.Valid() && !a.BadAddr? && !b.BadAddr?
    ensures IpCovered(a, b) <==> b.Any() || (!a.Any() && forall x :: a.Contains(x) ==> b.Contains(x))
  {
    hide PrefixContains, SamePrefix;
    if IpCovered(a, b) {
      forall x | a.Contains(x) ensures b.Contains(x) { IpSound(a, b, x); }
    }
    if !b.Any() && !a.Any() && forall x :: a.Contains(x) ==> b.Contains(x) {
      var na, nb := ToPrefix(a).value, ToPrefix(b).value;
      forall x ensures (na.Contains(x) <==> a.Contains(x)) && (nb.Contains(x) <==> b.Contains(x)) {
        ToPrefixMeans(a, x);
        ToPrefixMeans(b, x);
      }
      ToPrefixMeans(a, []);
      ToPrefixMeans(b, []);
      OwnPrefix(na);
      InsideIff(na, nb);
    }
  }

  // ---- soundness of the port test ----

  // Covered lists have a range for every protocol the covering list needs.
  lemma PortsSound(a: seq<PortRange>, b: seq<PortRange>, q: Proto, port: Option<uint16>)
    requires Portful(q) && PortsCovered(a, b) && (a == [] || Applicable(a, q) != []) && PortsTested(a, q, port)
    ensures PortsTested(b, q, port)
  {
    hide InRanges;
    if b != [] {
      InRangesIffInPorts(a, q, port.value);
      var pa :| pa in a && Applies(pa, q) && pa.lo <= port.value <= pa.hi;
      var i :| 0 <= i < |a| && a[i] == pa;
      assert RangeCovered(a[i], b);
      var j :| 0 <= j < |b| && PortProtoCovers(pa.proto, b[j].proto) && b[j].lo <= pa.lo && pa.hi <= b[j].hi;
      assert b[j] in b && Applies(b[j], q);
      InRangesIffInPorts(b, q, port.value);
    }
  }

  // A list that covers a protocol's ranges mentions that protocol.
  lemma CoveringMentions(a: seq<PortRange>, b: seq<PortRange>, q: Proto)
    requires Portful(q) && PortsCovered(a, b) && b != [] && Applicable(a, q) != []
    ensures q == Tcp ==> HasTcp(b)
    ensures q == Udp ==> HasUdp(b)
  {
    var pa := Applicable(a, q)[0];
    assert pa in a && Applies(pa, q);
    var i :| 0 <= i < |a| && a[i] == pa;
    assert RangeCovered(a[i], b);
    var j :| 0 <= j < |b| && PortProtoCovers(pa.proto, b[j].proto) && b[j].lo <= pa.lo && pa.hi <= b[j].hi;
    assert b[j].proto == q || b[j].proto == AnyProto || b[j].proto == NoProto;
  }

  // ---- soundness of the whole test ----

  predicate AnyProtocol(q: Proto) { q == NoProto || q == AnyProto }

  predicate SameOrAny(p: Proto, q: Proto) { p == q || (AnyProtocol(q) && (AnyProtocol(p) || p == Tcp || p == Udp)) }

  // Each range lies in one of the other list, for its protocol.
  predicate RangesInside(a: seq<PortRange>, b: seq<PortRange>)
  {
    forall p :: p in a ==> exists q :: q in b && SameOrAny(p.proto, q.proto) && q.lo <= p.lo && p.hi <= q.hi
  }

  // The addresses of one end are among the other's: the same named set, or
  // none and the addresses and ports inside.
  ghost predicate EndInside(a: AddrSpec, b: AddrSpec)
    requires a.ip.Valid() && b.ip.Valid()
  {
    && a.setName == b.setName
    && (a.setName == "" ==>
          && (b.ip.Any() || (!a.ip.Any() && forall x :: a.ip.Contains(x) ==> b.ip.Contains(x)))
          && (b.ports == [] || (a.ports != [] && RangesInside(a.ports, b.ports))))
  }

  lemma PortsIff(a: seq<PortRange>, b: seq<PortRange>)
    ensures PortsCovered(a, b) <==> b == [] || (a != [] && RangesInside(a, b))
  {
    if PortsCovered(a, b) && b != [] {
      forall p | p in a ensures exists q :: q in b && SameOrAny(p.proto, q.proto) && q.lo <= p.lo && p.hi <= q.hi {
        var i :| 0 <= i < |a| && a[i] == p;
        assert RangeCovered(a[i], b);
        var j :| 0 <= j < |b| && PortProtoCovers(p.proto, b[j].proto) && b[j].lo <= p.lo && p.hi <= b[j].hi;
        assert b[j] in b;
      }
    }
    if a != [] && RangesInside(a, b) {
      forall i | 0 <= i < |a| ensures RangeCovered(a[i], b) {
        assert a[i] in a;
        var q :| q in b && SameOrAny(a[i].proto, q.proto) && q.lo <= a[i].lo && a[i].hi <= q.hi;
        var j :| 0 <= j < |b| && b[j] == q;
      }
    }
  }

  lemma EndIff(a: AddrSpec, b: AddrSpec)
    requires a.ip.Valid() && b.ip.Valid() && !a.ip.BadAddr? && !b.ip.BadAddr?
    ensures AddrSuperset(a, b) <==> EndInside(a, b)
  {
    hide IpCovered, PortsCovered, RangesInside;
    CoveredIff(a.ip, b.ip);
    PortsIff(a.ports, b.ports);
  }

  // A pair is reported exactly when the rules are of one family and
  // direction, every condition of the later one implies or repeats the
  // earlier one's, and both its ends lie inside.
  lemma {:induction false} ReportedIff(a: Rule, b: Rule)
    requires a.Valid() && b.Valid() && !a.src.ip.BadAddr? && !b.src.ip.BadAddr? && !a.dst.ip.BadAddr?
             && !b.dst.ip.BadAddr?
    ensures RuleSuperset(a, b) <==>
            && a.v6 == b.v6 && a.direction == b.direction
            && b.ifaceIn in {[], a.ifaceIn} && b.ifaceOut in {[], a.ifaceOut}
            && b.proto in {NoProto, AnyProto, a.proto} && b.icmpType in {None, a.icmpType}
            && b.dapp in {"", a.dapp} && b.sapp in {"", a.sapp}
            && EndInside(a.src, b.src) && EndInside(a.dst, b.dst)
  {
    hide AddrSuperset, EndInside;
    EndIff(a.src, b.src);
    EndIff(a.dst, b.dst);
  }

  // What the set shortcut leaves out: the ports of both endpoints.
  predicate CoversPorts(a: Rule, b: Rule)
  {
    PortsCovered(a.src.ports, b.src.ports) && PortsCovered(a.dst.ports, b.dst.ports)
  }

  predicate SetFree(r: Rule) { r.src.setName == "" && r.dst.setName == "" }

  lemma SetFreeCovers(a: Rule, b: Rule)
    requires RuleSuperset(a, b) && SetFree(a)
    ensures CoversPorts(a, b)
  {
    hide PortsCovered, IpCovered;
  }

  // The variant of b that takes over a variant of a.
  lemma CoveringVariant(a: Rule, b: Rule, q: Proto) returns (q': Proto)
    requires RuleSuperset(a, b) && CoversPorts(a, b) && q in Variants(a) && ConsistentFor(a, q)
    ensures q' in Variants(b) && (q' == q || q' == AnyProto)
  {
    hide PortsCovered, IpCovered, HasTcp, HasUdp, Applicable;
    if b.proto != NoProto && b.proto != AnyProto {
      q' := q;
    } else if b.src.ports == [] && b.dst.ports == [] {
      q' := AnyProto;
      NoPortsMention();
    } else {
      q' := q;
      EmptyUncovered(a.src.ports, b.src.ports);
      EmptyUncovered(a.dst.ports, b.dst.ports);
      if b.src.ports != [] { CoveringMentions(a.src.ports, b.src.ports, q); }
      else { CoveringMentions(a.dst.ports, b.dst.ports, q); }
    }
  }

  lemma EmptyUncovered(a: seq<PortRange>, b: seq<PortRange>)
    ensures PortsCovered(a, b) && b != [] ==> a != []
  {
  }

  // ---- exactly when the test is sound ----

  // Variant q of a runs into a variant of b: the same protocol, or all.
  predicate TakesProto(b: Rule, q: Proto)
  {
    q in Variants(b) || AnyProto in Variants(b)
  }

  // Every port that one list lets through for q, the other lets through.
  ghost predicate PortsWithin(a: seq<PortRange>, b: seq<PortRange>)
  {
    forall x: uint16 :: (a == [] || InRanges(a, x)) ==> InRanges(b, x)
  }

  // b asks for no port that a leaves open. A packet with a destination port
  // has a source port, but not the other way round.
  ghost predicate TakesPorts(a: Rule, b: Rule, q: Proto)
  {
    var sa, da := Applicable(a.src.ports, q), Applicable(a.dst.ports, q);
    var sb, db := Applicable(b.src.ports, q), Applicable(b.dst.ports, q);
    && (sb == [] || ((sa != [] || da != []) && PortsWithin(sa, sb)))
    && (db == [] || (da != [] && PortsWithin(da, db)))
  }

  ghost predicate Takes(a: Rule, b: Rule, q: Proto)
  {
    TakesProto(b, q) && (Portful(q) ==> TakesPorts(a, b, q))
  }

  ghost predicate TakesAll(a: Rule, b: Rule)
  {
    forall q :: q in Variants(a) ==> Takes(a, b, q)
  }

  lemma PortsTaken(a: Rule, b: Rule, q: Proto, p: Packet)
    requires TakesPorts(a, b, q) && PortsTested(a.src.ports, q, p.Sport()) && PortsTested(a.dst.ports, q, p.Dport())
    ensures PortsTested(b.src.ports, q, p.Sport()) && PortsTested(b.dst.ports, q, p.Dport())
  {
    hide InRanges, Applicable;
    assert p.Dport().Some? ==> p.Sport().Some?;
  }

  lemma VariantSound(a: Rule, b: Rule, q: Proto, p: Packet, env: Env)
    requires a.Valid() && b.Valid() && p.Valid() && RuleSuperset(a, b) && Takes(a, b, q) && VariantHolds(a, q, p, env)
    ensures CompiledHolds(b, p, env)
  {
    hide Variants, AddrSuperset, PortsTested, TakesPorts, IfaceIs, HasIcmpType, AddrHolds, Addr.Valid, Packet.Saddr,
         Packet.Daddr, Packet.Sport, Packet.Dport;
    if Portful(q) { PortsTaken(a, b, q, p); }
    EndpointSound(a.src, b.src, p.v6, p.Saddr(), env);
    EndpointSound(a.dst, b.dst, p.v6, p.Daddr(), env);
    var q' := if q in Variants(b) then q else AnyProto;
    assert VariantHolds(b, q', p, env);
  }

  // ruleSuperset is sound: what compiled a matches, compiled b matches, as
  // long as b takes every variant of a.
  lemma {:induction false} SupersetSound(a: Rule, b: Rule, p: Packet, env: Env)
    requires a.Valid() && b.Valid() && p.Valid() && RuleSuperset(a, b) && TakesAll(a, b) && CompiledHolds(a, p, env)
    ensures CompiledHolds(b, p, env)
  {
    hide Variants, VariantHolds, RuleSuperset, Takes;
    var q :| q in Variants(a) && VariantHolds(a, q, p, env);
    VariantSound(a, b, q, p, env);
  }

  // Without named sets the test covers the ports, and for port-consistent
  // rules that is enough.
  lemma {:induction false} CoveredTakes(a: Rule, b: Rule)
    requires RuleSuperset(a, b) && CoversPorts(a, b) && PortConsistent(a)
    ensures TakesAll(a, b)
  {
    hide Variants, PortsCovered, RuleSuperset, TakesPorts, ConsistentFor;
    forall q | q in Variants(a) ensures Takes(a, b, q) {
      assert ConsistentFor(a, q);
      var q' := CoveringVariant(a, b, q);
      if Portful(q) { CoveredPorts(a, b, q); }
    }
  }

  lemma CoveredPorts(a: Rule, b: Rule, q: Proto)
    requires Portful(q) && CoversPorts(a, b) && ConsistentFor(a, q)
    ensures TakesPorts(a, b, q)
  {
    hide PortsCovered, Applicable, InRanges;
    CoveredSide(a.src.ports, b.src.ports, q);
    CoveredSide(a.dst.ports, b.dst.ports, q);
  }

  lemma CoveredSide(a: seq<PortRange>, b: seq<PortRange>, q: Proto)
    requires Portful(q) && PortsCovered(a, b) && (a == [] || Applicable(a, q) != [])
    ensures Applicable(b, q) == [] || (Applicable(a, q) != [] && PortsWithin(Applicable(a, q), Applicable(b, q)))
  {
    hide PortsCovered, Applicable, InRanges;
    NothingApplies(q);
    EmptyUncovered(a, b);
    if Applicable(b, q) != [] {
      forall x: uint16 | InRanges(Applicable(a, q), x) ensures InRanges(Applicable(b, q), x) {
        PortsSound(a, b, q, Some(x));
      }
    }
  }

  lemma NothingApplies(q: Proto)
    ensures Applicable([], q) == []
  {
  }

  // ---- packets b leaves out ----

  // A transport header a lets through and b does not.
  lemma LeftOutHeader(a: Rule, b: Rule, q: Proto, w: Packet, l4: byte) returns (th: seq<byte>)
    requires !TakesPorts(a, b, q) && PortsTested(a.src.ports, q, w.Sport()) && PortsTested(a.dst.ports, q, w.Dport())
    ensures var p := Carrying(w, l4, th);
            && PortsTested(a.src.ports, q, p.Sport()) && PortsTested(a.dst.ports, q, p.Dport())
            && !(PortsTested(b.src.ports, q, p.Sport()) && PortsTested(b.dst.ports, q, p.Dport()))
  {
    hide InRanges, Applicable, PortBytes, Packet.Sport, Packet.Dport, PortsWithin;
    var sa, da := Applicable(a.src.ports, q), Applicable(a.dst.ports, q);
    var sb, db := Applicable(b.src.ports, q), Applicable(b.dst.ports, q);
    var x := if w.Sport().Some? then w.Sport().value else 0;
    var y := if w.Dport().Some? then w.Dport().value else 0;
    if sb != [] && !((sa != [] || da != []) && PortsWithin(sa, sb)) {
      if sa == [] && da == [] {
        th := [];
        PairPorts(w, l4, x, y);
      } else {
        x := PortOutside(sa, sb);
        th := PortPair(x, y);
        PairPorts(w, l4, x, y);
      }
    } else if da == [] {
      th := PortBytes(x);
      PairPorts(w, l4, x, y);
    } else {
      y := PortOutside(da, db);
      th := PortPair(x, y);
      PairPorts(w, l4, x, y);
    }
  }

  lemma PortOutside(a: seq<PortRange>, b: seq<PortRange>) returns (x: uint16)
    requires !PortsWithin(a, b)
    ensures (a == [] || InRanges(a, x)) && !InRanges(b, x)
  {
    hide InRanges;
    x :| (a == [] || InRanges(a, x)) && !InRanges(b, x);
  }

  // No variant of b carries the protocol of the packet.
  lemma NotCarried(a: Rule, b: Rule, q: Proto, p: Packet, env: Env)
    requires a.Valid() && b.Valid() && p.Valid() && RuleSuperset(a, b) && q in Variants(a) && !TakesProto(b, q)
    requires if q == AnyProto then p.l4 == 47 else ProtoNum(q) == Some(p.l4)
    ensures !CompiledHolds(b, p, env)
  {
    hide CommonHolds, PortsTested, AddrSuperset, HasTcp, HasUdp;
    forall q' | q' in Variants(b) ensures !VariantHolds(b, q', p, env) {}
  }

  // b's variant for q is the only one that carries a packet of q.
  lemma OnlyVariant(b: Rule, q: Proto, p: Packet, env: Env)
    requires b.Valid() && p.Valid() && ProtoNum(q) == Some(p.l4) && Portful(q) && TakesProto(b, q)
             && CompiledHolds(b, p, env)
    ensures PortsTested(b.src.ports, q, p.Sport()) && PortsTested(b.dst.ports, q, p.Dport())
  {
    hide CommonHolds, Packet.Sport, Packet.Dport, Variants;
    var q' :| q' in Variants(b) && VariantHolds(b, q', p, env);
    if AnyProto in Variants(b) {
      AnyVariant(b);
      NothingApplies(q);
    } else {
      assert q' == q;
    }
  }

  // A packet of the variant that b does not match.
  lemma LeftOut(a: Rule, b: Rule, q: Proto, v6: bool, w: Packet, env: Env) returns (p: Packet)
    requires a.Valid() && b.Valid() && RuleSuperset(a, b) && q in Variants(a) && !MatchRejected(a, q, v6)
             && !Takes(a, b, q)
    requires w.Valid() && VariantHolds(a, q, w, env)
    ensures p.Valid() && VariantHolds(a, q, p, env) && !CompiledHolds(b, p, env)
  {
    hide Variants, RuleSuperset, TakesPorts, PortsTested, CompiledHolds, CommonHolds, Packet.Sport, Packet.Dport;
    if !TakesProto(b, q) {
      p := if q == AnyProto then Carrying(w, 47, w.th) else w;
      if q == AnyProto { CommonCarrying(a, w, 47, w.th, env); }
      NotCarried(a, b, q, p, env);
    } else {
      var th := LeftOutHeader(a, b, q, w, w.l4);
      p := Carrying(w, w.l4, th);
      CommonCarrying(a, w, w.l4, th, env);
      if CompiledHolds(b, p, env) { OnlyVariant(b, q, p, env); }
    }
  }

  // For a variant some packet meets: b matches every packet of it if and
  // only if it takes the protocol and the ports.
  lemma {:induction false} TakenIff(a: Rule, b: Rule, q: Proto, v6: bool, w: Packet, env: Env)
    requires a.Valid() && b.Valid() && RuleSuperset(a, b) && q in Variants(a) && !MatchRejected(a, q, v6)
    requires w.Valid() && VariantHolds(a, q, w, env)
    ensures (forall p: Packet :: p.Valid() && VariantHolds(a, q, p, env) ==> CompiledHolds(b, p, env)) <==>
            Takes(a, b, q)
  {
    hide Variants, RuleSuperset, Takes, CompiledHolds, VariantHolds, MatchRejected;
    if Takes(a, b, q) {
      forall p: Packet | p.Valid() && VariantHolds(a, q, p, env) ensures CompiledHolds(b, p, env) {
        VariantSound(a, b, q, p, env);
      }
    } else {
      var p := LeftOut(a, b, q, v6, w, env);
    }
  }

  // Some packet meets the variant.
  ghost predicate Met(a: Rule, q: Proto, env: Env)
    requires a.Valid()
  {
    exists w: Packet :: w.Valid() && VariantHolds(a, q, w, env)
  }

  // ---- which variants can be met ----

  // Some interface of the kernel fits the name.
  ghost predicate NameFits(name: Name)
  {
    IfaceName(FittingIface(name))
  }

  function FittingIface(name: Name): Name { if Wildcard(name) then name[..|name| - 1] else name }

  // Some address of the family fits: any but a malformed one, and for a set
  // one of its members.
  ghost predicate EndFits(a: AddrSpec, v6: bool, env: Env)
  {
    if a.setName != "" then exists x: seq<byte> :: |x| == AddrLen(v6) && InNamedSet(env, a.setName, v6, x)
    else
      match a.ip
      case Host(b) => |b| == AddrLen(v6)
      case Cidr(net) => |net.addr| == AddrLen(v6)
      case BadAddr(_) => false
      case _ => true
  }

  // The list is empty or some range of it holds a port.
  predicate SomePort(ports: seq<PortRange>)
  {
    ports == [] || exists i :: 0 <= i < |ports| && ports[i].lo <= ports[i].hi
  }

  // What the rule itself says about it.
  ghost predicate Meetable(a: Rule, q: Proto, env: Env)
  {
    && NameFits(a.ifaceIn) && NameFits(a.ifaceOut)
    && (exists v6 :: EndFits(a.src, v6, env) && EndFits(a.dst, v6, env))
    && (Portful(q) ==> SomePort(Applicable(a.src.ports, q)) && SomePort(Applicable(a.dst.ports, q)))
  }

  lemma FittingName(name: Name, actual: Name)
    requires IfaceHolds(name, actual) && IfaceName(actual)
    ensures NameFits(name)
  {
    var n := FittingIface(name);
    assert n <= actual;
    assert forall i :: 0 <= i < |n| ==> n[i] == actual[i];
  }

  lemma FittingEnd(a: AddrSpec, v6: bool, x: seq<byte>, env: Env)
    requires a.ip.Valid() && |x| == AddrLen(v6) && AddrHolds(a, v6, x, env)
    ensures EndFits(a, v6, env)
  {
    hide InNamedSet, SamePrefix;
  }

  lemma MetIsMeetable(a: Rule, q: Proto, w: Packet, env: Env)
    requires a.Valid() && w.Valid() && VariantHolds(a, q, w, env)
    ensures Meetable(a, q, env)
  {
    hide IfaceHolds, AddrHolds, EndFits, NameFits, Applicable, HasIcmpType, Carries, Addr.Valid;
    EndpointField(true, w);
    EndpointField(false, w);
    FittingName(a.ifaceIn, w.iif);
    FittingName(a.ifaceOut, w.oif);
    FittingEnd(a.src, w.v6, w.Saddr(), env);
    FittingEnd(a.dst, w.v6, w.Daddr(), env);
  }

  // An address that fits.
  lemma AddressFor(a: AddrSpec, v6: bool, env: Env) returns (x: seq<byte>)
    requires a.ip.Valid() && EndFits(a, v6, env)
    ensures |x| == AddrLen(v6) && AddrHolds(a, v6, x, env)
  {
    hide InNamedSet;
    if a.setName != "" {
      x :| |x| == AddrLen(v6) && InNamedSet(env, a.setName, v6, x);
    } else {
      match a.ip
      case Host(b) => x := b;
      case Cidr(net) => x := net.addr;
      case _ => x := Zeros(AddrLen(v6));
    }
  }

  lemma PortInList(ports: seq<PortRange>, q: Proto) returns (x: uint16)
    requires SomePort(Applicable(ports, q))
    ensures PortsTested(ports, q, Some(x))
  {
    var rs := Applicable(ports, q);
    x := 0;
    if rs != [] {
      var i :| 0 <= i < |rs| && rs[i].lo <= rs[i].hi;
      x := rs[i].lo;
    }
  }

  // The packet from s to d.
  function Between(v6: bool, s: seq<byte>, d: seq<byte>, iif: Name, oif: Name, l4: byte, th: seq<byte>): Packet
  {
    Packet(v6, iif, oif, l4, Zeros(if v6 then 8 else 12) + s + d, th, New, 2, None)
  }

  lemma BetweenIs(v6: bool, s: seq<byte>, d: seq<byte>, iif: Name, oif: Name, l4: byte, th: seq<byte>)
    requires |s| == |d| == AddrLen(v6) && IfaceName(iif) && IfaceName(oif)
    ensures var p := Between(v6, s, d, iif, oif, l4, th); p.Valid() && p.Saddr() == s && p.Daddr() == d
  {
  }

  // The transport header for a variant.
  lemma MeetingHeader(a: Rule, q: Proto, v6: bool, w: Packet, l4: byte) returns (th: seq<byte>)
    requires !MatchRejected(a, q, v6)
    requires Portful(q) ==> SomePort(Applicable(a.src.ports, q)) && SomePort(Applicable(a.dst.ports, q))
    ensures var p := Carrying(w, l4, th);
            && (a.icmpType.Some? ==> HasIcmpType(p, a.icmpType.value))
            && (Portful(q) ==> PortsTested(a.src.ports, q, p.Sport()) && PortsTested(a.dst.ports, q, p.Dport()))
  {
    hide SomePort, PortsTested, Applicable, PortPair, Packet.Sport, Packet.Dport;
    if Portful(q) {
      var x := PortInList(a.src.ports, q);
      var y := PortInList(a.dst.ports, q);
      th := PortPair(x, y);
      PairPorts(w, l4, x, y);
    } else {
      th := if a.icmpType.Some? then [a.icmpType.value] else [];
    }
  }

  lemma MeetingPacket(a: Rule, q: Proto, v6: bool, env: Env) returns (w: Packet)
    requires a.Valid() && !MatchRejected(a, q, v6) && Meetable(a, q, env)
    ensures w.Valid() && VariantHolds(a, q, w, env)
  {
    hide AddrHolds, EndFits, Addr.Valid, SomePort, PortsTested, Between, Applicable, FittingIface, IfaceHolds,
         HasIcmpType, Packet.Sport, Packet.Dport, Packet.Saddr, Packet.Daddr, IfaceName;
    var f :| EndFits(a.src, f, env) && EndFits(a.dst, f, env);
    var s := AddressFor(a.src, f, env);
    var d := AddressFor(a.dst, f, env);
    var l4 := if q == AnyProto then 0 else ProtoNum(q).value;
    var iif, oif := FittingIface(a.ifaceIn), FittingIface(a.ifaceOut);
    var th := MeetingHeader(a, q, v6, Between(f, s, d, iif, oif, l4, []), l4);
    w := Between(f, s, d, iif, oif, l4, th);
    BetweenIs(f, s, d, iif, oif, l4, th);
    BetweenParts(f, s, d, iif, oif, l4, th);
    FittingFits(a.ifaceIn);
    FittingFits(a.ifaceOut);
  }

  lemma BetweenParts(v6: bool, s: seq<byte>, d: seq<byte>, iif: Name, oif: Name, l4: byte, th: seq<byte>)
    ensures var p := Between(v6, s, d, iif, oif, l4, th);
            p.v6 == v6 && p.iif == iif && p.oif == oif && p.l4 == l4
            && p == Carrying(Between(v6, s, d, iif, oif, l4, []), l4, th)
  {
  }

  lemma FittingFits(name: Name)
    ensures IfaceHolds(name, FittingIface(name))
  {
  }

  // A variant can be met if and only if the rule's names, addresses and
  // port ranges each leave something.
  lemma {:induction false} MetIff(a: Rule, q: Proto, v6: bool, env: Env)
    requires a.Valid() && !MatchRejected(a, q, v6)
    ensures Met(a, q, env) <==> Meetable(a, q, env)
  {
    hide VariantHolds, Meetable, MatchRejected;
    if Meetable(a, q, env) {
      var w := MeetingPacket(a, q, v6, env);
    }
    if Met(a, q, env) {
      var w: Packet :| w.Valid() && VariantHolds(a, q, w, env);
      MetIsMeetable(a, q, w, env);
    }
  }

  // The whole rule: a pair that check reports is one where b matches what a
  // matches, if and only if b takes every variant of a that can be met.
  lemma {:induction false} SupersetExact(a: Rule, b: Rule, v6: bool, env: Env)
    requires a.Valid() && b.Valid() && RuleSuperset(a, b) && forall q :: q in Variants(a) ==> !MatchRejected(a, q, v6)
    ensures (forall p: Packet :: p.Valid() && CompiledHolds(a, p, env) ==> CompiledHolds(b, p, env))
       <==> forall q :: q in Variants(a) && Meetable(a, q, env) ==> Takes(a, b, q)
  {
    hide Variants, RuleSuperset, Takes, VariantHolds, MatchRejected, Meetable;
    forall q | q in Variants(a) ensures Met(a, q, env) <==> Meetable(a, q, env) { MetIff(a, q, v6, env); }
    if forall q :: q in Variants(a) && Met(a, q, env) ==> Takes(a, b, q) {
      forall p: Packet | p.Valid() && CompiledHolds(a, p, env) ensures CompiledHolds(b, p, env) {
        var q :| q in Variants(a) && VariantHolds(a, q, p, env);
        assert Met(a, q, env);
        VariantSound(a, b, q, p, env);
      }
    } else {
      var q :| q in Variants(a) && Met(a, q, env) && !Takes(a, b, q);
      var w: Packet :| w.Valid() && VariantHolds(a, q, w, env);
      var p := LeftOut(a, b, q, v6, w, env);
      assert CompiledHolds(a, p, env);
    }
  }

  lemma EndpointSound(a: AddrSpec, b: AddrSpec, v6: bool, x: seq<byte>, env: Env)
    requires a.ip.Valid() && b.ip.Valid() && AddrSuperset(a, b) && AddrHolds(a, v6, x, env)
    ensures AddrHolds(b, v6, x, env)
  {
    hide IpCovered, PortsCovered, InNamedSet, Addr.Contains;
    if a.setName == "" && b.setName == "" { IpSound(a.ip, b.ip, x); }
  }

  // ---- the report ----

  // Rule j is hidden behind the active rule i.
  predicate Shadows(all: seq<Rule>, now: int, i: nat, j: nat)
    requires i < j < |all|
  {
    !all[j].disabled && all[i].Active(now) && RuleSuperset(all[j], all[i])
  }

  // The shadow loop of check: each warning names the first shadowing rule.
  method CheckShadowed(all: seq<Rule>, now: int) returns (warnings: seq<(nat, nat)>)
    ensures forall w :: w in warnings <==>
                          && w.0 < w.1 < |all| && Shadows(all, now, w.0, w.1)
                          && forall i :: 0 <= i < w.0 ==> !Shadows(all, now, i, w.1)
  {
    hide Shadows;
    warnings := [];
    for j := 0 to |all|
      invariant forall w :: w in warnings <==>
                              && w.0 < w.1 < j && Shadows(all, now, w.0, w.1)
                              && forall i :: 0 <= i < w.0 ==> !Shadows(all, now, i, w.1)
    {
      var first := FirstShadow(all, now, j);
      if first.Some? {
        warnings := warnings + [(first.value, j)];
      }
    }
  }

  method FirstShadow(all: seq<Rule>, now: int, j: nat) returns (r: Option<nat>)
    requires j < |all|
    ensures r.Some? ==>
            r.value < j && Shadows(all, now, r.value, j) && forall i :: 0 <= i < r.value ==> !Shadows(all, now, i, j)
    ensures r.None? ==> forall i :: 0 <= i < j ==> !Shadows(all, now, i, j)
  {
    hide RuleSuperset;
    if all[j].disabled { return None; }
    for i := 0 to j
      invariant forall k :: 0 <= k < i ==> !Shadows(all, now, k, j)
    {
      if all[i].disabled || all[i].Expired(now) { continue; }
      if RuleSuperset(all[j], all[i]) { return Some(i); }
    }
    return None;
  }

  // ---- removing rules ----

  lemma {:induction false} UndecidedMisses(rules: seq<Rule>, h: Hook, now: int, p: Packet, env: Env, i: nat)
    requires p.Valid() && (forall r :: r in rules ==> r.Valid()) && i < |rules|
    requires CompiledFirst(rules, h, now, p, env).None?
    ensures OneMatch(rules[i], h, now, p, env).None?
  {
    hide OneMatch;
    if i > 0 { UndecidedMisses(rules[1..], h, now, p, env, i - 1); }
  }

  // Deleting a rule that check reports as shadowed, where the shadowing rule
  // takes every variant, changes no packet's decision.
  lemma {:induction false} DeleteShadowed(rules: seq<Rule>, now: int, i: nat, j: nat, h: Hook, p: Packet, env: Env)
    requires p.Valid() && forall r :: r in rules ==> r.Valid()
    requires i < j < |rules| && Shadows(rules, now, i, j) && TakesAll(rules[j], rules[i])
    requires forall r :: r in rules[..j] + rules[j + 1..] ==> r.Valid()
    ensures CompiledFirst(rules[..j] + rules[j + 1..], h, now, p, env) == CompiledFirst(rules, h, now, p, env)
  {
    hide OneMatch, RuleSuperset, TakesAll;
    var pre, a, post := rules[..j], rules[j], rules[j + 1..];
    assert rules == pre + ([a] + post);
    CompiledFirstAppend(pre, [a] + post, h, now, p, env);
    CompiledFirstAppend([a], post, h, now, p, env);
    CompiledFirstAppend(pre, post, h, now, p, env);
    assert [a][1..] == [];
    if CompiledFirst(pre, h, now, p, env).None? {
      UndecidedMisses(pre, h, now, p, env, i);
      ShadowedMisses(a, pre[i], h, now, p, env);
    }
  }

  lemma ShadowedMisses(a: Rule, b: Rule, h: Hook, now: int, p: Packet, env: Env)
    requires a.Valid() && b.Valid() && p.Valid() && RuleSuperset(a, b) && TakesAll(a, b)
    requires b.Active(now) && OneMatch(b, h, now, p, env).None?
    ensures OneMatch(a, h, now, p, env).None?
  {
    hide CompiledHolds, TakesAll, AddrSuperset;
    if CompiledHolds(a, p, env) { SupersetSound(a, b, p, env); }
  }

  // The usual case: no named sets in the shadowed rule.
  lemma {:induction false} DeleteShadowedSetFree(rules: seq<Rule>, now: int, i: nat, j: nat, h: Hook, p: Packet,
      env: Env)
    requires p.Valid() && forall r :: r in rules ==> r.Valid()
    requires i < j < |rules| && Shadows(rules, now, i, j) && PortConsistent(rules[j]) && SetFree(rules[j])
    requires forall r :: r in rules[..j] + rules[j + 1..] ==> r.Valid()
    ensures CompiledFirst(rules[..j] + rules[j + 1..], h, now, p, env) == CompiledFirst(rules, h, now, p, env)
  {
    hide CompiledFirst, RuleSuperset, CoversPorts, PortConsistent, TakesAll;
    SetFreeCovers(rules[j], rules[i]);
    CoveredTakes(rules[j], rules[i]);
    DeleteShadowed(rules, now, i, j, h, p, env);
  }

  // Lazy expiry: rules past their time are dropped on every mutation.
  method SweepExpired(rules: seq<Rule>, now: int) returns (out: seq<Rule>)
    ensures out == Unexpired(rules, now)
  {
    out := [];
    for i := 0 to |rules|
      invariant out == Unexpired(rules[..i], now)
    {
      assert rules[..i + 1][..i] == rules[..i];
      if !rules[i].Expired(now) { out := out + [rules[i]]; }
    }
    assert rules[..|rules|] == rules;
  }

  function Unexpired(rules: seq<Rule>, now: int): (r: seq<Rule>)
    ensures forall x :: x in r <==> x in rules && !x.Expired(now)
  {
    if rules == [] then []
    else
      var init, last := Unexpired(rules[..|rules| - 1], now), rules[|rules| - 1];
      if last.Expired(now) then init else init + [last]
  }

  // The sweep is unobservable, now and at any later time.
  lemma {:induction false} SweepUnobservable(rules: seq<Rule>, now: int, later: int, h: Hook, p: Packet, env: Env)
    requires p.Valid() && (forall r :: r in rules ==> r.Valid()) && now <= later
    ensures CompiledFirst(Unexpired(rules, now), h, later, p, env) == CompiledFirst(rules, h, later, p, env)
  {
    hide CompiledHolds;
    if rules != [] {
      var init, last := rules[..|rules| - 1], rules[|rules| - 1];
      SweepUnobservable(init, now, later, h, p, env);
      assert rules == init + [last];
      CompiledFirstAppend(init, [last], h, later, p, env);
      assert [last][1..] == [];
      if !last.Expired(now) { CompiledFirstAppend(Unexpired(init, now), [last], h, later, p, env); }
    }
  }

  // ---- where the test is not sound ----

  function NamedRule(ports: seq<PortRange>): Rule
  {
    Rule("r", Allow, In, NoDirection, [], [], Tcp, None, AddrSpec(AnyAddr, [], ""), AddrSpec(AnyAddr, ports, "s"),
         "", "", LogNone, "", 0, false, false)
  }

  // Set s holds 0.0.0.0, and a tcp packet goes there, to port 80.
  function NamedEnv(): Env
  {
    Env(map[], map[UserSet("s") := SetBody(false, [Element(Zeros(4), false)])], _ => false, _ => false)
  }

  const TO_PORT_80: Packet := Packet(false, [], [], 6, Zeros(20), [0, 0, 0, 80], New, 2, None)

  // Endpoints that name the same set skip port coverage: a rule for every
  // tcp port is reported as shadowed by one for port 22 alone.
  lemma {:induction false} SetsSkipPorts()
    ensures var a, b, p := NamedRule([]), NamedRule([PortRange(22, 22, Tcp)]), TO_PORT_80;
            && RuleSuperset(a, b) && PortConsistent(a) && PortConsistent(b)
            && p.Valid() && CompiledHolds(a, p, NamedEnv()) && !CompiledHolds(b, p, NamedEnv())
  {
    hide RuleSuperset, PortConsistent, CompiledHolds;
    SkipReported();
    SkipMatched();
  }

  lemma SkipReported()
    ensures var a, b := NamedRule([]), NamedRule([PortRange(22, 22, Tcp)]);
            RuleSuperset(a, b) && PortConsistent(a) && PortConsistent(b)
  {
    SkipPorts();
    hide Applicable;
  }

  lemma SkipPorts()
    ensures Applicable([PortRange(22, 22, Tcp)], Tcp) == [PortRange(22, 22, Tcp)] && Applicable([], Tcp) == []
  {
    var ports := [PortRange(22, 22, Tcp)];
    assert ports[..0] == [];
  }

  lemma SkipMatched()
    ensures var a, b, p := NamedRule([]), NamedRule([PortRange(22, 22, Tcp)]), TO_PORT_80;
            p.Valid() && CompiledHolds(a, p, NamedEnv()) && !CompiledHolds(b, p, NamedEnv())
  {
    hide InNamedSet, Applicable, NamedEnv;
    var a, p := NamedRule([]), TO_PORT_80;
    SkipPorts();
    InSetS(p.Daddr());
    assert VariantHolds(a, Tcp, p, NamedEnv());
  }

  lemma InSetS(x: seq<byte>)
    requires x == Zeros(4)
    ensures InNamedSet(NamedEnv(), "s", false, x)
  {
    var body := NamedEnv().sets[UserSet("s")];
    assert body.elems[0] in body.elems;
  }

  // ---- the combined list ----

  function Flagged(rules: seq<Rule>, v6: bool): (r: seq<Rule>)
    ensures |r| == |rules|
  {
    seq(|rules|, i requires 0 <= i < |rules| => rules[i].(v6 := v6))
  }

  // check looks at the IPv4 rules followed by the IPv6 rules.
  function CombinedRules(rules4: seq<Rule>, rules6: seq<Rule>): seq<Rule>
  {
    Flagged(rules4, false) + Flagged(rules6, true)
  }

  // A report never crosses the families: it is a report about one list.
  lemma {:induction false} ReportInFamily(rules4: seq<Rule>, rules6: seq<Rule>, now: int, i: nat, j: nat)
    requires i < j < |rules4| + |rules6|
    ensures var n := |rules4|;
            Shadows(CombinedRules(rules4, rules6), now, i, j) <==>
            if j < n then Shadows(Flagged(rules4, false), now, i, j)
            else i >= n && Shadows(Flagged(rules6, true), now, i - n, j - n)
  {
    hide AddrSuperset;
  }

  function Without(rules: seq<Rule>, j: nat): seq<Rule>
    requires j < |rules|
  {
    rules[..j] + rules[j + 1..]
  }

  // Deleting a reported rule of either family from its list changes no
  // decision of that list.
  lemma {:induction false} DeleteReported(rules4: seq<Rule>, rules6: seq<Rule>, now: int, i: nat, j: nat, h: Hook,
      p: Packet, env: Env)
    requires p.Valid() && (forall r :: r in rules4 ==> r.Valid()) && (forall r :: r in rules6 ==> r.Valid())
    requires i < j < |rules4| + |rules6| && Shadows(CombinedRules(rules4, rules6), now, i, j)
    requires TakesAll(CombinedRules(rules4, rules6)[j], CombinedRules(rules4, rules6)[i])
    ensures var late := j >= |rules4|;
            var list, k := Flagged(if late then rules6 else rules4, late), if late then j - |rules4| else j;
            && (forall r :: r in list ==> r.Valid()) && (forall r :: r in Without(list, k) ==> r.Valid())
            && CompiledFirst(Without(list, k), h, now, p, env) == CompiledFirst(list, h, now, p, env)
  {
    hide CompiledFirst, Shadows, TakesAll;
    var n, late := |rules4|, j >= |rules4|;
    var list := Flagged(if late then rules6 else rules4, late);
    FlaggedValid(if late then rules6 else rules4, late);
    ReportInFamily(rules4, rules6, now, i, j);
    if late {
      DeleteShadowed(list, now, i - n, j - n, h, p, env);
    } else {
      DeleteShadowed(list, now, i, j, h, p, env);
    }
  }

  lemma FlaggedValid(rules: seq<Rule>, v6: bool)
    requires forall r :: r in rules ==> r.Valid()
    ensures forall r :: r in Flagged(rules, v6) ==> r.Valid()
  {
    forall r | r in Flagged(rules, v6) ensures r.Valid() {
      var k :| 0 <= k < |rules| && Flagged(rules, v6)[k] == r;
      assert rules[k] in rules;
    }
  }
}
