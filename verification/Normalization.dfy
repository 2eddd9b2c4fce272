/** Canonical rules: addresses as networks or hosts, ports in order. */
module Normalization {
  import opened Bytes
  import opened AddressSets
  import opened Outcomes
  import opened Rules
  import opened Prefixes
  import opened Netfilter
  import opened Matching
  import opened RuleCompiler

  // ---- addresses ----

  // normalizeAddr on parsed addresses: a full-length prefix is a host, any
  // other prefix drops its host bits.
  function CanonAddr(a: AddrSpec): Addr
  {
    if a.ip.NoAddr? then AnyAddr
    else if a.ip.AnyAddr? || a.setName != "" then a.ip
    else
      match a.ip
      case Cidr(net) => if net.bits == 8 * |net.addr| then Host(net.addr) else Cidr(Net(net.First(), net.bits))
      case other => other
  }

  method NormalizeAddr(a: AddrSpec) returns (out: AddrSpec, changed: bool)
    ensures out == a.(ip := CanonAddr(a)) && (changed <==> out != a)
  {
    if a.ip == NoAddr { return a.(ip := AnyAddr), true; }
    if a.ip == AnyAddr || a.setName != "" { return a, false; }
    if !a.ip.Cidr? { return a, false; }
    var net := a.ip.net;
    out := a.(ip := if net.bits == 8 * |net.addr| then Host(net.addr) else Cidr(Net(net.First(), net.bits)));
    changed := out.ip != a.ip;
  }

  lemma CanonMeans(a: AddrSpec, x: seq<byte>)
    requires a.ip.Valid() && a.setName == ""
    ensures CanonAddr(a).Valid() && (CanonAddr(a).Contains(x) <==> a.ip.Contains(x))
  {
    hide SamePrefix, Mask, CidrMask;
    if a.ip.Cidr? {
      NetMeans(a.ip.net, x);
      if a.ip.net.bits == 8 * |a.ip.net.addr| { ToPrefixMeans(Host(a.ip.net.addr), x); }
    }
  }

  // Both ends speak of the same addresses.
  ghost predicate SameAddresses(a: Addr, b: Addr)
    requires a.Valid() && b.Valid()
  {
    forall x :: a.Contains(x) <==> b.Contains(x)
  }

  // A canonical form is the only one of its addresses.
  lemma {:induction false} CanonUnique(a: AddrSpec, b: AddrSpec)
    requires a.ip.Valid() && b.ip.Valid() && !a.ip.BadAddr? && !b.ip.BadAddr? && a.setName == b.setName == ""
    ensures CanonAddr(a) == CanonAddr(b) <==> SameAddresses(a.ip, b.ip)
  {
    hide SamePrefix, Mask, CidrMask, Addr.Contains;
    forall x ensures CanonAddr(a).Valid() && CanonAddr(b).Valid() && (CanonAddr(a).Contains(x) <==> a.ip.Contains(x))
                     && (CanonAddr(b).Contains(x) <==> b.ip.Contains(x)) {
      CanonMeans(a, x);
      CanonMeans(b, x);
    }
    CanonMeans(a, []);
    CanonMeans(b, []);
    if SameAddresses(a.ip, b.ip) {
      if a.ip.Any() || b.ip.Any() {
        AnyAlone(a.ip, b.ip);
      } else {
        SamePrefixes(a, b);
      }
    }
  }

  // Only a wildcard speaks of the empty address.
  lemma AnyAlone(a: Addr, b: Addr)
    requires a.Valid() && b.Valid() && !a.BadAddr? && !b.BadAddr? && SameAddresses(a, b) && (a.Any() || b.Any())
    ensures a.Any() && b.Any()
  {
    hide SamePrefix;
    assert a.Contains([]) <==> b.Contains([]);
  }

  lemma SamePrefixes(a: AddrSpec, b: AddrSpec)
    requires a.ip.Valid() && b.ip.Valid() && !a.ip.BadAddr? && !b.ip.BadAddr? && a.setName == b.setName == ""
    requires SameAddresses(a.ip, b.ip) && !a.ip.Any() && !b.ip.Any()
    ensures CanonAddr(a) == CanonAddr(b)
  {
    hide SamePrefix, Mask, CidrMask, Addr.Contains, PrefixContains;
    var na, nb := ToPrefix(a.ip).value, ToPrefix(b.ip).value;
    forall x ensures (na.Contains(x) <==> a.ip.Contains(x)) && (nb.Contains(x) <==> b.ip.Contains(x)) {
      ToPrefixMeans(a.ip, x);
      ToPrefixMeans(b.ip, x);
    }
    ToPrefixMeans(a.ip, []);
    ToPrefixMeans(b.ip, []);
    InsideIff(na, nb);
    InsideIff(nb, na);
    FirstSame(na, nb);
    FullPrefix(na.addr, na.bits);
    FullPrefix(nb.addr, nb.bits);
  }

  lemma FirstSame(a: Net, b: Net)
    requires PrefixContains(a, b) && PrefixContains(b, a)
    ensures a.bits == b.bits && a.First() == b.First()
  {
  }

  lemma FullPrefix(a: seq<byte>, p: nat)
    ensures p == 8 * |a| ==> Mask(a, CidrMask(p, |a|)) == a
  {
    hide Mask, CidrMask;
    if p == 8 * |a| { MaskAll(a, p); }
  }

  // ---- ports ----

  function Text(q: Proto): string
  {
    match q
    case NoProto => ""
    case AnyProto => "any"
    case Tcp => "tcp"
    case Udp => "udp"
    case Icmp => "icmp"
    case Icmpv6 => "icmpv6"
    case Ah => "ah"
    case Esp => "esp"
    case Gre => "gre"
    case Igmp => "igmp"
    case Ipv6 => "ipv6"
    case Vrrp => "vrrp"
    case OtherProto(name) => name
  }

  predicate TextLess(a: string, b: string)
  {
    if b == "" then false
    else if a == "" then true
    else a[0] < b[0] || (a[0] == b[0] && TextLess(a[1..], b[1..]))
  }

  lemma {:induction false} TextOrder(a: string, b: string, c: string)
    ensures !TextLess(a, a)
    ensures TextLess(a, b) ==> !TextLess(b, a)
    ensures !TextLess(b, a) && !TextLess(c, b) ==> !TextLess(c, a)
    decreases |a| + |b| + |c|
  {
    if a != "" && b != "" && c != "" {
      TextOrder(a[1..], b[1..], c[1..]);
    } else if a != "" && b != "" {
      TextOrder(a[1..], b[1..], "");
    } else if a != "" {
      TextOrder(a[1..], "", "");
    }
  }

  predicate Before(a: PortRange, b: PortRange)
  {
    a.lo < b.lo || (a.lo == b.lo && TextLess(Text(a.proto), Text(b.proto)))
  }

  lemma BeforeOrder(a: PortRange, b: PortRange, c: PortRange)
    ensures Before(a, b) ==> !Before(b, a)
    ensures !Before(b, a) && !Before(c, b) ==> !Before(c, a)
  {
    TextOrder(Text(a.proto), Text(b.proto), Text(c.proto));
  }

  // No element is before its predecessor.
  predicate Ordered(ports: seq<PortRange>)
  {
    forall i :: 0 < i < |ports| ==> !Before(ports[i], ports[i - 1])
  }

  // Stable insertion: after every element it is not before.
  function Insert(s: seq<PortRange>, x: PortRange): (r: seq<PortRange>)
    ensures multiset(r) == multiset(s) + multiset{x}
  {
    if s == [] || !Before(x, s[|s| - 1]) then s + [x]
    else
      assert s == s[..|s| - 1] + [s[|s| - 1]];
      Insert(s[..|s| - 1], x) + [s[|s| - 1]]
  }

  function SortPorts(ports: seq<PortRange>): (r: seq<PortRange>)
    ensures multiset(r) == multiset(ports)
  {
    if ports == [] then []
    else
      assert ports == ports[..|ports| - 1] + [ports[|ports| - 1]];
      Insert(SortPorts(ports[..|ports| - 1]), ports[|ports| - 1])
  }

  lemma {:induction false} InsertOrdered(s: seq<PortRange>, x: PortRange)
    requires Ordered(s)
    ensures Ordered(Insert(s, x))
    ensures var r := Insert(s, x); r != [] && (r[|r| - 1] == x || (s != [] && r[|r| - 1] == s[|s| - 1]))
  {
    hide Before;
    if s != [] && Before(x, s[|s| - 1]) {
      var n := |s| - 1;
      InsertOrdered(s[..n], x);
      var init := Insert(s[..n], x);
      BeforeOrder(x, s[n], x);
      assert n > 0 ==> !Before(s[n], s[n - 1]);
    }
  }

  lemma {:induction false} SortOrdered(ports: seq<PortRange>)
    ensures Ordered(SortPorts(ports))
  {
    hide Before, Insert;
    if ports != [] {
      SortOrdered(ports[..|ports| - 1]);
      InsertOrdered(SortPorts(ports[..|ports| - 1]), ports[|ports| - 1]);
    }
  }

  lemma {:induction false} SortKeepsOrdered(ports: seq<PortRange>)
    requires Ordered(ports)
    ensures SortPorts(ports) == ports
  {
    hide Before;
    if ports != [] {
      var n := |ports| - 1;
      SortKeepsOrdered(ports[..n]);
      assert n > 0 ==> !Before(ports[n], ports[n - 1]);
      assert ports == ports[..n] + [ports[n]];
    }
  }

  lemma SortMembers(ports: seq<PortRange>)
    ensures |SortPorts(ports)| == |ports| && forall p :: p in SortPorts(ports) <==> p in ports
  {
    var s := SortPorts(ports);
    assert |multiset(s)| == |s| && |multiset(ports)| == |ports|;
    forall p ensures p in s <==> p in ports {
      assert p in multiset(s) <==> p in s;
      assert p in multiset(ports) <==> p in ports;
    }
  }

  method Inverted(ports: seq<PortRange>) returns (changed: bool)
    ensures changed <==> !Ordered(ports)
  {
    hide Before;
    var i := 1;
    while i < |ports|
      invariant 1 <= i && forall k :: 0 < k < i && k < |ports| ==> !Before(ports[k], ports[k - 1])
    {
      if Before(ports[i], ports[i - 1]) { return true; }
      i := i + 1;
    }
    return false;
  }

  // ---- rules ----

  function Normal(r: Rule): Rule
  {
    r.(src := r.src.(ip := CanonAddr(r.src), ports := SortPorts(r.src.ports)),
       dst := r.dst.(ip := CanonAddr(r.dst), ports := SortPorts(r.dst.ports)))
  }

  // Normalize: reports a change exactly when there is one.
  method Normalize(r: Rule) returns (out: Rule, changed: bool)
    ensures out == Normal(r) && (changed <==> out != r)
  {
    hide CanonAddr, SortPorts, Ordered;
    var src, changedSrc := NormalizeAddr(r.src);
    var dst, changedDst := NormalizeAddr(r.dst);
    var inverted := Inverted(src.ports);
    var invertedDst := Inverted(dst.ports);
    out := r.(src := src.(ports := SortPorts(src.ports)), dst := dst.(ports := SortPorts(dst.ports)));
    changed := changedSrc || changedDst || inverted || invertedDst;
    SortOrdered(r.src.ports);
    SortOrdered(r.dst.ports);
    if Ordered(r.src.ports) { SortKeepsOrdered(r.src.ports); }
    if Ordered(r.dst.ports) { SortKeepsOrdered(r.dst.ports); }
  }

  lemma {:induction false} NormalTwice(r: Rule)
    requires r.Valid()
    ensures Normal(Normal(r)) == Normal(r)
  {
    hide SortPorts, Ordered, Mask, CidrMask, SamePrefix;
    SortOrdered(r.src.ports);
    SortOrdered(r.dst.ports);
    SortKeepsOrdered(SortPorts(r.src.ports));
    SortKeepsOrdered(SortPorts(r.dst.ports));
    if r.src.ip.Cidr? { MaskIdempotent(r.src.ip.net.addr, r.src.ip.net.bits); }
    if r.dst.ip.Cidr? { MaskIdempotent(r.dst.ip.net.addr, r.dst.ip.net.bits); }
  }

  // Ranges by first port, then by the text of the protocol.
  predicate Increasing(ports: seq<PortRange>)
  {
    forall i, j :: 0 <= i < j < |ports| ==>
      ports[i].lo < ports[j].lo || (ports[i].lo == ports[j].lo && !TextLess(Text(ports[j].proto), Text(ports[i].proto)))
  }

  ghost predicate EndNormal(a: AddrSpec, b: AddrSpec)
  {
    && b.setName == a.setName && multiset(b.ports) == multiset(a.ports) && Increasing(b.ports)
    && b.ip != NoAddr && (a.ip.Any() ==> b.ip == AnyAddr) && (a.setName != "" && a.ip != NoAddr ==> b.ip == a.ip)
    && (a.setName == "" && b.ip.Cidr? ==> b.ip.net.bits < 8 * |b.ip.net.addr| && b.ip.net.First() == b.ip.net.addr)
  }

  lemma {:induction false} OrderedIncreasing(ports: seq<PortRange>)
    requires Ordered(ports)
    ensures Increasing(ports)
  {
    hide TextLess, Text;
    forall i, j | 0 <= i < j < |ports| ensures !Before(ports[j], ports[i]) { OrderedApart(ports, i, j); }
  }

  lemma {:induction false} OrderedApart(ports: seq<PortRange>, i: nat, j: nat)
    requires Ordered(ports) && i < j < |ports|
    ensures !Before(ports[j], ports[i])
    decreases j
  {
    hide Before;
    if i + 1 < j {
      OrderedApart(ports, i, j - 1);
      BeforeOrder(ports[i], ports[j - 1], ports[j]);
    }
  }

  // What a normal rule looks like: its ranges in order, wildcards spelled
  // out, prefixes without host bits, and hosts where a prefix has none.
  lemma {:induction false} NormalForm(r: Rule)
    requires r.Valid()
    ensures EndNormal(r.src, Normal(r).src) && EndNormal(r.dst, Normal(r).dst)
    ensures Normal(r) == r.(src := Normal(r).src, dst := Normal(r).dst)
  {
    hide SortPorts, Ordered, Mask, CidrMask, Increasing, SamePrefix;
    SortOrdered(r.src.ports);
    SortOrdered(r.dst.ports);
    OrderedIncreasing(SortPorts(r.src.ports));
    OrderedIncreasing(SortPorts(r.dst.ports));
    if r.src.ip.Cidr? { MaskIdempotent(r.src.ip.net.addr, r.src.ip.net.bits); }
    if r.dst.ip.Cidr? { MaskIdempotent(r.dst.ip.net.addr, r.dst.ip.net.bits); }
  }

  lemma CoversSorted(ports: seq<PortRange>, q: Proto, port: Option<uint16>)
    ensures Covers(SortPorts(ports), q, port) <==> Covers(ports, q, port)
    ensures (SortPorts(ports) == []) == (ports == [])
  {
    SortMembers(ports);
  }

  lemma AddrNormal(a: AddrSpec, v6: bool, x: seq<byte>, env: Env)
    requires a.ip.Valid()
    ensures CanonAddr(a).Valid()
    ensures AddrHolds(a.(ip := CanonAddr(a), ports := SortPorts(a.ports)), v6, x, env) <==> AddrHolds(a, v6, x, env)
  {
    hide SamePrefix, Mask, CidrMask, SortPorts, InNamedSet;
    if a.setName == "" { CanonMeans(a, x); }
  }

  // Normalising a rule changes no packet's match.
  lemma {:induction false} NormalMatches(r: Rule, p: Packet, env: Env)
    requires r.Valid() && p.Valid()
    ensures Normal(r).Valid() && (Matches(Normal(r), p, env) <==> Matches(r, p, env))
  {
    hide AddrHolds, CanonAddr, SortPorts, Covers, IfaceHolds, HasIcmpType, Packet.Saddr, Packet.Daddr, Packet.Sport,
         Packet.Dport;
    AddrNormal(r.src, p.v6, p.Saddr(), env);
    AddrNormal(r.dst, p.v6, p.Daddr(), env);
    forall q { ProtoNormal(r, q, p); }
    CoversSorted(r.src.ports, Tcp, None);
    CoversSorted(r.dst.ports, Tcp, None);
  }

  lemma ProtoNormal(r: Rule, q: Proto, p: Packet)
    ensures ProtoHolds(Normal(r), q, p) <==> ProtoHolds(r, q, p)
  {
    hide Covers, CanonAddr, SortPorts;
    CoversSorted(r.src.ports, q, p.Sport());
    CoversSorted(r.dst.ports, q, p.Dport());
  }

  // ---- whole-family prefixes ----

  function Width(a: Addr): nat
  {
    match a
    case Host(b) => |b|
    case Cidr(net) => |net.addr|
    case _ => 0
  }

  // The whole-family prefix is written "any".
  function Widest(a: Addr): Addr
  {
    if a == Cidr(Net(Zeros(4), 0)) || a == Cidr(Net(Zeros(16), 0)) then AnyAddr else a
  }

  // What importers store: the normal form, with whole-family prefixes wide.
  function Widened(r: Rule): Rule
  {
    r.(src := r.src.(ip := Widest(r.src.ip)), dst := r.dst.(ip := Widest(r.dst.ip)))
  }

  lemma WidestMeans(a: Addr, x: seq<byte>)
    requires a.Valid() && (|x| == 4 || |x| == 16) && (Width(a) == 0 || Width(a) == |x|)
    ensures Widest(a).Valid() && (Widest(a).Contains(x) <==> a.Contains(x))
  {
    hide Val, Pow2;
    if a == Cidr(Net(Zeros(4), 0)) || a == Cidr(Net(Zeros(16), 0)) { ZeroBits(x, a.net.addr); }
  }

  lemma ZeroBits(x: seq<byte>, y: seq<byte>)
    requires |x| == |y|
    ensures SamePrefix(x, y, 0)
  {
    MaskEqIsSamePrefix(x, y, 0);
    ZeroMask(x);
    ZeroMask(y);
  }

  lemma ZeroMask(x: seq<byte>)
    ensures Mask(x, CidrMask(0, |x|)) == Zeros(|x|)
  {
    hide And8, MaskByte;
    forall i | 0 <= i < |x| ensures Mask(x, CidrMask(0, |x|))[i] == 0 { ZeroByte(x[i]); }
  }

  lemma ZeroByte(x: byte)
    ensures And8(x, MaskByte(0)) == 0
  {
    hide And8, MaskByte, Pow2;
    And8Leading(x, 0);
    Pow2Of8();
  }

  lemma SaddrWidth(p: Packet)
    requires p.Valid()
    ensures |p.Saddr()| == |p.Daddr()| == if p.v6 then 16 else 4
  {
  }

  lemma CanonWidth(a: AddrSpec)
    ensures Width(CanonAddr(a)) == Width(a.ip)
  {
  }

  lemma WidenMatches(r: Rule, p: Packet, env: Env)
    requires r.Valid() && p.Valid() && Width(r.src.ip) in {0, if p.v6 then 16 else 4}
             && Width(r.dst.ip) in {0, if p.v6 then 16 else 4}
    ensures Widened(r).Valid() && (Matches(Widened(r), p, env) <==> Matches(r, p, env))
  {
    hide IfaceIs, InNamedSet, Addr.Contains, Widest, Covers, HasIcmpType, Carries, Packet.Saddr, Packet.Daddr,
         Packet.Sport, Packet.Dport;
    SaddrWidth(p);
    WidestMeans(r.src.ip, p.Saddr());
    WidestMeans(r.dst.ip, p.Daddr());
  }
}
