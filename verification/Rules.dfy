/** The firewall rule model shared by the parser, the compiler and the
    importers, with its identity, matching and normalisation. */
module Rules {
  import opened Bytes
  import opened AddressSets
  import opened Outcomes

  // A Go string is a byte string.
  type Name = seq<byte>

  datatype Proto = NoProto | AnyProto | Tcp | Udp | Icmp | Icmpv6
                 | Ah | Esp | Gre | Igmp | Ipv6 | Vrrp | OtherProto(name: string)

  datatype Action = Allow | Deny | Reject | Limit | OtherAction(name: string)

  datatype Direction = In | Out | Routed | NoDirection

  datatype Log = LogNone | LogNew | LogAll

  datatype PortRange = PortRange(lo: uint16, hi: uint16, proto: Proto)

  // An address after textual parsing: the empty string, "any", one host,
  // a prefix whose host bits may still be set, or unparsable text.
  datatype Addr = NoAddr | AnyAddr | Host(host: seq<byte>) | Cidr(net: Net) | BadAddr(text: string)
  {
    predicate Any() { NoAddr? || AnyAddr? }

    ghost predicate Valid() {
      match this
      case Host(b) => |b| in {4, 16}
      case Cidr(net) => net.Valid() && |net.addr| in {4, 16}
      case _ => true
    }

    // The set of addresses meant, independent of how it is compiled.
    ghost predicate Contains(a: seq<byte>)
      requires Valid()
    {
      match this
      case NoAddr => true
      case AnyAddr => true
      case Host(b) => a == b
      case Cidr(net) => net.Contains(a)
      case BadAddr(_) => false
    }
  }

  datatype AddrSpec = AddrSpec(ip: Addr, ports: seq<PortRange>, setName: string)

  datatype Rule = Rule(
    id: string, action: Action, direction: Direction, routeDir: Direction,
    ifaceIn: Name, ifaceOut: Name, proto: Proto, icmpType: Option<nat>,
    src: AddrSpec, dst: AddrSpec, dapp: string, sapp: string,
    log: Log, comment: string, expiresAt: int, disabled: bool, v6: bool)
  {
    predicate Forward() { direction == Routed }

    predicate Expired(now: int) { expiresAt != 0 && now >= expiresAt }

    predicate Active(now: int) { !disabled && !Expired(now) }

    ghost predicate Valid() { src.ip.Valid() && dst.ip.Valid() }

    predicate IsApp() { dapp != "" || sapp != "" }
  }

  // ---- identity ----

  // A port range as TupleKey prints it: "any" and no protocol look alike.
  function PortKey(p: PortRange): PortRange
  {
    if p.proto == AnyProto then p.(proto := NoProto) else p
  }

  function PortKeys(ports: seq<PortRange>): (r: seq<PortRange>)
    ensures |r| == |ports|
  {
    seq(|ports|, i requires 0 <= i < |ports| => PortKey(ports[i]))
  }

  function AddrKey(a: AddrSpec): AddrSpec
  {
    a.(ports := PortKeys(a.ports))
  }

  // The fields that identify a rule: everything but action, log, comment,
  // expiry and the disabled flag.
  datatype TupleKey = TupleKey(
    dir: Direction, forward: bool, proto: Proto, icmpType: Option<nat>, ifaceIn: Name, ifaceOut: Name,
    v6: bool, src: AddrSpec, dst: AddrSpec, dapp: string, sapp: string)

  function KeyOf(r: Rule): TupleKey
  {
    TupleKey(if r.Forward() && r.routeDir != NoDirection then r.routeDir else r.direction,
             r.Forward(), r.proto, r.icmpType, r.ifaceIn, r.ifaceOut, r.v6,
             AddrKey(r.src), AddrKey(r.dst), r.dapp, r.sapp)
  }

  datatype MatchCode = MatchNone | MatchExact | MatchComment | MatchAction

  function Match(r: Rule, o: Rule): MatchCode
  {
    if KeyOf(r) != KeyOf(o) then MatchNone
    else if r.action == o.action && r.log == o.log && r.comment == o.comment then MatchExact
    else if r.action == o.action && r.log == o.log then MatchComment
    else MatchAction
  }

  // ---- ports ----

  // The range is compiled for the given l4 protocol.
  predicate Applies(p: PortRange, proto: Proto)
  {
    p.proto == NoProto || p.proto == AnyProto || p.proto == proto
  }

  function Applicable(ports: seq<PortRange>, proto: Proto): (r: seq<PortRange>)
    ensures forall p :: p in r <==> p in ports && Applies(p, proto)
  {
    if ports == [] then []
    else
      var init, last := Applicable(ports[..|ports| - 1], proto), ports[|ports| - 1];
      if Applies(last, proto) then init + [last] else init
  }

  ghost predicate InPorts(ports: seq<PortRange>, proto: Proto, port: Option<uint16>)
  {
    port.Some? && exists p :: p in ports && Applies(p, proto) && p.lo <= port.value <= p.hi
  }

  // What a port list means for a packet of the given protocol.
  ghost predicate Covers(ports: seq<PortRange>, proto: Proto, port: Option<uint16>)
  {
    ports == [] || InPorts(ports, proto, port)
  }
}
