/** Importing an nft ruleset: each rule's expression list becomes at most one
    model rule per family, and the base chains become per-hook policies. */
module NftImport {
  import opened Bytes
  import opened AddressSets
  import opened Outcomes
  import opened Rules
  import opened Prefixes
  import opened Netfilter
  import opened Matching
  import opened RuleCompiler
  import opened BuiltinChains
  import opened Compiler
  import opened Normalization
  import opened RuleMerge
  import RuleList

  // ---- decoded expressions ----

  datatype Stmt =
    | Nfproto(v6: bool)
    | L4(proto: Proto)                                       // meta l4proto
    | NextHeader(v6: bool, proto: Proto)                     // ip protocol, ip6 nexthdr
    | IfName(inbound: bool, name: Name)
    | HostIs(v6: bool, source: bool, host: seq<byte>)
    | PrefixIs(v6: bool, source: bool, net: Net)
    | PortIs(proto: Proto, source: bool, lo: uint16, hi: uint16)
    | IcmpIs(v6: bool, icmpType: nat)
    | CounterStmt
    | LogStmt
    | CommentStmt(text: string)
    | VerdictStmt(action: Action)
    | BadStmt

  ghost predicate ValidStmt(e: Stmt)
  {
    match e
    case L4(q) => ProtoNum(q).Some?
    case NextHeader(_, q) => ProtoNum(q).Some?
    case HostIs(v6, _, host) => |host| == if v6 then 16 else 4
    case PrefixIs(v6, _, net) => net.Valid() && |net.addr| == if v6 then 16 else 4
    case PortIs(q, _, _, _) => q == Tcp || q == Udp
    case IcmpIs(_, t) => t <= 255
    case VerdictStmt(a) => a in {Allow, Deny, Reject}
    case _ => true
  }

  // An interface name that is no pattern on either side.
  predicate PlainName(name: Name)
  {
    name == [] || (name[|name| - 1] != PLUS && name[|name| - 1] != 42)
  }

  // ICMP only occurs in IPv4, ICMPv6 only in IPv6.
  predicate IcmpAtHome(p: Packet)
  {
    (p.l4 == 1 ==> !p.v6) && (p.l4 == 58 ==> p.v6)
  }

  // What an expression tests in the source ruleset.
  ghost predicate Holds(e: Stmt, p: Packet)
    requires p.Valid() && ValidStmt(e)
  {
    match e
    case Nfproto(v6) => p.v6 == v6
    case L4(q) => ProtoNum(q) == Some(p.l4)
    case NextHeader(v6, q) => p.v6 == v6 && ProtoNum(q) == Some(p.l4)
    case IfName(inbound, name) => (if inbound then p.iif else p.oif) == name
    case HostIs(v6, source, host) => p.v6 == v6 && Endpoint(source, p) == host
    case PrefixIs(v6, source, net) => p.v6 == v6 && net.Contains(Endpoint(source, p))
    case PortIs(q, source, lo, hi) =>
      ProtoNum(q) == Some(p.l4) && PortOf(source, p).Some? && lo <= PortOf(source, p).value <= hi
    case IcmpIs(v6, t) => p.l4 == (if v6 then 58 else 1) && HasIcmpType(p, t)
    case _ => true
  }

  // ---- the accumulator ----

  // fam is the family the rule is restricted to.
  datatype Conv = Conv(r: Rule, fam: Option<bool>, l4Set: bool, verdict: bool, comment: string)

  function Blank(h: Hook, comment: string, fam: Option<bool>): Conv
  {
    Conv(Rule("", Allow, match h case Input => In case Output => Out case ForwardHook => Routed, NoDirection, [], [],
        NoProto, None,
              AddrSpec(AnyAddr, [], ""), AddrSpec(AnyAddr, [], ""), "", "", LogNone, "", 0, false, false),
         fam, false, false, comment)
  }

  function Restrict(c: Conv, v6: bool): Result<Conv>
  {
    if c.fam.Some? && c.fam.value != v6 then Err else Ok(c.(fam := Some(v6)))
  }

  function SetProto(c: Conv, q: Proto): Result<Conv>
  {
    if c.r.proto != NoProto && c.r.proto != AnyProto && c.r.proto != q then Err
    else if c.l4Set && q != Tcp && q != Udp then Err
    else
      var narrowed := if q == Icmp then Restrict(c, false) else if q == Icmpv6 then Restrict(c, true) else Ok(c);
      if narrowed.Err? then Err else Ok(narrowed.value.(r := narrowed.value.r.(proto := q)))
  }

  function SetIface(c: Conv, inbound: bool, name: Name): Result<Conv>
  {
    var current := if inbound then c.r.ifaceIn else c.r.ifaceOut;
    if name == [] || (current != [] && current != name) then Err
    else Ok(c.(r := if inbound then c.r.(ifaceIn := name) else c.r.(ifaceOut := name)))
  }

  function EndOf(r: Rule, source: bool): AddrSpec { if source then r.src else r.dst }

  function WithEnd(r: Rule, source: bool, a: AddrSpec): Rule
  {
    if source then r.(src := a) else r.(dst := a)
  }

  // A host must repeat what is there; a prefix overwrites it.
  function SetHost(c: Conv, source: bool, host: seq<byte>): Result<Conv>
  {
    var a := EndOf(c.r, source);
    if !a.ip.Any() && a.ip != Host(host) then Err
    else Ok(c.(r := WithEnd(c.r, source, a.(ip := Host(host)))))
  }

  function SetPrefix(c: Conv, source: bool, net: Net): Conv
  {
    c.(r := WithEnd(c.r, source, EndOf(c.r, source).(ip := Cidr(net))))
  }

  function SetPort(c: Conv, q: Proto, source: bool, lo: uint16, hi: uint16): Result<Conv>
  {
    var s := SetProto(c, q);
    if s.Err? || hi < lo then Err
    else
      var d := s.value.(l4Set := true);
      var a := EndOf(d.r, source);
      var range := PortRange(lo, hi, q);
      if a.ports == [] then Ok(d.(r := WithEnd(d.r, source, a.(ports := [range]))))
      else if a.ports[0] == range then Ok(d)
      else Err
  }

  function SetIcmp(c: Conv, v6: bool, t: nat): Result<Conv>
  {
    var s := SetProto(c, if v6 then Icmpv6 else Icmp);
    if s.Err? || (s.value.r.icmpType.Some? && s.value.r.icmpType.value != t) then Err
    else Ok(s.value.(r := s.value.r.(icmpType := Some(t))))
  }

  // One expression; nothing may follow a verdict.
  function Apply(c: Conv, e: Stmt): Result<Conv>
  {
    if c.verdict then Err
    else
      match e
      case Nfproto(v6) => Restrict(c, v6)
      case L4(q) => SetProto(c, q)
      case NextHeader(v6, q) => var n := Restrict(c, v6); if n.Err? then Err else SetProto(n.value, q)
      case IfName(inbound, name) => SetIface(c, inbound, name)
      case HostIs(v6, source, host) => var n := Restrict(c, v6); if n.Err? then Err else SetHost(n.value, source, host)
      case PrefixIs(v6, source, net) => var n := Restrict(c, v6);
          if n.Err? then Err else Ok(SetPrefix(n.value, source, net))
      case PortIs(q, source, lo, hi) => SetPort(c, q, source, lo, hi)
      case IcmpIs(v6, t) => SetIcmp(c, v6, t)
      case CounterStmt => Ok(c)
      case LogStmt => Ok(c.(r := c.r.(log := LogAll)))
      case CommentStmt(text) => Ok(c.(comment := text))
      case VerdictStmt(action) => Ok(c.(r := c.r.(action := action), verdict := true))
      case BadStmt => Err
  }

  function ApplyAll(c: Conv, es: seq<Stmt>): Result<Conv>
  {
    if es == [] then Ok(c)
    else
      var init := ApplyAll(c, es[..|es| - 1]);
      if init.Err? then Err else Apply(init.value, es[|es| - 1])
  }

  // The finished rule of a family.
  function Finished(c: Conv, v6: bool): Rule
  {
    Normal(Plain(c)).(v6 := v6)
  }

  function Plain(c: Conv): Rule
  {
    c.r.(comment := if c.comment != "" then c.comment else c.r.comment,
         proto := if c.r.proto == NoProto then AnyProto else c.r.proto)
  }

  datatype Pair = Pair(v4: seq<Rule>, v6: seq<Rule>)

  function ConvertSpec(h: Hook, comment: string, fam: Option<bool>, es: seq<Stmt>): Result<Pair>
  {
    var c := ApplyAll(Blank(h, comment, fam), es);
    if c.Err? || !c.value.verdict then Err
    else Ok(Pair(if c.value.fam != Some(true) then [Finished(c.value, false)] else [],
                 if c.value.fam != Some(false) then [Finished(c.value, true)] else []))
  }

  class NftConv {
    var r: Rule
    var fam: Option<bool>
    var l4Set: bool
    var verdict: bool
    var comment: string

    function View(): Conv
      reads this
    {
      Conv(r, fam, l4Set, verdict, comment)
    }

    constructor (h: Hook, comment: string, fam: Option<bool>)
      ensures View() == Blank(h, comment, fam)
    {
      this.r := Blank(h, comment, fam).r;
      this.fam, l4Set, verdict, this.comment := fam, false, false, comment;
    }

    method RestrictTo(v6: bool) returns (ok: bool)
      modifies this`fam
      ensures ok == Restrict(old(View()), v6).Ok?
      ensures View() == if ok then Restrict(old(View()), v6).value else old(View())
    {
      if fam.Some? && fam.value != v6 { return false; }
      fam := Some(v6);
      return true;
    }

    method Protocol(q: Proto) returns (ok: bool)
      modifies this`r, this`fam
      ensures ok == SetProto(old(View()), q).Ok?
      ensures ok ==> View() == SetProto(old(View()), q).value
    {
      if r.proto != NoProto && r.proto != AnyProto && r.proto != q { return false; }
      if l4Set && q != Tcp && q != Udp { return false; }
      ok := true;
      if q == Icmp {
        ok := RestrictTo(false);
      } else if q == Icmpv6 {
        ok := RestrictTo(true);
      }
      if !ok { return; }
      r := r.(proto := q);
    }

    method Address(source: bool, host: Option<seq<byte>>, net: Net) returns (ok: bool)
      modifies this`r
      ensures ok == (host.Some? ==> SetHost(old(View()), source, host.value).Ok?)
      ensures ok ==>
              View() == if host.Some?
                then SetHost(old(View()), source, host.value).value else SetPrefix(old(View()), source, net)
    {
      var a := EndOf(r, source);
      if host.Some? {
        if !a.ip.Any() && a.ip != Host(host.value) { return false; }
        r := WithEnd(r, source, a.(ip := Host(host.value)));
        return true;
      }
      r := WithEnd(r, source, a.(ip := Cidr(net)));
      return true;
    }

    method Port(q: Proto, source: bool, lo: uint16, hi: uint16) returns (ok: bool)
      modifies this`r, this`fam, this`l4Set
      ensures ok == SetPort(old(View()), q, source, lo, hi).Ok?
      ensures ok ==> View() == SetPort(old(View()), q, source, lo, hi).value
    {
      ok := Protocol(q);
      if !ok { return; }
      l4Set := true;
      if hi < lo { return false; }
      var range := PortRange(lo, hi, q);
      var a := EndOf(r, source);
      if |a.ports| != 0 {
        if a.ports[0].proto != q { return false; }
        return a.ports[0] == range;
      }
      r := WithEnd(r, source, a.(ports := [range]));
      return true;
    }

    method IcmpMatch(v6: bool, t: nat) returns (ok: bool)
      modifies this`r, this`fam
      ensures ok == SetIcmp(old(View()), v6, t).Ok?
      ensures ok ==> View() == SetIcmp(old(View()), v6, t).value
    {
      ok := Protocol(if v6 then Proto.Icmpv6 else Proto.Icmp);
      if !ok { return; }
      if r.icmpType.Some? && r.icmpType.value != t { return false; }
      r := r.(icmpType := Some(t));
    }

    method Expression(e: Stmt) returns (ok: bool)
      modifies this
      ensures ok == Apply(old(View()), e).Ok?
      ensures ok ==> View() == Apply(old(View()), e).value
    {
      hide SetProto, SetHost, SetPort, SetIcmp, Restrict;
      if verdict { return false; }
      match e
      case Nfproto(v6) => ok := RestrictTo(v6);
      case L4(q) => ok := Protocol(q);
      case NextHeader(v6, q) =>
        ok := RestrictTo(v6);
        if ok { ok := Protocol(q); }
      case IfName(inbound, name) =>
        var current := if inbound then r.ifaceIn else r.ifaceOut;
        if name == [] || (current != [] && current != name) { return false; }
        r := if inbound then r.(ifaceIn := name) else r.(ifaceOut := name);
        return true;
      case HostIs(v6, source, host) =>
        ok := RestrictTo(v6);
        if ok { ok := Address(source, Some(host), Net([], 0)); }
      case PrefixIs(v6, source, net) =>
        ok := RestrictTo(v6);
        if ok { ok := Address(source, None, net); }
      case PortIs(q, source, lo, hi) => ok := Port(q, source, lo, hi);
      case IcmpIs(v6, t) => ok := IcmpMatch(v6, t);
      case CounterStmt => ok := true;
      case LogStmt =>
        r := r.(log := LogAll);
        ok := true;
      case CommentStmt(text) =>
        comment := text;
        ok := true;
      case VerdictStmt(action) =>
        r := r.(action := action);
        verdict := true;
        ok := true;
      case BadStmt => ok := false;
    }
  }

  // nftConvertRule: the expressions in order, then one rule per family
  // that is left.
  method ConvertRule(h: Hook, comment: string, fam: Option<bool>, es: seq<Stmt>) returns (out: Result<Pair>)
    ensures out == ConvertSpec(h, comment, fam, es)
  {
    hide Apply, Normal;
    var cv := new NftConv(h, comment, fam);
    assert es[..0] == [];
    for i := 0 to |es|
      invariant fresh(cv) && ApplyAll(Blank(h, comment, fam), es[..i]) == Ok(cv.View())
    {
      assert es[..i + 1][..i] == es[..i];
      var ok := cv.Expression(es[i]);
      if !ok {
        ApplyFails(Blank(h, comment, fam), es, i);
        return Err;
      }
    }
    assert es[..|es|] == es;
    if !cv.verdict { return Err; }
    if cv.comment != "" { cv.r := cv.r.(comment := cv.comment); }
    if cv.r.proto == NoProto { cv.r := cv.r.(proto := AnyProto); }
    var r, _ := Normalize(cv.r);
    var v4, v6 := [], [];
    if cv.fam != Some(true) { v4 := [r.(v6 := false)]; }
    if cv.fam != Some(false) { v6 := [r.(v6 := true)]; }
    return Ok(Pair(v4, v6));
  }

  lemma {:induction false} ApplyFails(c: Conv, es: seq<Stmt>, i: nat)
    requires i < |es| && ApplyAll(c, es[..i + 1]).Err?
    ensures ApplyAll(c, es).Err?
    decreases |es|
  {
    hide Apply;
    if i + 1 == |es| {
      assert es[..i + 1] == es;
    } else {
      var init := es[..|es| - 1];
      assert init[..i + 1] == es[..i + 1];
      ApplyFails(c, init, i);
    }
  }

  // ---- what the accumulator tests ----

  // The shape conversion keeps: at most one range per side, bound to the
  // rule's protocol, and no set names.
  ghost predicate Shaped(r: Rule)
  {
    && r.Valid() && r.src.setName == "" && r.dst.setName == "" && r.dapp == "" && r.sapp == ""
    && |r.src.ports| <= 1 && |r.dst.ports| <= 1 && r.proto != AnyProto
    && (r.src.ports != [] ==> r.src.ports[0].proto == r.proto)
    && (r.dst.ports != [] ==> r.dst.ports[0].proto == r.proto)
    && (r.src.ports != [] || r.dst.ports != [] ==> r.proto == Tcp || r.proto == Udp)
    && (r.icmpType.Some? ==> r.proto == Icmp || r.proto == Icmpv6)
    && PlainName(r.ifaceIn) && PlainName(r.ifaceOut)
    && (r.proto == NoProto || ProtoNum(r.proto).Some?)
    && !r.disabled && r.expiresAt == 0 && r.direction != NoDirection
  }

  ghost predicate OneRange(ports: seq<PortRange>, port: Option<uint16>)
  {
    ports == [] || (port.Some? && ports[0].lo <= port.value <= ports[0].hi)
  }

  ghost predicate RuleTests(r: Rule, p: Packet)
    requires p.Valid() && r.Valid()
  {
    && (r.proto == NoProto || ProtoNum(r.proto) == Some(p.l4))
    && (r.icmpType.Some? ==> HasIcmpType(p, r.icmpType.value))
    && (r.ifaceIn == [] || p.iif == r.ifaceIn) && (r.ifaceOut == [] || p.oif == r.ifaceOut)
    && r.src.ip.Contains(Endpoint(true, p)) && r.dst.ip.Contains(Endpoint(false, p))
    && OneRange(r.src.ports, PortOf(true, p)) && OneRange(r.dst.ports, PortOf(false, p))
  }

  ghost predicate ConvTests(c: Conv, p: Packet)
    requires p.Valid() && c.r.Valid()
  {
    (c.fam.None? || c.fam.value == p.v6) && RuleTests(c.r, p)
  }

  lemma RangeCovers(ports: seq<PortRange>, q: Proto, port: Option<uint16>)
    requires |ports| <= 1 && (ports != [] ==> ports[0].proto == q)
    ensures Covers(ports, q, port) <==> OneRange(ports, port)
  {
    if ports != [] { assert ports[0] in ports; }
  }

  // On shaped rules the accumulator's tests are the rule's match.
  lemma ShapedMatches(c: Conv, p: Packet, env: Env)
    requires p.Valid() && Shaped(c.r)
    ensures Finished(c, p.v6).Valid()
    ensures Matches(Finished(c, p.v6), p, env) <==> RuleTests(c.r, p)
  {
    hide SortPorts, CanonAddr, Matches, RuleTests, Rule.Valid;
    var r := Plain(c);
    PlainTests(c, p, env);
    NormalMatches(r, p, env);
    FamilyBlind(Normal(r), p.v6, p, env);
  }

  lemma PlainTests(c: Conv, p: Packet, env: Env)
    requires p.Valid() && Shaped(c.r)
    ensures Plain(c).Valid() && (Matches(Plain(c), p, env) <==> RuleTests(c.r, p))
  {
    hide Covers, OneRange, HasIcmpType, Addr.Contains, Packet.Saddr, Packet.Daddr, Packet.Sport, Packet.Dport;
    RangeCovers(c.r.src.ports, c.r.proto, p.Sport());
    RangeCovers(c.r.dst.ports, c.r.proto, p.Dport());
    NoRange(p.Sport());
    NoRange(p.Dport());
    PlainIs(c.r.ifaceIn, p.iif);
    PlainIs(c.r.ifaceOut, p.oif);
  }

  lemma NoRange(port: Option<uint16>)
    ensures OneRange([], port)
  {
  }

  lemma PlainIs(name: Name, actual: Name)
    requires PlainName(name)
    ensures IfaceHolds(name, actual) <==> name == [] || actual == name
  {
  }

  lemma FamilyBlind(r: Rule, v6: bool, p: Packet, env: Env)
    requires p.Valid() && r.Valid()
    ensures r.(v6 := v6).Valid() && (Matches(r.(v6 := v6), p, env) <==> Matches(r, p, env))
  {
    hide AddrHolds, Covers, HasIcmpType, Carries, IfaceHolds;
  }

  // The address an expression asks of an endpoint.
  function AddrAt(e: Stmt, source: bool): Option<Addr>
  {
    match e
    case HostIs(_, s, host) => if s == source then Some(Host(host)) else None
    case PrefixIs(_, s, net) => if s == source then Some(Cidr(net)) else None
    case _ => None
  }

  function LastAddr(es: seq<Stmt>, source: bool): Option<Addr>
  {
    if es == [] then None
    else if AddrAt(es[|es| - 1], source).Some? then AddrAt(es[|es| - 1], source)
    else LastAddr(es[..|es| - 1], source)
  }

  predicate Within(a: Option<Addr>, b: Addr)
  {
    a.Some? && ToPrefix(a.value).Some? && ToPrefix(b).Some?
        && PrefixContains(ToPrefix(a.value).value, ToPrefix(b).value)
  }

  // The last address asked of the endpoint lies inside every earlier one.
  predicate EndsInside(es: seq<Stmt>, source: bool)
  {
    forall i :: 0 <= i < |es| && AddrAt(es[i], source).Some? ==>
                  Within(LastAddr(es, source), AddrAt(es[i], source).value)
  }

  predicate Narrowing(es: seq<Stmt>)
  {
    EndsInside(es, true) && EndsInside(es, false)
  }

  ghost predicate PlainNames(es: seq<Stmt>)
  {
    forall e :: e in es ==> ValidStmt(e) && (e.IfName? ==> PlainName(e.name))
  }

  lemma RestrictTests(c: Conv, v6: bool, p: Packet)
    requires p.Valid() && Shaped(c.r) && Restrict(c, v6).Ok?
    ensures Restrict(c, v6).value.r == c.r
    ensures ConvTests(Restrict(c, v6).value, p) <==> ConvTests(c, p) && p.v6 == v6
  {
    hide RuleTests;
  }

  lemma ProtoTests(c: Conv, q: Proto, p: Packet)
    requires p.Valid() && Shaped(c.r) && SetProto(c, q).Ok? && ProtoNum(q).Some? && IcmpAtHome(p)
    ensures Shaped(SetProto(c, q).value.r)
    ensures ConvTests(SetProto(c, q).value, p) <==> ConvTests(c, p) && ProtoNum(q) == Some(p.l4)
  {
    hide OneRange, HasIcmpType, Addr.Contains, Endpoint, PortOf;
  }

  lemma IfaceTested(c: Conv, inbound: bool, name: Name, p: Packet)
    requires p.Valid() && Shaped(c.r) && SetIface(c, inbound, name).Ok? && PlainName(name)
    ensures Shaped(SetIface(c, inbound, name).value.r)
    ensures ConvTests(SetIface(c, inbound, name).value, p) <==>
            ConvTests(c, p) && (if inbound then p.iif else p.oif) == name
  {
    hide OneRange, HasIcmpType, Addr.Contains, Endpoint, PortOf;
  }

  lemma HostTests(c: Conv, source: bool, host: seq<byte>, p: Packet)
    requires p.Valid() && Shaped(c.r) && SetHost(c, source, host).Ok? && |host| in {4, 16}
    ensures Shaped(SetHost(c, source, host).value.r)
    ensures ConvTests(SetHost(c, source, host).value, p) <==> ConvTests(c, p) && Endpoint(source, p) == host
  {
    hide OneRange, HasIcmpType, Endpoint, PortOf, SamePrefix;
  }

  // A prefix match replaces the address before it.
  lemma PrefixTests(c: Conv, source: bool, net: Net, p: Packet)
    requires p.Valid() && Shaped(c.r) && net.Valid() && |net.addr| in {4, 16}
    ensures Shaped(SetPrefix(c, source, net).r)
    ensures EndOf(c.r, source).ip.Contains(Endpoint(source, p)) ==>
              (ConvTests(SetPrefix(c, source, net), p) <==> ConvTests(c, p) && net.Contains(Endpoint(source, p)))
    ensures ConvTests(c, p) ==> EndOf(c.r, source).ip.Contains(Endpoint(source, p))
  {
    hide OneRange, HasIcmpType, Endpoint, PortOf, SamePrefix;
  }

  lemma PortTested(c: Conv, q: Proto, source: bool, lo: uint16, hi: uint16, p: Packet)
    requires p.Valid() && Shaped(c.r) && SetPort(c, q, source, lo, hi).Ok? && (q == Tcp || q == Udp) && IcmpAtHome(p)
    ensures Shaped(SetPort(c, q, source, lo, hi).value.r)
    ensures ConvTests(SetPort(c, q, source, lo, hi).value, p) <==>
            ConvTests(c, p) && ProtoNum(q) == Some(p.l4) && PortOf(source, p).Some?
              && lo <= PortOf(source, p).value <= hi
  {
    hide HasIcmpType, Addr.Contains, Endpoint, PortOf, SetProto;
    ProtoTests(c, q, p);
    SetProtoKeeps(c, q);
  }

  lemma SetProtoKeeps(c: Conv, q: Proto)
    requires SetProto(c, q).Ok?
    ensures SetProto(c, q).value.r == c.r.(proto := q)
  {
  }

  lemma IcmpTested(c: Conv, v6: bool, t: nat, p: Packet)
    requires p.Valid() && Shaped(c.r) && SetIcmp(c, v6, t).Ok? && IcmpAtHome(p)
    ensures Shaped(SetIcmp(c, v6, t).value.r)
    ensures ConvTests(SetIcmp(c, v6, t).value, p) <==>
            ConvTests(c, p) && p.l4 == (if v6 then 58 else 1) && HasIcmpType(p, t)
  {
    hide OneRange, HasIcmpType, Addr.Contains, Endpoint, PortOf, SetProto;
    ProtoTests(c, if v6 then Icmpv6 else Icmp, p);
    SetProtoKeeps(c, if v6 then Icmpv6 else Icmp);
  }

  lemma ApplyTests(c: Conv, e: Stmt, p: Packet)
    requires p.Valid() && Shaped(c.r) && Apply(c, e).Ok? && IcmpAtHome(p)
    requires ValidStmt(e) && (e.IfName? ==> PlainName(e.name))
    ensures Shaped(Apply(c, e).value.r)
    ensures !e.PrefixIs? || EndOf(c.r, e.source).ip.Contains(Endpoint(e.source, p)) ==>
              (ConvTests(Apply(c, e).value, p) <==> ConvTests(c, p) && Holds(e, p))
    ensures e.PrefixIs? && ConvTests(c, p) ==> EndOf(c.r, e.source).ip.Contains(Endpoint(e.source, p))
  {
    hide RuleTests, ConvTests, SetProto, SetIface, SetHost, SetPort, SetIcmp, PrefixContains, Endpoint, PortOf,
         HasIcmpType, SamePrefix;
    match e
    case Nfproto(v6) => RestrictTests(c, v6, p);
    case L4(q) => ProtoTests(c, q, p);
    case NextHeader(v6, q) =>
      RestrictTests(c, v6, p);
      ProtoTests(Restrict(c, v6).value, q, p);
    case IfName(inbound, name) => IfaceTested(c, inbound, name, p);
    case HostIs(v6, source, host) =>
      RestrictTests(c, v6, p);
      HostTests(Restrict(c, v6).value, source, host, p);
    case PrefixIs(v6, source, net) =>
      RestrictTests(c, v6, p);
      PrefixTests(c, source, net, p);
      PrefixTests(Restrict(c, v6).value, source, net, p);
    case PortIs(q, source, lo, hi) => PortTested(c, q, source, lo, hi, p);
    case IcmpIs(v6, t) => IcmpTested(c, v6, t, p);
    case LogStmt => SameTests(c, Apply(c, e).value, p);
    case VerdictStmt(action) => SameTests(c, Apply(c, e).value, p);
    case CommentStmt(_) => SameTests(c, Apply(c, e).value, p);
    case _ =>
  }

  lemma SameTests(c: Conv, d: Conv, p: Packet)
    requires p.Valid() && Shaped(c.r) && d.fam == c.fam && d.r == c.r.(log := d.r.log, action := d.r.action)
    ensures Shaped(d.r) && (ConvTests(d, p) <==> ConvTests(c, p))
  {
    hide OneRange, HasIcmpType, Addr.Contains, Endpoint, PortOf;
  }

  ghost predicate AllHold(es: seq<Stmt>, p: Packet)
    requires p.Valid() && forall e :: e in es ==> ValidStmt(e)
  {
    forall i :: 0 <= i < |es| ==> Holds(es[i], p)
  }

  // Every address asked of an endpoint holds.
  ghost predicate AddrsHold(es: seq<Stmt>, p: Packet)
    requires p.Valid() && forall e :: e in es ==> ValidStmt(e)
  {
    forall i :: 0 <= i < |es| ==> AskHolds(es[i], p)
  }

  ghost predicate AskHolds(e: Stmt, p: Packet)
    requires p.Valid()
  {
    forall source :: AddrAt(e, source).Some? ==>
      AddrAt(e, source).value.Valid() && AddrAt(e, source).value.Contains(Endpoint(source, p))
  }

  ghost predicate EndsAre(c: Conv, es: seq<Stmt>)
  {
    forall source :: EndOf(c.r, source).ip == if LastAddr(es, source).Some? then LastAddr(es, source).value else AnyAddr
  }

  ghost predicate FamilyFixed(c: Conv, es: seq<Stmt>)
  {
    forall i :: 0 <= i < |es| ==> AsksFamily(c, es[i])
  }

  ghost predicate AsksFamily(c: Conv, e: Stmt)
  {
    forall source :: AddrAt(e, source).Some? ==> c.fam == Some(Width(AddrAt(e, source).value) == 16)
  }

  lemma ApplyEnds(c: Conv, e: Stmt, source: bool)
    requires Apply(c, e).Ok? && ValidStmt(e)
    ensures EndOf(Apply(c, e).value.r, source).ip == if AddrAt(e, source).Some?
            then AddrAt(e, source).value else EndOf(c.r, source).ip
    ensures c.fam.Some? ==> Apply(c, e).value.fam == c.fam
    ensures AddrAt(e, source).Some? ==> Apply(c, e).value.fam == Some(Width(AddrAt(e, source).value) == 16)
    ensures AddrAt(e, source).Some? ==> AddrAt(e, source).value.Valid() && ToPrefix(AddrAt(e, source).value).Some?
  {
    hide ProtoNum;
  }

  // The accumulator holds the last address of each endpoint, and its
  // family is that of every address.
  lemma {:induction false} ApplyAllEnds(h: Hook, comment: string, fam: Option<bool>, es: seq<Stmt>)
    requires ApplyAll(Blank(h, comment, fam), es).Ok? && forall e :: e in es ==> ValidStmt(e)
    ensures EndsAre(ApplyAll(Blank(h, comment, fam), es).value, es)
            && FamilyFixed(ApplyAll(Blank(h, comment, fam), es).value, es)
  {
    hide Apply, ValidStmt, AsksFamily, EndsAre;
    if es == [] {
      BlankEnds(h, comment, fam);
    } else {
      var n := |es| - 1;
      ApplyAllEnds(h, comment, fam, es[..n]);
      var c := ApplyAll(Blank(h, comment, fam), es[..n]).value;
      assert es[n] in es && forall i :: 0 <= i < n ==> es[..n][i] == es[i];
      EndsStep(c, es[..n], es[n]);
      assert es == es[..n] + [es[n]];
      forall i | 0 <= i < n ensures AsksFamily(Apply(c, es[n]).value, es[i]) { FamilyStays(c, es[n], es[i]); }
    }
  }

  lemma EndsStep(c: Conv, es: seq<Stmt>, e: Stmt)
    requires Apply(c, e).Ok? && ValidStmt(e) && EndsAre(c, es)
    ensures EndsAre(Apply(c, e).value, es + [e]) && AsksFamily(Apply(c, e).value, e)
  {
    hide Apply, ValidStmt, AddrAt, EndOf, Width;
    assert (es + [e])[..|es|] == es;
    forall source
      ensures EndOf(Apply(c, e).value.r, source).ip ==
              if AddrAt(e, source).Some? then AddrAt(e, source).value else EndOf(c.r, source).ip
      ensures AddrAt(e, source).Some? ==> Apply(c, e).value.fam == Some(Width(AddrAt(e, source).value) == 16)
    {
      ApplyEnds(c, e, source);
    }
  }

  lemma FamilyStays(c: Conv, e: Stmt, earlier: Stmt)
    requires Apply(c, e).Ok? && ValidStmt(e) && AsksFamily(c, earlier)
    ensures AsksFamily(Apply(c, e).value, earlier)
  {
    hide Apply, ValidStmt, Width;
    ApplyEnds(c, e, true);
  }

  lemma BlankEnds(h: Hook, comment: string, fam: Option<bool>)
    ensures EndsAre(Blank(h, comment, fam), [])
  {
  }

  lemma {:induction false} LastIsOne(es: seq<Stmt>, source: bool)
    ensures LastAddr(es, source).Some? ==> exists i :: 0 <= i < |es| && AddrAt(es[i], source) == LastAddr(es, source)
    ensures LastAddr(es, source).None? ==> forall i :: 0 <= i < |es| ==> AddrAt(es[i], source).None?
  {
    hide AddrAt;
    if es != [] {
      var n := |es| - 1;
      LastIsOne(es[..n], source);
      assert forall i :: 0 <= i < n ==> es[..n][i] == es[i];
    }
  }

  // When all addresses hold, so does the one the accumulator has.
  lemma CurrentHolds(c: Conv, es: seq<Stmt>, source: bool, p: Packet)
    requires p.Valid() && (forall e :: e in es ==> ValidStmt(e)) && EndsAre(c, es) && AddrsHold(es, p)
    ensures EndOf(c.r, source).ip.Valid() && EndOf(c.r, source).ip.Contains(Endpoint(source, p))
  {
    hide AddrAt, Addr.Contains, EndOf, Endpoint, LastAddr, ValidStmt;
    LastIsOne(es, source);
    AnyContains(Endpoint(source, p));
  }

  lemma AnyContains(x: seq<byte>)
    ensures AnyAddr.Contains(x)
  {
  }

  lemma HoldsAddr(e: Stmt, p: Packet)
    requires p.Valid() && ValidStmt(e) && Holds(e, p)
    ensures AskHolds(e, p)
  {
    hide SamePrefix, ProtoNum, HasIcmpType, PortOf, Endpoint;
  }

  // The accumulator with the addresses it has replaced tests exactly the
  // source conjunction.
  lemma {:induction false} ApplyAllTests(h: Hook, comment: string, fam: Option<bool>, es: seq<Stmt>, p: Packet)
    requires p.Valid() && ApplyAll(Blank(h, comment, fam), es).Ok? && PlainNames(es) && IcmpAtHome(p)
    ensures Shaped(ApplyAll(Blank(h, comment, fam), es).value.r)
    ensures ConvTests(ApplyAll(Blank(h, comment, fam), es).value, p) && AddrsHold(es, p) <==>
            Sees(fam, p.v6) && AllHold(es, p)
  {
    hide Shaped, ConvTests, Holds, Apply, ValidStmt, AddrAt, AddrsHold, AllHold, EndsAre, FamilyFixed, Blank, EndOf,
         Endpoint;
    var b := Blank(h, comment, fam);
    if es == [] {
      BlankTests(h, comment, fam, p);
      NothingAsked(p);
    } else {
      var n := |es| - 1;
      var init := es[..n];
      ApplyAllTests(h, comment, fam, init, p);
      assert es[n] in es && es == init + [es[n]];
      var c := ApplyAll(b, init).value;
      ApplyAllEnds(h, comment, fam, init);
      ApplyTests(c, es[n], p);
      HoldSnoc(init, es[n], p);
      if AddrsHold(init, p) && es[n].PrefixIs? { CurrentHolds(c, init, es[n].source, p); }
      if Holds(es[n], p) { HoldsAddr(es[n], p); }
    }
  }

  lemma NothingAsked(p: Packet)
    requires p.Valid()
    ensures AddrsHold([], p) && AllHold([], p)
  {
  }

  lemma HoldSnoc(es: seq<Stmt>, e: Stmt, p: Packet)
    requires p.Valid() && ValidStmt(e) && forall x :: x in es ==> ValidStmt(x)
    requires forall x :: x in es + [e] ==> ValidStmt(x)
    ensures AllHold(es + [e], p) <==> AllHold(es, p) && Holds(e, p)
    ensures AddrsHold(es + [e], p) <==> AddrsHold(es, p) && AskHolds(e, p)
  {
    hide ValidStmt, Holds, AskHolds;
    var all := es + [e];
    assert all[|es|] == e && forall i :: 0 <= i < |es| ==> all[i] == es[i];
  }

  lemma {:induction false} ApplyAllKeeps(c: Conv, es: seq<Stmt>)
    requires ApplyAll(c, es).Ok? && forall e :: e in es ==> ValidStmt(e)
    ensures ApplyAll(c, es).value.r.direction == c.r.direction
    ensures c.r.action in {Allow, Deny, Reject} ==> ApplyAll(c, es).value.r.action in {Allow, Deny, Reject}
  {
    hide Apply, ValidStmt;
    if es != [] {
      var n := |es| - 1;
      ApplyAllKeeps(c, es[..n]);
      assert es[n] in es;
      ApplyKeeps(ApplyAll(c, es[..n]).value, es[n]);
    }
  }

  lemma ApplyKeeps(c: Conv, e: Stmt)
    requires Apply(c, e).Ok? && ValidStmt(e)
    ensures Apply(c, e).value.r.direction == c.r.direction
    ensures c.r.action in {Allow, Deny, Reject} ==> Apply(c, e).value.r.action in {Allow, Deny, Reject}
  {
    hide Addr.Valid, Net.Valid;
  }

  // The families a base chain sees.
  predicate Sees(fam: Option<bool>, v6: bool) { fam.None? || fam.value == v6 }

  // The emitted rule of the packet's family matches.
  ghost predicate Emitted(out: Pair, p: Packet, env: Env)
    requires p.Valid()
  {
    var mine := if p.v6 then out.v6 else out.v4;
    mine != [] && mine[0].Valid() && Matches(mine[0], p, env)
  }

  ghost predicate SourceHolds(fam: Option<bool>, es: seq<Stmt>, p: Packet)
    requires p.Valid() && forall e :: e in es ==> ValidStmt(e)
  {
    Sees(fam, p.v6) && AllHold(es, p)
  }

  // The emitted rule tests what the accumulator tests.
  lemma EmittedTests(h: Hook, comment: string, fam: Option<bool>, es: seq<Stmt>, p: Packet, env: Env)
    requires p.Valid() && ConvertSpec(h, comment, fam, es).Ok? && PlainNames(es) && IcmpAtHome(p)
    ensures Shaped(ApplyAll(Blank(h, comment, fam), es).value.r)
    ensures Emitted(ConvertSpec(h, comment, fam, es).value, p, env) <==>
            ConvTests(ApplyAll(Blank(h, comment, fam), es).value, p)
  {
    hide Shaped, RuleTests, Holds, Apply, Normal, Matches, ValidStmt, AllHold, AddrsHold;
    ApplyAllTests(h, comment, fam, es, p);
    ShapedMatches(ApplyAll(Blank(h, comment, fam), es).value, p, env);
  }

  // Conversion is exact where the last address of each endpoint lies inside
  // the earlier ones: for each family, the emitted rule matches exactly the
  // packets the chain sees that satisfy every expression.
  lemma {:induction false} ConversionExact(h: Hook, comment: string, fam: Option<bool>, es: seq<Stmt>, p: Packet,
      env: Env)
    requires p.Valid() && ConvertSpec(h, comment, fam, es).Ok? && PlainNames(es) && IcmpAtHome(p) && Narrowing(es)
    ensures var out := ConvertSpec(h, comment, fam, es).value;
            var mine := if p.v6 then out.v6 else out.v4;
            && (forall r ::
            r in mine ==> r.Valid() && HookOf(r.direction) == h && r.Active(0) && r.action in {Allow, Deny, Reject})
            && (Emitted(out, p, env) <==> SourceHolds(fam, es, p))
  {
    hide Shaped, RuleTests, Holds, Apply, Normal, Matches, ValidStmt, AllHold, AddrsHold, EndsInside;
    var b := Blank(h, comment, fam);
    BlankTests(h, comment, fam, p);
    ApplyAllTests(h, comment, fam, es, p);
    ApplyAllKeeps(b, es);
    var c := ApplyAll(b, es).value;
    ShapedMatches(c, p, env);
    FinishedKeeps(c, p.v6);
    EmittedTests(h, comment, fam, es, p, env);
    ShapedValid(c.r);
    if ConvTests(c, p) {
      ApplyAllEnds(h, comment, fam, es);
      TestsContain(c, p);
      InsideHolds(c, es, p);
    }
  }

  lemma ShapedValid(r: Rule)
    requires Shaped(r)
    ensures r.Valid()
  {
  }

  lemma TestsContain(c: Conv, p: Packet)
    requires p.Valid() && Shaped(c.r) && ConvTests(c, p)
    ensures forall source :: EndOf(c.r, source).ip.Valid() && EndOf(c.r, source).ip.Contains(Endpoint(source, p))
  {
    hide OneRange, HasIcmpType, Addr.Contains, Endpoint, PortOf;
  }

  // A packet in the last addresses is in all of them.
  lemma InsideHolds(c: Conv, es: seq<Stmt>, p: Packet)
    requires p.Valid() && (forall e :: e in es ==> ValidStmt(e)) && EndsAre(c, es) && Narrowing(es)
    requires forall source :: EndOf(c.r, source).ip.Valid() && EndOf(c.r, source).ip.Contains(Endpoint(source, p))
    ensures AddrsHold(es, p)
  {
    hide AddrAt, LastAddr, EndOf, Endpoint, Addr.Contains, PrefixContains, ValidStmt, Addr.Valid, Net.Valid;
    forall i, source | 0 <= i < |es| && AddrAt(es[i], source).Some?
      ensures AddrAt(es[i], source).value.Valid() && AddrAt(es[i], source).value.Contains(Endpoint(source, p))
    {
      assert es[i] in es;
      assert EndsInside(es, source);
      AskedValid(es[i], source);
      var a, b, x := EndOf(c.r, source).ip, AddrAt(es[i], source).value, Endpoint(source, p);
      ToPrefixMeans(a, x);
      ToPrefixMeans(b, x);
      PrefixSound(ToPrefix(a).value, ToPrefix(b).value, x);
    }
  }

  lemma AskedValid(e: Stmt, source: bool)
    requires ValidStmt(e) && AddrAt(e, source).Some?
    ensures var a := AddrAt(e, source).value; a.Valid() && ToPrefix(a).Some? && ToPrefix(a).value.Valid()
    ensures var a := AddrAt(e, source).value; |ToPrefix(a).value.addr| == Width(a) && (Width(a) == 4 || Width(a) == 16)
  {
  }

  lemma BlankTests(h: Hook, comment: string, fam: Option<bool>, p: Packet)
    requires p.Valid()
    ensures Shaped(Blank(h, comment, fam).r) && (ConvTests(Blank(h, comment, fam), p) <==> Sees(fam, p.v6))
    ensures HookOf(Blank(h, comment, fam).r.direction) == h
  {
  }

  lemma FinishedKeeps(c: Conv, v6: bool)
    requires Shaped(c.r)
    ensures var r := Finished(c, v6);
            r.direction == c.r.direction && r.action == c.r.action && !r.disabled && r.expiresAt == 0 && r.v6 == v6
  {
    hide CanonAddr, SortPorts;
  }

  // ---- where a prefix match widens ----

  // An address inside one block and outside another that does not contain it.
  lemma Outside(net: Net, b: Net) returns (x: seq<byte>)
    requires net.Valid() && b.Valid() && |net.addr| == |b.addr| && !PrefixContains(net, b)
    ensures net.Contains(x) && !b.Contains(x) && |x| == |net.addr|
  {
    hide PrefixContains, SamePrefix, Mask, CidrMask, Net.First, Net.Last, Val, Pow2;
    OwnPrefix(net);
    if !b.Contains(net.addr) { return net.addr; }
    NestedOrDisjoint(net, b, net.addr);
    x := FarEnd(net, b);
  }

  // The same packet from or to another address.
  function Readdressed(p: Packet, source: bool, x: seq<byte>): Packet
    requires |p.nh| >= (if p.v6 then 40 else 20) && |x| == AddrLen(p.v6)
  {
    var o := AddrOffset(source, p.v6);
    p.(nh := p.nh[..o] + x + p.nh[o + |x|..])
  }

  lemma ReaddressedIs(p: Packet, source: bool, x: seq<byte>)
    requires p.Valid() && |x| == AddrLen(p.v6)
    ensures var r := Readdressed(p, source, x);
            && r.Valid() && r == p.(nh := r.nh) && Endpoint(source, r) == x
            && Endpoint(!source, r) == Endpoint(!source, p)
  {
    var o := AddrOffset(source, p.v6);
    var r := Readdressed(p, source, x);
    assert forall i :: 0 <= i < |p.nh| ==> r.nh[i] == if o <= i < o + |x| then x[i - o] else p.nh[i];
  }

  lemma ReaddressedTests(c: Conv, p: Packet, source: bool, x: seq<byte>)
    requires p.Valid() && |x| == AddrLen(p.v6) && Shaped(c.r) && ConvTests(c, p) && EndOf(c.r, source).ip.Contains(x)
    requires Readdressed(p, source, x).Valid()
    ensures ConvTests(c, Readdressed(p, source, x))
  {
    hide OneRange, HasIcmpType, Addr.Contains, Endpoint, PortOf, Readdressed;
    var r := Readdressed(p, source, x);
    ReaddressedIs(p, source, x);
    SamePorts(p, r);
    assert source || !source;
  }

  lemma SamePorts(p: Packet, r: Packet)
    requires r == p.(nh := r.nh)
    ensures PortOf(true, r) == PortOf(true, p) && PortOf(false, r) == PortOf(false, p)
    ensures forall n :: HasIcmpType(r, n) <==> HasIcmpType(p, n)
  {
  }

  // A packet the emitted rule matches and the source does not: some packet
  // of the source, sent from an address only the last prefix has.
  lemma {:induction false} WidenedBy(h: Hook, comment: string, fam: Option<bool>, es: seq<Stmt>, w: Packet, env: Env)
    returns (p: Packet)
    requires ConvertSpec(h, comment, fam, es).Ok? && PlainNames(es) && !Narrowing(es)
    requires w.Valid() && IcmpAtHome(w) && SourceHolds(fam, es, w)
    ensures p.Valid() && IcmpAtHome(p) && Emitted(ConvertSpec(h, comment, fam, es).value, p, env)
            && !SourceHolds(fam, es, p)
  {
    hide Shaped, ConvTests, Holds, Apply, ValidStmt, AddrAt, AllHold, Addr.Contains, PrefixContains, Emitted,
         Readdressed, Endpoint, LastAddr, EndOf, Net.Valid, Addr.Valid;
    var source := !EndsInside(es, true);
    var i :| 0 <= i < |es| && AddrAt(es[i], source).Some? && !Within(LastAddr(es, source), AddrAt(es[i], source).value);
    var c := ApplyAll(Blank(h, comment, fam), es).value;
    ApplyAllTests(h, comment, fam, es, w);
    ApplyAllEnds(h, comment, fam, es);
    LastIsOne(es, source);
    var k :| 0 <= k < |es| && AddrAt(es[k], source) == LastAddr(es, source);
    assert es[i] in es && es[k] in es;
    AskedValid(es[i], source);
    AskedValid(es[k], source);
    var a, b := ToPrefix(LastAddr(es, source).value).value, ToPrefix(AddrAt(es[i], source).value).value;
    var x := Outside(a, b);
    ToPrefixMeans(LastAddr(es, source).value, x);
    ToPrefixMeans(AddrAt(es[i], source).value, x);
    TestsFamily(c, w);
    ReaddressedIs(w, source, x);
    p := Readdressed(w, source, x);
    ReaddressedTests(c, w, source, x);
    ApplyAllTests(h, comment, fam, es, p);
    EmittedTests(h, comment, fam, es, p, env);
    assert !AddrsHold(es, p);
  }

  lemma TestsFamily(c: Conv, p: Packet)
    requires p.Valid() && Shaped(c.r) && ConvTests(c, p)
    ensures c.fam.Some? ==> c.fam.value == p.v6
  {
  }

  const TEN16: Net := Net([10, 0, 0, 0], 16)

  const TEN8: Net := Net([10, 0, 0, 0], 8)

  // From 10.0.0.0/16 and from 10.0.0.0/8.
  const TWO_PREFIXES: seq<Stmt> := [PrefixIs(false, true, TEN16), PrefixIs(false, true, TEN8), VerdictStmt(Allow)]

  const FROM_TEN_ONE: Packet := Packet(false, [], [], 6, Zeros(12) + [10, 1, 0, 0] + Zeros(4), [], New, 2, None)

  // The list is accepted, and its rule matches a packet from 10.1.0.0.
  lemma {:induction false} OverwriteWidens(env: Env)
    ensures ConvertSpec(Input, "", None, TWO_PREFIXES).Ok? && PlainNames(TWO_PREFIXES)
    ensures FROM_TEN_ONE.Valid() && IcmpAtHome(FROM_TEN_ONE)
    ensures Emitted(ConvertSpec(Input, "", None, TWO_PREFIXES).value, FROM_TEN_ONE, env)
    ensures !SourceHolds(None, TWO_PREFIXES, FROM_TEN_ONE)
  {
    hide Finished, Emitted, SamePrefix, ApplyAll;
    var es, p := TWO_PREFIXES, FROM_TEN_ONE;
    TwoApplied();
    Contains10();
    assert p.Saddr() == [10, 1, 0, 0];
    EmittedTests(Input, "", None, es, p, env);
    assert !Holds(es[0], p);
  }

  // The accumulator ends with the second prefix alone.
  lemma TwoApplied()
    ensures var b := Blank(Input, "", None);
            ApplyAll(b, TWO_PREFIXES) == Ok(SetPrefix(b, true, TEN8).(fam := Some(false), verdict := true))
  {
    hide SetProto, SetIface, SetHost, SetPort, SetIcmp;
    var es, b := TWO_PREFIXES, Blank(Input, "", None);
    assert es[..2] == [es[0], es[1]] && es[..2][..1] == [es[0]] && es[..2][..1][..0] == [];
    assert ApplyAll(b, es[..2][..1]) == Apply(b, es[0]);
    assert ApplyAll(b, es[..2]) == Apply(Apply(b, es[0]).value, es[1]);
  }

  lemma Contains10()
    ensures TEN16.Valid() && TEN8.Valid() && TEN8.Contains([10, 1, 0, 0]) && !TEN16.Contains([10, 1, 0, 0])
  {
    hide Pow2;
    var x, y := [10, 1, 0, 0], [10, 0, 0, 0];
    assert x[..3] == [10, 1, 0] && x[..3][..2] == [10, 1] && x[..3][..2][..1] == [10] && x[..3][..2][..1][..0] == [];
    assert y[..3] == [10, 0, 0] && y[..3][..2] == [10, 0] && y[..3][..2][..1] == [10] && y[..3][..2][..1][..0] == [];
    assert Val([10]) == 10 && Val([10, 1]) == 2561 && Val([10, 0]) == 2560;
    assert Val(x) == 2561 * 0x1_0000 && Val(y) == 2560 * 0x1_0000;
    Pow2Of8();
    Pow2Add8(8);
    Pow2Add8(16);
    assert Pow2(16) == 0x1_0000 && Pow2(24) == 0x100_0000;
  }

  // For a list some packet satisfies, the emitted rules match exactly the
  // packets of the source if and only if the last address of each endpoint
  // lies inside every earlier one.
  lemma {:induction false} ExactIffNarrowing(h: Hook, comment: string, fam: Option<bool>, es: seq<Stmt>, w: Packet,
      env: Env)
    requires ConvertSpec(h, comment, fam, es).Ok? && PlainNames(es)
    requires w.Valid() && IcmpAtHome(w) && SourceHolds(fam, es, w)
    ensures (forall p: Packet :: p.Valid() && IcmpAtHome(p) ==>
               (Emitted(ConvertSpec(h, comment, fam, es).value, p, env) <==> SourceHolds(fam, es, p)))
       <==> Narrowing(es)
  {
    hide ConvertSpec, SourceHolds, Emitted, Narrowing;
    if Narrowing(es) {
      forall p: Packet | p.Valid() && IcmpAtHome(p)
        ensures Emitted(ConvertSpec(h, comment, fam, es).value, p, env) <==> SourceHolds(fam, es, p)
      {
        ConversionExact(h, comment, fam, es, p, env);
      }
    } else {
      var p := WidenedBy(h, comment, fam, es, w, env);
    }
  }

  // A block that is not inside another has an end outside it.
  lemma FarEnd(net: Net, b: Net) returns (x: seq<byte>)
    requires net.Valid() && b.Valid() && |net.addr| == |b.addr| && PrefixContains(b, net) && !PrefixContains(net, b)
    ensures net.Contains(x) && !b.Contains(x)
  {
    hide SamePrefix, Mask, CidrMask, Net.Last, Val, Pow2, PrefixContains;
    FirstAndLast(net);
    if !b.Contains(net.First()) { return net.First(); }
    if !b.Contains(net.Last()) { return net.Last(); }
    BothEnds(net, b);
    x := net.First();
  }

  lemma FirstAndLast(net: Net)
    requires net.Valid()
    ensures net.Contains(net.First()) && net.Contains(net.Last())
            && Val(net.Last()) == Val(net.First()) + net.Size() - 1
  {
    hide SamePrefix, Mask, CidrMask, Val, Pow2, Net.First, Net.Last;
    LastVal(net);
    NetStart(net);
    NetBounds(net, net.First());
    NetBounds(net, net.Last());
    SizePositive(net);
  }

  lemma SizePositive(net: Net)
    requires net.Valid()
    ensures net.Size() > 0
  {
  }

  lemma BothEnds(net: Net, b: Net)
    requires net.Valid() && b.Valid() && |net.addr| == |b.addr| && b.Contains(net.First()) && b.Contains(net.Last())
    ensures PrefixContains(net, b)
  {
    hide SamePrefix, Mask, CidrMask, Val, Net.First, Net.Last, PrefixContains;
    FirstAndLast(net);
    NetBounds(b, net.First());
    NetBounds(b, net.Last());
    if net.bits < b.bits {
      Pow2Strictly(8 * |b.addr| - b.bits, 8 * |b.addr| - net.bits);
    }
    Nested(net, b, net.First());
  }

  lemma {:induction false} Pow2Strictly(a: nat, b: nat)
    requires a < b
    ensures Pow2(a) < Pow2(b)
  {
    Pow2Monotone(a, b - 1);
  }
}
