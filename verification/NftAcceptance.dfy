/** Which expression lists the nft import takes, and what of them is in the
    rules it makes, told on the expressions. */
module NftAcceptance {
  import opened Bytes
  import opened AddressSets
  import opened Outcomes
  import opened Rules
  import opened Netfilter
  import opened RuleCompiler
  import N = Normalization
  import opened NftImport

  // ---- what an expression asks for ----

  // The families an expression binds the rule to.
  function Families(e: Stmt): set<bool>
  {
    match e
    case Nfproto(v6) => {v6}
    case L4(q) => FamilyOfProto(q)
    case NextHeader(v6, q) => {v6} + FamilyOfProto(q)
    case HostIs(v6, _, _) => {v6}
    case PrefixIs(v6, _, _) => {v6}
    case IcmpIs(v6, _) => {v6}
    case _ => {}
  }

  function FamilyOfProto(q: Proto): set<bool> { if q == Icmp then {false} else if q == Icmpv6 then {true} else {} }

  function ProtocolOf(e: Stmt): Option<Proto>
  {
    match e
    case L4(q) => Some(q)
    case NextHeader(_, q) => Some(q)
    case PortIs(q, _, _, _) => Some(q)
    case IcmpIs(v6, _) => Some(if v6 then Icmpv6 else Icmp)
    case _ => None
  }

  predicate Addresses(e: Stmt, source: bool) { (e.HostIs? || e.PrefixIs?) && e.source == source }

  predicate NamesPort(e: Stmt, source: bool) { e.PortIs? && e.source == source }

  predicate NamesIface(e: Stmt, inbound: bool) { e.IfName? && e.inbound == inbound }

  // An expression that can be read by itself in a chain of the family.
  predicate Possible(fam: Option<bool>, e: Stmt)
  {
    && !e.BadStmt? && (e.IfName? ==> e.name != []) && (e.PortIs? ==> e.lo <= e.hi)
    && (Families(e) == {} || Families(e) == {true} || Families(e) == {false})
    && (fam.Some? ==> Families(e) <= {fam.value})
  }

  // What may follow an expression: nothing behind a verdict; otherwise one
  // family, one protocol, one name for each interface, one range for each
  // port, one ICMP type, and no host but the same after an address.
  predicate Followed(e: Stmt, f: Stmt)
  {
    && !e.VerdictStmt?
    && (Families(e) == {} || Families(f) == {} || Families(e) == Families(f))
    && (ProtocolOf(e).Some? && ProtocolOf(f).Some? ==> ProtocolOf(e) == ProtocolOf(f))
    && (e.IfName? && NamesIface(f, e.inbound) ==> e.name == f.name)
    && (f.HostIs? && Addresses(e, f.source) ==> e.HostIs? && e.host == f.host)
    && (e.PortIs? && NamesPort(f, e.source) ==> e.lo == f.lo && e.hi == f.hi)
    && (e.IcmpIs? && f.IcmpIs? ==> e.icmpType == f.icmpType)
  }

  ghost predicate Fits(fam: Option<bool>, es: seq<Stmt>)
  {
    && (forall i :: 0 <= i < |es| ==> Possible(fam, es[i]))
    && forall i, j :: 0 <= i < j < |es| ==> Followed(es[i], es[j])
  }

  // ---- the accumulator after some expressions ----

  ghost predicate SideTracks(es: seq<Stmt>, c: Conv, source: bool)
  {
    var a := EndOf(c.r, source);
    && (a.ip == AnyAddr || a.ip.Host? || a.ip.Cidr?)
    && (a.ip == AnyAddr <==> forall e :: e in es ==> !Addresses(e, source))
    && (a.ip.Host? ==> forall e :: e in es && Addresses(e, source) ==> e.HostIs? && e.host == a.ip.host)
    && (a.ip.Cidr? ==> exists e :: e in es && Addresses(e, source) && !e.HostIs?)
    && (a.ports == [] <==> forall e :: e in es ==> !NamesPort(e, source))
    && (a.ports != [] ==> |a.ports| == 1
                          && forall e :: e in es && NamesPort(e, source) ==>
                               a.ports[0] == PortRange(e.lo, e.hi, e.proto))
  }

  function IfaceOf(r: Rule, inbound: bool): Name { if inbound then r.ifaceIn else r.ifaceOut }

  ghost predicate IfaceTracks(es: seq<Stmt>, c: Conv, inbound: bool)
  {
    var name := IfaceOf(c.r, inbound);
    && (name == [] <==> forall e :: e in es ==> !NamesIface(e, inbound))
    && forall e :: e in es && NamesIface(e, inbound) ==> e.name == name
  }

  ghost predicate VerdictTracks(es: seq<Stmt>, c: Conv)
  {
    && (c.verdict <==> exists e :: e in es && e.VerdictStmt?)
    && (forall e :: e in es && e.VerdictStmt? ==> e.action == c.r.action)
  }

  ghost predicate FamTracks(fam: Option<bool>, es: seq<Stmt>, c: Conv)
  {
    && (c.fam == None <==> fam == None && forall e :: e in es ==> Families(e) == {})
    && (c.fam.Some? ==> (fam.Some? ==> c.fam == fam) && forall e :: e in es ==> Families(e) <= {c.fam.value})
  }

  ghost predicate ProtoTracks(es: seq<Stmt>, c: Conv)
  {
    && (c.r.proto == NoProto <==> forall e :: e in es ==> ProtocolOf(e).None?)
    && (forall e :: e in es && ProtocolOf(e).Some? ==> ProtocolOf(e).value == c.r.proto)
    && c.r.proto != AnyProto && (c.l4Set ==> c.r.proto == Tcp || c.r.proto == Udp)
  }

  ghost predicate IcmpTracks(es: seq<Stmt>, c: Conv)
  {
    && (c.r.icmpType == None <==> forall e :: e in es ==> !e.IcmpIs?)
    && (forall e :: e in es && e.IcmpIs? ==> c.r.icmpType == Some(e.icmpType))
  }

  ghost predicate LogTracks(es: seq<Stmt>, c: Conv)
  {
    c.r.log == if exists e :: e in es && e.LogStmt? then LogAll else LogNone
  }

  ghost predicate Tracks(fam: Option<bool>, es: seq<Stmt>, c: Conv)
  {
    && VerdictTracks(es, c) && FamTracks(fam, es, c) && ProtoTracks(es, c) && IcmpTracks(es, c) && LogTracks(es, c)
    && SideTracks(es, c, true) && SideTracks(es, c, false)
    && IfaceTracks(es, c, true) && IfaceTracks(es, c, false)
  }

  lemma StartTracks(h: Hook, comment: string, fam: Option<bool>)
    ensures Tracks(fam, [], Blank(h, comment, fam))
  {
  }

  ghost predicate MayFollow(fam: Option<bool>, es: seq<Stmt>, e: Stmt)
  {
    Possible(fam, e) && forall d :: d in es ==> Followed(d, e)
  }

  // ---- one expression ----

  lemma RestrictIff(fam: Option<bool>, es: seq<Stmt>, c: Conv, v6: bool)
    requires FamTracks(fam, es, c)
    ensures Restrict(c, v6).Ok? <==> (fam == None || fam == Some(v6)) && forall d :: d in es ==> Families(d) <= {v6}
    ensures Restrict(c, v6).Ok? ==> Restrict(c, v6).value == c.(fam := Some(v6))
  {
    hide Families;
    if c.fam == Some(!v6) && fam == None {
      var d :| d in es && Families(d) != {};
      assert Families(d) <= {!v6};
      assert !v6 in Families(d);
    }
  }

  lemma ProtoIff(es: seq<Stmt>, c: Conv, q: Proto)
    requires ProtoTracks(es, c) && ProtoNum(q).Some?
    ensures (c.r.proto == NoProto || c.r.proto == q) <==>
            forall d :: d in es && ProtocolOf(d).Some? ==> ProtocolOf(d).value == q
  {
    hide ProtocolOf;
  }

  predicate Fam1(fam: Option<bool>, f: set<bool>) { fam.Some? ==> f <= {fam.value} }

  // What a protocol asks of the state.
  lemma SetProtoIff(fam: Option<bool>, es: seq<Stmt>, c: Conv, q: Proto)
    requires FamTracks(fam, es, c) && ProtoTracks(es, c) && ProtoNum(q).Some?
    ensures SetProto(c, q).Ok? <==>
            && Fam1(fam, FamilyOfProto(q))
            && (forall d :: d in es ==> Families(d) == {} || FamilyOfProto(q) == {} || Families(d) == FamilyOfProto(q))
            && forall d :: d in es && ProtocolOf(d).Some? ==> ProtocolOf(d).value == q
    ensures SetProto(c, q).Ok? ==>
              SetProto(c, q).value ==
              c.(r := c.r.(proto := q),
                 fam := if q == Icmp then Some(false) else if q == Icmpv6 then Some(true) else c.fam)
  {
    hide Families, ProtocolOf, FamTracks, ProtoTracks;
    ProtoIff(es, c, q);
    RestrictIff(fam, es, c, false);
    RestrictIff(fam, es, c, true);
    L4IsPort(es, c);
    forall d, v: bool | d in es ensures Families(d) <= {v} <==> Families(d) == {} || Families(d) == {v} { OneOf(d, v); }
  }

  lemma L4IsPort(es: seq<Stmt>, c: Conv)
    requires ProtoTracks(es, c)
    ensures c.l4Set ==> c.r.proto == Tcp || c.r.proto == Udp
    ensures c.r.proto != AnyProto
  {
  }

  lemma OneOf(d: Stmt, v: bool)
    ensures Families(d) <= {v} <==> Families(d) == {} || Families(d) == {v}
  {
    if Families(d) <= {v} && Families(d) != {} {
      var w :| w in Families(d);
      assert v in Families(d);
    }
  }

  lemma VerdictIff(es: seq<Stmt>, c: Conv)
    requires VerdictTracks(es, c)
    ensures !c.verdict <==> forall d :: d in es ==> !d.VerdictStmt?
  {
  }

  lemma IfaceIff(es: seq<Stmt>, c: Conv, inbound: bool, name: Name)
    requires IfaceTracks(es, c, inbound) && name != []
    ensures var current := if inbound then c.r.ifaceIn else c.r.ifaceOut;
            (current == [] || current == name) <==> forall d :: d in es && NamesIface(d, inbound) ==> d.name == name
  {
  }

  lemma HostIff(es: seq<Stmt>, c: Conv, v6: bool, source: bool, host: seq<byte>)
    requires SideTracks(es, c, source)
    ensures SetHost(c.(fam := Some(v6)), source, host).Ok? <==>
            forall d :: d in es && Addresses(d, source) ==> d.HostIs? && d.host == host
  {
  }

  lemma PortIff(es: seq<Stmt>, c: Conv, q: Proto, source: bool, lo: uint16, hi: uint16)
    requires SideTracks(es, c, source) && forall d :: d in es && NamesPort(d, source) ==> d.proto == q
    ensures var a := EndOf(c.r, source);
            (a.ports == [] || a.ports[0] == PortRange(lo, hi, q)) <==>
            forall d :: d in es && NamesPort(d, source) ==> d.lo == lo && d.hi == hi
  {
  }

  lemma IcmpIff(es: seq<Stmt>, c: Conv, t: nat)
    requires IcmpTracks(es, c)
    ensures (c.r.icmpType.Some? ==> c.r.icmpType.value == t) <==> forall d :: d in es && d.IcmpIs? ==> d.icmpType == t
  {
  }

  // Each kind of expression is taken exactly when it may follow.
  lemma StepOk(fam: Option<bool>, es: seq<Stmt>, c: Conv, e: Stmt)
    requires Tracks(fam, es, c) && ValidStmt(e)
    ensures Apply(c, e).Ok? <==> MayFollow(fam, es, e)
  {
    hide FamTracks, ProtoTracks, IcmpTracks, LogTracks, SideTracks, IfaceTracks, VerdictTracks, SetProto, Restrict,
         SetHost;
    VerdictIff(es, c);
    match e
    case Nfproto(v6) => FamilyStep(fam, es, c, e, v6);
    case L4(q) => SetProtoIff(fam, es, c, q);
    case NextHeader(v6, q) => NextHeaderStep(fam, es, c, e);
    case IfName(inbound, name) => if name != [] { IfaceIff(es, c, inbound, name); }
    case HostIs(v6, source, host) => AddressOk(fam, es, c, e);
    case PrefixIs(v6, source, net) => AddressOk(fam, es, c, e);
    case PortIs(q, source, lo, hi) => PortOk(fam, es, c, e);
    case IcmpIs(v6, t) => PortOk(fam, es, c, e);
    case _ =>
  }

  lemma AddressOk(fam: Option<bool>, es: seq<Stmt>, c: Conv, e: Stmt)
    requires (e.HostIs? || e.PrefixIs?) && Tracks(fam, es, c) && ValidStmt(e)
    ensures Apply(c, e).Ok? <==> MayFollow(fam, es, e)
  {
    hide FamTracks, ProtoTracks, IcmpTracks, LogTracks, SideTracks, IfaceTracks, VerdictTracks, SetProto, Restrict,
         SetHost, Addresses;
    VerdictIff(es, c);
    FamilyStep(fam, es, c, e, e.v6);
    if e.HostIs? { HostIff(es, c, e.v6, e.source, e.host); }
  }

  lemma PortOk(fam: Option<bool>, es: seq<Stmt>, c: Conv, e: Stmt)
    requires (e.PortIs? || e.IcmpIs?) && Tracks(fam, es, c) && ValidStmt(e)
    ensures Apply(c, e).Ok? <==> MayFollow(fam, es, e)
  {
    hide FamTracks, ProtoTracks, IcmpTracks, LogTracks, SideTracks, IfaceTracks, VerdictTracks, SetProto, Restrict;
    VerdictIff(es, c);
    if e.PortIs? {
      PortStep(fam, es, c, e);
    } else {
      SetProtoIff(fam, es, c, if e.v6 then Icmpv6 else Icmp);
      IcmpIff(es, c, e.icmpType);
    }
  }

  lemma FamilyStep(fam: Option<bool>, es: seq<Stmt>, c: Conv, e: Stmt, v6: bool)
    requires FamTracks(fam, es, c) && Families(e) == {v6}
    ensures Restrict(c, v6).Ok? <==>
            Fam1(fam, Families(e))
            && forall d :: d in es ==> Families(d) == {} || Families(e) == {} || Families(d) == Families(e)
    ensures Restrict(c, v6).Ok? ==> Restrict(c, v6).value == c.(fam := Some(v6))
  {
    hide Families, FamTracks;
    RestrictIff(fam, es, c, v6);
    forall d | d in es ensures Families(d) <= {v6} <==> Families(d) == {} || Families(d) == {v6} { OneOf(d, v6); }
  }

  lemma NextHeaderStep(fam: Option<bool>, es: seq<Stmt>, c: Conv, e: Stmt)
    requires FamTracks(fam, es, c) && ProtoTracks(es, c) && e.NextHeader? && ValidStmt(e)
    ensures var n := Restrict(c, e.v6);
            (n.Ok? && SetProto(n.value, e.proto).Ok?) <==>
            && (Families(e) == {true} || Families(e) == {false}) && Fam1(fam, Families(e))
            && (forall d :: d in es ==> Families(d) == {} || Families(d) == Families(e))
            && forall d :: d in es && ProtocolOf(d).Some? ==> ProtocolOf(d).value == e.proto
  {
    hide FamTracks, ProtoTracks;
    var v6, q := e.v6, e.proto;
    RestrictIff(fam, es, c, v6);
    ProtoIff(es, c, q);
    L4IsPort(es, c);
    forall d | d in es ensures Families(d) <= {v6} <==> Families(d) == {} || Families(d) == {v6} { OneOf(d, v6); }
    assert Families(e) == {v6} + FamilyOfProto(q);
    assert (q == Icmp && v6) || (q == Icmpv6 && !v6) ==> Families(e) == {false, true} by {
      if q == Icmp && v6 { assert {true} + {false} == {false, true}; }
      if q == Icmpv6 && !v6 { assert {false} + {true} == {false, true}; }
    }
    if (q == Icmp && v6) || (q == Icmpv6 && !v6) {
      assert true in Families(e) && false in Families(e);
    } else {
      assert Families(e) == {v6};
    }
  }

  lemma PortStep(fam: Option<bool>, es: seq<Stmt>, c: Conv, e: Stmt)
    requires e.PortIs? && ValidStmt(e) && FamTracks(fam, es, c) && ProtoTracks(es, c) && SideTracks(es, c, e.source)
    ensures SetPort(c, e.proto, e.source, e.lo, e.hi).Ok? <==>
            && e.lo <= e.hi
            && (forall d :: d in es && ProtocolOf(d).Some? ==> ProtocolOf(d).value == e.proto)
            && forall d :: d in es && NamesPort(d, e.source) ==> d.lo == e.lo && d.hi == e.hi
  {
    hide FamTracks, ProtoTracks, SideTracks, SetProto;
    SetProtoIff(fam, es, c, e.proto);
    assert forall d :: d in es && NamesPort(d, e.source) ==> ProtocolOf(d) == Some(d.proto);
    if forall d :: d in es && ProtocolOf(d).Some? ==> ProtocolOf(d).value == e.proto {
      PortIff(es, c, e.proto, e.source, e.lo, e.hi);
    }
  }

  // ---- the state after it ----

  // What one expression adds to the state.
  lemma StepTracks(fam: Option<bool>, es: seq<Stmt>, c: Conv, e: Stmt)
    requires Tracks(fam, es, c) && ValidStmt(e) && Apply(c, e).Ok?
    ensures Tracks(fam, es + [e], Apply(c, e).value)
  {
    hide FamTracks, ProtoTracks, IcmpTracks, LogTracks, SideTracks, IfaceTracks, VerdictTracks, Apply;
    StepOk(fam, es, c, e);
    VerdictStep(es, c, e);
    FamStep(fam, es, c, e);
    ProtoStep(es, c, e);
    IcmpStep(es, c, e);
    SideStep(es, c, e, true);
    SideStep(es, c, e, false);
    IfaceStep(es, c, e, true);
    IfaceStep(es, c, e, false);
  }

  lemma VerdictStep(es: seq<Stmt>, c: Conv, e: Stmt)
    requires VerdictTracks(es, c) && LogTracks(es, c) && Apply(c, e).Ok?
    ensures VerdictTracks(es + [e], Apply(c, e).value) && LogTracks(es + [e], Apply(c, e).value)
  {
    var d := Apply(c, e).value;
    assert d.verdict == (c.verdict || e.VerdictStmt?) && d.r.log == (if e.LogStmt? then LogAll else c.r.log);
    assert forall x :: x in es + [e] <==> x in es || x == e;
  }

  lemma FamStep(fam: Option<bool>, es: seq<Stmt>, c: Conv, e: Stmt)
    requires FamTracks(fam, es, c) && MayFollow(fam, es, e) && Apply(c, e).Ok? && ValidStmt(e)
    ensures FamTracks(fam, es + [e], Apply(c, e).value)
  {
    var d := Apply(c, e).value;
    assert forall x :: x in es + [e] <==> x in es || x == e;
    assert d.fam == if Families(e) == {} then c.fam else Some(true in Families(e)) by { FamAfter(fam, c, e); }
    if Families(e) != {} {
      forall x | x in es ensures Families(x) <= Families(e) { assert Followed(x, e); }
    }
  }

  lemma FamAfter(fam: Option<bool>, c: Conv, e: Stmt)
    requires Possible(fam, e) && Apply(c, e).Ok? && ValidStmt(e)
    ensures Apply(c, e).value.fam == if Families(e) == {} then c.fam else Some(true in Families(e))
  {
  }

  lemma ProtoStep(es: seq<Stmt>, c: Conv, e: Stmt)
    requires ProtoTracks(es, c) && Apply(c, e).Ok? && ValidStmt(e)
    requires forall d :: d in es ==> Followed(d, e)
    ensures ProtoTracks(es + [e], Apply(c, e).value)
  {
    hide Families, NamesIface, Addresses, NamesPort;
    var d := Apply(c, e).value;
    assert forall x :: x in es + [e] <==> x in es || x == e;
    assert d.r.proto == (if ProtocolOf(e).Some? then ProtocolOf(e).value else c.r.proto)
           && d.l4Set == (c.l4Set || e.PortIs?) by {
      ProtoAfter(c, e);
    }
    if ProtocolOf(e).Some? && c.r.proto != NoProto {
      var x :| x in es && ProtocolOf(x).Some?;
      assert Followed(x, e);
    }
  }

  lemma ProtoAfter(c: Conv, e: Stmt)
    requires Apply(c, e).Ok?
    ensures var d := Apply(c, e).value;
            && d.r.proto == (if ProtocolOf(e).Some? then ProtocolOf(e).value else c.r.proto)
            && d.l4Set == (c.l4Set || e.PortIs?)
  {
  }

  lemma IcmpStep(es: seq<Stmt>, c: Conv, e: Stmt)
    requires IcmpTracks(es, c) && Apply(c, e).Ok?
    ensures IcmpTracks(es + [e], Apply(c, e).value)
  {
    var d := Apply(c, e).value;
    assert forall x :: x in es + [e] <==> x in es || x == e;
    IcmpAfter(c, e);
  }

  lemma IcmpAfter(c: Conv, e: Stmt)
    requires Apply(c, e).Ok?
    ensures Apply(c, e).value.r.icmpType == if e.IcmpIs? then Some(e.icmpType) else c.r.icmpType
    ensures e.IcmpIs? && c.r.icmpType.Some? ==> c.r.icmpType.value == e.icmpType
  {
  }

  lemma SideStep(es: seq<Stmt>, c: Conv, e: Stmt, source: bool)
    requires SideTracks(es, c, source) && Apply(c, e).Ok?
    ensures SideTracks(es + [e], Apply(c, e).value, source)
  {
    var d := Apply(c, e).value;
    assert forall x :: x in es + [e] <==> x in es || x == e;
    SideAfter(c, e, source);
  }

  lemma SideAfter(c: Conv, e: Stmt, source: bool)
    requires Apply(c, e).Ok? && var a := EndOf(c.r, source); a.ip == AnyAddr || a.ip.Host? || a.ip.Cidr?
    ensures var a, b := EndOf(c.r, source), EndOf(Apply(c, e).value.r, source);
            && b.ip == (if !Addresses(e, source) then a.ip else if e.HostIs? then Host(e.host) else Cidr(e.net))
            && (Addresses(e, source) && e.HostIs? ==> a.ip == AnyAddr || a.ip == b.ip)
            && (if NamesPort(e, source) then
                  var range := PortRange(e.lo, e.hi, e.proto);
                  b.ports == (if a.ports == [] then [range] else a.ports) && b.ports[0] == range
                else b.ports == a.ports)
  {
  }

  lemma IfaceStep(es: seq<Stmt>, c: Conv, e: Stmt, inbound: bool)
    requires IfaceTracks(es, c, inbound) && Apply(c, e).Ok?
    ensures IfaceTracks(es + [e], Apply(c, e).value, inbound)
  {
    var d := Apply(c, e).value;
    assert forall x :: x in es + [e] <==> x in es || x == e;
    IfaceAfter(c, e, inbound);
  }

  lemma IfaceAfter(c: Conv, e: Stmt, inbound: bool)
    requires Apply(c, e).Ok?
    ensures var a, b := IfaceOf(c.r, inbound), IfaceOf(Apply(c, e).value.r, inbound);
            if NamesIface(e, inbound) then b == e.name && b != [] && (a == [] || a == b) else b == a
  {
  }

  // ---- whole lists ----

  lemma {:induction false} FitsSnoc(fam: Option<bool>, es: seq<Stmt>)
    requires es != []
    ensures var n := |es| - 1; Fits(fam, es) <==> Fits(fam, es[..n]) && MayFollow(fam, es[..n], es[n])
  {
    hide Possible, Followed;
    var n := |es| - 1;
    var init := es[..n];
    assert forall i :: 0 <= i < n ==> init[i] == es[i];
    if Fits(fam, es) {
      forall d | d in init ensures Followed(d, es[n]) {
        var i :| 0 <= i < n && init[i] == d;
        assert es[i] == d;
      }
    }
    if Fits(fam, init) && MayFollow(fam, init, es[n]) {
      forall i, j | 0 <= i < j < |es| ensures Followed(es[i], es[j]) {
        assert es[i] == init[i] && init[i] in init;
        if j < n { assert es[j] == init[j]; }
      }
    }
  }

  lemma {:induction false} AppliesIff(h: Hook, comment: string, fam: Option<bool>, es: seq<Stmt>)
    requires forall e :: e in es ==> ValidStmt(e)
    ensures ApplyAll(Blank(h, comment, fam), es).Ok? <==> Fits(fam, es)
    ensures Fits(fam, es) ==> Tracks(fam, es, ApplyAll(Blank(h, comment, fam), es).value)
  {
    hide Apply, Tracks, Fits, MayFollow, ValidStmt;
    if es == [] {
      StartTracks(h, comment, fam);
      NothingFits(fam);
    } else {
      var n := |es| - 1;
      AppliesIff(h, comment, fam, es[..n]);
      FitsSnoc(fam, es);
      var init := ApplyAll(Blank(h, comment, fam), es[..n]);
      if init.Ok? {
        StepOk(fam, es[..n], init.value, es[n]);
        if Apply(init.value, es[n]).Ok? {
          StepTracks(fam, es[..n], init.value, es[n]);
          assert es[..n] + [es[n]] == es;
        }
      }
    }
  }

  lemma NothingFits(fam: Option<bool>)
    ensures Fits(fam, [])
  {
  }

  // The fields no expression sets.
  predicate SameRest(r: Rule, q: Rule)
  {
    && r.direction == q.direction && r.comment == q.comment && r.expiresAt == q.expiresAt && r.disabled == q.disabled
  }

  lemma CommentStep(c: Conv, e: Stmt)
    requires Apply(c, e).Ok?
    ensures var d := Apply(c, e).value;
            d.comment == (if e.CommentStmt? then e.text else c.comment) && SameRest(d.r, c.r)
  {
    hide SetProto, SetIface, SetHost, SetPort, SetIcmp, SetPrefix, Restrict;
    match e
    case Nfproto(v6) => KeepsRest(c, v6, Tcp);
    case L4(q) => KeepsRest(c, false, q);
    case NextHeader(v6, q) =>
      KeepsRest(c, v6, q);
      if Restrict(c, v6).Ok? { KeepsRest(Restrict(c, v6).value, v6, q); }
    case IfName(inbound, name) => IfaceKeepsRest(c, inbound, name);
    case HostIs(v6, source, host) =>
      KeepsRest(c, v6, Tcp);
      if Restrict(c, v6).Ok? { HostKeepsRest(Restrict(c, v6).value, source, host, Net([], 0)); }
    case PrefixIs(v6, source, net) =>
      KeepsRest(c, v6, Tcp);
      if Restrict(c, v6).Ok? { HostKeepsRest(Restrict(c, v6).value, source, [], net); }
    case PortIs(q, source, lo, hi) => PortKeepsRest(c, q, source, lo, hi);
    case IcmpIs(v6, t) => IcmpKeepsRest(c, v6, t);
    case _ =>
  }

  predicate Untouched(c: Conv, d: Conv) { d.comment == c.comment && SameRest(d.r, c.r) }

  lemma KeepsRest(c: Conv, v6: bool, q: Proto)
    ensures Restrict(c, v6).Ok? ==> Untouched(c, Restrict(c, v6).value)
    ensures SetProto(c, q).Ok? ==> Untouched(c, SetProto(c, q).value)
  {
  }

  lemma IfaceKeepsRest(c: Conv, inbound: bool, name: Name)
    ensures NftImport.SetIface(c, inbound, name).Ok? ==> Untouched(c, NftImport.SetIface(c, inbound, name).value)
  {
  }

  lemma HostKeepsRest(c: Conv, source: bool, host: seq<byte>, net: Net)
    ensures SetHost(c, source, host).Ok? ==> Untouched(c, SetHost(c, source, host).value)
    ensures Untouched(c, SetPrefix(c, source, net))
  {
  }

  lemma PortKeepsRest(c: Conv, q: Proto, source: bool, lo: uint16, hi: uint16)
    ensures SetPort(c, q, source, lo, hi).Ok? ==> Untouched(c, SetPort(c, q, source, lo, hi).value)
  {
    hide SetProto;
    KeepsRest(c, false, q);
  }

  lemma IcmpKeepsRest(c: Conv, v6: bool, t: nat)
    ensures SetIcmp(c, v6, t).Ok? ==> Untouched(c, SetIcmp(c, v6, t).value)
  {
    hide SetProto;
    KeepsRest(c, v6, if v6 then Icmpv6 else Icmp);
  }

  lemma {:induction false} CommentLast(c: Conv, es: seq<Stmt>)
    requires ApplyAll(c, es).Ok?
    ensures var d := ApplyAll(c, es).value; d.comment == LastComment(c.comment, es) && SameRest(d.r, c.r)
  {
    hide Apply;
    if es != [] {
      CommentLast(c, es[..|es| - 1]);
      CommentStep(ApplyAll(c, es[..|es| - 1]).value, es[|es| - 1]);
    }
  }

  // The text of the last comment, or the one given with the rule.
  function LastComment(comment: string, es: seq<Stmt>): string
  {
    if es == [] then comment
    else if es[|es| - 1].CommentStmt? then es[|es| - 1].text
    else LastComment(comment, es[..|es| - 1])
  }

  ghost predicate Asks(es: seq<Stmt>, fam: Option<bool>, v6: bool)
  {
    fam == Some(v6) || exists e :: e in es && v6 in Families(e)
  }

  ghost predicate Made(es: seq<Stmt>, comment: string, h: Hook, v6: bool, r: Rule)
  {
    && (forall e :: e in es && e.VerdictStmt? ==> r.action == e.action)
    && r.log == (if exists e :: e in es && e.LogStmt? then LogAll else LogNone)
    && r.comment == LastComment(comment, es) && r.v6 == v6 && !r.disabled && r.expiresAt == 0
    && r.direction == match h
                      case Input => In
                      case Output => Out
                      case ForwardHook => Routed
  }

  // A list is taken exactly when its last expression is a verdict and every
  // expression may follow those before it. There is a rule for each family
  // it does not shut out, with the verdict, and logged if it says so.
  lemma {:induction false} TakenIff(h: Hook, comment: string, fam: Option<bool>, es: seq<Stmt>)
    requires forall e :: e in es ==> ValidStmt(e)
    ensures var r := ConvertSpec(h, comment, fam, es);
            && (r.Ok? <==> es != [] && es[|es| - 1].VerdictStmt? && Fits(fam, es))
            && (r.Ok? ==> && |r.value.v4| == (if Asks(es, fam, true) then 0 else 1)
                          && |r.value.v6| == (if Asks(es, fam, false) then 0 else 1)
                          && (forall x :: x in r.value.v4 ==> Made(es, comment, h, false, x))
                          && (forall x :: x in r.value.v6 ==> Made(es, comment, h, true, x)))
  {
    hide Apply, Fits, ProtoTracks, IcmpTracks, SideTracks, IfaceTracks, ApplyAll, Families, Finished;
    AppliesIff(h, comment, fam, es);
    var c := ApplyAll(Blank(h, comment, fam), es);
    if c.Ok? {
      CommentLast(Blank(h, comment, fam), es);
      VerdictIsLast(fam, es);
      FamAsks(fam, es, c.value);
      FinishedFields(c.value, false);
      FinishedFields(c.value, true);
    }
  }

  lemma VerdictIsLast(fam: Option<bool>, es: seq<Stmt>)
    requires Fits(fam, es)
    ensures (exists e :: e in es && e.VerdictStmt?) <==> es != [] && es[|es| - 1].VerdictStmt?
  {
    hide Families, ProtocolOf;
    if e :| e in es && e.VerdictStmt? {
      var i :| 0 <= i < |es| && es[i] == e;
      if i < |es| - 1 { assert Followed(es[i], es[|es| - 1]); }
    }
  }

  lemma FamAsks(fam: Option<bool>, es: seq<Stmt>, c: Conv)
    requires FamTracks(fam, es, c)
    ensures Asks(es, fam, true) <==> c.fam == Some(true)
    ensures Asks(es, fam, false) <==> c.fam == Some(false)
  {
    hide Families;
    if c.fam.Some? && fam.None? {
      var e :| e in es && Families(e) != {};
      OneOf(e, c.fam.value);
    }
  }

  lemma FinishedFields(c: Conv, v6: bool)
    ensures var r := Finished(c, v6);
            && r.action == c.r.action && r.log == c.r.log && r.direction == c.r.direction && r.v6 == v6
            && r.comment == (if c.comment != "" then c.comment else c.r.comment)
            && r.disabled == c.r.disabled && r.expiresAt == c.r.expiresAt
  {
    hide N.CanonAddr, N.SortPorts;
  }
}
