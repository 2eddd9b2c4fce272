/** Importing firewalld zones: a packet belongs to one zone there, while the
    rule model is one flat first-match list. */
module FirewalldZones {
  import opened Bytes
  import opened AddressSets
  import opened Outcomes
  import opened Rules
  import opened Prefixes
  import opened Netfilter
  import opened Matching
  import opened RuleCompiler
  import opened BuiltinChains
  import opened Compiler
  import opened Normalization

  // ---- zones ----

  datatype Binding = Iface(name: Name) | Source(addr: Addr) | SetSource(setName: string, v6: bool) | Everything
  {
    predicate V4() { match this case Source(a) => Width(a) != 16 case SetSource(_, v6) => !v6 case _ => true }

    predicate V6() { match this case Source(a) => Width(a) == 16 case SetSource(_, v6) => v6 case _ => true }

    function IfaceName(): Name { if Iface? then name else [] }

    // What the zone parser guarantees.
    ghost predicate Valid() {
      match this
      case Iface(name) => name != []
      case Source(a) => a.Valid() && (a.Host? || a.Cidr?)
      case SetSource(name, _) => name != ""
      case Everything => true
    }
  }

  // A zone element before binding and family expansion.
  datatype Template = Template(action: Action, log: Log, proto: Proto, icmpType: Option<nat>, dports: seq<PortRange>,
                               sports: seq<PortRange>, srcIP: Addr, srcSet: string, dstIP: Addr, dstSet: string,
                               v4: bool, v6: bool, comment: string)
  {
    ghost predicate Valid() {
      && srcIP.Valid() && dstIP.Valid() && !srcIP.BadAddr? && !dstIP.BadAddr? && !srcIP.AnyAddr?
      && (srcSet == "" || srcIP == NoAddr) && (dstSet == "" || dstIP == NoAddr)
      && (Width(srcIP) == 16 || Width(dstIP) == 16 ==> !v4) && (Width(srcIP) == 4 || Width(dstIP) == 4 ==> !v6)
      && action in {Allow, Deny, Reject}
    }
  }

  datatype Zone = Zone(name: string, bindings: seq<Binding>, templates: seq<Template>)
  {
    ghost predicate Valid() {
      && (forall b :: b in bindings ==> b.Valid())
      && (forall t :: t in templates ==> t.Valid())
    }
  }

  // ---- what zones mean ----

  ghost predicate Captured(b: Binding, p: Packet, env: Env)
    requires b.Valid() && p.Valid()
  {
    match b
    case Iface(name) => IfaceIs(name, p.iif)
    case Source(a) => a.Contains(p.Saddr())
    case SetSource(name, v6) => p.v6 == v6 && InNamedSet(env, name, v6, p.Saddr())
    case Everything => true
  }

  ghost predicate Captures(z: Zone, p: Packet, env: Env)
    requires z.Valid() && p.Valid()
  {
    exists i :: 0 <= i < |z.bindings| && Captured(z.bindings[i], p, env)
  }

  // The template as a rule of its own, without any binding.
  function Bare(t: Template, id: string, v6: bool): Rule
  {
    Rule(id, t.action, In, NoDirection, [], [], if t.proto == NoProto then AnyProto else t.proto, t.icmpType,
         AddrSpec(t.srcIP, t.sports, t.srcSet), AddrSpec(t.dstIP, t.dports, t.dstSet), "", "", t.log, t.comment, 0,
             false, v6)
  }

  ghost predicate TemplateHolds(t: Template, p: Packet, env: Env)
    requires t.Valid() && p.Valid()
  {
    (if p.v6 then t.v6 else t.v4) && Matches(Bare(t, "", p.v6), p, env)
  }

  function Verdict(a: Action): Decision
  {
    match a
    case Allow => Accepted
    case Reject => Rejected
    case _ => Dropped
  }

  // The zone's elements in order.
  ghost function FirstTemplate(ts: seq<Template>, p: Packet, env: Env): Option<Decision>
    requires p.Valid() && forall t :: t in ts ==> t.Valid()
  {
    if ts == [] then None
    else if TemplateHolds(ts[0], p, env) then Some(Verdict(ts[0].action))
    else FirstTemplate(ts[1..], p, env)
  }

  // Dispatch to the zone that captures the packet.
  ghost function Dispatch(zones: seq<Zone>, p: Packet, env: Env): Option<Decision>
    requires p.Valid() && forall z :: z in zones ==> z.Valid()
  {
    if zones == [] then None
    else if Captures(zones[0], p, env) then FirstTemplate(zones[0].templates, p, env)
    else Dispatch(zones[1..], p, env)
  }

  // ---- combining a binding with a template ----

  datatype Met = Conflict | Dead | Met(ifaceIn: Name, srcIP: Addr, srcSet: string, v4: bool, v6: bool)

  // The source that is left, before families are looked at.
  function MeetSource(b: Binding, t: Template): Met
  {
    var v4, v6 := t.v4 && b.V4(), t.v6 && b.V6();
    match b
    case Iface(name) => Met(name, t.srcIP, t.srcSet, v4, v6)
    case Everything => Met([], t.srcIP, t.srcSet, v4, v6)
    case Source(a) =>
      if t.srcIP == NoAddr && t.srcSet == "" then Met([], a, "", v4, v6)
      else if t.srcSet != "" then Conflict
      else
        var bn, sn := ToPrefix(a), ToPrefix(t.srcIP);
        if bn.None? || sn.None? then Conflict
        else if PrefixContains(sn.value, bn.value) then Met([], t.srcIP, "", v4, v6)
        else if PrefixContains(bn.value, sn.value) then Met([], a, "", v4, v6)
        else Dead
    case SetSource(name, _) =>
      if t.srcIP == NoAddr && t.srcSet == "" then Met([], NoAddr, name, v4, v6)
      else if t.srcSet == name then Met([], t.srcIP, name, v4, v6)
      else Conflict
  }

  function Meet(b: Binding, t: Template): Met
  {
    var m := MeetSource(b, t);
    if m.Met? && !m.v4 && !m.v6 then Conflict else m
  }

  function Combined(t: Template, m: Met, id: string, v6: bool): Rule
    requires m.Met?
  {
    Bare(t, id, v6).(ifaceIn := m.ifaceIn,
        src := AddrSpec(if m.srcIP == NoAddr then AnyAddr else m.srcIP, t.sports, m.srcSet),
                     dst := AddrSpec(if t.dstIP == NoAddr then AnyAddr else t.dstIP, t.dports, t.dstSet))
  }

  function Staged(t: Template, m: Met, id: string, v6: bool): Rule
    requires m.Met?
  {
    Widened(Normal(Combined(t, m, id, v6)))
  }

  // The rules one template contributes to a family list.
  function TemplateRules(bs: seq<Binding>, t: Template, id: string, v6: bool): seq<Rule>
  {
    if bs == [] then []
    else
      var init, m := TemplateRules(bs[..|bs| - 1], t, id, v6), Meet(bs[|bs| - 1], t);
      if m.Met? && (if v6 then m.v6 else m.v4) then init + [Staged(t, m, id, v6)] else init
  }

  function ZoneRules(z: Zone, ts: seq<Template>, id: string, v6: bool): seq<Rule>
  {
    if ts == [] then [] else ZoneRules(z, ts[..|ts| - 1], id, v6) + TemplateRules(z.bindings, ts[|ts| - 1], id, v6)
  }

  function FlatRules(zones: seq<Zone>, id: string, v6: bool): seq<Rule>
  {
    if zones == [] then []
    else
      var z := zones[|zones| - 1];
      FlatRules(zones[..|zones| - 1], id, v6) + ZoneRules(z, z.templates, id, v6)
  }

  predicate Emittable(bs: seq<Binding>, t: Template)
  {
    forall i :: 0 <= i < |bs| ==> !Meet(bs[i], t).Conflict?
  }

  predicate ZoneEmittable(z: Zone)
  {
    forall i :: 0 <= i < |z.templates| ==> Emittable(z.bindings, z.templates[i])
  }

  // ---- services with destinations ----

  // A service with destination addresses is only open there: one template
  // for each family that has one.
  function SplitByDst(t: Template, dst4: Addr, dst6: Addr): seq<Template>
  {
    if dst4 == NoAddr && dst6 == NoAddr then [t]
    else (if dst4 != NoAddr then [t.(dstIP := dst4, v6 := false)] else [])
         + (if dst6 != NoAddr then [t.(dstIP := dst6, v4 := false)] else [])
  }

  ghost predicate InDestination(dst4: Addr, dst6: Addr, p: Packet)
    requires p.Valid() && dst4.Valid() && dst6.Valid()
  {
    var d := if p.v6 then dst6 else dst4;
    (dst4 == NoAddr && dst6 == NoAddr) || (d != NoAddr && d.Contains(p.Daddr()))
  }

  // The templates of a service match what the service matches at its
  // destinations; a family without one is closed once the other has one.
  lemma {:induction false} SplitExact(t: Template, dst4: Addr, dst6: Addr, p: Packet, env: Env)
    requires t.Valid() && t.dstIP == NoAddr && t.dstSet == "" && p.Valid()
    requires dst4 == NoAddr || (dst4.Valid() && (dst4.Host? || dst4.Cidr?) && Width(dst4) == 4)
    requires dst6 == NoAddr || (dst6.Valid() && (dst6.Host? || dst6.Cidr?) && Width(dst6) == 16)
    ensures forall u :: u in SplitByDst(t, dst4, dst6) ==> u.Valid()
    ensures FirstTemplate(SplitByDst(t, dst4, dst6), p, env)
            == When(TemplateHolds(t, p, env) && InDestination(dst4, dst6, p), Verdict(t.action))
  {
    hide Matches, Addr.Contains, Packet.Daddr;
    var split := SplitByDst(t, dst4, dst6);
    if dst4 == NoAddr && dst6 == NoAddr {
      assert split[1..] == [];
    } else {
      if dst4 != NoAddr { AtDestination(t, dst4, p, env); }
      if dst6 != NoAddr { AtDestination(t, dst6, p, env); }
      if |split| == 2 {
        var rest := split[1..];
        assert rest == [split[1]] && rest[1..] == [];
        assert FirstTemplate(rest[1..], p, env) == None;
        assert FirstTemplate(rest, p, env) == When(TemplateHolds(split[1], p, env), Verdict(t.action));
      } else {
        assert split[1..] == [];
      }
    }
  }

  lemma AtDestination(t: Template, dst: Addr, p: Packet, env: Env)
    requires t.Valid() && t.dstIP == NoAddr && t.dstSet == "" && p.Valid() && dst.Valid() && (dst.Host? || dst.Cidr?)
    ensures forall v6, v4, w6 ::
              var u := t.(dstIP := dst, v4 := v4, v6 := w6);
              Bare(u, "", v6).Valid()
                && (Matches(Bare(u, "", v6), p, env) <==> Matches(Bare(t, "", v6), p, env) && dst.Contains(p.Daddr()))
  {
    hide IfaceIs, InNamedSet, SamePrefix, Covers, HasIcmpType, Carries, Packet.Saddr, Packet.Daddr, Packet.Sport,
         Packet.Dport;
  }

  // ---- zone layouts ----

  predicate Overlap(ba: Binding, bb: Binding)
  {
    if ba.Iface? && bb.Iface? then ba.name == bb.name
    else if ba.Iface? != bb.Iface? then true
    else if !(ba.V4() && bb.V4()) && !(ba.V6() && bb.V6()) then false
    else if ba.Source? && bb.Source? then
      var an, bn := ToPrefix(ba.addr), ToPrefix(bb.addr);
      an.Some? && bn.Some? && (PrefixContains(bn.value, an.value) || PrefixContains(an.value, bn.value))
    else true
  }

  predicate ZonesOverlap(a: Zone, b: Zone)
  {
    exists i, j :: 0 <= i < |a.bindings| && 0 <= j < |b.bindings| && Overlap(a.bindings[i], b.bindings[j])
  }

  predicate LayoutAccepted(zones: seq<Zone>)
  {
    forall i, j :: 0 <= i < j < |zones| ==> !ZonesOverlap(zones[i], zones[j])
  }

  predicate AnyBound(zones: seq<Zone>)
  {
    exists i :: 0 <= i < |zones| && zones[i].bindings != []
  }

  // Unbound zones other than the default never match; an unbound default
  // zone sees all traffic, but only where nothing is bound.
  function Active(zones: seq<Zone>, default: string, anyBound: bool): Result<seq<Zone>>
  {
    if zones == [] then Ok([])
    else
      var init, z := Active(zones[..|zones| - 1], default, anyBound), zones[|zones| - 1];
      if init.Err? then Err
      else if z.bindings != [] then Ok(init.value + [z])
      else if z.name != default then init
      else if anyBound then Err
      else Ok(init.value + [z.(bindings := [Everything])])
  }

  // The imported family list, or an error.
  function Import(zones: seq<Zone>, default: string, id: string, v6: bool): Result<seq<Rule>>
  {
    var active := Active(zones, default, AnyBound(zones));
    if active.Err? || !LayoutAccepted(active.value) then Err
    else if exists i :: 0 <= i < |active.value| && !ZoneEmittable(active.value[i]) then Err
    else Ok(FlatRules(active.value, id, v6))
  }

  // ---- the loader ----

  class FwLoader {
    var rules4: seq<Rule>
    var rules6: seq<Rule>
    const id: string

    constructor (id: string)
      ensures rules4 == [] && rules6 == [] && this.id == id
    {
      rules4, rules6, this.id := [], [], id;
    }

    // emit: one template across all bindings of its zone.
    method Emit(bindings: seq<Binding>, t: Template) returns (ok: bool)
      modifies this`rules4, this`rules6
      ensures ok <==> Emittable(bindings, t)
      ensures ok ==> && rules4 == old(rules4) + TemplateRules(bindings, t, id, false)
                     && rules6 == old(rules6) + TemplateRules(bindings, t, id, true)
    {
      hide Meet, Staged;
      assert bindings[..0] == [];
      for i := 0 to |bindings|
        invariant rules4 == old(rules4) + TemplateRules(bindings[..i], t, id, false)
        invariant rules6 == old(rules6) + TemplateRules(bindings[..i], t, id, true)
        invariant forall k :: 0 <= k < i ==> !Meet(bindings[k], t).Conflict?
      {
        assert bindings[..i + 1][..i] == bindings[..i];
        var m := Meet(bindings[i], t);
        if m.Conflict? { return false; }
        if m.Dead? { continue; }
        StageRule(t, m);
      }
      assert bindings[..|bindings|] == bindings;
      return true;
    }

    method StageRule(t: Template, m: Met)
      requires m.Met?
      modifies this`rules4, this`rules6
      ensures rules4 == old(rules4) + if m.v4 then [Staged(t, m, id, false)] else []
      ensures rules6 == old(rules6) + if m.v6 then [Staged(t, m, id, true)] else []
    {
      hide Normal;
      if m.v4 {
        var r, _ := Normalize(Combined(t, m, id, false));
        rules4 := rules4 + [Widened(r)];
      }
      if m.v6 {
        var r, _ := Normalize(Combined(t, m, id, true));
        rules6 := rules6 + [Widened(r)];
      }
    }

    // emitWithDst: one template of a service, per destination.
    method EmitWithDst(z: Zone, t: Template, dst4: Addr, dst6: Addr) returns (ok: bool)
      modifies this`rules4, this`rules6
      ensures ok <==>
              forall i :: 0 <= i < |SplitByDst(t, dst4, dst6)| ==> Emittable(z.bindings, SplitByDst(t, dst4, dst6)[i])
      ensures ok ==> && rules4 == old(rules4) + ZoneRules(z, SplitByDst(t, dst4, dst6), id, false)
                     && rules6 == old(rules6) + ZoneRules(z, SplitByDst(t, dst4, dst6), id, true)
    {
      hide Emittable, TemplateRules, ZoneRules;
      var t4, t6 := t.(dstIP := dst4, v6 := false), t.(dstIP := dst6, v4 := false);
      OneTemplate(z, t, id);
      OneTemplate(z, t4, id);
      OneTemplate(z, t6, id);
      TwoTemplates(z, t4, t6, id);
      if dst4 == NoAddr && dst6 == NoAddr {
        ok := Emit(z.bindings, t);
        assert SplitByDst(t, dst4, dst6)[0] == t;
        return;
      }
      if dst4 != NoAddr {
        ok := Emit(z.bindings, t4);
        if !ok {
          assert SplitByDst(t, dst4, dst6)[0] == t4;
          return;
        }
      }
      if dst6 != NoAddr {
        ok := Emit(z.bindings, t6);
        assert SplitByDst(t, dst4, dst6)[|SplitByDst(t, dst4, dst6)| - 1] == t6;
        assert dst4 == NoAddr ==> SplitByDst(t, dst4, dst6) == [t6];
        return;
      }
      assert SplitByDst(t, dst4, dst6) == [t4];
      return true;
    }

    method EmitZone(z: Zone) returns (ok: bool)
      modifies this`rules4, this`rules6
      ensures ok <==> ZoneEmittable(z)
      ensures ok ==> && rules4 == old(rules4) + ZoneRules(z, z.templates, id, false)
                     && rules6 == old(rules6) + ZoneRules(z, z.templates, id, true)
    {
      hide Emittable, TemplateRules;
      var ts := z.templates;
      assert ts[..0] == [];
      for i := 0 to |ts|
        invariant rules4 == old(rules4) + ZoneRules(z, ts[..i], id, false)
        invariant rules6 == old(rules6) + ZoneRules(z, ts[..i], id, true)
        invariant forall k :: 0 <= k < i ==> Emittable(z.bindings, ts[k])
      {
        assert ts[..i + 1][..i] == ts[..i];
        ok := Emit(z.bindings, ts[i]);
        if !ok { return; }
        assert old(rules4) + ZoneRules(z, ts[..i], id, false) + TemplateRules(z.bindings, ts[i], id, false)
               == old(rules4) + ZoneRules(z, ts[..i + 1], id, false);
        assert old(rules6) + ZoneRules(z, ts[..i], id, true) + TemplateRules(z.bindings, ts[i], id, true)
               == old(rules6) + ZoneRules(z, ts[..i + 1], id, true);
      }
      assert ts[..|ts|] == ts;
      return true;
    }

    // Which zones count.
    static method ActiveZones(zones: seq<Zone>, default: string) returns (r: Result<seq<Zone>>)
      ensures r == Active(zones, default, AnyBound(zones))
    {
      var bound := 0;
      for i := 0 to |zones|
        invariant bound >= 0 && (bound > 0 <==> exists k :: 0 <= k < i && zones[k].bindings != [])
      {
        if |zones[i].bindings| > 0 { bound := bound + 1; }
      }
      var active: seq<Zone> := [];
      assert zones[..0] == [];
      for i := 0 to |zones|
        invariant Active(zones[..i], default, bound > 0) == Ok(active)
      {
        assert zones[..i + 1][..i] == zones[..i];
        var z := zones[i];
        if |z.bindings| == 0 {
          if z.name != default { continue; }
          if bound > 0 {
            ActiveFails(zones, default, i);
            return Err;
          }
          z := z.(bindings := [Everything]);
        }
        active := active + [z];
      }
      assert zones[..|zones|] == zones;
      return Ok(active);
    }

    // emitZones: which zones count, whether their layout is representable,
    // then their elements.
    method EmitZones(zones: seq<Zone>, default: string) returns (ok: bool)
      requires rules4 == [] && rules6 == []
      modifies this`rules4, this`rules6
      ensures ok <==> Import(zones, default, id, false).Ok?
      ensures ok ==> Import(zones, default, id, false) == Ok(rules4) && Import(zones, default, id, true) == Ok(rules6)
    {
      hide LayoutAccepted, ZoneEmittable, ZoneRules, Active, AnyBound;
      var zs := ActiveZones(zones, default);
      if zs.Err? { return false; }
      var active := zs.value;
      ok := CheckZoneOverlap(active);
      if !ok { return; }
      assert active[..0] == [];
      for i := 0 to |active|
        invariant rules4 == FlatRules(active[..i], id, false) && rules6 == FlatRules(active[..i], id, true)
        invariant forall k :: 0 <= k < i ==> ZoneEmittable(active[k])
      {
        assert active[..i + 1][..i] == active[..i];
        ok := EmitZone(active[i]);
        if !ok { return; }
      }
      assert active[..|active|] == active;
      return true;
    }

    static method CheckZoneOverlap(active: seq<Zone>) returns (ok: bool)
      ensures ok <==> LayoutAccepted(active)
    {
      hide Overlap;
      for i := 0 to |active|
        invariant forall k, j :: 0 <= k < i && k < j < |active| ==> !ZonesOverlap(active[k], active[j])
      {
        for j := i + 1 to |active|
          invariant forall k :: i < k < j ==> !ZonesOverlap(active[i], active[k])
        {
          var overlap := PairOverlaps(active[i], active[j]);
          if overlap { return false; }
        }
      }
      return true;
    }

    static method PairOverlaps(a: Zone, b: Zone) returns (overlap: bool)
      ensures overlap <==> ZonesOverlap(a, b)
    {
      hide Overlap;
      for i := 0 to |a.bindings|
        invariant forall k, j :: 0 <= k < i && 0 <= j < |b.bindings| ==> !Overlap(a.bindings[k], b.bindings[j])
      {
        for j := 0 to |b.bindings|
          invariant forall k :: 0 <= k < j ==> !Overlap(a.bindings[i], b.bindings[k])
        {
          if Overlap(a.bindings[i], b.bindings[j]) { return true; }
        }
      }
      return false;
    }
  }

  lemma OneTemplate(z: Zone, t: Template, id: string)
    ensures ZoneRules(z, [t], id, false) == TemplateRules(z.bindings, t, id, false)
    ensures ZoneRules(z, [t], id, true) == TemplateRules(z.bindings, t, id, true)
  {
    hide TemplateRules;
    assert [t][..0] == [];
    assert ZoneRules(z, [], id, false) == [] && ZoneRules(z, [], id, true) == [];
  }

  lemma TwoTemplates(z: Zone, t: Template, u: Template, id: string)
    ensures ZoneRules(z, [t] + [u], id, false) == TemplateRules(z.bindings, t, id, false)
            + TemplateRules(z.bindings, u, id, false)
    ensures ZoneRules(z, [t] + [u], id, true) == TemplateRules(z.bindings, t, id, true)
            + TemplateRules(z.bindings, u, id, true)
  {
    hide TemplateRules;
    OneTemplate(z, t, id);
    assert ([t] + [u])[..1] == [t];
  }

  lemma {:induction false} ActiveFails(zones: seq<Zone>, default: string, i: nat)
    requires i < |zones| && zones[i].bindings == [] && zones[i].name == default
    ensures Active(zones, default, true).Err?
    decreases |zones|
  {
    if i < |zones| - 1 {
      assert zones[..|zones| - 1][i] == zones[i];
      ActiveFails(zones[..|zones| - 1], default, i);
    }
  }

  // ---- binding and template meet exactly ----

  // The remaining source of binding and template is their intersection.
  lemma MeetExact(b: Binding, t: Template, p: Packet, env: Env)
    requires b.Valid() && t.Valid() && p.Valid() && !Meet(b, t).Conflict?
    requires if p.v6 then t.v6 else t.v4
    ensures var m := Meet(b, t);
            (Captured(b, p, env) && AddrHolds(Bare(t, "", p.v6).src, p.v6, p.Saddr(), env)) <==>
            (&& m.Met? && (if p.v6 then m.v6 else m.v4) && m.srcIP.Valid() && IfaceHolds(m.ifaceIn, p.iif)
             && AddrHolds(AddrSpec(m.srcIP, t.sports, m.srcSet), p.v6, p.Saddr(), env))
  {
    hide IfaceIs, InNamedSet, PrefixContains, Addr.Contains, Packet.Saddr;
    SaddrWidth(p);
    match b
    case Iface(name) =>
    case Everything =>
    case Source(a) => SourceExact(a, t, p, env);
    case SetSource(name, v6) => SetExact(name, v6, t, p, env);
  }

  lemma SetExact(name: string, v6: bool, t: Template, p: Packet, env: Env)
    requires name != "" && t.Valid() && p.Valid() && !Meet(SetSource(name, v6), t).Conflict?
    requires if p.v6 then t.v6 else t.v4
    ensures var m := Meet(SetSource(name, v6), t);
            (p.v6 == v6 && InNamedSet(env, name, v6, p.Saddr())
              && AddrHolds(Bare(t, "", p.v6).src, p.v6, p.Saddr(), env)) <==>
            (&& m.Met? && (if p.v6 then m.v6 else m.v4) && IfaceHolds(m.ifaceIn, p.iif)
             && AddrHolds(AddrSpec(m.srcIP, t.sports, m.srcSet), p.v6, p.Saddr(), env))
  {
    hide InNamedSet, Packet.Saddr;
  }

  lemma SourceExact(a: Addr, t: Template, p: Packet, env: Env)
    requires a.Valid() && (a.Host? || a.Cidr?) && t.Valid() && p.Valid() && !Meet(Source(a), t).Conflict?
    requires (if p.v6 then t.v6 else t.v4) && |p.Saddr()| == if p.v6 then 16 else 4
    ensures var m := Meet(Source(a), t);
            (a.Contains(p.Saddr()) && AddrHolds(Bare(t, "", p.v6).src, p.v6, p.Saddr(), env)) <==>
            (&& m.Met? && (if p.v6 then m.v6 else m.v4) && m.srcIP.Valid() && IfaceHolds(m.ifaceIn, p.iif)
             && AddrHolds(AddrSpec(m.srcIP, t.sports, m.srcSet), p.v6, p.Saddr(), env))
  {
    hide PrefixContains, SamePrefix, InNamedSet, Packet.Saddr;
    var x := p.Saddr();
    if t.srcIP != NoAddr {
      var bn, sn := ToPrefix(a).value, ToPrefix(t.srcIP).value;
      ToPrefixMeans(a, x);
      ToPrefixMeans(t.srcIP, x);
      if PrefixContains(sn, bn) && sn.Contains(x) { PrefixSound(sn, bn, x); }
      if PrefixContains(bn, sn) && bn.Contains(x) { PrefixSound(bn, sn, x); }
      if bn.Contains(x) && sn.Contains(x) { NestedOrDisjoint(bn, sn, x); }
    }
  }

  // The staged rule matches exactly the packets that the binding captures
  // and the template matches.
  lemma {:induction false} StagedExact(b: Binding, t: Template, id: string, p: Packet, env: Env)
    requires b.Valid() && t.Valid() && p.Valid() && !Meet(b, t).Conflict?
    ensures var m := Meet(b, t);
            (Captured(b, p, env) && TemplateHolds(t, p, env)) <==>
            (m.Met? && (if p.v6 then m.v6 else m.v4) && Staged(t, m, id, p.v6).Valid()
              && Matches(Staged(t, m, id, p.v6), p, env))
    ensures var m := Meet(b, t); m.Met? && (if p.v6 then m.v6 else m.v4) ==> Staged(t, m, id, p.v6).Valid()
  {
    hide Meet, Captured, AddrHolds, Normal, Widest, Matches;
    if if p.v6 then t.v6 else t.v4 {
      var m := Meet(b, t);
      MeetExact(b, t, p, env);
      BareNeeds(t, p, env);
      if m.Met? && (if p.v6 then m.v6 else m.v4) {
        MetValid(b, t, p);
        CombinedMatches(t, m, id, p, env);
        StagedMatches(t, m, id, p, env);
      }
    } else {
      MetFamilies(b, t);
    }
  }

  lemma MetFamilies(b: Binding, t: Template)
    ensures Meet(b, t).Met? ==> (Meet(b, t).v4 ==> t.v4) && (Meet(b, t).v6 ==> t.v6)
  {
    hide PrefixContains;
  }

  lemma MetValid(b: Binding, t: Template, p: Packet)
    requires b.Valid() && t.Valid() && Meet(b, t).Met? && if p.v6 then Meet(b, t).v6 else Meet(b, t).v4
    ensures var m := Meet(b, t); m.srcIP.Valid() && !m.srcIP.BadAddr? && Width(m.srcIP) in {0, if p.v6 then 16 else 4}
    ensures Width(t.dstIP) in {0, if p.v6 then 16 else 4}
  {
    hide PrefixContains;
  }

  lemma BareNeeds(t: Template, p: Packet, env: Env)
    requires t.Valid() && p.Valid()
    ensures Matches(Bare(t, "", p.v6), p, env) ==> AddrHolds(Bare(t, "", p.v6).src, p.v6, p.Saddr(), env)
  {
    hide AddrHolds, ProtoHolds;
  }

  // Everything but the source and the interface comes from the template.
  lemma CombinedMatches(t: Template, m: Met, id: string, p: Packet, env: Env)
    requires t.Valid() && p.Valid() && m.Met? && m.srcIP.Valid()
    ensures Combined(t, m, id, p.v6).Valid()
    ensures var s := AddrHolds(Bare(t, "", p.v6).src, p.v6, p.Saddr(), env);
            var c := IfaceHolds(m.ifaceIn, p.iif)
                && AddrHolds(AddrSpec(m.srcIP, t.sports, m.srcSet), p.v6, p.Saddr(), env);
            && (Matches(Combined(t, m, id, p.v6), p, env) ==> c)
            && (c && s ==> (Matches(Combined(t, m, id, p.v6), p, env) <==> Matches(Bare(t, "", p.v6), p, env)))
            && (s && !c ==> !Matches(Combined(t, m, id, p.v6), p, env))
  {
    hide IfaceIs, InNamedSet, SamePrefix, Covers, HasIcmpType, Carries, Packet.Saddr, Packet.Daddr, Packet.Sport,
         Packet.Dport;
  }

  lemma StagedMatches(t: Template, m: Met, id: string, p: Packet, env: Env)
    requires t.Valid() && p.Valid() && m.Met? && m.srcIP.Valid() && !m.srcIP.BadAddr?
    requires Width(m.srcIP) in {0, if p.v6 then 16 else 4} && Width(t.dstIP) in {0, if p.v6 then 16 else 4}
    ensures Combined(t, m, id, p.v6).Valid() && Staged(t, m, id, p.v6).Valid()
    ensures Matches(Staged(t, m, id, p.v6), p, env) <==> Matches(Combined(t, m, id, p.v6), p, env)
  {
    hide Matches, CanonAddr, SortPorts, Packet.Saddr, Packet.Daddr;
    var c := Combined(t, m, id, p.v6);
    NormalMatches(c, p, env);
    SaddrWidth(p);
    CanonWidth(c.src);
    CanonWidth(c.dst);
    WidenMatches(Normal(c), p, env);
  }

  // ---- the flat list decides as the zones do ----

  lemma StagedDecides(t: Template, m: Met, id: string, now: int, p: Packet, env: Env)
    requires t.Valid() && p.Valid() && m.Met? && Staged(t, m, id, p.v6).Valid()
    ensures FirstMatch([Staged(t, m, id, p.v6)], Input, now, p, env)
            == When(Matches(Staged(t, m, id, p.v6), p, env), Verdict(t.action))
  {
    hide Matches, Normal, Widest;
    var r := Staged(t, m, id, p.v6);
    assert [r][1..] == [];
    StagedKeeps(t, m, id, p.v6);
  }

  lemma StagedKeeps(t: Template, m: Met, id: string, v6: bool)
    requires m.Met?
    ensures var r := Staged(t, m, id, v6); r.action == t.action && r.direction == In && !r.disabled && r.expiresAt == 0
  {
    hide CanonAddr, SortPorts, Widest;
  }

  lemma {:induction false} TemplateRulesDecide(bs: seq<Binding>, t: Template, id: string, now: int, p: Packet, env: Env)
    requires p.Valid() && t.Valid() && (forall b :: b in bs ==> b.Valid()) && Emittable(bs, t)
    ensures forall r :: r in TemplateRules(bs, t, id, p.v6) ==> r.Valid()
    ensures FirstMatch(TemplateRules(bs, t, id, p.v6), Input, now, p, env)
            == When((exists i :: 0 <= i < |bs| && Captured(bs[i], p, env))
              && TemplateHolds(t, p, env), Verdict(t.action))
  {
    hide Meet, Captured, TemplateHolds, Staged, Matches, Binding.Valid, Template.Valid, Verdict, FirstMatch;
    if bs == [] {
      NoRules(now, p, env);
    } else {
      var init, b := bs[..|bs| - 1], bs[|bs| - 1];
      assert bs == init + [b];
      TemplateRulesDecide(init, t, id, now, p, env);
      StagedExact(b, t, id, p, env);
      var m := Meet(b, t);
      if m.Met? && (if p.v6 then m.v6 else m.v4) {
        StagedDecides(t, m, id, now, p, env);
        FirstMatchAppend(TemplateRules(init, t, id, p.v6), [Staged(t, m, id, p.v6)], Input, now, p, env);
      }
    }
  }

  lemma NoRules(now: int, p: Packet, env: Env)
    requires p.Valid()
    ensures FirstMatch([], Input, now, p, env) == None
  {
  }

  lemma {:induction false} FirstTemplateSnoc(ts: seq<Template>, p: Packet, env: Env)
    requires p.Valid() && ts != [] && forall t :: t in ts ==> t.Valid()
    ensures var n := |ts| - 1;
            && (forall t :: t in ts[..n] ==> t.Valid())
            && FirstTemplate(ts, p, env) ==
            Or(FirstTemplate(ts[..n], p, env), When(TemplateHolds(ts[n], p, env), Verdict(ts[n].action)))
  {
    hide TemplateHolds, Template.Valid;
    if |ts| == 1 {
      assert ts[1..] == [] && ts[..0] == [];
    } else {
      FirstTemplateSnoc(ts[1..], p, env);
      assert ts[1..][..|ts| - 2] == ts[..|ts| - 1][1..];
    }
  }

  lemma {:induction false} ZoneRulesDecide(z: Zone, ts: seq<Template>, id: string, now: int, p: Packet, env: Env)
    requires p.Valid() && z.Valid() && (forall t :: t in ts ==> t.Valid() && Emittable(z.bindings, t))
    ensures forall r :: r in ZoneRules(z, ts, id, p.v6) ==> r.Valid()
    ensures FirstMatch(ZoneRules(z, ts, id, p.v6), Input, now, p, env)
            == if Captures(z, p, env) then FirstTemplate(ts, p, env) else None
  {
    hide Captured, TemplateHolds, TemplateRules, Emittable, FirstMatch, Binding.Valid, Template.Valid, Verdict;
    if ts == [] {
      NoRules(now, p, env);
    } else {
      var n := |ts| - 1;
      ZoneRulesDecide(z, ts[..n], id, now, p, env);
      TemplateRulesDecide(z.bindings, ts[n], id, now, p, env);
      FirstTemplateSnoc(ts, p, env);
      FirstMatchAppend(ZoneRules(z, ts[..n], id, p.v6), TemplateRules(z.bindings, ts[n], id, p.v6), Input, now, p, env);
    }
  }

  // No two zones capture the packet.
  ghost predicate OneZone(zones: seq<Zone>, p: Packet, env: Env)
    requires p.Valid() && forall z :: z in zones ==> z.Valid()
  {
    forall i, j :: 0 <= i < j < |zones| ==> !(Captures(zones[i], p, env) && Captures(zones[j], p, env))
  }

  lemma {:induction false} DispatchSnoc(zones: seq<Zone>, p: Packet, env: Env)
    requires p.Valid() && zones != [] && forall z :: z in zones ==> z.Valid()
    ensures var n := |zones| - 1;
            && (forall z :: z in zones[..n] ==> z.Valid())
            && (OneZone(zones, p, env) ==>
                  Dispatch(zones, p, env) == Or(Dispatch(zones[..n], p, env),
                                                if Captures(zones[n], p, env)
                                                    then FirstTemplate(zones[n].templates, p, env) else None))
    ensures var n := |zones| - 1;
            OneZone(zones, p, env) && Captures(zones[n], p, env) ==> Dispatch(zones[..n], p, env) == None
  {
    hide Captures, FirstTemplate, Zone.Valid;
    if |zones| == 1 {
      assert zones[1..] == [] && zones[..0] == [];
    } else {
      DispatchSnoc(zones[1..], p, env);
      assert zones[1..][..|zones| - 2] == zones[..|zones| - 1][1..];
      assert forall i :: 0 <= i < |zones| - 1 ==> zones[1..][i] == zones[i + 1];
    }
  }

  // For every packet that at most one zone captures, first match over the
  // staged rules is dispatch to that zone and its elements in order.
  lemma {:induction false} FlatIsDispatch(zones: seq<Zone>, id: string, now: int, p: Packet, env: Env)
    requires p.Valid() && (forall z :: z in zones ==> z.Valid() && ZoneEmittable(z)) && OneZone(zones, p, env)
    ensures forall r :: r in FlatRules(zones, id, p.v6) ==> r.Valid()
    ensures FirstMatch(FlatRules(zones, id, p.v6), Input, now, p, env) == Dispatch(zones, p, env)
  {
    hide Captures, FirstTemplate, ZoneRules, FirstMatch, Emittable;
    if zones == [] {
      NoRules(now, p, env);
    } else {
      var n := |zones| - 1;
      var z := zones[n];
      assert zones == zones[..n] + [z];
      assert OneZone(zones[..n], p, env) by { assert forall i :: 0 <= i < n ==> zones[..n][i] == zones[i]; }
      FlatIsDispatch(zones[..n], id, now, p, env);
      ZoneRulesDecide(z, z.templates, id, now, p, env);
      DispatchSnoc(zones, p, env);
      FirstMatchAppend(FlatRules(zones[..n], id, p.v6), ZoneRules(z, z.templates, id, p.v6), Input, now, p, env);
    }
  }

  // ---- accepted layouts ----

  // Some interface name fits both patterns.
  predicate PatternsMeet(a: Name, b: Name)
  {
    if Wildcard(a) then
      if Wildcard(b) then a[..|a| - 1] <= b[..|b| - 1] || b[..|b| - 1] <= a[..|a| - 1] else a[..|a| - 1] <= b
    else if Wildcard(b) then b[..|b| - 1] <= a
    else a == b
  }

  // A name for both patterns that meet: the longer of the two.
  function CommonName(a: Name, b: Name): Name
  {
    var pa, pb := if Wildcard(a) then a[..|a| - 1] else a, if Wildcard(b) then b[..|b| - 1] else b;
    if |pa| >= |pb| then pa else pb
  }

  // Some interface the kernel can have fits both patterns.
  ghost predicate Share(a: Name, b: Name)
  {
    PatternsMeet(a, b) && IfaceName(CommonName(a, b))
  }

  ghost predicate PatternsApart(zones: seq<Zone>)
  {
    forall i, j, k, l :: 0 <= i < j < |zones| && 0 <= k < |zones[i].bindings| && 0 <= l < |zones[j].bindings|
                         && zones[i].bindings[k].Iface? && zones[j].bindings[l].Iface? ==>
                           !Share(zones[i].bindings[k].name, zones[j].bindings[l].name)
  }

  lemma PrefixesOf(a: Name, b: Name, x: Name)
    requires a <= x && b <= x
    ensures a <= b || b <= a
  {
    if |a| <= |b| { assert a == x[..|a|] == b[..|a|]; } else { assert b == x[..|b|] == a[..|b|]; }
  }

  lemma SharedName(a: Name, b: Name, x: Name)
    requires IfaceIs(a, x) && IfaceIs(b, x) && IfaceName(x)
    ensures Share(a, b)
  {
    if Wildcard(a) && Wildcard(b) { PrefixesOf(a[..|a| - 1], b[..|b| - 1], x); }
    var c := CommonName(a, b);
    assert c <= x;
    assert forall i :: 0 <= i < |c| ==> c[i] == x[i];
  }

  // Bindings that do not overlap never capture the same packet, unless
  // both are interface patterns that share a name.
  lemma NoCommonPacket(ba: Binding, bb: Binding, p: Packet, env: Env)
    requires ba.Valid() && bb.Valid() && p.Valid() && !Overlap(ba, bb)
    requires ba.Iface? && bb.Iface? ==> !Share(ba.name, bb.name)
    ensures !(Captured(ba, p, env) && Captured(bb, p, env))
  {
    hide PrefixContains, SamePrefix, InNamedSet, Packet.Saddr, Share, IfaceIs;
    SaddrWidth(p);
    if ba.Iface? && bb.Iface? {
      if Captured(ba, p, env) && Captured(bb, p, env) { SharedName(ba.name, bb.name, p.iif); }
    } else if ba.Source? && bb.Source? && Captured(ba, p, env) && Captured(bb, p, env) {
      ToPrefixMeans(ba.addr, p.Saddr());
      ToPrefixMeans(bb.addr, p.Saddr());
      NestedOrDisjoint(ToPrefix(ba.addr).value, ToPrefix(bb.addr).value, p.Saddr());
    }
  }

  // In an accepted layout, no packet belongs to two zones if no two zones
  // bind interface patterns that share a name.
  lemma {:induction false} AcceptedDisjoint(zones: seq<Zone>, p: Packet, env: Env)
    requires p.Valid() && (forall z :: z in zones ==> z.Valid()) && LayoutAccepted(zones) && PatternsApart(zones)
    ensures OneZone(zones, p, env)
  {
    hide Captured, Overlap, Share, Binding.Valid, Template.Valid;
    forall i, j | 0 <= i < j < |zones| ensures !(Captures(zones[i], p, env) && Captures(zones[j], p, env)) {
      assert zones[i] in zones && zones[j] in zones;
      assert forall k :: 0 <= k < |zones[i].bindings| ==> zones[i].bindings[k].Valid();
      assert forall l :: 0 <= l < |zones[j].bindings| ==> zones[j].bindings[l].Valid();
      forall k, l | 0 <= k < |zones[i].bindings| && 0 <= l < |zones[j].bindings|
        ensures !(Captured(zones[i].bindings[k], p, env) && Captured(zones[j].bindings[l], p, env))
      {
        assert !ZonesOverlap(zones[i], zones[j]);
        NoCommonPacket(zones[i].bindings[k], zones[j].bindings[l], p, env);
      }
    }
  }

  // Two zones that bind patterns with a shared name share a packet.
  lemma {:induction false} MeetingPatternsShare(zones: seq<Zone>, i: nat, j: nat, k: nat, l: nat, env: Env)
    returns (p: Packet)
    requires forall z :: z in zones ==> z.Valid()
    requires i < j < |zones| && k < |zones[i].bindings| && l < |zones[j].bindings|
    requires zones[i].bindings[k].Iface? && zones[j].bindings[l].Iface?
    requires Share(zones[i].bindings[k].name, zones[j].bindings[l].name)
    ensures p.Valid() && !OneZone(zones, p, env)
  {
    hide Binding.Valid, Template.Valid;
    var a, b := zones[i].bindings[k].name, zones[j].bindings[l].name;
    p := Packet(false, CommonName(a, b), [], 0, Zeros(20), [], New, 2, None);
    assert IfaceName([]);
    CommonFits(a, b);
    assert zones[i] in zones && zones[j] in zones;
    assert Captured(zones[i].bindings[k], p, env) && Captured(zones[j].bindings[l], p, env);
    assert Captures(zones[i], p, env) && Captures(zones[j], p, env);
  }

  // An accepted layout puts every packet in at most one zone if and only if
  // no two zones bind patterns that share an interface name.
  lemma {:induction false} DisjointIff(zones: seq<Zone>, env: Env)
    requires (forall z :: z in zones ==> z.Valid()) && LayoutAccepted(zones)
    ensures (forall p: Packet :: p.Valid() ==> OneZone(zones, p, env)) <==> PatternsApart(zones)
  {
    hide LayoutAccepted, OneZone, Share, Zone.Valid;
    if PatternsApart(zones) {
      forall p: Packet | p.Valid() ensures OneZone(zones, p, env) { AcceptedDisjoint(zones, p, env); }
    } else {
      var i, j, k, l :| 0 <= i < j < |zones| && 0 <= k < |zones[i].bindings| && 0 <= l < |zones[j].bindings|
                        && zones[i].bindings[k].Iface? && zones[j].bindings[l].Iface?
                        && Share(zones[i].bindings[k].name, zones[j].bindings[l].name);
      var p := MeetingPatternsShare(zones, i, j, k, l, env);
    }
  }

  // eth+ in one zone and eth0 in another.
  const ETH_ZONES: seq<Zone> := [Zone("a", [Iface([101, 116, 104, 43])], []),
      Zone("b", [Iface([101, 116, 104, 48])], [])]

  // The import accepts this layout, and a packet from eth0 is in both.
  lemma {:induction false} EthZonesShare(env: Env) returns (p: Packet)
    ensures (forall z :: z in ETH_ZONES ==> z.Valid()) && Import(ETH_ZONES, "a", "", false) == Ok([])
    ensures LayoutAccepted(ETH_ZONES) && p.Valid() && !OneZone(ETH_ZONES, p, env)
  {
    hide Share, Import;
    var zs := ETH_ZONES;
    EthImported();
    EthMeets();
    p := MeetingPatternsShare(zs, 0, 1, 0, 0, env);
  }

  lemma EthImported()
    ensures Import(ETH_ZONES, "a", "", false) == Ok([]) && LayoutAccepted(ETH_ZONES)
  {
    hide PrefixContains;
    var zs := ETH_ZONES;
    assert zs[..1] == [zs[0]] && zs[..1][..0] == [];
    assert AnyBound(zs) by { assert zs[0].bindings != []; }
    BoundActive(zs, "a", true);
    assert ZoneRules(zs[0], [], "", false) == [] && ZoneRules(zs[1], [], "", false) == [];
    assert FlatRules(zs[..1], "", false) == [];
  }

  // Bound zones are all active.
  lemma {:induction false} BoundActive(zones: seq<Zone>, default: string, anyBound: bool)
    requires forall i :: 0 <= i < |zones| ==> zones[i].bindings != []
    ensures Active(zones, default, anyBound) == Ok(zones)
  {
    if zones != [] {
      BoundActive(zones[..|zones| - 1], default, anyBound);
      assert zones == zones[..|zones| - 1] + [zones[|zones| - 1]];
    }
  }

  lemma EthMeets()
    ensures Share(ETH_ZONES[0].bindings[0].name, ETH_ZONES[1].bindings[0].name)
  {
    var a, b := ETH_ZONES[0].bindings[0].name, ETH_ZONES[1].bindings[0].name;
    assert a[..3] == [101, 116, 104] && a[..3] <= b;
  }

  lemma CommonFits(a: Name, b: Name)
    requires PatternsMeet(a, b)
    ensures IfaceIs(a, CommonName(a, b)) && IfaceIs(b, CommonName(a, b))
  {
  }

  lemma {:induction false} ActiveValid(zones: seq<Zone>, default: string, anyBound: bool)
    requires (forall z :: z in zones ==> z.Valid()) && Active(zones, default, anyBound).Ok?
    ensures forall z :: z in Active(zones, default, anyBound).value ==> z.Valid()
  {
    hide Binding.Valid, Template.Valid;
    if zones != [] {
      var z := zones[|zones| - 1];
      ActiveValid(zones[..|zones| - 1], default, anyBound);
      assert z in zones;
      assert Everything.Valid() by { EverythingValid(); }
    }
  }

  lemma EverythingValid()
    ensures Everything.Valid()
  {
  }
}
