/** The zone import told on the zones as they are given: where firewalld
    sends a packet, which layouts are taken, and where the import is
    narrower than firewalld. */
module ZoneDispatch {
  import opened Bytes
  import opened AddressSets
  import opened Outcomes
  import opened Rules
  import opened Prefixes
  import opened Netfilter
  import opened Matching
  import opened RuleCompiler
  import opened BuiltinChains
  import opened Compiler
  import opened Normalization
  import opened FirewalldZones

  // ---- firewalld's own dispatch ----

  // The first zone that binds the packet.
  ghost predicate Binds(zones: seq<Zone>, i: nat, p: Packet, env: Env)
    requires p.Valid() && forall z :: z in zones ==> z.Valid()
  {
    && i < |zones| && Captures(zones[i], p, env)
    && forall j :: 0 <= j < i ==> !Captures(zones[j], p, env)
  }

  predicate IsDefault(zones: seq<Zone>, default: string, d: nat)
  {
    && d < |zones| && zones[d].name == default
    && forall j :: 0 <= j < d ==> zones[j].name != default
  }

  // A packet goes to the zone that binds it, and otherwise to the default
  // zone, if there is one.
  ghost predicate GoesTo(zones: seq<Zone>, default: string, i: nat, p: Packet, env: Env)
    requires p.Valid() && forall z :: z in zones ==> z.Valid()
  {
    || Binds(zones, i, p, env)
    || ((forall j :: 0 <= j < |zones| ==> !Captures(zones[j], p, env)) && IsDefault(zones, default, i))
  }

  ghost function ZoneVerdict(zones: seq<Zone>, i: nat, p: Packet, env: Env): Option<Decision>
    requires p.Valid() && (forall z :: z in zones ==> z.Valid()) && i < |zones|
  {
    var z := zones[i];
    assert z in zones && z.Valid();
    FirstTemplate(z.templates, p, env)
  }

  // What the zone's elements make of it.
  ghost predicate Settles(zones: seq<Zone>, default: string, p: Packet, env: Env, d: Option<Decision>)
    requires p.Valid() && forall z :: z in zones ==> z.Valid()
  {
    if exists i: nat :: GoesTo(zones, default, i, p, env) then
      exists i: nat :: GoesTo(zones, default, i, p, env) && ZoneVerdict(zones, i, p, env) == d
    else d == None
  }

  // Some zone is bound, but none to this packet.
  ghost predicate Unclaimed(zones: seq<Zone>, p: Packet, env: Env)
    requires p.Valid() && forall z :: z in zones ==> z.Valid()
  {
    && (exists i :: 0 <= i < |zones| && zones[i].bindings != [])
    && forall j :: 0 <= j < |zones| ==> !Captures(zones[j], p, env)
  }

  // ---- dispatch over the active zones ----

  lemma {:induction false} DispatchFirst(zones: seq<Zone>, p: Packet, env: Env, i: nat)
    requires p.Valid() && (forall z :: z in zones ==> z.Valid()) && Binds(zones, i, p, env)
    ensures Dispatch(zones, p, env) == ZoneVerdict(zones, i, p, env)
  {
    hide Captures, FirstTemplate, Zone.Valid;
    if i > 0 {
      var rest := zones[1..];
      assert forall j :: 0 <= j < |rest| ==> rest[j] == zones[j + 1];
      DispatchFirst(rest, p, env, i - 1);
    }
  }

  lemma {:induction false} DispatchNone(zones: seq<Zone>, p: Packet, env: Env)
    requires p.Valid() && forall z :: z in zones ==> z.Valid()
    requires forall j :: 0 <= j < |zones| ==> !Captures(zones[j], p, env)
    ensures Dispatch(zones, p, env) == None
  {
    hide Captures, FirstTemplate, Zone.Valid;
    if zones != [] {
      var rest := zones[1..];
      assert forall j :: 0 <= j < |rest| ==> rest[j] == zones[j + 1];
      DispatchNone(rest, p, env);
    }
  }

  // Leaving out the unbound zones changes no dispatch.
  lemma {:induction false} BoundDispatch(zones: seq<Zone>, default: string, p: Packet, env: Env)
    requires p.Valid() && (forall z :: z in zones ==> z.Valid()) && Active(zones, default, true).Ok?
    ensures var active := Active(zones, default, true).value;
            && (forall z :: z in active ==> z.Valid() && z in zones)
            && (OneZone(zones, p, env) ==>
                  OneZone(active, p, env) && Dispatch(active, p, env) == Dispatch(zones, p, env))
    ensures forall z :: z in zones && z.bindings != [] ==> z in Active(zones, default, true).value
  {
    hide Captures, FirstTemplate, Zone.Valid, OneZone;
    if zones == [] {
    } else {
      var n := |zones| - 1;
      var init, z := zones[..n], zones[n];
      assert zones == init + [z] && z in zones;
      var before := Active(init, default, true).value;
      BoundDispatch(init, default, p, env);
      if OneZone(zones, p, env) {
        OneZoneInit(zones, p, env);
        DispatchSnoc(zones, p, env);
        if z.bindings == [] {
          NoBinding(z, p, env);
        } else {
          var after := before + [z];
          assert after[..|after| - 1] == before;
          OneZoneSnoc(zones, before, p, env);
          DispatchSnoc(after, p, env);
        }
      }
    }
  }

  lemma NoBinding(z: Zone, p: Packet, env: Env)
    requires p.Valid() && z.Valid() && z.bindings == []
    ensures !Captures(z, p, env)
  {
  }

  lemma OneZoneInit(zones: seq<Zone>, p: Packet, env: Env)
    requires p.Valid() && (forall z :: z in zones ==> z.Valid()) && zones != [] && OneZone(zones, p, env)
    ensures (forall z :: z in zones[..|zones| - 1] ==> z.Valid()) && OneZone(zones[..|zones| - 1], p, env)
  {
    hide Captures, Zone.Valid;
    var init := zones[..|zones| - 1];
    assert forall j :: 0 <= j < |init| ==> init[j] == zones[j];
  }

  lemma OneZoneSnoc(zones: seq<Zone>, before: seq<Zone>, p: Packet, env: Env)
    requires p.Valid() && (forall z :: z in zones ==> z.Valid()) && zones != [] && OneZone(zones, p, env)
    requires (forall z :: z in before ==> z.Valid() && z in zones[..|zones| - 1]) && OneZone(before, p, env)
    ensures (forall z :: z in before + [zones[|zones| - 1]] ==> z.Valid())
    ensures OneZone(before + [zones[|zones| - 1]], p, env)
  {
    hide Captures, Zone.Valid;
    var n := |zones| - 1;
    assert zones[n] in zones;
    var after := before + [zones[n]];
    forall i | 0 <= i < |before| ensures !(Captures(before[i], p, env) && Captures(zones[n], p, env)) {
      assert before[i] in before;
      var k :| 0 <= k < n && zones[..n][k] == before[i];
      assert zones[k] == before[i];
    }
  }

  // ---- which imports are accepted ----

  predicate FitsEverywhere(z: Zone)
  {
    forall i :: 0 <= i < |z.templates| ==> z.templates[i].v4 || z.templates[i].v6
  }

  // With a bound zone, an unbound default zone is refused and the others
  // count if their bindings keep apart and combine with their elements.
  // Without one, the default zone alone counts, for all traffic.
  ghost predicate Accepts(zones: seq<Zone>, default: string)
  {
    if exists i :: 0 <= i < |zones| && zones[i].bindings != [] then
      && (forall i :: 0 <= i < |zones| && zones[i].name == default ==> zones[i].bindings != [])
      && LayoutAccepted(zones) && forall i :: 0 <= i < |zones| ==> ZoneEmittable(zones[i])
    else
      && (forall i, j :: 0 <= i < j < |zones| ==> !(zones[i].name == default && zones[j].name == default))
      && forall i :: 0 <= i < |zones| && zones[i].name == default ==> FitsEverywhere(zones[i])
  }

  lemma LayoutSnoc(zones: seq<Zone>, z: Zone)
    ensures LayoutAccepted(zones + [z]) <==>
            LayoutAccepted(zones) && forall a :: a in zones ==> !ZonesOverlap(a, z)
  {
    hide ZonesOverlap;
    var all := zones + [z];
    assert forall i :: 0 <= i < |zones| ==> all[i] == zones[i];
    assert all[|zones|] == z;
    if LayoutAccepted(all) {
      forall a | a in zones ensures !ZonesOverlap(a, z) {
        var i :| 0 <= i < |zones| && zones[i] == a;
        assert !ZonesOverlap(all[i], all[|zones|]);
      }
      forall i, j | 0 <= i < j < |zones| ensures !ZonesOverlap(zones[i], zones[j]) {
        assert !ZonesOverlap(all[i], all[j]);
      }
    }
  }

  // With bound zones around, the active zones are the bound ones.
  lemma {:induction false} BoundActive(zones: seq<Zone>, default: string)
    ensures var r := Active(zones, default, true);
            && (r.Ok? <==> forall i :: 0 <= i < |zones| && zones[i].name == default ==> zones[i].bindings != [])
            && (r.Ok? ==> && (LayoutAccepted(r.value) <==> LayoutAccepted(zones))
                          && (forall z :: z in r.value <==> z in zones && z.bindings != []))
  {
    hide Overlap, LayoutAccepted;
    if zones == [] {
      assert LayoutAccepted([]) by { NoLayout(); }
    } else {
      var n := |zones| - 1;
      var init, z := zones[..n], zones[n];
      assert zones == init + [z];
      BoundActive(init, default);
      LayoutSnoc(init, z);
      var before := Active(init, default, true);
      if before.Ok? && z.bindings == [] { NoOverlap(init, z); }
      if before.Ok? && z.bindings != [] {
        LayoutSnoc(before.value, z);
        forall a | a in init && a.bindings == [] ensures !ZonesOverlap(a, z) {}
      }
      assert forall i :: 0 <= i < n ==> init[i] == zones[i];
    }
  }

  lemma NoLayout()
    ensures LayoutAccepted([])
  {
  }

  lemma NoOverlap(zones: seq<Zone>, z: Zone)
    requires z.bindings == []
    ensures forall a :: a in zones ==> !ZonesOverlap(a, z)
  {
  }

  function Unbounded(z: Zone): Zone { z.(bindings := [Everything]) }

  // Without bound zones, the default zones are active for all traffic.
  lemma {:induction false} DefaultActive(zones: seq<Zone>, default: string)
    requires forall i :: 0 <= i < |zones| ==> zones[i].bindings == []
    ensures var r := Active(zones, default, false);
            && r.Ok? && (forall a :: a in r.value ==> a.bindings == [Everything])
            && (forall i :: 0 <= i < |zones| && zones[i].name == default ==> Unbounded(zones[i]) in r.value)
            && (r.value == [] <==> forall i :: 0 <= i < |zones| ==> zones[i].name != default)
            && (|r.value| <= 1 <==>
                forall i, j :: 0 <= i < j < |zones| ==> !(zones[i].name == default && zones[j].name == default))
            && (|r.value| == 1 ==> exists d: nat :: IsDefault(zones, default, d) && r.value == [Unbounded(zones[d])])
  {
    if zones != [] {
      var n := |zones| - 1;
      var init, z := zones[..n], zones[n];
      assert zones == init + [z];
      assert forall i :: 0 <= i < n ==> init[i] == zones[i];
      DefaultActive(init, default);
      var before := Active(init, default, false).value;
      if z.name != default {
        if |before| == 1 {
          var d: nat :| IsDefault(init, default, d) && before == [Unbounded(init[d])];
          assert IsDefault(zones, default, d);
        }
      } else {
        if before == [] { assert IsDefault(zones, default, n); }
        if before != [] {
          var i :| 0 <= i < n && init[i].name == default;
          assert zones[i].name == default && zones[n].name == default;
        }
      }
    }
  }

  lemma UnboundedLayout(active: seq<Zone>)
    requires forall a :: a in active ==> a.bindings == [Everything]
    ensures LayoutAccepted(active) <==> |active| <= 1
  {
    if |active| > 1 {
      assert active[0] in active && active[1] in active;
      assert Overlap(active[0].bindings[0], active[1].bindings[0]);
      assert ZonesOverlap(active[0], active[1]);
    }
  }

  lemma UnboundedEmits(z: Zone)
    ensures ZoneEmittable(Unbounded(z)) <==> FitsEverywhere(z)
  {
    forall i | 0 <= i < |z.templates|
      ensures Emittable([Everything], z.templates[i]) <==> z.templates[i].v4 || z.templates[i].v6
    {
      assert [Everything][0] == Everything;
      if Emittable([Everything], z.templates[i]) { assert !Meet([Everything][0], z.templates[i]).Conflict?; }
    }
  }

  lemma UnboundEmits(z: Zone)
    requires z.bindings == []
    ensures ZoneEmittable(z)
  {
  }

  // The import succeeds exactly on these layouts.
  lemma {:induction false} AcceptedIff(zones: seq<Zone>, default: string, id: string, v6: bool)
    ensures Import(zones, default, id, v6).Ok? <==> Accepts(zones, default)
  {
    hide Active, LayoutAccepted, ZoneEmittable, FlatRules, FitsEverywhere;
    var active := Active(zones, default, AnyBound(zones));
    if AnyBound(zones) {
      BoundActive(zones, default);
      if active.Ok? { EmitsAlike(zones, active.value); }
    } else {
      DefaultActive(zones, default);
      UnboundedLayout(active.value);
      if |active.value| == 1 {
        var d: nat :| IsDefault(zones, default, d) && active.value == [Unbounded(zones[d])];
        UnboundedEmits(zones[d]);
        assert forall i :: 0 <= i < |zones| && zones[i].name == default ==> i == d;
      }
    }
  }

  lemma EmitsAlike(zones: seq<Zone>, active: seq<Zone>)
    requires forall z :: z in active <==> z in zones && z.bindings != []
    ensures (exists i :: 0 <= i < |active| && !ZoneEmittable(active[i])) <==>
            (exists i :: 0 <= i < |zones| && !ZoneEmittable(zones[i]))
  {
    hide ZoneEmittable;
    if exists i :: 0 <= i < |active| && !ZoneEmittable(active[i]) {
      var i :| 0 <= i < |active| && !ZoneEmittable(active[i]);
      assert active[i] in active;
      var j :| 0 <= j < |zones| && zones[j] == active[i];
      assert !ZoneEmittable(zones[j]);
    }
    if exists i :: 0 <= i < |zones| && !ZoneEmittable(zones[i]) {
      var i :| 0 <= i < |zones| && !ZoneEmittable(zones[i]);
      if zones[i].bindings == [] { UnboundEmits(zones[i]); }
      assert zones[i] in active;
      var j :| 0 <= j < |active| && active[j] == zones[i];
      assert !ZoneEmittable(active[j]);
    }
  }

  // ---- what an accepted import decides ----

  // For every accepted import of zones whose interface patterns keep apart:
  // a packet some zone binds, and every packet when no zone is bound, is
  // decided as its zone's elements decide; a packet no zone binds while
  // some zone is bound is left to the policy.
  lemma {:induction false} ImportIsDispatch(zones: seq<Zone>, default: string, id: string, now: int, p: Packet,
      env: Env)
    requires p.Valid() && (forall z :: z in zones ==> z.Valid()) && PatternsApart(zones)
    requires Import(zones, default, id, p.v6).Ok?
    ensures forall r :: r in Import(zones, default, id, p.v6).value ==> r.Valid()
    ensures var d := FirstMatch(Import(zones, default, id, p.v6).value, Input, now, p, env);
            if Unclaimed(zones, p, env) then d == None else Settles(zones, default, p, env, d)
  {
    hide Active, LayoutAccepted, PatternsApart, ZoneEmittable, FlatRules, FirstMatch, Dispatch, OneZone, Zone.Valid,
         Captures, Settles, FirstTemplate;
    AcceptedIff(zones, default, id, p.v6);
    var active := Active(zones, default, AnyBound(zones)).value;
    ActiveValid(zones, default, AnyBound(zones));
    if AnyBound(zones) {
      BoundActive(zones, default);
      AcceptedDisjoint(zones, p, env);
      BoundDispatch(zones, default, p, env);
      FlatIsDispatch(active, id, now, p, env);
      BoundSettles(zones, default, p, env);
    } else {
      DefaultActive(zones, default);
      UnboundedLayout(active);
      OneAtMost(active, p, env);
      FlatIsDispatch(active, id, now, p, env);
      UnboundSettles(zones, default, active, p, env);
    }
  }

  lemma OneAtMost(active: seq<Zone>, p: Packet, env: Env)
    requires p.Valid() && (forall z :: z in active ==> z.Valid()) && |active| <= 1
    ensures OneZone(active, p, env)
  {
  }

  lemma BoundSettles(zones: seq<Zone>, default: string, p: Packet, env: Env)
    requires p.Valid() && (forall z :: z in zones ==> z.Valid()) && AnyBound(zones)
    ensures if Unclaimed(zones, p, env) then Dispatch(zones, p, env) == None
            else Settles(zones, default, p, env, Dispatch(zones, p, env))
  {
    hide Captures, FirstTemplate, Zone.Valid, Dispatch;
    if forall j :: 0 <= j < |zones| ==> !Captures(zones[j], p, env) {
      DispatchNone(zones, p, env);
    } else {
      var k :| 0 <= k < |zones| && Captures(zones[k], p, env);
      var i := FirstBinding(zones, p, env, k);
      DispatchFirst(zones, p, env, i);
      assert GoesTo(zones, default, i, p, env);
    }
  }

  lemma FirstBinding(zones: seq<Zone>, p: Packet, env: Env, k: nat) returns (i: nat)
    requires p.Valid() && (forall z :: z in zones ==> z.Valid()) && k < |zones| && Captures(zones[k], p, env)
    ensures Binds(zones, i, p, env)
    decreases k
  {
    hide Captures, Zone.Valid;
    if j: nat :| j < k && Captures(zones[j], p, env) {
      i := FirstBinding(zones, p, env, j);
    } else {
      i := k;
    }
  }

  lemma UnboundSettles(zones: seq<Zone>, default: string, active: seq<Zone>, p: Packet, env: Env)
    requires p.Valid() && (forall z :: z in zones ==> z.Valid()) && (forall z :: z in active ==> z.Valid())
    requires forall i :: 0 <= i < |zones| ==> zones[i].bindings == []
    requires |active| <= 1 && (active == [] <==> forall i :: 0 <= i < |zones| ==> zones[i].name != default)
    requires |active| == 1 ==> exists d: nat :: IsDefault(zones, default, d) && active == [Unbounded(zones[d])]
    ensures !Unclaimed(zones, p, env) && Settles(zones, default, p, env, Dispatch(active, p, env))
  {
    hide Captures, FirstTemplate, Zone.Valid;
    forall j | 0 <= j < |zones| ensures !Captures(zones[j], p, env) {
      assert zones[j] in zones;
      NoBinding(zones[j], p, env);
    }
    if |active| == 1 {
      var d: nat :| IsDefault(zones, default, d) && active == [Unbounded(zones[d])];
      assert GoesTo(zones, default, d, p, env);
      assert active[0] in active;
      AllCaptured(active[0], p, env);
      assert Dispatch(active, p, env) == ZoneVerdict(zones, d, p, env);
    } else {
      assert Dispatch(active, p, env) == None;
      assert forall i: nat :: !GoesTo(zones, default, i, p, env);
    }
  }

  lemma AllCaptured(z: Zone, p: Packet, env: Env)
    requires p.Valid() && z.Valid() && z.bindings == [Everything]
    ensures Captures(z, p, env)
  {
    assert Captured(z.bindings[0], p, env);
  }

  // The import decides as firewalld does unless some zone is bound, none to
  // the packet, and the default zone's elements decide it.
  lemma {:induction false} FirewalldIff(zones: seq<Zone>, default: string, id: string, now: int, p: Packet, env: Env)
    requires p.Valid() && (forall z :: z in zones ==> z.Valid()) && PatternsApart(zones)
    requires Import(zones, default, id, p.v6).Ok?
    requires forall r :: r in Import(zones, default, id, p.v6).value ==> r.Valid()
    ensures Settles(zones, default, p, env, FirstMatch(Import(zones, default, id, p.v6).value, Input, now, p, env)) <==>
            !(Unclaimed(zones, p, env)
              && exists d: nat :: IsDefault(zones, default, d) && ZoneVerdict(zones, d, p, env).Some?)
  {
    hide Import, PatternsApart, FirstMatch, Zone.Valid, Captures, FirstTemplate;
    ImportIsDispatch(zones, default, id, now, p, env);
    if Unclaimed(zones, p, env) {
      assert forall i: nat :: GoesTo(zones, default, i, p, env) <==> IsDefault(zones, default, i);
    }
  }

  // "public", bound to eth0 and the default zone, allows everything.
  const PUBLIC: string := "public"
  const ALLOW_ALL: Template := Template(Allow, LogNone, NoProto, None, [], [], NoAddr, "", NoAddr, "", true, true, "")
  const PUBLIC_ZONES: seq<Zone> := [Zone(PUBLIC, [Iface([101, 116, 104, 48])], [ALLOW_ALL])]

  // A packet from eth1: firewalld sends it to the default zone and accepts
  // it; the import is taken and leaves it to the policy.
  lemma {:induction false} DefaultZoneNarrowed(now: int, env: Env) returns (p: Packet)
    ensures p.Valid() && (forall z :: z in PUBLIC_ZONES ==> z.Valid()) && PatternsApart(PUBLIC_ZONES)
    ensures Settles(PUBLIC_ZONES, PUBLIC, p, env, Some(Accepted))
    ensures Import(PUBLIC_ZONES, PUBLIC, "", p.v6).Ok?
    ensures (forall r :: r in Import(PUBLIC_ZONES, PUBLIC, "", p.v6).value ==> r.Valid())
            && FirstMatch(Import(PUBLIC_ZONES, PUBLIC, "", p.v6).value, Input, now, p, env) == None
  {
    hide Import, FirstMatch;
    var zs := PUBLIC_ZONES;
    p := Packet(false, [101, 116, 104, 49], [], 0, Zeros(20), [], New, 2, None);
    assert IfaceName([]);
    assert zs[0].bindings != [];
    PublicAccepted();
    AcceptedIff(zs, PUBLIC, "", p.v6);
    AllowsAll(p, env);
    assert zs[0].templates[0] == ALLOW_ALL && zs[0].templates[1..] == [];
    assert !Captured(zs[0].bindings[0], p, env);
    assert GoesTo(zs, PUBLIC, 0, p, env);
    ImportIsDispatch(zs, PUBLIC, "", now, p, env);
  }

  lemma PublicAccepted()
    ensures Accepts(PUBLIC_ZONES, PUBLIC)
  {
    assert PUBLIC_ZONES[0].bindings != [];
  }

  lemma AllowsAll(p: Packet, env: Env)
    requires p.Valid()
    ensures TemplateHolds(ALLOW_ALL, p, env)
  {
    hide Packet.Saddr, Packet.Daddr;
  }

  // ---- elements and bindings on their fields ----

  ghost predicate EndHolds(ip: Addr, setName: string, v6: bool, a: seq<byte>, env: Env)
    requires ip.Valid()
  {
    if setName != "" then InNamedSet(env, setName, v6, a) else ip == NoAddr || ip.Contains(a)
  }

  ghost predicate PortsHold(t: Template, q: Proto, p: Packet)
    requires p.Valid()
  {
    Carries(p, q) && Covers(t.sports, q, p.Sport()) && Covers(t.dports, q, p.Dport())
  }

  // An element holds of the packets of its families, addresses, ICMP type,
  // protocol and ports; ports without a protocol are those of TCP and UDP.
  lemma {:induction false} TemplateMeans(t: Template, p: Packet, env: Env)
    requires t.Valid() && p.Valid()
    ensures TemplateHolds(t, p, env) <==>
            && (if p.v6 then t.v6 else t.v4)
            && EndHolds(t.srcIP, t.srcSet, p.v6, p.Saddr(), env) && EndHolds(t.dstIP, t.dstSet, p.v6, p.Daddr(), env)
            && (t.icmpType.Some? ==> HasIcmpType(p, t.icmpType.value))
            && if t.proto == Tcp || t.proto == Udp then PortsHold(t, t.proto, p)
               else if t.sports == [] && t.dports == [] then t.proto == NoProto || Carries(p, t.proto)
               else (t.proto == NoProto || t.proto == AnyProto) && (PortsHold(t, Tcp, p) || PortsHold(t, Udp, p))
  {
    hide Packet.Saddr, Packet.Daddr, Packet.Sport, Packet.Dport, InNamedSet, SamePrefix, HasIcmpType, Covers;
  }

  // What a rule made of an element keeps of it.
  lemma {:induction false} StagedFields(t: Template, m: Met, id: string, v6: bool)
    requires m.Met?
    ensures var r := Staged(t, m, id, v6);
            && r.id == id && r.action == t.action && r.log == t.log && r.comment == t.comment && r.v6 == v6
            && r.direction == In && !r.disabled && r.expiresAt == 0
  {
    hide CanonAddr, SortPorts, Widest;
  }

  // Some address lies in both.
  ghost predicate Meets(a: Addr, b: Addr)
    requires a.Valid() && b.Valid()
  {
    exists x :: a.Contains(x) && b.Contains(x)
  }

  lemma MeetsIff(a: Addr, b: Addr)
    requires a.Valid() && b.Valid() && (a.Host? || a.Cidr?) && (b.Host? || b.Cidr?)
    ensures var an, bn := ToPrefix(a), ToPrefix(b);
            && an.Some? && bn.Some? && an.value.Valid() && bn.value.Valid()
            && (Meets(a, b) <==> PrefixContains(an.value, bn.value) || PrefixContains(bn.value, an.value))
  {
    hide SamePrefix, PrefixContains;
    var an, bn := ToPrefix(a).value, ToPrefix(b).value;
    forall x ensures (an.Contains(x) <==> a.Contains(x)) && (bn.Contains(x) <==> b.Contains(x)) {
      ToPrefixMeans(a, x);
      ToPrefixMeans(b, x);
    }
    ToPrefixMeans(a, []);
    ToPrefixMeans(b, []);
    if Meets(a, b) {
      var x :| a.Contains(x) && b.Contains(x);
      NestedOrDisjoint(an, bn, x);
    }
    if PrefixContains(an, bn) {
      OwnPrefix(an);
      PrefixSound(an, bn, an.addr);
    }
    if PrefixContains(bn, an) {
      OwnPrefix(bn);
      PrefixSound(bn, an, bn.addr);
    }
  }

  predicate BothFamilies(b: Binding) { b.Iface? || b.Everything? }

  function BindingV6(b: Binding): bool { if b.Source? then Width(b.addr) == 16 else b.SetSource? && b.v6 }

  predicate ShareFamily(a: Binding, b: Binding)
  {
    BothFamilies(a) || BothFamilies(b) || BindingV6(a) == BindingV6(b)
  }

  // Bindings of two zones clash when they name one interface, mix
  // interfaces with sources, or are sources of one family that share an
  // address or name a set.
  lemma {:induction false} OverlapMeans(a: Binding, b: Binding)
    requires a.Valid() && b.Valid()
    ensures Overlap(a, b) <==>
            if a.Iface? || b.Iface? then !(a.Iface? && b.Iface?) || a.name == b.name
            else ShareFamily(a, b) && (a.Source? && b.Source? ==> Meets(a.addr, b.addr))
  {
    hide PrefixContains, Meets;
    if a.Source? && b.Source? { MeetsIff(a.addr, b.addr); }
  }

  // A binding and an element do not combine when one names a set and the
  // other a different source, or when no family is left; sources without a
  // common address give no rule instead.
  lemma {:induction false} ConflictMeans(b: Binding, t: Template)
    requires b.Valid() && t.Valid()
    ensures var family := (t.v4 && (BothFamilies(b) || !BindingV6(b))) || (t.v6 && (BothFamilies(b) || BindingV6(b)));
            && (Meet(b, t).Conflict? <==>
                match b
                case Iface(_) => !family
                case Everything => !family
                case Source(a) => t.srcSet != "" || ((t.srcIP == NoAddr || Meets(a, t.srcIP)) && !family)
                case SetSource(name, _) => t.srcIP != NoAddr || t.srcSet !in {"", name} || !family)
            && (Meet(b, t).Dead? <==> b.Source? && t.srcSet == "" && t.srcIP != NoAddr && !Meets(b.addr, t.srcIP))
  {
    hide PrefixContains, Meets;
    if b.Source? && t.srcIP != NoAddr { MeetsIff(b.addr, t.srcIP); }
  }
}
