/** From a pulled decision to a dropped packet: the poller and the compiler
    put together. */
module Protection {
  import opened Bytes
  import opened AddressSets
  import opened Outcomes
  import opened Rules
  import opened Netfilter
  import opened Matching
  import BuiltinChains
  import Compiler
  import T = ThreatBans
  import P = CrowdSecPoller
  import D = Decisions

  // A stored ban as the compiler reads it.
  function Compiled(b: T.ThreatBan): Compiler.Ban
  {
    Compiler.Ban(match b.address
                 case Host(h) => Some(Net(h, 8 * |h|))
                 case Cidr(net) => Some(net)
                 case _ => None, b.expiresAt)
  }

  function CompiledAll(bans: seq<T.ThreatBan>): seq<Compiler.Ban>
  {
    seq(|bans|, i requires 0 <= i < |bans| => Compiled(bans[i]))
  }

  // An unexpired stored ban on the packet's source is in the compiled set.
  lemma StoredBanListed(bans: seq<T.ThreatBan>, b: T.ThreatBan, now: int, a: seq<byte>)
    requires b in bans && b.expiresAt > now && b.address.Valid() && b.address.Contains(a)
    requires b.address.Host? || b.address.Cidr?
    requires ValidSources(Compiler.LiveBans(CompiledAll(bans), now))
    ensures Listed(Compiler.LiveBans(CompiledAll(bans), now), a)
  {
    hide SamePrefix;
    var i :| 0 <= i < |bans| && bans[i] == b;
    var c, live := CompiledAll(bans), Compiler.LiveBans(CompiledAll(bans), now);
    assert c[i] in c && c[i].source in live;
    if b.address.Host? { HostIsFullPrefix(b.address.host, a); }
    var k :| 0 <= k < |live| && live[k] == c[i].source;
    assert live[k].Some? && live[k].value.Contains(a);
  }

  // In every run of the poller: once the pending batch is through, a
  // decision in force that still lasts drops the packets its value speaks
  // of, in whatever state the ruleset is compiled from the stored bans.
  lemma {:induction false} DecisionsDrop(w: P.World, steps: seq<P.Step>, id: int, i: nat, k: nat, env: Env,
      st: Compiler.State, pol: Compiler.Policies, ipv6: bool, now: int, prog: Compiler.Program, h: Hook,
      policy: Decision, depth: nat, p: Packet)
    requires p.Valid() && P.Initial(w) && T.Unique(w.bans) && P.EnabledRun(w, steps) && D.ValidSteps(steps)
    requires var v := P.RunSteps(w, steps);
             && v.pending.None? && !v.startup && v.clock <= now && st.bans == CompiledAll(v.bans)
             && D.StillLasts(v.pulled, id, i, k, now)
             && var d := v.pulled[i].response.added[k];
             && d.value.Valid() && D.Speaks(d.value, p.Saddr())
    requires Compiler.Loaded(env.chains, env.sets, st, pol, ipv6, now, prog) && depth >= 3
    requires h == ForwardHook || (h == Input && p.iif != BuiltinChains.LO)
    requires ValidSources(Compiler.LiveBans(st.bans, now))
             && BelowTop(Compiler.LiveBans(st.bans, now), if p.v6 then 16 else 4)
    ensures RunBase(h, policy, depth, p, env) == Some(Dropped)
  {
    hide Compiler.Loaded, RunBase, P.RunSteps, P.EnabledRun, T.Unique, Compiler.LiveBans, Listed, BelowTop,
         ValidSources, D.InForce, D.Speaks;
    var v := P.RunSteps(w, steps);
    var s := D.PollerSafety(w, steps, id);
    assert D.StillLasts(v.pulled, id, i, k, v.clock);
    var ban :| ban in v.bans && D.StandsFor(ban, v.pulled, id, i, k);
    StoredBanListed(v.bans, ban, now, p.Saddr());
    Compiler.BanDominates(env, st, pol, ipv6, now, prog, h, policy, depth, p);
  }
}
