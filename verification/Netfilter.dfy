/** The part of the nftables virtual machine that the compiled ruleset runs
    on: expressions over registers, rules, and chains with jumps. */
module Netfilter {
  import opened Bytes
  import opened AddressSets
  import opened Outcomes

  // ---- packets ----

  datatype CtState = Invalid | Established | Related | New | Untracked

  // A packet at a filter hook. nh and th are the network and transport
  // headers as bytes; an interface name is empty when there is none.
  datatype Packet = Packet(
    v6: bool, iif: seq<byte>, oif: seq<byte>, l4: byte, nh: seq<byte>, th: seq<byte>,
    ct: CtState, fib: byte, rtType: Option<byte>)
  {
    ghost predicate Valid() {
      && |nh| >= (if v6 then 40 else 20)
      && IfaceName(iif) && IfaceName(oif)
    }

    function Saddr(): seq<byte>
      requires |nh| >= (if v6 then 40 else 20)
    {
      if v6 then nh[8..24] else nh[12..16]
    }

    function Daddr(): seq<byte>
      requires |nh| >= (if v6 then 40 else 20)
    {
      if v6 then nh[24..40] else nh[16..20]
    }

    function Sport(): Option<uint16> {
      if |th| >= 2 then Some(BigEndian16(th[0], th[1])) else None
    }

    function Dport(): Option<uint16> {
      if |th| >= 4 then Some(BigEndian16(th[2], th[3])) else None
    }
  }

  // IFNAMSIZ is 16 including the terminating zero.
  ghost predicate IfaceName(name: seq<byte>)
  {
    |name| <= 15 && forall i :: 0 <= i < |name| ==> name[i] != 0
  }

  function CtBits(ct: CtState): byte
  {
    match ct
    case Invalid => 1
    case Established => 2
    case Related => 4
    case New => 8
    case Untracked => 64
  }

  // ---- rulesets ----

  datatype Hook = Input | Output | ForwardHook

  datatype Chain = Base(hook: Hook) | BeforeLogging(hook: Hook) | Before(hook: Hook) | User(hook: Hook)
                 | After(hook: Hook) | AfterLogging(hook: Hook) | UserLogging(hook: Hook)
                 | RejectChain(hook: Hook) | Track(hook: Hook) | SkipToPolicy(hook: Hook)
                 | NotLocal | LogDeny | LogAllow | UserLimit | UserLimitAccept | UserEgress

  // Set names with the parts that vary: the key of a user set is its name,
  // with a trailing 6 for the IPv6 half.
  datatype SetName = ThreatBans(v6: bool) | UserSet(key: string) | Meter(key: string) | Anonymous(id: nat)

  datatype SetBody = SetBody(interval: bool, elems: seq<Element>)
  {
    ghost predicate Has(key: seq<byte>) {
      if interval then InSet(elems, key) else exists e :: e in elems && e.key == key
    }
  }

  datatype Verdict = Accept | Drop | RejectWith | Return | Jump(target: Chain)

  datatype Key = Nfproto | L4Proto | Iifname | Oifname | ConntrackState | FibDaddrType | RoutingType

  datatype Header = NetworkHeader | TransportHeader

  datatype Expr =
    | Load(reg: nat, key: Key)
    | Payload(reg: nat, header: Header, offset: nat, len: nat)
    | Immediate(reg: nat, data: seq<byte>)
    | Bitwise(reg: nat, mask: seq<byte>)
    | Cmp(reg: nat, eq: bool, data: seq<byte>)
    | InRange(reg: nat, from: seq<byte>, to: seq<byte>)
    | Lookup(reg: nat, name: SetName)
    | Dynset(reg: nat, name: SetName)
    | RateLimit(perMinute: nat, burst: nat)
    | LogPrefix(prefix: string)
    | Counter
    | Verdict(verdict: Verdict)

  type NftRule = seq<Expr>

  type Regs = map<nat, seq<byte>>

  // A loaded ruleset and what the kernel answers at run time: over says
  // whether the meter of a limit rule is exceeded, and limit(t) whether the
  // t-th rate limit evaluated for this packet lets it through.
  datatype Env = Env(chains: map<Chain, seq<NftRule>>, sets: map<SetName, SetBody>,
                     over: SetName -> bool, limit: nat -> bool)

  // ---- rules ----

  // The state of a rule after some of its expressions: the rule does not
  // apply, goes on with these registers, or reached a verdict. t counts the
  // rate limits consulted so far.
  datatype Flow = Break(t: nat) | Go(regs: Regs, t: nat) | Stop(verdict: Verdict, t: nat)

  function PadName(name: seq<byte>): (r: seq<byte>)
    ensures |r| == 16
  {
    seq(16, i requires 0 <= i => if i < |name| then name[i] else 0)
  }

  // What a load leaves in its register; None breaks the rule.
  function LoadValue(key: Key, p: Packet): Option<seq<byte>>
  {
    match key
    case Nfproto => Some([if p.v6 then 10 else 2])
    case L4Proto => Some([p.l4])
    case Iifname => Some(PadName(p.iif))
    case Oifname => Some(PadName(p.oif))
    case ConntrackState => Some([CtBits(p.ct), 0, 0, 0])
    case FibDaddrType => Some([p.fib, 0, 0, 0])
    case RoutingType => if p.v6 && p.rtType.Some? then Some([p.rtType.value]) else None
  }

  function HeaderBytes(header: Header, p: Packet): seq<byte>
  {
    if header == NetworkHeader then p.nh else p.th
  }

  ghost function Exec(e: Expr, p: Packet, env: Env, regs: Regs, t: nat): Flow
  {
    match e
    case Load(reg, key) =>
      var v := LoadValue(key, p);
      if v.Some? then Go(regs[reg := v.value], t) else Break(t)
    case Payload(reg, header, offset, len) =>
      var h := HeaderBytes(header, p);
      if offset + len <= |h| then Go(regs[reg := h[offset..offset + len]], t) else Break(t)
    case Immediate(reg, data) =>
      Go(regs[reg := data], t)
    case Bitwise(reg, mask) =>
      if reg in regs && |regs[reg]| == |mask| then Go(regs[reg := Mask(regs[reg], mask)], t) else Break(t)
    case Cmp(reg, eq, data) =>
      if reg in regs && |data| <= |regs[reg]| && (regs[reg][..|data|] == data) == eq then Go(regs, t) else Break(t)
    case InRange(reg, from, to) =>
      if reg in regs && |from| == |regs[reg]| == |to| && Val(from) <= Val(regs[reg]) <= Val(to)
      then Go(regs, t) else Break(t)
    case Lookup(reg, name) =>
      if reg in regs && name in env.sets && env.sets[name].Has(regs[reg]) then Go(regs, t) else Break(t)
    case Dynset(reg, name) =>
      if reg in regs && name in env.sets && env.over(name) then Go(regs, t) else Break(t)
    case RateLimit(_, _) =>
      if env.limit(t) then Go(regs, t + 1) else Break(t + 1)
    case LogPrefix(_) => Go(regs, t)
    case Counter => Go(regs, t)
    case Verdict(v) => Stop(v, t)
  }

  ghost function RunExprs(es: NftRule, p: Packet, env: Env, regs: Regs, t: nat): Flow
  {
    if es == [] then Go(regs, t)
    else
      match Exec(es[0], p, env, regs, t)
      case Go(regs', t') => RunExprs(es[1..], p, env, regs', t')
      case other => other
  }

  lemma RunTwo(a: Expr, b: Expr, p: Packet, env: Env, regs: Regs, t: nat)
    ensures RunExprs([a, b], p, env, regs, t) ==
            match Exec(a, p, env, regs, t)
            case Go(regs', t') => Exec(b, p, env, regs', t')
            case other => other
  {
    hide Exec;
    assert [a, b][1..] == [b] && [b][1..] == [];
    match Exec(a, p, env, regs, t)
    case Go(regs', t') => assert RunExprs([b], p, env, regs', t') == Exec(b, p, env, regs', t');
    case other =>
  }

  lemma RunThree(a: Expr, b: Expr, c: Expr, p: Packet, env: Env, regs: Regs, t: nat)
    ensures RunExprs([a, b, c], p, env, regs, t) ==
            match Exec(a, p, env, regs, t)
            case Go(regs', t') => RunExprs([b, c], p, env, regs', t')
            case other => other
  {
    hide Exec;
    assert [a, b, c][1..] == [b, c];
  }

  lemma {:induction false} RunExprsAppend(a: NftRule, b: NftRule, p: Packet, env: Env, regs: Regs, t: nat)
    ensures RunExprs(a + b, p, env, regs, t) ==
            match RunExprs(a, p, env, regs, t)
            case Go(regs', t') => RunExprs(b, p, env, regs', t')
            case other => other
  {
    hide Exec;
    if a == [] {
      assert a + b == b;
    } else {
      assert (a + b)[1..] == a[1..] + b;
      match Exec(a[0], p, env, regs, t)
      case Go(regs', t') => RunExprsAppend(a[1..], b, p, env, regs', t');
      case other =>
    }
  }

  // ---- chains ----

  datatype Decision = Accepted | Dropped | Rejected

  // How a chain ends: off its end, by a return, with a decision, or stuck on
  // a jump that has no target or no room on the jump stack.
  datatype Outcome = Fell(t: nat) | Returned(t: nat) | Decided(decision: Decision, t: nat) | Stuck(t: nat)

  ghost function RunChain(rules: seq<NftRule>, depth: nat, p: Packet, env: Env, t: nat): Outcome
    decreases depth, |rules|
  {
    if rules == [] then Fell(t)
    else
      match RunExprs(rules[0], p, env, map[], t)
      case Break(t') => RunChain(rules[1..], depth, p, env, t')
      case Go(_, t') => RunChain(rules[1..], depth, p, env, t')
      case Stop(v, t') =>
        match v
        case Accept => Decided(Accepted, t')
        case Drop => Decided(Dropped, t')
        case RejectWith => Decided(Rejected, t')
        case Return => Returned(t')
        case Jump(c) =>
          if c !in env.chains || depth == 0 then Stuck(t')
          else
            var o := RunChain(env.chains[c], depth - 1, p, env, t');
            if o.Fell? || o.Returned? then RunChain(rules[1..], depth, p, env, o.t) else o
  }

  lemma {:induction false} RunChainAppend(a: seq<NftRule>, b: seq<NftRule>, depth: nat, p: Packet, env: Env, t: nat)
    ensures var o := RunChain(a, depth, p, env, t);
            RunChain(a + b, depth, p, env, t) == if o.Fell? then RunChain(b, depth, p, env, o.t) else o
    decreases |a|
  {
    hide RunExprs;
    if a == [] {
      assert a + b == b;
    } else {
      assert (a + b)[0] == a[0] && (a + b)[1..] == a[1..] + b;
      match RunExprs(a[0], p, env, map[], t)
      case Break(t') => RunChainAppend(a[1..], b, depth, p, env, t');
      case Go(_, t') => RunChainAppend(a[1..], b, depth, p, env, t');
      case Stop(v, t') =>
        if v.Jump? && v.target in env.chains && depth > 0 {
          var o := RunChain(env.chains[v.target], depth - 1, p, env, t');
          RunChainAppend(a[1..], b, depth, p, env, o.t);
        }
    }
  }

  // A filter base chain: its rules, then its policy.
  ghost function RunBase(hook: Hook, policy: Decision, depth: nat, p: Packet, env: Env): Option<Decision>
    requires Base(hook) in env.chains
  {
    match RunChain(env.chains[Base(hook)], depth, p, env, 0)
    case Fell(_) => Some(policy)
    case Returned(_) => Some(policy)
    case Decided(d, _) => Some(d)
    case Stuck(_) => None
  }

  // ---- jump graphs ----

  // Every jump in the rules goes to an existing chain of smaller rank.
  ghost predicate JumpsBelow(rules: seq<NftRule>, chains: map<Chain, seq<NftRule>>, rank: Chain -> nat, bound: nat)
  {
    forall i, j :: 0 <= i < |rules| && 0 <= j < |rules[i]| && rules[i][j].Verdict? && rules[i][j].verdict.Jump? ==>
      rules[i][j].verdict.target in chains && rank(rules[i][j].verdict.target) < bound
  }

  // The jump graph is closed and acyclic.
  ghost predicate Ranked(chains: map<Chain, seq<NftRule>>, rank: Chain -> nat)
  {
    forall c :: c in chains ==> JumpsBelow(chains[c], chains, rank, rank(c))
  }

  lemma {:induction false} StopsAtVerdict(es: NftRule, p: Packet, env: Env, regs: Regs, t: nat) returns (j: nat)
    requires RunExprs(es, p, env, regs, t).Stop?
    ensures j < |es| && es[j].Verdict? && es[j].verdict == RunExprs(es, p, env, regs, t).verdict
  {
    var f := Exec(es[0], p, env, regs, t);
    if f.Go? {
      var i := StopsAtVerdict(es[1..], p, env, f.regs, f.t);
      j := i + 1;
    } else {
      j := 0;
    }
  }

  // On a ranked jump graph evaluation never gets stuck, and any stack
  // deeper than the rank gives the same outcome.
  lemma {:induction false} RankedRuns(rules: seq<NftRule>, rank: Chain -> nat, bound: nat, depth: nat, p: Packet,
      env: Env, t: nat)
    requires Ranked(env.chains, rank) && JumpsBelow(rules, env.chains, rank, bound) && bound <= depth
    ensures !RunChain(rules, depth, p, env, t).Stuck?
    ensures RunChain(rules, depth, p, env, t) == RunChain(rules, bound, p, env, t)
    decreases depth, |rules|
  {
    if rules == [] { return; }
    hide RunExprs;
    var f := RunExprs(rules[0], p, env, map[], t);
    assert JumpsBelow(rules[1..], env.chains, rank, bound) by {
      assert forall i :: 0 <= i < |rules[1..]| ==> rules[1..][i] == rules[i + 1];
    }
    if !f.Stop? {
      RankedRuns(rules[1..], rank, bound, depth, p, env, f.t);
    } else if f.verdict.Jump? {
      var j := StopsAtVerdict(rules[0], p, env, map[], t);
      var c := f.verdict.target;
      assert c in env.chains && rank(c) < bound;
      RankedRuns(env.chains[c], rank, rank(c), depth - 1, p, env, f.t);
      RankedRuns(env.chains[c], rank, rank(c), bound - 1, p, env, f.t);
      var o := RunChain(env.chains[c], depth - 1, p, env, f.t);
      RankedRuns(rules[1..], rank, bound, depth, p, env, o.t);
    }
  }
}
